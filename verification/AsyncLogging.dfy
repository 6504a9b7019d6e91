/** muduo's double-buffered logging: producers append lines under a lock, one thread collects full buffers, writes them
    and hands emptied buffers back.

    A slot holding a unique_ptr is an Option: moving out of it leaves None.  The steps of the state machine are the
    critical sections and the unlocked stretches between them, so producers may append between any two of them. */
module AsyncLogging {
  import opened ByteStrings

  const LARGE_BUFFER: nat := 4_000_000
  const MAX_BUFFERS: nat := 25

  // ---------------------------------------------------------------- FixedBuffer

  /** FixedBuffer::append: a buffer never becomes full, and what does not fit is dropped whole. */
  function Appended(buffer: Bytes, data: Bytes, capacity: nat): Bytes {
    if |buffer| <= capacity && capacity - |buffer| > |data| then buffer + data else buffer
  }

  class FixedBuffer {
    const data: array<Byte>
    var cur: nat

    ghost predicate Valid()
      reads this
    {
      cur <= data.Length
    }

    function Contents(): Bytes
      requires Valid()
      reads this, data
    {
      data[..cur]
    }

    constructor (size: nat)
      ensures Valid() && fresh(data) && data.Length == size && Contents() == []
    {
      data := new Byte[size];
      cur := 0;
    }

    function Avail(): (n: nat)
      requires Valid()
      reads this, data
      ensures n + |Contents()| == data.Length
    {
      data.Length - cur
    }

    method Append(buf: Bytes)
      requires Valid()
      modifies this, data
      ensures Valid() && Contents() == Appended(old(Contents()), buf, data.Length)
    {
      if Avail() > |buf| {
        forall i | 0 <= i < |buf| { data[cur + i] := buf[i]; }
        assert data[..cur] == old(data[..cur]);
        assert data[cur..cur + |buf|] == buf;
        cur := cur + |buf|;
        assert data[..cur] == old(Contents()) + buf;
      }
    }

    method Reset()
      requires Valid()
      modifies `cur
      ensures Valid() && Contents() == []
    {
      cur := 0;
    }
  }

  // ---------------------------------------------------------------- state

  /** Where the logging thread is: at the loop head, with collected buffers, writing them. */
  datatype Phase = Head | Collected | Writing

  /** What reaches the log file. */
  datatype Output = Data(bytes: Bytes) | Dropped(buffers: nat)

  /** accepted: every byte the producers' calls were to log; past: the buffers of each finished round; round: all
      buffers collected in this one; written: how many of toWrite have been written. */
  datatype Log = Log(
    current: Bytes,
    next: Option<Bytes>,
    buffers: seq<Bytes>,
    new1: Option<Bytes>,
    new2: Option<Bytes>,
    toWrite: seq<Bytes>,
    phase: Phase,
    written: nat,
    file: seq<Output>,
    accepted: Bytes,
    past: seq<seq<Bytes>>,
    round: seq<Bytes>)

  function Start(): Log { Log([], Some([]), [], Some([]), Some([]), [], Head, 0, [], [], [], []) }

  // ---------------------------------------------------------------- steps

  /** AsyncLogging::append, under the lock */
  function LineAppended(s: Log, line: Bytes): Log {
    var s1 := s.(accepted := s.accepted + line);
    if LARGE_BUFFER - |s.current| > |line| then s1.(current := Appended(s.current, line, LARGE_BUFFER))
    else
      var empty := if s.next.Some? then s.next.value else [];
      s1.(buffers := s.buffers + [s.current], current := Appended(empty, line, LARGE_BUFFER), next := None)
  }

  /** The thread's critical section, after its wait */
  function BuffersCollected(s: Log): Log
    requires s.new1.Some?
  {
    var s1 := s.(toWrite := s.buffers + [s.current], round := s.buffers + [s.current], buffers := [],
                 current := s.new1.value, new1 := None, phase := Collected);
    if s.next.None? then s1.(next := s.new2, new2 := None) else s1
  }

  /** A round of too many buffers keeps the first two. */
  function Trimmed(s: Log): Log {
    var s1 := s.(phase := Writing, written := 0);
    if |s.toWrite| > MAX_BUFFERS
    then s1.(file := s.file + [Dropped(|s.toWrite| - 2)], toWrite := s.toWrite[..2])
    else s1
  }

  function WriteOne(s: Log): Log
    requires s.written < |s.toWrite|
  {
    s.(file := s.file + [Data(s.toWrite[s.written])], written := s.written + 1)
  }

  /** Takes an emptied buffer from the back for a spare that was handed out. */
  function Refill(spare: Option<Bytes>, bs: seq<Bytes>): (Option<Bytes>, seq<Bytes>)
    requires spare.None? ==> bs != []
  {
    if spare.None? then (Some([]), bs[..|bs| - 1]) else (spare, bs)
  }

  /** Two buffers are enough to make spares of; what is left is freed. */
  function Recycled(s: Log): Log
    requires s.new1.None? ==> s.toWrite != []
    requires s.new2.None? ==> |s.toWrite| >= (if s.new1.None? then 2 else 1)
  {
    var bs := if |s.toWrite| > 2 then s.toWrite[..2] else s.toWrite;
    var (new1, bs1) := Refill(s.new1, bs);
    var (new2, bs2) := Refill(s.new2, bs1);
    s.(new1 := new1, new2 := new2, toWrite := [], phase := Head, written := 0, past := s.past + [s.round], round := [])
  }

  datatype Step = DoAppend(line: Bytes) | DoCollect | DoTrim | DoWrite | DoRecycle

  /** The step can be taken; a line is shorter than a buffer. */
  ghost predicate Enabled(s: Log, step: Step) {
    match step
    case DoAppend(line) => |line| < LARGE_BUFFER
    case DoCollect => s.phase == Head
    case DoTrim => s.phase == Collected
    case DoWrite => s.phase == Writing && s.written < |s.toWrite|
    case DoRecycle => s.phase == Writing && s.written == |s.toWrite|
  }

  // ---------------------------------------------------------------- invariant

  /** What a round of collected buffers puts in the file. */
  function RoundOutput(round: seq<Bytes>): seq<Output> {
    if |round| > 25 then [Dropped(|round| - 2)] + Datas(round[..2]) else Datas(round)
  }

  function Datas(bs: seq<Bytes>): seq<Output> { seq(|bs|, i requires 0 <= i < |bs| => Data(bs[i])) }

  function Outputs(rounds: seq<seq<Bytes>>): seq<Output> {
    if rounds == [] then [] else Outputs(rounds[..|rounds| - 1]) + RoundOutput(rounds[|rounds| - 1])
  }

  function Flat(rounds: seq<seq<Bytes>>): Bytes {
    if rounds == [] then [] else Flat(rounds[..|rounds| - 1]) + Concat(rounds[|rounds| - 1])
  }

  /** What is left to write of a round. */
  function Kept(round: seq<Bytes>): seq<Bytes> { if |round| > MAX_BUFFERS then round[..2] else round }

  /** Every accepted byte has been in a collected buffer, is in a queued one, or in the current one, in this order. */
  ghost predicate Conserved(s: Log) {
    s.accepted == Flat(s.past) + Concat(s.round) + Concat(s.buffers) + s.current
  }

  /** What this round has put in the file. */
  ghost function Sofar(s: Log): seq<Output>
    requires s.written <= |s.toWrite|
  {
    (if |s.round| > MAX_BUFFERS then [Dropped(|s.round| - 2)] else []) + Datas(s.toWrite[..s.written])
  }

  /** The file holds what the finished rounds give, and what this one has written. */
  ghost predicate Filed(s: Log) {
    match s.phase
    case Head => s.round == [] && s.toWrite == [] && s.file == Outputs(s.past)
    case Collected => s.toWrite == s.round && s.file == Outputs(s.past)
    case Writing => s.toWrite == Kept(s.round) && s.written <= |s.toWrite| && s.file == Outputs(s.past) + Sofar(s)
  }

  /** The spare buffers: empty whenever present; both at hand at the loop head; and enough collected ones to make new
      spares of otherwise. */
  ghost predicate Spared(s: Log) {
    && |s.current| < LARGE_BUFFER
    && (s.next.Some? ==> s.next.value == []) && (s.next.None? ==> s.buffers != [])
    && (s.new1.Some? ==> s.new1.value == []) && (s.new2.Some? ==> s.new2.value == [])
    && (s.phase == Head ==> s.new1.Some? && s.new2.Some?)
    && (s.phase != Head ==> s.new1.None? && s.toWrite != [] && (s.new2.None? ==> |s.toWrite| >= 2))
  }

  ghost predicate Inv(s: Log) { Conserved(s) && Filed(s) && Spared(s) }

  type State = s: Log | Inv(s) ghost witness Start()

  function Take(s: State, step: Step): Log
    requires Enabled(s, step)
  {
    match step
    case DoAppend(line) => LineAppended(s, line)
    case DoCollect => BuffersCollected(s)
    case DoTrim => Trimmed(s)
    case DoWrite => WriteOne(s)
    case DoRecycle => Recycled(s)
  }

  lemma AppendConserves(s: Log, line: Bytes)
    requires Conserved(s) && |line| < LARGE_BUFFER && Spared(s)
    ensures Conserved(LineAppended(s, line))
  {
    var done, queued := Flat(s.past) + Concat(s.round), Concat(s.buffers);
    if LARGE_BUFFER - |s.current| > |line| {
      assert done + queued + s.current + line == done + queued + (s.current + line);
    } else {
      ConcatSnoc(s.buffers, s.current);
      assert done + queued + s.current + line == done + (queued + s.current) + line;
    }
  }

  lemma AppendKeeps(s: Log, line: Bytes)
    requires Inv(s) && |line| < LARGE_BUFFER
    ensures Inv(LineAppended(s, line))
  {
    AppendConserves(s, line);
  }

  lemma CollectKeeps(s: Log)
    requires Inv(s) && s.phase == Head
    ensures Inv(BuffersCollected(s))
  {
    CollectConserves(s);
  }

  lemma CollectConserves(s: Log)
    requires Conserved(s) && s.round == [] && s.new1 == Some([])
    ensures Conserved(BuffersCollected(s))
  {
    ConcatSnoc(s.buffers, s.current);
    assert Flat(s.past) + [] + Concat(s.buffers) + s.current ==
      Flat(s.past) + (Concat(s.buffers) + s.current) + [] + [];
  }

  lemma TrimKeeps(s: Log)
    requires Inv(s) && s.phase == Collected
    ensures Inv(Trimmed(s))
  {
  }

  lemma DatasNext(bs: seq<Bytes>, i: nat)
    requires i < |bs|
    ensures Datas(bs[..i + 1]) == Datas(bs[..i]) + [Data(bs[i])]
  {
  }

  lemma WriteFiles(s: Log)
    requires Filed(s) && s.phase == Writing && s.written < |s.toWrite|
    ensures Filed(WriteOne(s))
  {
    var notice := if |s.round| > MAX_BUFFERS then [Dropped(|s.round| - 2)] else [];
    DatasNext(s.toWrite, s.written);
    Regroup(notice, Datas(s.toWrite[..s.written]), [Data(s.toWrite[s.written])]);
    Regroup(Outputs(s.past), Sofar(s), [Data(s.toWrite[s.written])]);
  }

  lemma WriteKeeps(s: Log)
    requires Inv(s) && s.phase == Writing && s.written < |s.toWrite|
    ensures Inv(WriteOne(s))
  {
    WriteFiles(s);
  }

  /** So does writing the first i buffers of a round. */
  lemma {:induction false} WritesKeep(s: Log, i: nat)
    requires Inv(s) && s.phase == Writing && s.written == 0 && i <= |s.toWrite|
    ensures Inv(s.(file := s.file + Datas(s.toWrite[..i]), written := i))
  {
    if i == 0 {
      assert s.file + Datas(s.toWrite[..0]) == s.file;
    } else {
      WritesKeep(s, i - 1);
      WriteKeeps(s.(file := s.file + Datas(s.toWrite[..i - 1]), written := i - 1));
      DatasNext(s.toWrite, i - 1);
      Regroup(s.file, Datas(s.toWrite[..i - 1]), [Data(s.toWrite[i - 1])]);
    }
  }

  lemma RecycleKeeps(s: Log)
    requires Inv(s) && s.phase == Writing && s.written == |s.toWrite|
    ensures Inv(Recycled(s))
  {
    var s' := Recycled(s);
    assert s'.past[..|s'.past| - 1] == s.past;
    assert s.toWrite[..s.written] == s.toWrite;
    assert Flat(s'.past) == Flat(s.past) + Concat(s.round);
    assert s'.file == Outputs(s'.past);
  }

  lemma StepKeeps(s: Log, step: Step)
    requires Inv(s) && Enabled(s, step)
    ensures Inv(Take(s, step))
  {
    match step
    case DoAppend(line) => AppendKeeps(s, line);
    case DoCollect => CollectKeeps(s);
    case DoTrim => TrimKeeps(s);
    case DoWrite => WriteKeeps(s);
    case DoRecycle => RecycleKeeps(s);
  }

  // ---------------------------------------------------------------- whole runs

  ghost function After(s: State, step: Step): (r: State)
    requires Enabled(s, step)
    ensures r == Take(s, step)
  {
    StepKeeps(s, step);
    Take(s, step)
  }

  ghost predicate LegalRun(s: State, steps: seq<Step>)
    decreases |steps|
  {
    steps == [] || (Enabled(s, steps[0]) && LegalRun(After(s, steps[0]), steps[1..]))
  }

  ghost function Run(s: State, steps: seq<Step>): State
    requires LegalRun(s, steps)
    decreases |steps|
  {
    if steps == [] then s else Run(After(s, steps[0]), steps[1..])
  }

  function Line(step: Step): Bytes { if step.DoAppend? then step.line else [] }

  ghost function Lines(steps: seq<Step>): Bytes {
    if steps == [] then [] else Line(steps[0]) + Lines(steps[1..])
  }

  lemma {:induction false} RunAccepts(s: State, steps: seq<Step>)
    requires LegalRun(s, steps)
    ensures Run(s, steps).accepted == s.accepted + Lines(steps)
    decreases |steps|
  {
    if steps != [] {
      RunAccepts(After(s, steps[0]), steps[1..]);
      StepAccepts(s, steps[0]);
      Regroup(s.accepted, Line(steps[0]), Lines(steps[1..]));
    }
  }

  lemma StepAccepts(s: State, step: Step)
    requires Enabled(s, step)
    ensures After(s, step).accepted == s.accepted + Line(step)
  {
    if step.DoAppend? { AppendAccepts(s, step.line); } else { OthersAccept(s, step); }
  }

  lemma AppendAccepts(s: Log, line: Bytes)
    ensures LineAppended(s, line).accepted == s.accepted + line
  {
  }

  lemma OthersAccept(s: State, step: Step)
    requires Enabled(s, step) && !step.DoAppend?
    ensures Take(s, step).accepted == s.accepted == s.accepted + []
  {
  }

  ghost function Begin(): (s: State)
    ensures s == Start()
  {
    Start()
  }

  function DataBytes(file: seq<Output>): seq<Bytes> {
    seq(|file|, i requires 0 <= i < |file| => if file[i].Data? then file[i].bytes else [])
  }

  /** The log bytes in the file. */
  function Written(file: seq<Output>): Bytes { Concat(DataBytes(file)) }

  /** In every run the lines appended are, in order: what the file's rounds were collected from, what this round was
      collected from, the queued buffers and the current one; and the file holds of each finished round exactly its
      buffers, or the first two of more than twenty-five. */
  lemma EveryRun(steps: seq<Step>)
    requires LegalRun(Begin(), steps)
    ensures var s := Run(Begin(), steps);
      && Lines(steps) == Flat(s.past) + Concat(s.round) + Concat(s.buffers) + s.current
      && (s.phase == Head ==> s.file == Outputs(s.past) && s.new1 == Some([]) && s.new2 == Some([]) && s.toWrite == [])
      && (s.phase == Collected ==> s.toWrite != [])
  {
    RunAccepts(Begin(), steps);
    assert [] + Lines(steps) == Lines(steps);
  }

  /** No round so far had too many buffers. */
  ghost predicate NoneDropped(s: Log) {
    (forall r :: r in s.past ==> |r| <= MAX_BUFFERS) && |s.round| <= MAX_BUFFERS
  }

  lemma WrittenDatas(file: seq<Output>, bs: seq<Bytes>)
    ensures Written(file + Datas(bs)) == Written(file) + Concat(bs)
  {
    assert DataBytes(file + Datas(bs)) == DataBytes(file) + bs;
    ConcatSplit(DataBytes(file), bs);
  }

  lemma RoundWritten(rounds: seq<seq<Bytes>>, round: seq<Bytes>)
    requires |round| <= MAX_BUFFERS
    ensures Written(Outputs(rounds + [round])) == Written(Outputs(rounds)) + Concat(round)
    ensures Flat(rounds + [round]) == Flat(rounds) + Concat(round)
  {
    assert (rounds + [round])[..|rounds|] == rounds;
    WrittenDatas(Outputs(rounds), round);
  }

  lemma {:induction false} WrittenRounds(rounds: seq<seq<Bytes>>)
    requires forall r :: r in rounds ==> |r| <= MAX_BUFFERS
    ensures Written(Outputs(rounds)) == Flat(rounds)
    decreases |rounds|
  {
    if rounds != [] {
      var n := |rounds| - 1;
      assert rounds == rounds[..n] + [rounds[n]];
      assert rounds[n] in rounds;
      WrittenRounds(rounds[..n]);
      RoundWritten(rounds[..n], rounds[n]);
    }
  }

  /** Without an overrun nothing is lost: the file, what is being written, the queued and the current buffer make up all
      accepted bytes. */
  lemma NothingLost(s: Log)
    requires Inv(s) && NoneDropped(s)
    ensures var pending := if s.phase == Writing then s.toWrite[s.written..] else s.toWrite;
      s.accepted == Written(s.file) + Concat(pending) + Concat(s.buffers) + s.current
  {
    WrittenRounds(s.past);
    if s.phase == Writing { WrittenPart(s); }
  }

  lemma WrittenPart(s: Log)
    requires Filed(s) && s.phase == Writing && |s.round| <= MAX_BUFFERS
    ensures Written(s.file) + Concat(s.toWrite[s.written..]) == Written(Outputs(s.past)) + Concat(s.round)
  {
    var done, left := s.toWrite[..s.written], s.toWrite[s.written..];
    assert s.toWrite == done + left;
    assert s.file == Outputs(s.past) + Datas(done);
    DoneAndLeft(Outputs(s.past), done, left);
  }

  lemma DoneAndLeft(file: seq<Output>, done: seq<Bytes>, left: seq<Bytes>)
    ensures Written(file + Datas(done)) + Concat(left) == Written(file) + Concat(done + left)
  {
    WrittenDatas(file, done);
    ConcatSplit(done, left);
  }

  /** A line is logged exactly when it is shorter than a buffer. */
  lemma LoggedIffShort(s: Log, line: Bytes)
    requires Inv(s)
    ensures Conserved(LineAppended(s, line)) <==> |line| < 4_000_000
  {
    if |line| < LARGE_BUFFER {
      AppendKeeps(s, line);
    } else {
      ConcatSnoc(s.buffers, s.current);
      assert |LineAppended(s, line).accepted| == |s.accepted| + |line|;
    }
  }

  /** A line goes to the current buffer exactly if it leaves a byte of it free; otherwise the current buffer is queued
      and the line begins an empty one. */
  lemma QueuedIffFull(s: State, line: Bytes)
    requires Enabled(s, DoAppend(line))
    ensures var r := Take(s, DoAppend(line));
      if |s.current| + |line| < 4_000_000
      then r.buffers == s.buffers && r.current == s.current + line && r.next == s.next
      else r.buffers == s.buffers + [s.current] && r.current == line && r.next == None
  {
    assert [] + line == line;
  }

  /** The thread takes everything there is, and leaves two empty buffers. */
  lemma CollectsAll(s: State)
    requires Enabled(s, DoCollect)
    ensures var r := Take(s, DoCollect);
      r.toWrite == s.buffers + [s.current] && r.buffers == [] && r.current == [] && r.next == Some([])
  {
  }

  /** The longest line that is kept, and one byte more. */
  lemma LongLineLost(s: Log)
    requires Inv(s)
    ensures !Conserved(LineAppended(s, seq(LARGE_BUFFER, _ => 'x')))
  {
    LoggedIffShort(s, seq(LARGE_BUFFER, _ => 'x'));
  }

  // ---------------------------------------------------------------- the object

  class Logger {
    var current: Bytes
    var next: Option<Bytes>
    var buffers: seq<Bytes>
    var new1: Option<Bytes>
    var new2: Option<Bytes>
    var toWrite: seq<Bytes>
    var file: seq<Output>
    ghost var phase: Phase
    ghost var written: nat
    ghost var accepted: Bytes
    ghost var past: seq<seq<Bytes>>
    ghost var round: seq<Bytes>

    ghost function View(): Log
      reads this
    {
      Log(current, next, buffers, new1, new2, toWrite, phase, written, file, accepted, past, round)
    }

    constructor ()
      ensures View() == Start()
    {
      current, next, buffers, new1, new2 := [], Some([]), [], Some([]), Some([]);
      toWrite, file, phase, written := [], [], Head, 0;
      accepted, past, round := [], [], [];
    }

    method Append(line: Bytes)
      modifies `current, `next, `buffers, `accepted
      ensures View() == LineAppended(old(View()), line)
    {
      accepted := accepted + line;
      if LARGE_BUFFER - |current| > |line| {
        current := Appended(current, line, LARGE_BUFFER);
      } else {
        buffers := buffers + [current];
        if next.Some? {
          current, next := next.value, None;
        } else {
          current := [];
        }
        current := Appended(current, line, LARGE_BUFFER);
      }
    }

    method Collect()
      requires Inv(View()) && phase == Head
      modifies `current, `next, `buffers, `new1, `new2, `toWrite, `phase, `round
      ensures View() == BuffersCollected(old(View())) && toWrite != []
    {
      buffers := buffers + [current];
      current, new1 := new1.value, None;
      toWrite, buffers := buffers, [];
      if next.None? { next, new2 := new2, None; }
      round, phase := toWrite, Collected;
    }

    method Trim()
      requires phase == Collected
      modifies `toWrite, `file, `phase, `written
      ensures View() == Trimmed(old(View()))
    {
      phase, written := Writing, 0;
      if |toWrite| > MAX_BUFFERS {
        file := file + [Dropped(|toWrite| - 2)];
        toWrite := toWrite[..2];
      }
    }

    method WriteBuffers()
      requires Inv(View()) && phase == Writing && written == 0
      modifies `file, `written
      ensures Inv(View()) && View() == old(View()).(file := old(file) + Datas(toWrite), written := |toWrite|)
    {
      WritesKeep(View(), |toWrite|);
      for i := 0 to |toWrite|
        invariant View() == old(View()).(file := old(file) + Datas(toWrite[..i]), written := i)
      {
        DatasNext(toWrite, i);
        Regroup(old(file), Datas(toWrite[..i]), [Data(toWrite[i])]);
        file := file + [Data(toWrite[i])];
        written := written + 1;
      }
      assert toWrite[..|toWrite|] == toWrite;
    }

    /** The source's asserts hold: whenever a spare is missing there is a buffer to make it of. */
    method Recycle()
      requires Inv(View()) && phase == Writing && written == |toWrite|
      modifies `new1, `new2, `toWrite, `phase, `written, `past, `round
      ensures View() == Recycled(old(View())) && Inv(View())
      ensures new1 == Some([]) && new2 == Some([]) && toWrite == []
    {
      RecycleKeeps(View());
      if |toWrite| > 2 { toWrite := toWrite[..2]; }
      if new1.None? {
        assert toWrite != [];
        new1, toWrite := Some([]), toWrite[..|toWrite| - 1];
      }
      if new2.None? {
        assert toWrite != [];
        new2, toWrite := Some([]), toWrite[..|toWrite| - 1];
      }
      assert new1 == Some([]) && new2 == Some([]);
      toWrite := [];
      past, round, phase, written := past + [round], [], Head, 0;
    }
  }
}
