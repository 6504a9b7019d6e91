/** muduo's TimerQueue: two ordered sets over the same timers, callbacks that add and
    cancel timers while a batch of expired timers is being run, and manual deletion.

    Timers live in a heap keyed by address; addresses are reused, sequence numbers are
    not.  std::set is a strictly sorted sequence of entries. */
module TimerQueue {

  /** repeat: the interval is positive; period: the interval in microseconds. */
  datatype Timer = Timer(expiration: int, period: nat, repeat: bool, sequence: nat)

  datatype Entry = Entry(when: int, addr: nat)

  datatype TimerId = TimerId(addr: nat, sequence: nat)

  /** A one-shot timerfd: pending means it has expired and not been read. */
  datatype Timerfd = Timerfd(armed: bool, deadline: int, armedAt: int, pending: bool)

  /** batch: the expired timers whose callbacks are being run; runs, deleted: sequence numbers of the timers
      whose callback was called, and that were deleted, in order. */
  datatype Queue = Queue(
    heap: map<nat, Timer>,
    timers: seq<Entry>,
    active: set<TimerId>,
    canceling: set<TimerId>,
    calling: bool,
    created: nat,
    batch: seq<Entry>,
    runs: seq<nat>,
    deleted: seq<nat>,
    clock: int,
    fd: Timerfd)

  // ---------------------------------------------------------------- std::set<Entry>

  predicate Before(a: Entry, b: Entry) { a.when < b.when || (a.when == b.when && a.addr < b.addr) }

  ghost predicate Sorted(es: seq<Entry>) {
    forall i, j :: 0 <= i < j < |es| ==> Before(es[i], es[j])
  }

  function InsertEntry(es: seq<Entry>, e: Entry): seq<Entry> {
    if es == [] || Before(e, es[0]) then [e] + es
    else if es[0] == e then es
    else [es[0]] + InsertEntry(es[1..], e)
  }

  function EraseEntry(es: seq<Entry>, e: Entry): seq<Entry> {
    if es == [] then [] else if es[0] == e then es[1..] else [es[0]] + EraseEntry(es[1..], e)
  }

  /** How many entries lie before lower_bound of (now, the greatest address). */
  function ExpiredCount(es: seq<Entry>, now: int): (k: nat)
    ensures k <= |es|
  {
    if es == [] || now < es[0].when then 0 else 1 + ExpiredCount(es[1..], now)
  }

  lemma {:induction false} InsertSorted(es: seq<Entry>, e: Entry)
    requires Sorted(es) && e !in es
    ensures Sorted(InsertEntry(es, e)) && |InsertEntry(es, e)| == |es| + 1
    ensures forall x :: x in InsertEntry(es, e) <==> x in es || x == e
  {
    if es != [] && !Before(e, es[0]) {
      assert es[0] in es && forall x :: x in es[1..] ==> x in es;
      InsertSorted(es[1..], e);
      var r := InsertEntry(es[1..], e);
      forall i | 0 <= i < |r| ensures Before(es[0], r[i]) {
        assert r[i] in r;
        if r[i] != e { var k :| 0 <= k < |es[1..]| && es[1..][k] == r[i]; assert es[k + 1] == r[i]; }
      }
      assert forall x :: x in [es[0]] + r <==> x == es[0] || x in r;
      assert forall x :: x in es <==> x == es[0] || x in es[1..];
    } else {
      forall i | 0 <= i < |es| ensures Before(e, es[i]) { }
      assert forall x :: x in [e] + es <==> x == e || x in es;
    }
  }

  lemma {:induction false} EraseSorted(es: seq<Entry>, e: Entry)
    requires Sorted(es) && e in es
    ensures Sorted(EraseEntry(es, e)) && |EraseEntry(es, e)| == |es| - 1
    ensures forall x :: x in EraseEntry(es, e) <==> x in es && x != e
  {
    assert forall x :: x in es <==> x == es[0] || x in es[1..];
    if es[0] == e {
      assert forall x :: x in es[1..] ==> x != e;
    } else {
      EraseSorted(es[1..], e);
      var r := EraseEntry(es[1..], e);
      forall i | 0 <= i < |r| ensures Before(es[0], r[i]) {
        assert r[i] in r;
        var k :| 0 <= k < |es[1..]| && es[1..][k] == r[i];
        assert es[k + 1] == r[i];
      }
      assert forall x :: x in [es[0]] + r <==> x == es[0] || x in r;
    }
  }

  lemma {:induction false} ExpiredSplit(es: seq<Entry>, now: int)
    requires Sorted(es)
    ensures forall i :: 0 <= i < |es| ==> (i < ExpiredCount(es, now) <==> es[i].when <= now)
  {
    if es != [] && es[0].when <= now {
      ExpiredSplit(es[1..], now);
      forall i | 0 <= i < |es| ensures i < ExpiredCount(es, now) <==> es[i].when <= now {
        if i > 0 { assert es[1..][i - 1] == es[i]; }
      }
    }
  }

  // ---------------------------------------------------------------- operations

  /** resetTimerfd: not sooner than 100 microseconds from now. */
  function Arm(q: Queue, expiration: int): Queue {
    q.(fd := Timerfd(true, if expiration - q.clock < 100 then q.clock + 100 else expiration, q.clock, false))
  }

  /** TimerQueue::insert, with earliestChanged */
  function Inserted(q: Queue, addr: nat): (Queue, bool)
    requires addr in q.heap
  {
    var when := q.heap[addr].expiration;
    var earliestChanged := q.timers == [] || when < q.timers[0].when;
    (q.(timers := InsertEntry(q.timers, Entry(when, addr)),
      active := q.active + {TimerId(addr, q.heap[addr].sequence)}), earliestChanged)
  }

  /** addTimer in the loop thread: a new timer at an address that is not in use. */
  function AddTimer(q: Queue, addr: nat, when: int, period: nat, repeat: bool): Queue {
    var q1 := q.(heap := q.heap[addr := Timer(when, period, repeat, q.created + 1)], created := q.created + 1);
    var (q2, earliestChanged) := Inserted(q1, addr);
    if earliestChanged then Arm(q2, when) else q2
  }

  /** delete */
  function Delete(q: Queue, addr: nat): Queue
    requires addr in q.heap
  {
    q.(heap := q.heap - {addr}, deleted := q.deleted + [q.heap[addr].sequence])
  }

  /** cancelInLoop */
  function CancelTimer(q: Queue, id: TimerId): Queue {
    if id in q.active && id.addr in q.heap then
      Delete(q.(timers := EraseEntry(q.timers, Entry(q.heap[id.addr].expiration, id.addr)), active := q.active - {id}),
        id.addr)
    else if q.calling then q.(canceling := q.canceling + {id})
    else q
  }

  /** What a timer callback does to the queue. */
  datatype Command =
    | Add(addr: nat, when: int, period: nat, repeat: bool)
    | Cancel(id: TimerId)
    | Pass(dt: nat)

  function Do(q: Queue, c: Command): Queue {
    match c
    case Add(addr, when, period, repeat) => AddTimer(q, addr, when, period, repeat)
    case Cancel(id) => CancelTimer(q, id)
    case Pass(dt) => Elapse(q, dt)
  }

  /** Time goes by; an armed timerfd that has reached its deadline expires. */
  function Elapse(q: Queue, dt: nat): Queue {
    var q1 := q.(clock := q.clock + dt);
    if q1.fd.armed && q1.fd.deadline <= q1.clock then q1.(fd := q1.fd.(armed := false, pending := true)) else q1
  }

  function DoAll(q: Queue, cs: seq<Command>): Queue
    decreases |cs|
  {
    if cs == [] then q else DoAll(Do(q, cs[0]), cs[1..])
  }

  ghost function IdsOf(q: Queue, es: seq<Entry>): set<TimerId> {
    set e | e in es && e.addr in q.heap :: TimerId(e.addr, q.heap[e.addr].sequence)
  }

  /** getExpired, and the start of the callback loop */
  ghost function Expire(q: Queue, now: int): Queue {
    var k := ExpiredCount(q.timers, now);
    q.(timers := q.timers[k..], batch := q.timers[..k], active := q.active - IdsOf(q, q.timers[..k]),
       calling := true, canceling := {}, fd := q.fd.(pending := false))
  }

  /** The callback loop: each timer of the batch runs and does what its script says. */
  ghost function RunBatch(q: Queue, es: seq<Entry>, scripts: seq<seq<Command>>): Queue
    decreases |es|
  {
    if es == [] || scripts == [] || es[0].addr !in q.heap then q
    else RunBatch(DoAll(q.(runs := q.runs + [q.heap[es[0].addr].sequence]), scripts[0]), es[1..], scripts[1..])
  }

  /** One round of reset's loop */
  function ResetOne(q: Queue, addr: nat, now: int): Queue
    requires addr in q.heap
  {
    var t := q.heap[addr];
    if t.repeat && TimerId(addr, t.sequence) !in q.canceling then
      Inserted(q.(heap := q.heap[addr := t.(expiration := now + t.period)]), addr).0
    else Delete(q, addr)
  }

  ghost function ResetAll(q: Queue, now: int): Queue
    decreases |q.batch|
  {
    if q.batch == [] || q.batch[0].addr !in q.heap then q
    else
      var q1 := ResetOne(q.(batch := q.batch[1..]), q.batch[0].addr, now);
      ResetAll(q1, now)
  }

  /** The end of reset: arm for the earliest timer. */
  function Rearm(q: Queue): Queue {
    if q.timers != [] && q.timers[0].when > 0 then Arm(q, q.timers[0].when) else q
  }

  /** handleRead */
  ghost function Handled(q: Queue, now: int, scripts: seq<seq<Command>>): Queue {
    Rearm(ResetAll(RunBatch(Expire(q, now), Expire(q, now).batch, scripts).(calling := false), now))
  }

  // ---------------------------------------------------------------- invariant

  /** The timer at addr is in es under its current expiration. */
  ghost predicate Filed(q: Queue, es: seq<Entry>, addr: nat)
    requires addr in q.heap
  {
    Entry(q.heap[addr].expiration, addr) in es
  }

  /** The id is that of the timer now living at its address. */
  ghost predicate Names(q: Queue, id: TimerId) { id.addr in q.heap && q.heap[id.addr].sequence == id.sequence }

  /** Every live timer is in the queue or in the batch, exactly once, under its current expiration; activeTimers_
      holds the address and sequence number of exactly the queued ones. */
  ghost predicate Consistent(q: Queue) {
    && Sorted(q.timers)
    && (forall e :: e in q.timers ==> e.addr in q.heap && q.heap[e.addr].expiration == e.when)
    && (forall e :: e in q.batch ==> e.addr in q.heap && q.heap[e.addr].expiration == e.when && e !in q.timers)
    && (forall i, j :: 0 <= i < j < |q.batch| ==> q.batch[i] != q.batch[j])
    && (forall a :: a in q.heap ==> Filed(q, q.timers, a) || Filed(q, q.batch, a))
    && (forall id :: id in q.active <==> Names(q, id) && Filed(q, q.timers, id.addr))
  }

  ghost predicate Live(q: Queue, n: nat) { exists a :: a in q.heap && q.heap[a].sequence == n }

  /** Sequence numbers are handed out once; every timer ever created is alive or has been deleted, once. */
  ghost predicate Numbered(q: Queue) {
    && (forall a :: a in q.heap ==> 1 <= q.heap[a].sequence <= q.created && q.heap[a].expiration > 0)
    && (forall a, b :: a in q.heap && b in q.heap && q.heap[a].sequence == q.heap[b].sequence ==> a == b)
    && (forall n :: n in q.deleted ==> 1 <= n <= q.created && !Live(q, n))
    && (forall i, j :: 0 <= i < j < |q.deleted| ==> q.deleted[i] != q.deleted[j])
    && (forall n: nat {:trigger Live(q, n)} :: 1 <= n <= q.created ==> n in q.deleted || Live(q, n))
  }

  ghost predicate Inv(q: Queue) { Consistent(q) && Numbered(q) }

  ghost function Fresh(clock: int): Queue {
    Queue(map[], [], {}, {}, false, 0, [], [], [], clock, Timerfd(false, clock, clock, false))
  }

  type Sound = q: Queue | Inv(q) ghost witness Fresh(0)

  /** Outside a batch. */
  ghost predicate Idle(q: Queue) { Inv(q) && q.batch == [] && !q.calling }

  /** The address of a new timer is not in use, and its time lies after the epoch. */
  ghost predicate Legal(q: Queue, c: Command) { c.Add? ==> c.addr !in q.heap && c.when > 0 }

  ghost predicate LegalAll(q: Queue, cs: seq<Command>)
    decreases |cs|
  {
    cs == [] || (Legal(q, cs[0]) && LegalAll(Do(q, cs[0]), cs[1..]))
  }

  // ---------------------------------------------------------------- single operations

  lemma AddConsistent(q: Queue, addr: nat, when: int, period: nat, repeat: bool)
    requires Consistent(q) && addr !in q.heap
    ensures Consistent(AddTimer(q, addr, when, period, repeat))
  {
    var e := Entry(when, addr);
    assert e !in q.timers && e !in q.batch;
    InsertSorted(q.timers, e);
    var q' := AddTimer(q, addr, when, period, repeat);
    forall a | a in q'.heap ensures Filed(q', q'.timers, a) || Filed(q', q'.batch, a) {
      if a != addr { assert Filed(q, q.timers, a) || Filed(q, q.batch, a); }
    }
  }

  lemma AddNumbered(q: Queue, addr: nat, when: int, period: nat, repeat: bool)
    requires Numbered(q) && addr !in q.heap && when > 0
    ensures Numbered(AddTimer(q, addr, when, period, repeat))
  {
    var q' := AddTimer(q, addr, when, period, repeat);
    forall n: nat
      ensures Live(q', n) <==> Live(q, n) || n == q.created + 1
    {
      AddLive(q, addr, when, period, repeat, n);
    }
    OneMoreNumbered(q, q', addr);
  }

  /** A new timer gets the next sequence number. */
  lemma OneMoreNumbered(q: Queue, q': Queue, addr: nat)
    requires Numbered(q) && addr !in q.heap && addr in q'.heap && q'.heap == q.heap[addr := q'.heap[addr]]
    requires q'.created == q.created + 1 == q'.heap[addr].sequence && q'.heap[addr].expiration > 0
    requires q'.deleted == q.deleted
    requires forall n: nat {:trigger Live(q', n)} :: Live(q', n) <==> Live(q, n) || n == q.created + 1
    ensures Numbered(q')
  {
  }

  lemma AddLive(q: Queue, addr: nat, when: int, period: nat, repeat: bool, n: nat)
    requires addr !in q.heap
    ensures Live(AddTimer(q, addr, when, period, repeat), n) <==> Live(q, n) || n == q.created + 1
  {
    var q' := AddTimer(q, addr, when, period, repeat);
    assert q'.heap[addr].sequence == q.created + 1;
    if Live(q, n) {
      var a :| a in q.heap && q.heap[a].sequence == n;
      assert q'.heap[a].sequence == n;
    }
  }

  /** Deleting a timer that is filed nowhere any more. */
  lemma DeleteNumbered(q: Queue, addr: nat)
    requires Numbered(q) && addr in q.heap
    ensures Numbered(Delete(q, addr))
  {
    var q', s := Delete(q, addr), q.heap[addr].sequence;
    assert Live(q, s);
    forall n: nat | 1 <= n <= q'.created ensures n in q'.deleted || Live(q', n) {
      if n !in q.deleted && n != s {
        assert Live(q, n);
        var a :| a in q.heap && q.heap[a].sequence == n;
        assert a in q'.heap;
      } else if n == s {
        assert q'.deleted[|q.deleted|] == s;
      }
    }
    forall n | n in q'.deleted ensures 1 <= n <= q'.created && !Live(q', n) {
      assert n in q.deleted || n == s;
      assert n in q.deleted ==> !Live(q, n);
    }
  }

  lemma CancelConsistent(q: Queue, id: TimerId)
    requires Consistent(q)
    ensures Consistent(CancelTimer(q, id))
  {
    if id in q.active {
      var e := Entry(q.heap[id.addr].expiration, id.addr);
      EraseSorted(q.timers, e);
      var q' := CancelTimer(q, id);
      forall a | a in q'.heap ensures Filed(q', q'.timers, a) || Filed(q', q'.batch, a) {
        assert Filed(q, q.timers, a) || Filed(q, q.batch, a);
      }
    }
  }

  lemma CancelNumbered(q: Queue, id: TimerId)
    requires Numbered(q)
    ensures Numbered(CancelTimer(q, id))
  {
    if id in q.active && id.addr in q.heap {
      var q1 := q.(timers := EraseEntry(q.timers, Entry(q.heap[id.addr].expiration, id.addr)),
        active := q.active - {id});
      SameHeap(q, q1);
      DeleteNumbered(q1, id.addr);
    } else {
      SameHeap(q, CancelTimer(q, id));
    }
  }

  lemma SameHeap(q: Queue, q': Queue)
    requires Numbered(q) && q'.heap == q.heap && q'.deleted == q.deleted && q'.created == q.created
    ensures Numbered(q')
  {
    forall n: nat ensures Live(q', n) <==> Live(q, n) { }
  }

  /** Flags, logs, the clock and the timerfd do not matter. */
  lemma SameQueue(q: Sound, q': Queue)
    requires q' == q.(calling := q'.calling, canceling := q'.canceling, runs := q'.runs, clock := q'.clock, fd := q'.fd)
    ensures Inv(q')
  {
    SameHeap(q, q');
    forall a | a in q'.heap ensures Filed(q', q'.timers, a) || Filed(q', q'.batch, a) {
      assert Filed(q, q.timers, a) || Filed(q, q.batch, a);
    }
    forall id ensures id in q'.active <==> Names(q', id) && Filed(q', q'.timers, id.addr) {
      assert id in q.active <==> Names(q, id) && Filed(q, q.timers, id.addr);
    }
  }

  lemma DoKeeps(q: Sound, c: Command)
    requires Legal(q, c)
    ensures Inv(Do(q, c)) && Do(q, c).batch == q.batch && Do(q, c).calling == q.calling
  {
    match c
    case Add(addr, when, period, repeat) =>
      AddConsistent(q, addr, when, period, repeat);
      AddNumbered(q, addr, when, period, repeat);
    case Cancel(id) =>
      CancelConsistent(q, id);
      CancelNumbered(q, id);
    case Pass(dt) =>
      SameQueue(q, Elapse(q, dt));
  }

  lemma {:induction false} DoAllKeeps(q: Sound, cs: seq<Command>)
    requires LegalAll(q, cs)
    ensures Inv(DoAll(q, cs)) && DoAll(q, cs).batch == q.batch && DoAll(q, cs).calling == q.calling
    decreases |cs|
  {
    if cs != [] {
      DoKeeps(q, cs[0]);
      DoAllKeeps(Do(q, cs[0]), cs[1..]);
    }
  }

  // ---------------------------------------------------------------- handleRead

  lemma ExpireKeeps(q: Queue, now: int)
    requires Idle(q)
    ensures Inv(Expire(q, now)) && Expire(q, now).calling
    ensures forall e :: e in Expire(q, now).batch <==> e in q.timers && e.when <= now
    ensures forall e :: e in Expire(q, now).timers <==> e in q.timers && now < e.when
  {
    ExpiredSplit(q.timers, now);
    var k := ExpiredCount(q.timers, now);
    SplitConsistent(q, k);
    SplitMembers(q.timers, k);
    SameQueue(SplitAt(q, k), Expire(q, now));
    forall e | e in q.timers ensures e in q.timers[..k] <==> e.when <= now {
      var i :| 0 <= i < |q.timers| && q.timers[i] == e;
      assert i < k ==> q.timers[..k][i] == e;
      assert i >= k ==> q.timers[k..][i - k] == e;
    }
  }

  /** The first k timers leave the queue for the batch. */
  ghost function SplitAt(q: Queue, k: nat): Queue
    requires k <= |q.timers|
  {
    q.(timers := q.timers[k..], batch := q.timers[..k], active := q.active - IdsOf(q, q.timers[..k]))
  }

  lemma SplitMembers(es: seq<Entry>, k: nat)
    requires Sorted(es) && k <= |es|
    ensures Sorted(es[k..])
    ensures forall e :: e in es[..k] ==> e in es && e !in es[k..]
    ensures forall e :: e in es[k..] ==> e in es && e !in es[..k]
    ensures forall e :: e in es ==> e in es[..k] || e in es[k..]
    ensures forall i, j :: 0 <= i < j < k ==> es[..k][i] != es[..k][j]
  {
    assert es == es[..k] + es[k..];
    forall i, j | 0 <= i < k && 0 <= j < |es| - k ensures es[..k][i] != es[k..][j] {
      assert Before(es[i], es[k + j]);
    }
  }

  lemma SplitConsistent(q: Queue, k: nat)
    requires Inv(q) && q.batch == [] && k <= |q.timers|
    ensures Inv(SplitAt(q, k))
  {
    var q' := SplitAt(q, k);
    SplitMembers(q.timers, k);
    SameHeap(q, q');
    forall a | a in q'.heap ensures Filed(q', q'.timers, a) || Filed(q', q'.batch, a) { assert Filed(q, q.timers, a); }
    forall id ensures id in q'.active <==> Names(q', id) && Filed(q', q'.timers, id.addr) {
      SplitActive(q, k, id);
    }
  }

  lemma SplitActive(q: Queue, k: nat, id: TimerId)
    requires Consistent(q) && q.batch == [] && k <= |q.timers|
    ensures id in SplitAt(q, k).active <==> Names(q, id) && Filed(q, q.timers[k..], id.addr)
  {
    SplitMembers(q.timers, k);
    if Names(q, id) {
      var e := Entry(q.heap[id.addr].expiration, id.addr);
      assert e in q.timers[..k] ==> id in IdsOf(q, q.timers[..k]);
      assert id in IdsOf(q, q.timers[..k]) ==> e in q.timers[..k];
    }
  }

  /** The callbacks' scripts are legal when each is run in turn. */
  ghost predicate LegalBatch(q: Queue, es: seq<Entry>, scripts: seq<seq<Command>>)
    decreases |es|
  {
    && |scripts| == |es|
    && (es == [] || es[0].addr !in q.heap ||
        var q1 := q.(runs := q.runs + [q.heap[es[0].addr].sequence]);
        LegalAll(q1, scripts[0]) && LegalBatch(DoAll(q1, scripts[0]), es[1..], scripts[1..]))
  }

  lemma {:induction false} RunBatchKeeps(q: Sound, es: seq<Entry>, scripts: seq<seq<Command>>)
    requires q.calling && LegalBatch(q, es, scripts) && forall e :: e in es ==> e in q.batch
    ensures Inv(RunBatch(q, es, scripts)) && RunBatch(q, es, scripts).batch == q.batch
    decreases |es|
  {
    if es != [] {
      var q1 := q.(runs := q.runs + [q.heap[es[0].addr].sequence]);
      SameQueue(q, q1);
      DoAllKeeps(q1, scripts[0]);
      RunBatchKeeps(DoAll(q1, scripts[0]), es[1..], scripts[1..]);
    }
  }

  /** A timer of the batch is put back under its new expiration, or deleted. */
  lemma ResetOneKeeps(q: Sound, now: int) returns (r: Sound)
    requires q.batch != [] && now > 0
    ensures q.batch[0].addr in q.heap
    ensures r == ResetOne(q.(batch := q.batch[1..]), q.batch[0].addr, now) && r.batch == q.batch[1..]
  {
    assert q.batch[0] in q.batch;
    ResetOneIs(q, now);
    if Survives(q, q.batch[0].addr) { r := ReinsertKeeps(q, now); } else { r := DropKeeps(q); }
  }

  lemma ResetOneIs(q: Queue, now: int)
    requires q.batch != [] && q.batch[0].addr in q.heap
    ensures var q1, a := q.(batch := q.batch[1..]), q.batch[0].addr;
      ResetOne(q1, a, now) == if Survives(q, a) then Reinserted(q, now) else Delete(q1, a)
  {
  }

  lemma DropKeeps(q: Sound) returns (r: Sound)
    requires q.batch != []
    ensures q.batch[0].addr in q.heap && r == Delete(q.(batch := q.batch[1..]), q.batch[0].addr)
  {
    assert q.batch[0] in q.batch;
    DropConsistent(q);
    var q1 := q.(batch := q.batch[1..]);
    SameHeap(q, q1);
    DeleteNumbered(q1, q.batch[0].addr);
    r := Delete(q1, q.batch[0].addr);
  }

  lemma ReinsertKeeps(q: Sound, now: int) returns (r: Sound)
    requires q.batch != [] && now > 0
    ensures q.batch[0].addr in q.heap && r == Reinserted(q, now)
  {
    ReinsertConsistent(q, now);
    ReinsertNumbered(q, now);
    r := Reinserted(q, now);
  }

  lemma BatchTail(q: Queue)
    requires Consistent(q) && q.batch != []
    ensures forall e :: e in q.batch[1..] <==> e in q.batch && e.addr != q.batch[0].addr
    ensures forall e :: e in q.timers ==> e.addr != q.batch[0].addr
  {
    var es := q.batch;
    assert es[0] in es;
    assert es == [es[0]] + es[1..];
    forall e | e in es[1..] ensures e in es && e.addr != es[0].addr {
      var i :| 0 <= i < |es[1..]| && es[1..][i] == e;
      assert es[i + 1] == e && e in es;
    }
  }

  lemma DropConsistent(q: Queue)
    requires Consistent(q) && q.batch != []
    ensures q.batch[0].addr in q.heap && Consistent(Delete(q.(batch := q.batch[1..]), q.batch[0].addr))
  {
    assert q.batch[0] in q.batch;
    BatchTail(q);
    var q' := Delete(q.(batch := q.batch[1..]), q.batch[0].addr);
    forall a | a in q'.heap ensures Filed(q', q'.timers, a) || Filed(q', q'.batch, a) {
      assert Filed(q, q.timers, a) || Filed(q, q.batch, a);
    }
  }

  /** The first timer of the batch restarts and goes back to the queue. */
  ghost function Reinserted(q: Queue, now: int): Queue
    requires q.batch != [] && q.batch[0].addr in q.heap
  {
    var a := q.batch[0].addr;
    Inserted(q.(batch := q.batch[1..], heap := q.heap[a := q.heap[a].(expiration := now + q.heap[a].period)]), a).0
  }

  lemma ReinsertTimers(q: Queue, now: int)
    requires Consistent(q) && q.batch != []
    ensures q.batch[0].addr in q.heap && Sorted(Reinserted(q, now).timers)
    ensures forall e :: e in Reinserted(q, now).timers <==>
      e in q.timers || e == Entry(now + q.heap[q.batch[0].addr].period, q.batch[0].addr)
  {
    assert q.batch[0] in q.batch;
    BatchTail(q);
    InsertSorted(q.timers, Entry(now + q.heap[q.batch[0].addr].period, q.batch[0].addr));
  }

  lemma ReinsertActive(q: Queue, now: int, id: TimerId)
    requires Consistent(q) && q.batch != []
    ensures q.batch[0].addr in q.heap
    ensures var q' := Reinserted(q, now); id in q'.active <==> Names(q', id) && Filed(q', q'.timers, id.addr)
  {
    ReinsertTimers(q, now);
    BatchTail(q);
    assert id in q.active <==> Names(q, id) && Filed(q, q.timers, id.addr);
  }

  lemma ReinsertConsistent(q: Queue, now: int)
    requires Consistent(q) && q.batch != []
    ensures q.batch[0].addr in q.heap && Consistent(Reinserted(q, now))
  {
    ReinsertTimers(q, now);
    BatchTail(q);
    var q' := Reinserted(q, now);
    forall b | b in q'.heap ensures Filed(q', q'.timers, b) || Filed(q', q'.batch, b) {
      if b != q.batch[0].addr { assert Filed(q, q.timers, b) || Filed(q, q.batch, b); }
    }
    forall id ensures id in q'.active <==> Names(q', id) && Filed(q', q'.timers, id.addr) {
      ReinsertActive(q, now, id);
    }
  }

  lemma ReinsertNumbered(q: Queue, now: int)
    requires Inv(q) && q.batch != [] && now > 0
    ensures q.batch[0].addr in q.heap && Numbered(Reinserted(q, now))
  {
    assert q.batch[0] in q.batch;
    var q' := Reinserted(q, now);
    forall n: nat ensures Live(q', n) <==> Live(q, n) {
      if Live(q, n) { var b :| b in q.heap && q.heap[b].sequence == n; assert q'.heap[b].sequence == n; }
      if Live(q', n) { var b :| b in q'.heap && q'.heap[b].sequence == n; assert q.heap[b].sequence == n; }
    }
  }

  lemma {:induction false} ResetAllKeeps(q: Sound, now: int)
    requires now > 0
    ensures Inv(ResetAll(q, now)) && ResetAll(q, now).batch == [] && ResetAll(q, now).calling == q.calling
    decreases |q.batch|
  {
    if q.batch != [] {
      assert q.batch[0] in q.batch;
      var _ := ResetOneKeeps(q, now);
      ResetAllKeeps(ResetOne(q.(batch := q.batch[1..]), q.batch[0].addr, now), now);
    }
  }

  ghost predicate LegalRead(q: Queue, now: int, scripts: seq<seq<Command>>) {
    now > 0 && LegalBatch(Expire(q, now), Expire(q, now).batch, scripts)
  }

  /** One expiry of the timerfd, whatever the callbacks do: the two sets and the heap stay in step. */
  lemma HandleReadKeeps(q: Queue, now: int, scripts: seq<seq<Command>>)
    requires Idle(q) && LegalRead(q, now, scripts)
    ensures Idle(Handled(q, now, scripts))
  {
    ExpireKeeps(q, now);
    var q1 := Expire(q, now);
    RunBatchKeeps(q1, q1.batch, scripts);
    var q2 := RunBatch(q1, q1.batch, scripts);
    SameQueue(q2, q2.(calling := false));
    ResetAllKeeps(q2.(calling := false), now);
    var q3 := ResetAll(q2.(calling := false), now);
    SameQueue(q3, Rearm(q3));
  }

  // ---------------------------------------------------------------- what a batch does to its timers

  /** The timer at addr keeps its identity from q to q'. */
  ghost predicate SameTimer(q: Queue, q': Queue, addr: nat) {
    addr in q.heap && addr in q'.heap && q'.heap[addr] == q.heap[addr]
  }

  /** What callbacks cannot do: touch a timer of the batch, forget a cancellation or a deletion, or call a callback. */
  ghost predicate Undisturbed(q: Queue, q': Queue) {
    && (forall e :: e in q.batch ==> SameTimer(q, q', e.addr))
    && q.canceling <= q'.canceling
    && q.deleted <= q'.deleted
    && q'.runs == q.runs
  }

  lemma DoUndisturbed(q: Sound, c: Command)
    requires Legal(q, c)
    ensures Undisturbed(q, Do(q, c))
  {
    if c.Cancel? && c.id in q.active {
      assert Names(q, c.id) && Filed(q, q.timers, c.id.addr);
    }
  }

  lemma {:induction false} DoAllUndisturbed(q: Sound, cs: seq<Command>)
    requires LegalAll(q, cs)
    ensures Undisturbed(q, DoAll(q, cs))
    decreases |cs|
  {
    if cs != [] {
      DoKeeps(q, cs[0]);
      DoUndisturbed(q, cs[0]);
      DoAllUndisturbed(Do(q, cs[0]), cs[1..]);
    }
  }

  ghost function Sequences(q: Queue, es: seq<Entry>): seq<nat> {
    seq(|es|, i requires 0 <= i < |es| => if es[i].addr in q.heap then q.heap[es[i].addr].sequence else 0)
  }

  /** The queue when the callback of e is called. */
  ghost function Called(q: Queue, e: Entry): Queue
    requires e.addr in q.heap
  {
    q.(runs := q.runs + [q.heap[e.addr].sequence])
  }

  /** The first callback of a batch, and the rest of the batch. */
  lemma FirstCalled(q: Sound, es: seq<Entry>, scripts: seq<seq<Command>>) returns (q2: Sound)
    requires q.calling && LegalBatch(q, es, scripts) && es != [] && forall e :: e in es ==> e in q.batch
    ensures es[0].addr in q.heap && LegalAll(Called(q, es[0]), scripts[0]) && Inv(Called(q, es[0]))
    ensures q2 == DoAll(Called(q, es[0]), scripts[0]) && q2.calling && q2.batch == q.batch
    ensures LegalBatch(q2, es[1..], scripts[1..]) && forall e :: e in es[1..] ==> e in q2.batch
    ensures RunBatch(q, es, scripts) == RunBatch(q2, es[1..], scripts[1..])
  {
    assert es[0] in es;
    SameQueue(q, Called(q, es[0]));
    DoAllKeeps(Called(q, es[0]), scripts[0]);
    q2 := DoAll(Called(q, es[0]), scripts[0]);
  }

  /** A batch runs each of its timers exactly once, in order, whatever its callbacks add or cancel. */
  lemma {:induction false} RunBatchRuns(q: Sound, es: seq<Entry>, scripts: seq<seq<Command>>)
    requires q.calling && LegalBatch(q, es, scripts) && forall e :: e in es ==> e in q.batch
    ensures RunBatch(q, es, scripts).runs == q.runs + Sequences(q, es)
    ensures q.canceling <= RunBatch(q, es, scripts).canceling && q.deleted <= RunBatch(q, es, scripts).deleted
    ensures forall e :: e in q.batch ==> SameTimer(q, RunBatch(q, es, scripts), e.addr)
    decreases |es|
  {
    if es != [] {
      var q2 := FirstCalled(q, es, scripts);
      DoAllUndisturbed(Called(q, es[0]), scripts[0]);
      RunBatchRuns(q2, es[1..], scripts[1..]);
      SequencesAgree(q, q2, es);
      RunsJoin(q.runs, q.heap[es[0].addr].sequence, Sequences(q2, es[1..]), Sequences(q, es));
    }
  }

  lemma RunsJoin(runs: seq<nat>, n: nat, rest: seq<nat>, all: seq<nat>)
    requires all == [n] + rest
    ensures runs + [n] + rest == runs + all
  {
  }

  lemma SequencesAgree(q: Queue, q': Queue, es: seq<Entry>)
    requires es != [] && forall e :: e in es ==> SameTimer(q, q', e.addr)
    ensures es[0].addr in q.heap
    ensures Sequences(q, es) == [q.heap[es[0].addr].sequence] + Sequences(q', es[1..])
  {
    assert es[0] in es;
    forall i | 0 <= i < |es| - 1 ensures Sequences(q, es)[i + 1] == Sequences(q', es[1..])[i] {
      assert es[1..][i] == es[i + 1] && es[i + 1] in es;
    }
  }

  /** A cancellation issued by any callback of the batch is remembered for a timer that is in the batch. */
  lemma {:induction false} DoAllCancels(q: Sound, cs: seq<Command>, j: nat, id: TimerId, e: Entry)
    requires q.calling && LegalAll(q, cs) && j < |cs| && cs[j] == Cancel(id)
    requires e in q.batch && e.addr == id.addr
    ensures id in DoAll(q, cs).canceling
    decreases |cs|
  {
    DoKeeps(q, cs[0]);
    DoUndisturbed(q, cs[0]);
    if j == 0 {
      assert id in q.active <==> Names(q, id) && Filed(q, q.timers, id.addr);
      DoAllUndisturbed(Do(q, cs[0]), cs[1..]);
    } else {
      DoAllCancels(Do(q, cs[0]), cs[1..], j - 1, id, e);
    }
  }

  /** The timer of the id is queued, or deleted already. */
  ghost predicate QueuedOrDead(q: Queue, id: TimerId) { id in q.active || id.sequence in q.deleted }

  lemma DoQueuedOrDead(q: Sound, c: Command, id: TimerId)
    requires Legal(q, c) && QueuedOrDead(q, id)
    ensures QueuedOrDead(Do(q, c), id) && (c == Cancel(id) ==> id.sequence in Do(q, c).deleted)
  {
    if c.Cancel? && c.id in q.active && id in q.active && c.id != id {
      assert Names(q, c.id) && Names(q, id);
    }
  }

  lemma {:induction false} DoAllBuries(q: Sound, cs: seq<Command>, id: TimerId)
    requires LegalAll(q, cs) && QueuedOrDead(q, id)
    ensures QueuedOrDead(DoAll(q, cs), id)
    ensures Cancel(id) in cs ==> id.sequence in DoAll(q, cs).deleted
    decreases |cs|
  {
    if cs != [] {
      DoKeeps(q, cs[0]);
      DoQueuedOrDead(q, cs[0], id);
      var q1 := Do(q, cs[0]);
      DoAllBuries(q1, cs[1..], id);
      DoAllUndisturbed(q1, cs[1..]);
      assert Cancel(id) in cs ==> cs[0] == Cancel(id) || Cancel(id) in cs[1..];
    }
  }

  /** The queue when callback i of a batch is next. */
  lemma {:induction false} Reached(q: Sound, es: seq<Entry>, scripts: seq<seq<Command>>, i: nat) returns (r: Sound)
    requires q.calling && LegalBatch(q, es, scripts) && (forall x :: x in es ==> x in q.batch) && i < |es|
    ensures r.calling && LegalBatch(r, es[i..], scripts[i..]) && r.batch == q.batch
    ensures RunBatch(q, es, scripts) == RunBatch(r, es[i..], scripts[i..])
    ensures forall id :: QueuedOrDead(q, id) ==> QueuedOrDead(r, id)
    decreases |es|
  {
    if i == 0 {
      r := q;
      assert es[0..] == es && scripts[0..] == scripts;
    } else {
      var q2 := FirstCalled(q, es, scripts);
      r := Reached(q2, es[1..], scripts[1..], i - 1);
      assert es[1..][i - 1..] == es[i..] && scripts[1..][i - 1..] == scripts[i..];
      forall id | QueuedOrDead(q, id) ensures QueuedOrDead(r, id) { DoAllBuries(Called(q, es[0]), scripts[0], id); }
    }
  }

  lemma RunBatchCancels(q: Sound, es: seq<Entry>, scripts: seq<seq<Command>>, i: nat, j: nat, id: TimerId, e: Entry)
    requires q.calling && LegalBatch(q, es, scripts) && forall x :: x in es ==> x in q.batch
    requires i < |es| && j < |scripts[i]| && scripts[i][j] == Cancel(id)
    requires e in q.batch && e.addr == id.addr
    ensures id in RunBatch(q, es, scripts).canceling
  {
    var r := Reached(q, es, scripts, i);
    FirstCancels(r, es[i..], scripts[i..], j, id, e);
  }

  lemma FirstCancels(q: Sound, es: seq<Entry>, scripts: seq<seq<Command>>, j: nat, id: TimerId, e: Entry)
    requires q.calling && LegalBatch(q, es, scripts) && forall x :: x in es ==> x in q.batch
    requires es != [] && j < |scripts[0]| && scripts[0][j] == Cancel(id)
    requires e in q.batch && e.addr == id.addr
    ensures id in RunBatch(q, es, scripts).canceling
  {
    var q2 := FirstCalled(q, es, scripts);
    DoAllCancels(Called(q, es[0]), scripts[0], j, id, e);
    RunBatchRuns(q2, es[1..], scripts[1..]);
  }

  /** Whether reset puts the timer back. */
  ghost predicate Survives(q: Queue, addr: nat)
    requires addr in q.heap
  {
    q.heap[addr].repeat && TimerId(addr, q.heap[addr].sequence) !in q.canceling
  }

  /** The fate of the timer at addr across reset: put back under its next expiration, or deleted. */
  ghost predicate Fate(q: Queue, q': Queue, addr: nat, now: int)
    requires addr in q.heap
  {
    var t := q.heap[addr];
    if Survives(q, addr)
    then addr in q'.heap && q'.heap[addr] == t.(expiration := now + t.period) && Filed(q', q'.timers, addr)
    else t.sequence in q'.deleted && addr !in q'.heap
  }

  /** One round of reset settles the first timer of the batch and leaves every other timer as it is. */
  lemma ResetOneFate(q: Sound, now: int)
    requires q.batch != [] && now > 0
    ensures q.batch[0].addr in q.heap &&
      Fate(q, ResetOne(q.(batch := q.batch[1..]), q.batch[0].addr, now), q.batch[0].addr, now)
  {
    assert q.batch[0] in q.batch;
    ReinsertTimers(q, now);
  }

  lemma ResetOneOther(q: Sound, now: int, e: Entry)
    requires q.batch != [] && now > 0 && (e in q.timers || e in q.batch[1..])
    ensures q.batch[0].addr in q.heap
    ensures var q1 := ResetOne(q.(batch := q.batch[1..]), q.batch[0].addr, now);
      SameTimer(q, q1, e.addr) && (e in q.timers ==> e in q1.timers)
  {
    assert q.batch[0] in q.batch;
    BatchTail(q);
    ReinsertTimers(q, now);
  }

  /** reset forgets no deletion, calls no callback and allocates nothing. */
  lemma {:induction false} ResetAllGrows(q: Sound, now: int)
    requires now > 0
    ensures q.deleted <= ResetAll(q, now).deleted && ResetAll(q, now).runs == q.runs
    ensures ResetAll(q, now).heap.Keys <= q.heap.Keys
    decreases |q.batch|
  {
    if q.batch != [] {
      assert q.batch[0] in q.batch;
      var _ := ResetOneKeeps(q, now);
      ResetAllGrows(ResetOne(q.(batch := q.batch[1..]), q.batch[0].addr, now), now);
    }
  }

  lemma {:induction false} ResetAllOther(q: Sound, now: int, e: Entry)
    requires now > 0 && e in q.timers
    ensures e in ResetAll(q, now).timers && SameTimer(q, ResetAll(q, now), e.addr)
    decreases |q.batch|
  {
    if q.batch != [] {
      var _ := ResetOneKeeps(q, now);
      ResetOneOther(q, now, e);
      ResetAllOther(ResetOne(q.(batch := q.batch[1..]), q.batch[0].addr, now), now, e);
    }
  }

  /** reset settles every timer of the batch. */
  lemma {:induction false} ResetAllFate(q: Sound, now: int, e: Entry)
    requires now > 0 && e in q.batch
    ensures e.addr in q.heap && Fate(q, ResetAll(q, now), e.addr, now)
    decreases |q.batch|
  {
    var q1 := ResetOneKeeps(q, now);
    if e == q.batch[0] {
      ResetOneFate(q, now);
      ResetAllGrows(q1, now);
      if Survives(q, e.addr) { ResetAllOther(q1, now, Entry(q1.heap[e.addr].expiration, e.addr)); }
    } else {
      BatchTail(q);
      assert e in q.batch[1..];
      ResetOneOther(q, now, e);
      ResetAllFate(q1, now, e);
      assert Survives(q, e.addr) <==> Survives(q1, e.addr);
    }
  }

  // ---------------------------------------------------------------- cancellation over whole runs

  ghost function Times(q: Queue, n: nat): nat { multiset(q.runs)[n] }

  /** A live timer's number is not among the deleted ones. */
  lemma LiveNotDeleted(q: Sound, es: seq<Entry>, n: nat)
    requires n in q.deleted && forall e :: e in es ==> e in q.batch
    ensures n !in Sequences(q, es)
  {
    assert !Live(q, n);
    forall i | 0 <= i < |es| ensures Sequences(q, es)[i] != n {
      assert es[i] in q.batch;
      assert Live(q, q.heap[es[i].addr].sequence);
    }
  }

  /** Wherever a batch stands, a timer already deleted is not run in what is left of it, nor by its reset. */
  lemma DeadInBatch(q: Sound, cs: seq<Command>, es: seq<Entry>, scripts: seq<seq<Command>>, now: int, n: nat)
    requires q.calling && n in q.deleted && now > 0
    requires LegalAll(q, cs) && LegalBatch(DoAll(q, cs), es, scripts) && forall e :: e in es ==> e in q.batch
    ensures var q' := Rearm(ResetAll(RunBatch(DoAll(q, cs), es, scripts).(calling := false), now));
      n in q'.deleted && Times(q', n) == Times(q, n)
  {
    DoAllKeeps(q, cs);
    DoAllUndisturbed(q, cs);
    RunBatchKeeps(DoAll(q, cs), es, scripts);
    DeadInCallbacks(DoAll(q, cs), es, scripts, n);
    DeadInReset(RunBatch(DoAll(q, cs), es, scripts), now, n);
  }

  lemma DeadInCallbacks(q: Sound, es: seq<Entry>, scripts: seq<seq<Command>>, n: nat)
    requires q.calling && LegalBatch(q, es, scripts) && n in q.deleted && forall e :: e in es ==> e in q.batch
    ensures n in RunBatch(q, es, scripts).deleted && Times(RunBatch(q, es, scripts), n) == Times(q, n)
  {
    RunBatchRuns(q, es, scripts);
    LiveNotDeleted(q, es, n);
    assert multiset(RunBatch(q, es, scripts).runs) == multiset(q.runs) + multiset(Sequences(q, es));
  }

  /** After the callbacks, reset calls none and forgets no deletion. */
  lemma DeadInReset(q: Sound, now: int, n: nat)
    requires n in q.deleted && now > 0
    ensures var q' := Rearm(ResetAll(q.(calling := false), now)); n in q'.deleted && Times(q', n) == Times(q, n)
  {
    SameQueue(q, q.(calling := false));
    ResetAllGrows(q.(calling := false), now);
  }

  lemma HandleReadBuries(q: Queue, now: int, scripts: seq<seq<Command>>, n: nat)
    requires Idle(q) && LegalRead(q, now, scripts) && n in q.deleted
    ensures n in Handled(q, now, scripts).deleted && Times(Handled(q, now, scripts), n) == Times(q, n)
  {
    ExpireKeeps(q, now);
    var q1 := Expire(q, now);
    DeadInBatch(q1, [], q1.batch, scripts, now, n);
  }

  /** A cancellation by any callback of a batch, the timer's own included, of a timer that is in that batch: the timer
      runs once in that batch, and is deleted at its end. */
  lemma CancelledInBatch(q: Queue, now: int, scripts: seq<seq<Command>>, i: nat, j: nat, e: Entry)
    requires Idle(q) && LegalRead(q, now, scripts)
    requires e in q.timers && e.when <= now
    requires i < |scripts| && j < |scripts[i]| && scripts[i][j] == Cancel(TimerId(e.addr, q.heap[e.addr].sequence))
    ensures var q', n := Handled(q, now, scripts), q.heap[e.addr].sequence;
      n in q'.deleted && Times(q', n) == Times(q, n) + 1
  {
    ExpireKeeps(q, now);
    var q1 := Expire(q, now);
    RunBatchKeeps(q1, q1.batch, scripts);
    RunBatchRuns(q1, q1.batch, scripts);
    RunBatchCancels(q1, q1.batch, scripts, i, j, TimerId(e.addr, q.heap[e.addr].sequence), e);
    var q2 := RunBatch(q1, q1.batch, scripts).(calling := false);
    SameQueue(RunBatch(q1, q1.batch, scripts), q2);
    ResetAllFate(q2, now, e);
    ResetAllGrows(q2, now);
    RunsOnce(q1, e);
    assert multiset(q2.runs) == multiset(q1.runs) + multiset(Sequences(q1, q1.batch));
  }

  lemma RunsOnce(q: Sound, e: Entry)
    requires e in q.batch
    ensures multiset(Sequences(q, q.batch))[q.heap[e.addr].sequence] == 1
  {
    var s := Sequences(q, q.batch);
    var k :| 0 <= k < |q.batch| && q.batch[k] == e;
    forall i | 0 <= i < |s| && i != k ensures s[i] != s[k] {
      assert q.batch[i] in q.batch && q.batch[i] != q.batch[k];
    }
    OnlyOnce(s, k);
  }

  lemma OnlyOnce(s: seq<nat>, k: nat)
    requires k < |s| && forall i :: 0 <= i < |s| && i != k ==> s[i] != s[k]
    ensures multiset(s)[s[k]] == 1
  {
    assert s == s[..k] + [s[k]] + s[k + 1..];
  }

  /** What happens to the queue between two returns to the event loop. */
  datatype Event = Act(command: Command) | Read(now: int, scripts: seq<seq<Command>>)

  ghost function Apply(q: Queue, e: Event): Queue {
    match e
    case Act(c) => Do(q, c)
    case Read(now, scripts) => Handled(q, now, scripts)
  }

  ghost predicate LegalEvent(q: Queue, e: Event) {
    match e
    case Act(c) => Legal(q, c)
    case Read(now, scripts) => LegalRead(q, now, scripts)
  }

  ghost function ApplyAll(q: Queue, es: seq<Event>): Queue
    decreases |es|
  {
    if es == [] then q else ApplyAll(Apply(q, es[0]), es[1..])
  }

  ghost predicate LegalRun(q: Queue, es: seq<Event>)
    decreases |es|
  {
    es == [] || (LegalEvent(q, es[0]) && LegalRun(Apply(q, es[0]), es[1..]))
  }

  lemma ApplyKeeps(q: Queue, e: Event)
    requires Idle(q) && LegalEvent(q, e)
    ensures Idle(Apply(q, e))
  {
    match e
    case Act(c) => DoKeeps(q, c);
    case Read(now, scripts) => HandleReadKeeps(q, now, scripts);
  }

  /** A deleted timer never runs again. */
  lemma {:induction false} DeadForGood(q: Queue, es: seq<Event>, n: nat)
    requires Idle(q) && LegalRun(q, es) && n in q.deleted
    ensures n in ApplyAll(q, es).deleted && Times(ApplyAll(q, es), n) == Times(q, n)
    decreases |es|
  {
    if es != [] {
      ApplyKeeps(q, es[0]);
      match es[0] {
        case Act(c) => DoUndisturbed(q, c);
        case Read(now, scripts) => HandleReadBuries(q, now, scripts, n);
      }
      DeadForGood(Apply(q, es[0]), es[1..], n);
    }
  }

  /** A timer cancelled while it is queued never runs again, whatever happens afterwards. */
  lemma CancelledNeverRuns(q: Queue, id: TimerId, es: seq<Event>)
    requires Idle(q) && id in q.active && LegalRun(CancelTimer(q, id), es)
    ensures id.sequence in ApplyAll(CancelTimer(q, id), es).deleted
    ensures Times(ApplyAll(CancelTimer(q, id), es), id.sequence) == Times(q, id.sequence)
  {
    DoKeeps(q, Cancel(id));
    DeadForGood(CancelTimer(q, id), es, id.sequence);
  }

  lemma RunBatchBuries(q: Sound, es: seq<Entry>, scripts: seq<seq<Command>>, i: nat, id: TimerId)
    requires q.calling && LegalBatch(q, es, scripts) && (forall e :: e in es ==> e in q.batch) && QueuedOrDead(q, id)
    requires i < |es| && Cancel(id) in scripts[i]
    ensures id.sequence in RunBatch(q, es, scripts).deleted
  {
    var r := Reached(q, es, scripts, i);
    FirstBuries(r, es[i..], scripts[i..], id);
  }

  lemma FirstBuries(q: Sound, es: seq<Entry>, scripts: seq<seq<Command>>, id: TimerId)
    requires q.calling && LegalBatch(q, es, scripts) && (forall e :: e in es ==> e in q.batch) && QueuedOrDead(q, id)
    requires es != [] && Cancel(id) in scripts[0]
    ensures id.sequence in RunBatch(q, es, scripts).deleted
  {
    var q2 := FirstCalled(q, es, scripts);
    DoAllBuries(Called(q, es[0]), scripts[0], id);
    RunBatchRuns(q2, es[1..], scripts[1..]);
  }

  /** A queued timer is not among those of the batch. */
  lemma QueuedNotInBatch(q: Sound, id: TimerId)
    requires id in q.active
    ensures id.sequence !in Sequences(q, q.batch)
  {
    assert Names(q, id) && Filed(q, q.timers, id.addr);
    forall i | 0 <= i < |q.batch| ensures Sequences(q, q.batch)[i] != id.sequence {
      assert q.batch[i] in q.batch;
    }
  }

  /** A timer that is queued and not due, cancelled by the callback of another timer, is deleted by the end of that
      batch and its callback is not called in it. */
  lemma CancelledByCallback(q: Queue, now: int, scripts: seq<seq<Command>>, i: nat, e: Entry)
    requires Idle(q) && LegalRead(q, now, scripts) && e in q.timers && e.when > now
    requires i < |scripts| && Cancel(TimerId(e.addr, q.heap[e.addr].sequence)) in scripts[i]
    ensures var q', n := Handled(q, now, scripts), q.heap[e.addr].sequence;
      n in q'.deleted && Times(q', n) == Times(q, n)
  {
    var id := TimerId(e.addr, q.heap[e.addr].sequence);
    ExpireKeeps(q, now);
    var q1 := Expire(q, now);
    assert Names(q1, id) && Filed(q1, q1.timers, id.addr);
    RunBatchBuries(q1, q1.batch, scripts, i, id);
    RunBatchKeeps(q1, q1.batch, scripts);
    RunBatchRuns(q1, q1.batch, scripts);
    QueuedNotInBatch(q1, id);
    DeadInReset(RunBatch(q1, q1.batch, scripts), now, id.sequence);
    assert multiset(q1.runs + Sequences(q1, q1.batch)) == multiset(q1.runs) + multiset(Sequences(q1, q1.batch));
  }

  /** ... and never again in any later run. */
  lemma CancelledByCallbackEnds(q: Queue, now: int, scripts: seq<seq<Command>>, i: nat, e: Entry, es: seq<Event>)
    requires Idle(q) && LegalRead(q, now, scripts) && LegalRun(Handled(q, now, scripts), es)
    requires e in q.timers && e.when > now
    requires i < |scripts| && Cancel(TimerId(e.addr, q.heap[e.addr].sequence)) in scripts[i]
    ensures var q', n := ApplyAll(Handled(q, now, scripts), es), q.heap[e.addr].sequence;
      n in q'.deleted && Times(q', n) == Times(q, n)
  {
    CancelledByCallback(q, now, scripts, i, e);
    HandleReadKeeps(q, now, scripts);
    DeadForGood(Handled(q, now, scripts), es, q.heap[e.addr].sequence);
  }

  /** Wherever a batch stands, a queued timer that is cancelled there, added in this very batch or before, does not run
      in the rest of the batch nor in any later run. */
  lemma CancelledAnywhere(q: Sound, id: TimerId, cs: seq<Command>, rest: seq<Entry>, scripts: seq<seq<Command>>,
                          now: int, es: seq<Event>)
    requires q.calling && id in q.active && now > 0 && LegalAll(CancelTimer(q, id), cs)
    requires LegalBatch(DoAll(CancelTimer(q, id), cs), rest, scripts) && forall e :: e in rest ==> e in q.batch
    requires LegalRun(AfterBatch(DoAll(CancelTimer(q, id), cs), rest, scripts, now), es)
    ensures var q' := ApplyAll(AfterBatch(DoAll(CancelTimer(q, id), cs), rest, scripts, now), es);
      id.sequence in q'.deleted && Times(q', id.sequence) == Times(q, id.sequence)
  {
    var q1 := CancelTimer(q, id);
    DoKeeps(q, Cancel(id));
    assert id.sequence in q1.deleted by { assert Names(q, id); }
    DeadInBatch(q1, cs, rest, scripts, now, id.sequence);
    AfterBatchIdle(q1, cs, rest, scripts, now);
    DeadForGood(AfterBatch(DoAll(q1, cs), rest, scripts, now), es, id.sequence);
  }

  /** The rest of handleRead: the remaining callbacks, and reset. */
  ghost function AfterBatch(q: Queue, rest: seq<Entry>, scripts: seq<seq<Command>>, now: int): Queue {
    Rearm(ResetAll(RunBatch(q, rest, scripts).(calling := false), now))
  }

  lemma AfterBatchIdle(q: Sound, cs: seq<Command>, rest: seq<Entry>, scripts: seq<seq<Command>>, now: int)
    requires q.calling && now > 0 && LegalAll(q, cs) && LegalBatch(DoAll(q, cs), rest, scripts)
    requires forall e :: e in rest ==> e in q.batch
    ensures Idle(AfterBatch(DoAll(q, cs), rest, scripts, now))
  {
    DoAllKeeps(q, cs);
    RunBatchKeeps(DoAll(q, cs), rest, scripts);
    var q2 := RunBatch(DoAll(q, cs), rest, scripts);
    SameQueue(q2, q2.(calling := false));
    ResetAllKeeps(q2.(calling := false), now);
    SameQueue(ResetAll(q2.(calling := false), now), AfterBatch(DoAll(q, cs), rest, scripts, now));
  }

  /** Cancelled by a callback of the batch that holds it, a timer runs once more and then never again. */
  lemma CancelledInBatchEnds(q: Queue, now: int, scripts: seq<seq<Command>>, i: nat, j: nat, e: Entry, es: seq<Event>)
    requires Idle(q) && LegalRead(q, now, scripts) && LegalRun(Handled(q, now, scripts), es)
    requires e in q.timers && e.when <= now
    requires i < |scripts| && j < |scripts[i]| && scripts[i][j] == Cancel(TimerId(e.addr, q.heap[e.addr].sequence))
    ensures var q', n := ApplyAll(Handled(q, now, scripts), es), q.heap[e.addr].sequence;
      n in q'.deleted && Times(q', n) == Times(q, n) + 1
  {
    CancelledInBatch(q, now, scripts, i, j, e);
    HandleReadKeeps(q, now, scripts);
    DeadForGood(Handled(q, now, scripts), es, q.heap[e.addr].sequence);
  }

  /** An id whose timer has been deleted cancels nothing, even if its address is in use again. */
  lemma StaleIdCancelsNothing(q: Queue, id: TimerId)
    requires Inv(q) && id.sequence in q.deleted
    ensures CancelTimer(q, id) == q.(canceling := CancelTimer(q, id).canceling)
    ensures !q.calling ==> CancelTimer(q, id) == q
    ensures forall a :: a in q.heap ==> (Survives(q, a) <==> Survives(CancelTimer(q, id), a))
  {
    assert !Live(q, id.sequence);
    assert !Names(q, id);
  }

  // ---------------------------------------------------------------- a timer that nobody cancels

  function IdOf(q: Queue, e: Entry): TimerId
    requires e.addr in q.heap
  {
    TimerId(e.addr, q.heap[e.addr].sequence)
  }

  /** No callback cancels the id. */
  ghost predicate Spared(scripts: seq<seq<Command>>, id: TimerId) {
    forall i :: 0 <= i < |scripts| ==> Cancel(id) !in scripts[i]
  }

  lemma DoSpares(q: Sound, c: Command, id: TimerId)
    requires c != Cancel(id) && id !in q.canceling
    ensures id !in Do(q, c).canceling
  {
  }

  lemma DoWaits(q: Sound, c: Command, e: Entry)
    requires Legal(q, c) && e in q.timers && c != Cancel(IdOf(q, e))
    ensures e in Do(q, c).timers && SameTimer(q, Do(q, c), e.addr)
  {
    match c
    case Add(addr, when, period, repeat) => InsertSorted(q.timers, Entry(when, addr));
    case Cancel(id) =>
      if id in q.active {
        assert Names(q, id) && Filed(q, q.timers, id.addr);
        EraseSorted(q.timers, Entry(q.heap[id.addr].expiration, id.addr));
      }
    case Pass(dt) =>
  }

  lemma {:induction false} DoAllSpares(q: Sound, cs: seq<Command>, id: TimerId)
    requires LegalAll(q, cs) && Cancel(id) !in cs && id !in q.canceling
    ensures id !in DoAll(q, cs).canceling
    decreases |cs|
  {
    if cs != [] {
      assert cs[0] in cs && forall c :: c in cs[1..] ==> c in cs;
      DoKeeps(q, cs[0]);
      DoSpares(q, cs[0], id);
      DoAllSpares(Do(q, cs[0]), cs[1..], id);
    }
  }

  lemma {:induction false} DoAllWaits(q: Sound, cs: seq<Command>, e: Entry)
    requires LegalAll(q, cs) && e in q.timers && Cancel(IdOf(q, e)) !in cs
    ensures e in DoAll(q, cs).timers && SameTimer(q, DoAll(q, cs), e.addr)
    decreases |cs|
  {
    if cs != [] {
      assert cs[0] in cs && forall c :: c in cs[1..] ==> c in cs;
      DoKeeps(q, cs[0]);
      DoWaits(q, cs[0], e);
      DoAllWaits(Do(q, cs[0]), cs[1..], e);
    }
  }

  lemma SparedRest(scripts: seq<seq<Command>>, id: TimerId)
    requires scripts != [] && Spared(scripts, id)
    ensures Cancel(id) !in scripts[0] && Spared(scripts[1..], id)
  {
    forall i | 0 <= i < |scripts[1..]| ensures Cancel(id) !in scripts[1..][i] {
      assert scripts[1..][i] == scripts[i + 1];
    }
  }

  lemma {:induction false} BatchSpares(q: Sound, es: seq<Entry>, scripts: seq<seq<Command>>, id: TimerId)
    requires q.calling && LegalBatch(q, es, scripts) && forall x :: x in es ==> x in q.batch
    requires Spared(scripts, id) && id !in q.canceling
    ensures id !in RunBatch(q, es, scripts).canceling
    decreases |es|
  {
    if es != [] {
      var q2 := FirstCalled(q, es, scripts);
      SparedRest(scripts, id);
      DoAllSpares(Called(q, es[0]), scripts[0], id);
      BatchSpares(q2, es[1..], scripts[1..], id);
    }
  }

  lemma {:induction false} BatchWaits(q: Sound, es: seq<Entry>, scripts: seq<seq<Command>>, e: Entry)
    requires q.calling && LegalBatch(q, es, scripts) && forall x :: x in es ==> x in q.batch
    requires e in q.timers && Spared(scripts, IdOf(q, e))
    ensures e in RunBatch(q, es, scripts).timers && SameTimer(q, RunBatch(q, es, scripts), e.addr)
    decreases |es|
  {
    if es != [] {
      var q2 := FirstCalled(q, es, scripts);
      SparedRest(scripts, IdOf(q, e));
      DoAllWaits(Called(q, es[0]), scripts[0], e);
      BatchWaits(q2, es[1..], scripts[1..], e);
    }
  }

  /** A timer that repeats is queued again at addr, one period from now; any other is deleted. */
  ghost predicate Renewed(q: Queue, t: Timer, addr: nat, now: int) {
    if t.repeat
    then Entry(now + t.period, addr) in q.timers && addr in q.heap && q.heap[addr] == t.(expiration := now + t.period)
    else t.sequence in q.deleted
  }

  /** A queued timer that is due and that no callback cancels runs once in the batch and then, if it repeats, is queued
      again one period later, and is deleted otherwise. */
  lemma DueTimer(q: Queue, now: int, scripts: seq<seq<Command>>, e: Entry)
    requires Idle(q) && LegalRead(q, now, scripts) && e in q.timers && e.when <= now && Spared(scripts, IdOf(q, e))
    ensures var q', t := Handled(q, now, scripts), q.heap[e.addr];
      Times(q', t.sequence) == Times(q, t.sequence) + 1 && Renewed(q', t, e.addr, now)
  {
    DueRuns(q, now, scripts, e);
    DueFate(q, now, scripts, e);
  }

  lemma DueRuns(q: Queue, now: int, scripts: seq<seq<Command>>, e: Entry)
    requires Idle(q) && LegalRead(q, now, scripts) && e in q.timers && e.when <= now
    ensures Times(Handled(q, now, scripts), q.heap[e.addr].sequence) == Times(q, q.heap[e.addr].sequence) + 1
  {
    ExpireKeeps(q, now);
    var q1 := Expire(q, now);
    RunBatchKeeps(q1, q1.batch, scripts);
    RunBatchRuns(q1, q1.batch, scripts);
    var q2 := RunBatch(q1, q1.batch, scripts);
    SameQueue(q2, q2.(calling := false));
    ResetAllGrows(q2.(calling := false), now);
    RunsOnce(q1, e);
    assert multiset(q2.runs) == multiset(q1.runs) + multiset(Sequences(q1, q1.batch));
  }

  lemma DueFate(q: Queue, now: int, scripts: seq<seq<Command>>, e: Entry)
    requires Idle(q) && LegalRead(q, now, scripts) && e in q.timers && e.when <= now && Spared(scripts, IdOf(q, e))
    ensures Renewed(Handled(q, now, scripts), q.heap[e.addr], e.addr, now)
  {
    ExpireKeeps(q, now);
    var q2 := CallbacksSpare(Expire(q, now), scripts, e);
    FateUncancelled(q2, now, e);
  }

  lemma CallbacksSpare(q: Sound, scripts: seq<seq<Command>>, e: Entry) returns (q2: Sound)
    requires q.calling && LegalBatch(q, q.batch, scripts) && e in q.batch
    requires Spared(scripts, IdOf(q, e)) && IdOf(q, e) !in q.canceling
    ensures q2 == RunBatch(q, q.batch, scripts).(calling := false)
    ensures SameTimer(q, q2, e.addr) && IdOf(q, e) !in q2.canceling && e in q2.batch
  {
    RunBatchKeeps(q, q.batch, scripts);
    RunBatchRuns(q, q.batch, scripts);
    BatchSpares(q, q.batch, scripts, IdOf(q, e));
    SameQueue(RunBatch(q, q.batch, scripts), RunBatch(q, q.batch, scripts).(calling := false));
    q2 := RunBatch(q, q.batch, scripts).(calling := false);
  }

  lemma FateUncancelled(q: Sound, now: int, e: Entry)
    requires now > 0 && e in q.batch && IdOf(q, e) !in q.canceling
    ensures Renewed(Rearm(ResetAll(q, now)), q.heap[e.addr], e.addr, now)
  {
    ResetAllFate(q, now, e);
    FateRenews(q, ResetAll(q, now), e.addr, now);
  }

  lemma FateRenews(q: Queue, r: Queue, addr: nat, now: int)
    requires addr in q.heap && Fate(q, r, addr, now) && TimerId(addr, q.heap[addr].sequence) !in q.canceling
    ensures Renewed(Rearm(r), q.heap[addr], addr, now)
  {
  }

  /** A queued timer that is not due and that no callback cancels does not run and stays queued as it is. */
  lemma WaitingTimer(q: Queue, now: int, scripts: seq<seq<Command>>, e: Entry)
    requires Idle(q) && LegalRead(q, now, scripts) && e in q.timers && now < e.when && Spared(scripts, IdOf(q, e))
    ensures var q', t := Handled(q, now, scripts), q.heap[e.addr];
      e in q'.timers && e.addr in q'.heap && q'.heap[e.addr] == t && Times(q', t.sequence) == Times(q, t.sequence)
  {
    ExpireKeeps(q, now);
    var q1 := Expire(q, now);
    WaitingStays(q1, now, scripts, e);
    WaitingDoesNotRun(q1, now, scripts, e);
  }

  lemma WaitingStays(q: Sound, now: int, scripts: seq<seq<Command>>, e: Entry)
    requires q.calling && LegalBatch(q, q.batch, scripts) && now > 0 && e in q.timers && Spared(scripts, IdOf(q, e))
    ensures var q' := Rearm(ResetAll(RunBatch(q, q.batch, scripts).(calling := false), now));
      e in q'.timers && SameTimer(q, q', e.addr)
  {
    RunBatchKeeps(q, q.batch, scripts);
    BatchWaits(q, q.batch, scripts, e);
    var q2 := RunBatch(q, q.batch, scripts).(calling := false);
    SameQueue(RunBatch(q, q.batch, scripts), q2);
    ResetAllOther(q2, now, e);
  }

  lemma WaitingDoesNotRun(q: Sound, now: int, scripts: seq<seq<Command>>, e: Entry)
    requires q.calling && LegalBatch(q, q.batch, scripts) && now > 0 && e in q.timers
    ensures var q' := Rearm(ResetAll(RunBatch(q, q.batch, scripts).(calling := false), now));
      Times(q', q.heap[e.addr].sequence) == Times(q, q.heap[e.addr].sequence)
  {
    RunBatchKeeps(q, q.batch, scripts);
    RunBatchRuns(q, q.batch, scripts);
    assert Filed(q, q.timers, e.addr) && Names(q, IdOf(q, e));
    QueuedNotInBatch(q, IdOf(q, e));
    var q2 := RunBatch(q, q.batch, scripts);
    SameQueue(q2, q2.(calling := false));
    ResetAllGrows(q2.(calling := false), now);
    assert multiset(q2.runs) == multiset(q.runs) + multiset(Sequences(q, q.batch));
  }

  /** A new timer is queued with the time, period and repetition asked for, under the next number. */
  lemma AddedAsAsked(q: Queue, addr: nat, when: int, period: nat, repeat: bool) returns (q1: Queue)
    requires Idle(q) && addr !in q.heap && when > 0
    ensures q1 == Do(q, Add(addr, when, period, repeat)) && Idle(q1) && Entry(when, addr) in q1.timers
    ensures addr in q1.heap && q1.heap[addr] == Timer(when, period, repeat, q.created + 1) && q1.runs == q.runs
  {
    DoKeeps(q, Add(addr, when, period, repeat));
    InsertSorted(q.timers, Entry(when, addr));
    q1 := Do(q, Add(addr, when, period, repeat));
  }

  /** The event neither cancels the timer nor comes as late as its time. */
  ghost predicate Leaves(ev: Event, id: TimerId, when: int) {
    match ev
    case Act(c) => c != Cancel(id)
    case Read(now, scripts) => now < when && Spared(scripts, id)
  }

  lemma EventWaits(q: Queue, ev: Event, e: Entry)
    requires Idle(q) && LegalEvent(q, ev) && e in q.timers && Leaves(ev, IdOf(q, e), e.when)
    ensures var q' := Apply(q, ev); Idle(q') && e in q'.timers && SameTimer(q, q', e.addr)
    ensures Times(Apply(q, ev), q.heap[e.addr].sequence) == Times(q, q.heap[e.addr].sequence)
  {
    ApplyKeeps(q, ev);
    match ev
    case Act(c) =>
      DoWaits(q, c, e);
      DoUndisturbed(q, c);
    case Read(now, scripts) => WaitingTimer(q, now, scripts, e);
  }

  /** Through any number of such events a timer waits as it is, without being run. */
  lemma {:induction false} RunWaits(q: Queue, es: seq<Event>, e: Entry)
    requires Idle(q) && LegalRun(q, es) && e in q.timers
    requires forall i :: 0 <= i < |es| ==> Leaves(es[i], IdOf(q, e), e.when)
    ensures var q' := ApplyAll(q, es); Idle(q') && e in q'.timers && SameTimer(q, q', e.addr)
    ensures Times(ApplyAll(q, es), q.heap[e.addr].sequence) == Times(q, q.heap[e.addr].sequence)
    decreases |es|
  {
    if es != [] {
      EventWaits(q, es[0], e);
      RunWaits(Apply(q, es[0]), es[1..], e);
    }
  }

  /** Between two handlers, the timer t is queued at addr. */
  ghost predicate Waits(q: Queue, addr: nat, t: Timer) {
    Idle(q) && addr in q.heap && q.heap[addr] == t && Entry(t.expiration, addr) in q.timers
  }

  lemma WaitsUntilDue(q: Queue, addr: nat, t: Timer, now: int, scripts: seq<seq<Command>>)
    requires Waits(q, addr, t) && t.expiration <= now
    requires LegalRead(q, now, scripts) && Spared(scripts, TimerId(addr, t.sequence))
    ensures var q' := Handled(q, now, scripts);
      && Times(q', t.sequence) == Times(q, t.sequence) + 1
      && if t.repeat then Waits(q', addr, t.(expiration := now + t.period)) else t.sequence in q'.deleted
  {
    DueTimer(q, now, scripts, Entry(t.expiration, addr));
    HandleReadKeeps(q, now, scripts);
  }

  /** What was asked for at when, and is cancelled by nobody, does not run before: through any run with expiries earlier
      than that it waits. */
  lemma AddedWaits(q: Queue, addr: nat, when: int, period: nat, repeat: bool, es: seq<Event>) returns (q2: Queue)
    requires Idle(q) && addr !in q.heap && when > 0 && LegalRun(Do(q, Add(addr, when, period, repeat)), es)
    requires forall i :: 0 <= i < |es| ==> Leaves(es[i], TimerId(addr, q.created + 1), when)
    ensures q2 == ApplyAll(Do(q, Add(addr, when, period, repeat)), es)
    ensures Waits(q2, addr, Timer(when, period, repeat, q.created + 1))
    ensures Times(q2, q.created + 1) == Times(q, q.created + 1)
  {
    var q1 := AddedAsAsked(q, addr, when, period, repeat);
    RunWaits(q1, es, Entry(when, addr));
    q2 := ApplyAll(q1, es);
  }

  /** At the first expiry at or after when, its callback runs, once; then it is queued again one period later if it was
      asked to repeat, and is deleted otherwise. */
  lemma AddedRuns(q: Queue, addr: nat, when: int, period: nat, repeat: bool, es: seq<Event>, q2: Queue, now: int,
                  scripts: seq<seq<Command>>)
    requires Idle(q) && addr !in q.heap && 0 < when <= now && LegalRun(Do(q, Add(addr, when, period, repeat)), es)
    requires forall i :: 0 <= i < |es| ==> Leaves(es[i], TimerId(addr, q.created + 1), when)
    requires q2 == ApplyAll(Do(q, Add(addr, when, period, repeat)), es)
    requires LegalRead(q2, now, scripts) && Spared(scripts, TimerId(addr, q.created + 1))
    ensures var q', n := Handled(q2, now, scripts), q.created + 1;
      && Times(q', n) == Times(q, n) + 1
      && if repeat then Waits(q', addr, Timer(now + period, period, true, n)) else n in q'.deleted
  {
    var t := Timer(when, period, repeat, q.created + 1);
    var r := AddedWaits(q, addr, when, period, repeat, es);
    WaitsUntilDue(r, addr, t, now, scripts);
  }

  /** Neither the event nor a callback it runs cancels the id. */
  ghost predicate Uncancelled(ev: Event, id: TimerId) {
    match ev
    case Act(c) => c != Cancel(id)
    case Read(_, scripts) => Spared(scripts, id)
  }

  /** When a repeating timer is next due after an event, and how often it runs in it: at an expiry that is not earlier
      than its time it runs, and is due again a period later. */
  function Moved(when: int, period: nat, ev: Event): (int, nat) {
    if ev.Read? && when <= ev.now then (ev.now + period, 1) else (when, 0)
  }

  /** The same for any number of events. */
  function Schedule(when: int, period: nat, es: seq<Event>): (int, nat)
    decreases |es|
  {
    if es == [] then (when, 0)
    else
      var (w, k) := Moved(when, period, es[0]);
      var (next, n) := Schedule(w, period, es[1..]);
      (next, n + k)
  }

  lemma EventOnSchedule(q: Queue, ev: Event, addr: nat, t: Timer) returns (q': Queue, when: int, k: nat)
    requires Waits(q, addr, t) && t.repeat && LegalEvent(q, ev) && Uncancelled(ev, TimerId(addr, t.sequence))
    ensures q' == Apply(q, ev) && (when, k) == Moved(t.expiration, t.period, ev)
    ensures Waits(q', addr, t.(expiration := when)) && Times(q', t.sequence) == Times(q, t.sequence) + k
  {
    q' := Apply(q, ev);
    if ev.Read? && t.expiration <= ev.now {
      WaitsUntilDue(q, addr, t, ev.now, ev.scripts);
      when, k := ev.now + t.period, 1;
    } else {
      EventWaits(q, ev, Entry(t.expiration, addr));
      when, k := t.expiration, 0;
    }
  }

  ghost predicate AllUncancelled(es: seq<Event>, id: TimerId) {
    forall i :: 0 <= i < |es| ==> Uncancelled(es[i], id)
  }

  lemma FirstOnSchedule(q: Queue, es: seq<Event>, addr: nat, t: Timer) returns (q1: Queue, when: int, k: nat)
    requires es != [] && Waits(q, addr, t) && t.repeat && LegalRun(q, es)
    requires AllUncancelled(es, TimerId(addr, t.sequence))
    ensures LegalRun(q1, es[1..]) && AllUncancelled(es[1..], TimerId(addr, t.sequence))
    ensures ApplyAll(q, es) == ApplyAll(q1, es[1..]) && (when, k) == Moved(t.expiration, t.period, es[0])
    ensures Waits(q1, addr, t.(expiration := when)) && Times(q1, t.sequence) == Times(q, t.sequence) + k
  {
    q1, when, k := EventOnSchedule(q, es[0], addr, t);
  }

  /** After the events the timer is queued for when the schedule says, and has run as often as it says. */
  ghost predicate OnSchedule(q: Queue, es: seq<Event>, addr: nat, t: Timer, q': Queue) {
    var (next, n) := Schedule(t.expiration, t.period, es);
    Waits(q', addr, t.(expiration := next)) && Times(q', t.sequence) == Times(q, t.sequence) + n
  }

  /** In every run in which nobody cancels it, a repeating timer runs exactly on schedule. */
  lemma {:induction false} RepeatsOnSchedule(q: Queue, es: seq<Event>, addr: nat, t: Timer)
    requires Waits(q, addr, t) && t.repeat && LegalRun(q, es) && AllUncancelled(es, TimerId(addr, t.sequence))
    ensures OnSchedule(q, es, addr, t, ApplyAll(q, es))
    decreases |es|
  {
    if es != [] {
      var q1, when, k := FirstOnSchedule(q, es, addr, t);
      RepeatsOnSchedule(q1, es[1..], addr, t.(expiration := when));
    }
  }

  // ---------------------------------------------------------------- the timerfd

  ghost predicate NotSoon(q: Queue) { q.fd.armed ==> q.fd.deadline >= q.fd.armedAt + 100 }

  lemma {:induction false} DoAllNotSoon(q: Queue, cs: seq<Command>)
    requires NotSoon(q)
    ensures NotSoon(DoAll(q, cs))
    decreases |cs|
  {
    if cs != [] { DoAllNotSoon(Do(q, cs[0]), cs[1..]); }
  }

  lemma {:induction false} RunBatchNotSoon(q: Queue, es: seq<Entry>, scripts: seq<seq<Command>>)
    requires NotSoon(q)
    ensures NotSoon(RunBatch(q, es, scripts))
    decreases |es|
  {
    if es != [] && scripts != [] && es[0].addr in q.heap {
      var q1 := q.(runs := q.runs + [q.heap[es[0].addr].sequence]);
      DoAllNotSoon(q1, scripts[0]);
      RunBatchNotSoon(DoAll(q1, scripts[0]), es[1..], scripts[1..]);
    }
  }

  lemma {:induction false} ResetAllTimerfd(q: Queue, now: int)
    ensures ResetAll(q, now).fd == q.fd
    decreases |q.batch|
  {
    if q.batch != [] && q.batch[0].addr in q.heap {
      ResetAllTimerfd(ResetOne(q.(batch := q.batch[1..]), q.batch[0].addr, now), now);
    }
  }

  /** The timerfd is never armed for sooner than 100 microseconds; a non-empty queue has it expired, or armed no later
      than its earliest timer or 100 microseconds after it was armed. */
  ghost predicate Armed(q: Queue) {
    && NotSoon(q)
    && (q.timers == [] || q.fd.pending ||
        (q.fd.armed && (q.fd.deadline <= q.timers[0].when || q.fd.deadline == q.fd.armedAt + 100)))
  }

  lemma DoArmed(q: Queue, c: Command)
    requires Inv(q) && Legal(q, c) && Armed(q)
    ensures Armed(Do(q, c))
  {
    if c.Cancel? && c.id in q.active {
      var e := Entry(q.heap[c.id.addr].expiration, c.id.addr);
      EraseSorted(q.timers, e);
      var r := EraseEntry(q.timers, e);
      if r != [] {
        assert r[0] in r;
        var k :| 0 <= k < |q.timers| && q.timers[k] == r[0];
        assert q.timers[0].when <= r[0].when;
      }
    }
  }

  /** In every run the queue is consistent and its timerfd armed whenever control is back in the event loop. */
  lemma {:induction false} RunKeeps(q: Queue, es: seq<Event>)
    requires Idle(q) && Armed(q) && LegalRun(q, es)
    ensures Idle(ApplyAll(q, es)) && Armed(ApplyAll(q, es))
    decreases |es|
  {
    if es != [] {
      ApplyKeeps(q, es[0]);
      match es[0] {
        case Act(c) => DoArmed(q, c);
        case Read(now, scripts) => HandleReadArmed(q, now, scripts);
      }
      RunKeeps(Apply(q, es[0]), es[1..]);
    }
  }

  lemma HandleReadArmed(q: Queue, now: int, scripts: seq<seq<Command>>)
    requires Idle(Handled(q, now, scripts)) && NotSoon(q)
    ensures Armed(Handled(q, now, scripts))
  {
    var q' := Handled(q, now, scripts);
    RunBatchNotSoon(Expire(q, now), Expire(q, now).batch, scripts);
    ResetAllTimerfd(RunBatch(Expire(q, now), Expire(q, now).batch, scripts).(calling := false), now);
    if q'.timers != [] { assert q'.timers[0] in q'.timers; }
  }

  /** timers_ and activeTimers_ have the same size. */
  lemma SizesAgree(q: Queue)
    requires Consistent(q)
    ensures |q.timers| == |q.active|
  {
    IdsCount(q, q.timers);
    assert q.active == IdsOf(q, q.timers) by {
      forall id ensures id in q.active <==> id in IdsOf(q, q.timers) {
        assert id in q.active <==> Names(q, id) && Filed(q, q.timers, id.addr);
      }
    }
  }

  lemma NewIsNew(q: Queue, addr: nat, when: int)
    requires Consistent(q) && addr !in q.heap
    ensures Entry(when, addr) !in q.timers && TimerId(addr, q.created + 1) !in q.active && |q.timers| == |q.active|
  {
    SizesAgree(q);
  }

  lemma CancelSizes(q: Queue, id: TimerId)
    requires Consistent(q)
    ensures id in q.active ==> id.addr in q.heap && Entry(q.heap[id.addr].expiration, id.addr) in q.timers
    ensures |CancelTimer(q, id).timers| == |CancelTimer(q, id).active|
  {
    assert id in q.active <==> Names(q, id) && Filed(q, q.timers, id.addr);
    CancelConsistent(q, id);
    SizesAgree(CancelTimer(q, id));
  }

  lemma {:induction false} IdsCount(q: Queue, es: seq<Entry>)
    requires Sorted(es) && forall e :: e in es ==> e.addr in q.heap && q.heap[e.addr].expiration == e.when
    ensures |IdsOf(q, es)| == |es|
  {
    if es != [] {
      assert es[0] in es && forall e :: e in es[1..] ==> e in es;
      IdsCount(q, es[1..]);
      var id := TimerId(es[0].addr, q.heap[es[0].addr].sequence);
      assert IdsOf(q, es) == {id} + IdsOf(q, es[1..]);
      assert id !in IdsOf(q, es[1..]) by {
        forall e | e in es[1..] ensures e.addr != es[0].addr {
          var k :| 0 <= k < |es[1..]| && es[1..][k] == e;
          assert Before(es[0], es[k + 1]);
        }
      }
    }
  }

  /** Every run of a new queue: the invariants hold, the two sets have the same size, and every timer ever created is
      either alive and queued or has been deleted, exactly once. */
  lemma EveryRun(clock: int, es: seq<Event>)
    requires LegalRun(Fresh(clock), es)
    ensures var q := ApplyAll(Fresh(clock), es);
      && Idle(q) && Armed(q) && |q.timers| == |q.active|
      && forall n: nat {:trigger Live(q, n)} :: 1 <= n <= q.created ==>
        multiset(q.deleted)[n] == (if Live(q, n) then 0 else 1)
  {
    RunKeeps(Fresh(clock), es);
    var q := ApplyAll(Fresh(clock), es);
    SizesAgree(q);
    forall n: nat | 1 <= n <= q.created ensures multiset(q.deleted)[n] == (if Live(q, n) then 0 else 1) {
      assert n in q.deleted || Live(q, n);
      if n in q.deleted { DeletedOnce(q, n); }
    }
  }

  lemma DeletedOnce(q: Queue, n: nat)
    requires Numbered(q) && n in q.deleted
    ensures multiset(q.deleted)[n] == 1
  {
    var s := q.deleted;
    var k :| 0 <= k < |s| && s[k] == n;
    assert s == s[..k] + [s[k]] + s[k + 1..];
    assert n !in s[..k] && n !in s[k + 1..];
  }

  // ---------------------------------------------------------------- the object

  class Timers {
    var heap: map<nat, Timer>
    var timers: seq<Entry>
    var active: set<TimerId>
    var canceling: set<TimerId>
    var calling: bool
    var created: nat
    var clock: int
    var fd: Timerfd
    ghost var batch: seq<Entry>
    ghost var runs: seq<nat>
    ghost var deleted: seq<nat>

    ghost function View(): Queue
      reads this
    {
      Queue(heap, timers, active, canceling, calling, created, batch, runs, deleted, clock, fd)
    }

    constructor (now: int)
      ensures View() == Fresh(now)
    {
      heap, timers, active, canceling, calling, created, clock := map[], [], {}, {}, false, 0, now;
      fd := Timerfd(false, now, now, false);
      batch, runs, deleted := [], [], [];
    }

    method ResetTimerfd(expiration: int)
      modifies `fd
      ensures View() == Arm(old(View()), expiration)
    {
      var microseconds := expiration - clock;
      if microseconds < 100 { microseconds := 100; }
      fd := Timerfd(true, clock + microseconds, clock, false);
    }

    method Insert(addr: nat) returns (earliestChanged: bool)
      requires addr in heap
      modifies `timers, `active
      ensures (View(), earliestChanged) == Inserted(old(View()), addr)
    {
      earliestChanged := false;
      var when := heap[addr].expiration;
      if timers == [] || when < timers[0].when { earliestChanged := true; }
      timers := InsertEntry(timers, Entry(when, addr));
      active := active + {TimerId(addr, heap[addr].sequence)};
    }

    method AddTimerInLoop(addr: nat)
      requires addr in heap
      modifies `timers, `active, `fd
      ensures var (q, earliestChanged) := Inserted(old(View()), addr);
        View() == if earliestChanged then Arm(q, heap[addr].expiration) else q
    {
      var earliestChanged := Insert(addr);
      if earliestChanged { ResetTimerfd(heap[addr].expiration); }
    }

    /** addTimer in the loop thread; the source's asserts that both insertions are new hold. */
    method Add(addr: nat, when: int, period: nat, repeat: bool) returns (id: TimerId)
      requires Inv(View()) && addr !in heap
      modifies `heap, `timers, `active, `created, `fd
      ensures View() == AddTimer(old(View()), addr, when, period, repeat)
      ensures id == TimerId(addr, created) && id in active
    {
      assert Entry(when, addr) !in timers && TimerId(addr, created + 1) !in active by { NewIsNew(View(), addr, when); }
      id := Make(addr, when, period, repeat);
      AddTimerInLoop(addr);
    }

    method Make(addr: nat, when: int, period: nat, repeat: bool) returns (id: TimerId)
      modifies `heap, `created
      ensures created == old(created) + 1 && id == TimerId(addr, created)
      ensures heap == old(heap)[addr := Timer(when, period, repeat, created)]
    {
      created := created + 1;
      heap := heap[addr := Timer(when, period, repeat, created)];
      id := TimerId(addr, created);
    }

    /** cancelInLoop; the source's asserts hold: one entry is erased and the sizes stay equal. */
    method CancelInLoop(id: TimerId)
      requires Inv(View())
      modifies `heap, `timers, `active, `canceling, `deleted
      ensures View() == CancelTimer(old(View()), id)
      ensures |timers| == |active|
    {
      CancelSizes(View(), id);
      if id in active {
        var e := Entry(heap[id.addr].expiration, id.addr);
        assert e in timers;
        timers := EraseEntry(timers, e);
        deleted := deleted + [heap[id.addr].sequence];
        heap := heap - {id.addr};
        active := active - {id};
      } else if calling {
        canceling := canceling + {id};
      }
    }

    /** getExpired: moves the due timers out of both sets. */
    method GetExpired(now: int) returns (expired: seq<Entry>)
      requires Idle(View())
      modifies `timers, `active, `batch
      ensures expired == batch == old(timers)[..ExpiredCount(old(timers), now)]
      ensures View() == SplitAt(old(View()), ExpiredCount(old(timers), now))
    {
      ghost var q := View();
      var k := ExpiredCount(timers, now);
      assert k == |timers| || now < timers[k].when by { ExpiredSplit(timers, now); }
      expired := timers[..k];
      timers := timers[k..];
      for i := 0 to |expired|
        invariant active == q.active - IdsOf(q, expired[..i])
        invariant View() == q.(timers := q.timers[k..], active := active)
      {
        assert expired[i] in q.timers;
        var id := TimerId(expired[i].addr, heap[expired[i].addr].sequence);
        IdsOfNext(q, expired, i);
        active := active - {id};
      }
      assert expired[..|expired|] == expired;
      batch := expired;
    }

    /** One round of reset's loop. */
    method ResetTimer(addr: nat, now: int)
      requires batch != [] && batch[0].addr == addr && addr in heap
      modifies `heap, `timers, `active, `batch, `deleted
      ensures View() == ResetOne(old(View()).(batch := old(batch)[1..]), addr, now)
    {
      batch := batch[1..];
      if heap[addr].repeat && TimerId(addr, heap[addr].sequence) !in canceling {
        heap := heap[addr := heap[addr].(expiration := now + heap[addr].period)];
        var _ := Insert(addr);
      } else {
        deleted := deleted + [heap[addr].sequence];
        heap := heap - {addr};
      }
    }

    method Reset(expired: seq<Entry>, now: int)
      requires Inv(View()) && expired == batch && now > 0
      modifies `heap, `timers, `active, `batch, `deleted, `fd
      ensures batch == [] && View() == Rearm(ResetAll(old(View()), now))
    {
      ghost var q := View();
      for i := 0 to |expired|
        invariant Inv(View()) && batch == expired[i..]
        invariant ResetAll(View(), now) == ResetAll(q, now)
      {
        assert batch[0] in batch;
        var _ := ResetOneKeeps(View(), now);
        ResetTimer(expired[i].addr, now);
      }
      if timers != [] && timers[0].when > 0 { ResetTimerfd(timers[0].when); }
    }

    method Perform(c: Command)
      requires Inv(View()) && Legal(View(), c)
      modifies `heap, `timers, `active, `canceling, `created, `deleted, `clock, `fd
      ensures View() == Do(old(View()), c)
    {
      match c
      case Add(addr, when, period, repeat) => var _ := this.Add(addr, when, period, repeat);
      case Cancel(id) => CancelInLoop(id);
      case Pass(dt) =>
        clock := clock + dt;
        if fd.armed && fd.deadline <= clock { fd := fd.(armed := false, pending := true); }
    }

    /** A callback's calls into the queue. */
    method PerformAll(cs: seq<Command>)
      requires Inv(View()) && LegalAll(View(), cs)
      modifies `heap, `timers, `active, `canceling, `created, `deleted, `clock, `fd
      ensures View() == DoAll(old(View()), cs)
    {
      ghost var q := View();
      for i := 0 to |cs|
        invariant Inv(View()) && LegalAll(View(), cs[i..])
        invariant DoAll(View(), cs[i..]) == DoAll(q, cs)
      {
        assert cs[i..][0] == cs[i] && cs[i..][1..] == cs[i + 1..];
        DoKeeps(View(), cs[i]);
        Perform(cs[i]);
      }
    }

    method RunExpired(expired: seq<Entry>, scripts: seq<seq<Command>>)
      requires Inv(View()) && calling && expired == batch && LegalBatch(View(), expired, scripts)
      modifies this
      ensures View() == RunBatch(old(View()), expired, scripts)
      ensures batch == old(batch) && Inv(View())
    {
      ghost var q := View();
      for i := 0 to |expired|
        invariant Inv(View()) && calling && batch == expired && LegalBatch(View(), expired[i..], scripts[i..])
        invariant RunBatch(View(), expired[i..], scripts[i..]) == RunBatch(q, expired, scripts)
      {
        assert expired[i..][0] == expired[i] && expired[i..][1..] == expired[i + 1..];
        assert scripts[i..][0] == scripts[i] && scripts[i..][1..] == scripts[i + 1..];
        assert expired[i] in batch;
        ghost var was := View();
        runs := runs + [heap[expired[i].addr].sequence];
        SameQueue(was, View());
        DoAllKeeps(View(), scripts[i]);
        PerformAll(scripts[i]);
      }
    }

    method HandleRead(now: int, scripts: seq<seq<Command>>)
      requires Idle(View()) && LegalRead(View(), now, scripts)
      modifies this
      ensures View() == Handled(old(View()), now, scripts) && Idle(View())
    {
      ghost var q := View();
      HandleReadKeeps(q, now, scripts);
      ExpireKeeps(q, now);
      fd := fd.(pending := false);
      assert Idle(View()) by { SameQueue(q, View()); }
      var expired := GetExpired(now);
      calling := true;
      canceling := {};
      assert View() == Expire(q, now);
      RunExpired(expired, scripts);
      SameQueue(View(), View().(calling := false));
      calling := false;
      Reset(expired, now);
    }
  }

  lemma IdsOfNext(q: Queue, es: seq<Entry>, i: nat)
    requires i < |es| && es[i].addr in q.heap
    ensures IdsOf(q, es[..i + 1]) == IdsOf(q, es[..i]) + {TimerId(es[i].addr, q.heap[es[i].addr].sequence)}
  {
    assert es[..i + 1] == es[..i] + [es[i]];
  }
}
