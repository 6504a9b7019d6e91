/** The sliding window of the Sudoku server's statistics: two circular buffers of one slot per second that must agree
    with the full history of responses. */
module SudokuStat {

  const SECONDS: nat := 60

  /** One response as it is recorded: the second it was sent in, and its latency in microseconds. */
  datatype Response = Response(second: int, elapsed: int)

  /** history: all responses with a latency that is not negative, since the last reset. */
  datatype Stat = Stat(
    lastSecond: int,
    requests: seq<int>,
    latencies: seq<int>,
    totalResponses: int,
    totalSolved: int,
    totalLatency: int,
    badLatency: int,
    history: seq<Response>)

  function Fresh(): Stat { Stat(0, [], [], 0, 0, 0, 0, []) }

  // ---------------------------------------------------------------- the history

  function Count(h: seq<Response>, second: int): int {
    if h == [] then 0 else Count(h[..|h| - 1], second) + (if h[|h| - 1].second == second then 1 else 0)
  }

  function Latency(h: seq<Response>, second: int): int {
    if h == [] then 0
    else Latency(h[..|h| - 1], second) + (if h[|h| - 1].second == second then h[|h| - 1].elapsed else 0)
  }

  function TotalLatency(h: seq<Response>): int {
    if h == [] then 0 else TotalLatency(h[..|h| - 1]) + h[|h| - 1].elapsed
  }

  // ---------------------------------------------------------------- the code

  /** push_back of a circular buffer: the oldest slot makes room. */
  function Push(s: seq<int>, x: int): seq<int> { if |s| >= SECONDS then s[1..] + [x] else s + [x] }

  /** A slot for the next second. */
  function Open(s: Stat): Stat {
    s.(lastSecond := s.lastSecond + 1, requests := Push(s.requests, 0), latencies := Push(s.latencies, 0))
  }

  function OpenUntil(s: Stat, second: int): Stat
    decreases second - s.lastSecond
  {
    if second <= s.lastSecond then s else OpenUntil(Open(s), second)
  }

  /** One slot only, for this second. */
  function StartAt(s: Stat, second: int): Stat { s.(lastSecond := second, requests := [0], latencies := [0]) }

  function Bump(s: Stat, idx: int, elapsed: int): Stat
    requires 0 <= idx < |s.requests| == |s.latencies|
  {
    s.(requests := s.requests[idx := s.requests[idx] + 1], latencies := s.latencies[idx := s.latencies[idx] + elapsed])
  }

  function FirstSecond(s: Stat): int { s.lastSecond - |s.requests| + 1 }

  /** The window as it is when the response is counted. */
  function Moved(s: Stat, second: int): Stat {
    if s.lastSecond == 0 then StartAt(s, second)
    else if second <= s.lastSecond then s
    else if second < s.lastSecond + SECONDS then OpenUntil(s, second)
    else StartAt(s, second)
  }

  /** The response in the history, and in its slot if it has one. */
  function Counted(s: Stat, r: Response): Stat {
    var s1 := s.(history := s.history + [r], totalLatency := s.totalLatency + r.elapsed);
    var idx := r.second - FirstSecond(s);
    if 0 <= idx < |s.requests| == |s.latencies| then Bump(s1, idx, r.elapsed) else s1
  }

  /** recordResponse with a latency that is not negative */
  function Recorded(s: Stat, r: Response): Stat {
    Counted(Moved(s, r.second), r)
  }

  function Record(s: Stat, r: Response, solved: bool): Stat {
    var s1 := s.(totalResponses := s.totalResponses + 1, totalSolved := s.totalSolved + if solved then 1 else 0);
    if r.elapsed < 0 then s1.(badLatency := s.badLatency + 1) else Recorded(s1, r)
  }

  // ---------------------------------------------------------------- invariant

  /** Slot i is for second FirstSecond + i, and holds exactly what the history has for that second. */
  ghost predicate SlotExact(s: Stat, i: nat)
    requires i < |s.requests| == |s.latencies|
  {
    && s.requests[i] == Count(s.history, FirstSecond(s) + i)
    && s.latencies[i] == Latency(s.history, FirstSecond(s) + i)
  }

  ghost predicate Exact(s: Stat) {
    && |s.requests| == |s.latencies|
    && forall i: nat {:trigger s.requests[i]} {:trigger SlotExact(s, i)} :: i < |s.requests| ==> SlotExact(s, i)
  }

  ghost predicate Bounded(s: Stat) { forall r :: r in s.history ==> 0 < r.second <= s.lastSecond }

  ghost predicate Inv(s: Stat) {
    && |s.requests| == |s.latencies| <= SECONDS
    && (s.lastSecond == 0 ==> s.requests == [])
    && (s.lastSecond != 0 ==> s.requests != [] && s.lastSecond > 0)
    && Bounded(s) && Exact(s)
    && s.totalLatency == TotalLatency(s.history)
  }

  /** Nothing has been recorded for a second after the last. */
  lemma {:induction false} NothingLater(h: seq<Response>, second: int)
    requires forall r :: r in h ==> r.second != second
    ensures Count(h, second) == 0 && Latency(h, second) == 0
  {
    if h != [] {
      assert h[|h| - 1] in h;
      NothingLater(h[..|h| - 1], second);
    }
  }

  lemma OpenKeeps(s: Stat)
    requires Inv(s) && s.lastSecond > 0
    ensures Inv(Open(s)) && FirstSecond(s) <= FirstSecond(Open(s))
  {
    var s' := Open(s);
    NothingLater(s.history, s'.lastSecond);
    forall i: nat | i < |s'.requests| ensures SlotExact(s', i) {
      var j := i + FirstSecond(s') - FirstSecond(s);
      if j < |s.requests| {
        assert SlotExact(s, j) && s'.requests[i] == s.requests[j] && s'.latencies[i] == s.latencies[j];
      }
    }
  }

  lemma {:induction false} OpenUntilKeeps(s: Stat, second: int)
    requires Inv(s) && s.lastSecond > 0
    ensures var s' := OpenUntil(s, second); Inv(s') && s'.history == s.history && s'.totalLatency == s.totalLatency
    ensures OpenUntil(s, second).lastSecond == if second <= s.lastSecond then s.lastSecond else second
    decreases second - s.lastSecond
  {
    if second > s.lastSecond {
      OpenKeeps(s);
      OpenUntilKeeps(Open(s), second);
    }
  }

  lemma MovedKeeps(s: Stat, second: int)
    requires Inv(s) && second > 0
    ensures var s' := Moved(s, second);
      Inv(s') && s'.history == s.history && s'.totalLatency == s.totalLatency && s'.requests != [] &&
        second <= s'.lastSecond
    ensures s.lastSecond < second ==> Moved(s, second).lastSecond == second
  {
    if s.lastSecond != 0 && s.lastSecond < second < s.lastSecond + SECONDS { OpenUntilKeeps(s, second); }
    NothingLaterOrSlot(s, second);
  }

  lemma NothingLaterOrSlot(s: Stat, second: int)
    requires Inv(s)
    ensures second > s.lastSecond ==> Count(s.history, second) == 0 && Latency(s.history, second) == 0
  {
    if second > s.lastSecond { NothingLater(s.history, second); }
  }

  type Tracked = s: Stat | Inv(s) ghost witness Fresh()

  lemma CountSnoc(h: seq<Response>, r: Response, second: int)
    ensures Count(h + [r], second) == Count(h, second) + if r.second == second then 1 else 0
    ensures Latency(h + [r], second) == Latency(h, second) + if r.second == second then r.elapsed else 0
    ensures TotalLatency(h + [r]) == TotalLatency(h) + r.elapsed
  {
    assert (h + [r])[..|h|] == h;
  }

  /** The slot of the response's second gains the response. */
  lemma CountedSlot(s: Stat, r: Response, i: nat)
    requires Exact(s) && i < |s.requests| && r.second == FirstSecond(s) + i
    ensures var s' := Counted(s, r); |s'.requests| == |s'.latencies| == |s.requests| && SlotExact(s', i)
  {
    CountSnoc(s.history, r, FirstSecond(s) + i);
  }

  lemma OtherSlot(s: Stat, r: Response, i: nat)
    requires Exact(s) && i < |s.requests| && r.second != FirstSecond(s) + i
    ensures var s' := Counted(s, r); |s'.requests| == |s'.latencies| == |s.requests| && SlotExact(s', i)
  {
    CountSnoc(s.history, r, FirstSecond(s) + i);
    assert SlotExact(s, i);
  }

  lemma CountedExact(s: Stat, r: Response)
    requires Exact(s)
    ensures Exact(Counted(s, r))
  {
    forall i | 0 <= i < |Counted(s, r).requests| ensures SlotExact(Counted(s, r), i) {
      if r.second == FirstSecond(s) + i { CountedSlot(s, r, i); } else { OtherSlot(s, r, i); }
    }
  }

  /** The slot of the response is counted up; other slots and seconds are not touched. */
  lemma CountedKeeps(s: Stat, r: Response) returns (s': Tracked)
    requires Inv(s) && s.requests != [] && 0 < r.second <= s.lastSecond
    ensures s' == Counted(s, r)
  {
    CountedExact(s, r);
    CountSnoc(s.history, r, 0);
    s' := Counted(s, r);
  }

  lemma SameWindow(s: Stat, s': Stat)
    requires Inv(s) &&
      s' == s.(totalResponses := s'.totalResponses, totalSolved := s'.totalSolved, badLatency := s'.badLatency)
    ensures Inv(s')
  {
  }

  lemma RecordKeeps(s: Stat, r: Response, solved: bool) returns (s': Tracked)
    requires Inv(s) && r.second > 0
    ensures s' == Record(s, r, solved)
  {
    var s1 := s.(totalResponses := s.totalResponses + 1, totalSolved := s.totalSolved + if solved then 1 else 0);
    SameWindow(s, s1);
    if r.elapsed >= 0 {
      MovedKeeps(s1, r.second);
      s' := CountedKeeps(Moved(s1, r.second), r);
    } else {
      SameWindow(s1, s1.(badLatency := s.badLatency + 1));
      s' := s1.(badLatency := s.badLatency + 1);
    }
  }

  // ---------------------------------------------------------------- whole runs

  datatype Event = Respond(response: Response, solved: bool) | Reset

  function Apply(s: Stat, e: Event): Stat {
    match e
    case Respond(r, solved) => Record(s, r, solved)
    case Reset => Fresh()
  }

  function ApplyAll(s: Stat, es: seq<Event>): Stat {
    if es == [] then s else Apply(ApplyAll(s, es[..|es| - 1]), es[|es| - 1])
  }

  /** The responses with a latency that is not negative after the last reset, in order. */
  function Since(es: seq<Event>): seq<Response> {
    if es == [] then []
    else match es[|es| - 1]
      case Reset => []
      case Respond(r, _) => Since(es[..|es| - 1]) + (if r.elapsed < 0 then [] else [r])
  }

  /** How many responses came after the last reset, how many of them solved, and how many with a negative latency. */
  function Tallies(es: seq<Event>): (int, int, int) {
    if es == [] then (0, 0, 0)
    else match es[|es| - 1]
      case Reset => (0, 0, 0)
      case Respond(r, solved) =>
        var (n, ok, bad) := Tallies(es[..|es| - 1]);
        (n + 1, ok + (if solved then 1 else 0), bad + (if r.elapsed < 0 then 1 else 0))
  }

  function Totals(s: Stat): (int, int, int) { (s.totalResponses, s.totalSolved, s.badLatency) }

  /** The totals count every response, those outside the window included. */
  lemma {:induction false} TotalsAreExact(es: seq<Event>)
    ensures Totals(ApplyAll(Fresh(), es)) == Tallies(es)
    decreases |es|
  {
    if es != [] {
      var n := |es| - 1;
      TotalsAreExact(es[..n]);
      if es[n].Respond? { MovedTotals(ApplyAll(Fresh(), es[..n]), es[n].response, es[n].solved); }
    }
  }

  lemma MovedTotals(s: Stat, r: Response, solved: bool)
    ensures Totals(Record(s, r, solved)) ==
      (s.totalResponses + 1, s.totalSolved + (if solved then 1 else 0), s.badLatency + (if r.elapsed < 0 then 1 else 0))
  {
    OpenTotals(s.(totalResponses := s.totalResponses + 1, totalSolved := s.totalSolved + if solved then 1 else 0),
      r.second);
  }

  lemma {:induction false} OpenTotals(s: Stat, second: int)
    ensures Totals(OpenUntil(s, second)) == Totals(s)
    decreases second - s.lastSecond
  {
    if second > s.lastSecond { OpenTotals(Open(s), second); }
  }

  ghost predicate Positive(es: seq<Event>) { forall e :: e in es && e.Respond? ==> e.response.second > 0 }

  lemma RecordHistory(s: Stat, r: Response, solved: bool)
    requires Inv(s) && r.second > 0
    ensures Record(s, r, solved).history == s.history + if r.elapsed < 0 then [] else [r]
  {
    if r.elapsed >= 0 {
      MovedKeeps(s.(totalResponses := s.totalResponses + 1, totalSolved := s.totalSolved + if solved then 1 else 0),
        r.second);
    }
  }

  /** After any sequence of responses and resets, each slot of the window holds the exact count and latency sum of all
      responses recorded for its second, however the seconds jump forward and back. */
  lemma {:induction false} WindowIsExact(es: seq<Event>)
    requires Positive(es)
    ensures var s := ApplyAll(Fresh(), es); Inv(s) && s.history == Since(es)
    decreases |es|
  {
    if es != [] {
      var n := |es| - 1;
      assert es[n] in es && forall e :: e in es[..n] ==> e in es;
      WindowIsExact(es[..n]);
      var s := ApplyAll(Fresh(), es[..n]);
      match es[n]
      case Respond(r, solved) =>
        var _ := RecordKeeps(s, r, solved);
        RecordHistory(s, r, solved);
      case Reset =>
    }
  }

  // ---------------------------------------------------------------- which seconds there are

  function Max(a: int, b: int): int { if a >= b then a else b }

  /** The seconds of a window that held first to last, after a response in this second: it grows to that second, loses
      what is sixty seconds older, starts over after a pause of a minute, and does not grow backwards. */
  function Spanning(first: int, last: int, second: int): (int, int) {
    if last == 0 || second >= last + 60 then (second, second)
    else if second <= last then (first, last)
    else (Max(first, second - 59), second)
  }

  lemma {:induction false} OpenSpans(s: Stat, second: int)
    requires |s.requests| <= SECONDS && s.lastSecond <= second
    ensures var s' := OpenUntil(s, second);
      |s'.requests| == if |s.requests| + second - s.lastSecond < 60 then |s.requests| + second - s.lastSecond
        else if second == s.lastSecond then |s.requests| else 60
    decreases second - s.lastSecond
  {
    if second > s.lastSecond { OpenSpans(Open(s), second); }
  }

  lemma MovedSpans(s: Stat, second: int)
    requires Inv(s) && second > 0
    ensures var w := Moved(s, second);
      (FirstSecond(w), w.lastSecond) == Spanning(FirstSecond(s), s.lastSecond, second)
  {
    if 0 < s.lastSecond < second < s.lastSecond + 60 {
      OpenUntilKeeps(s, second);
      OpenSpans(s, second);
    }
  }

  /** Recording a response leaves exactly these seconds; one with a negative latency leaves the window alone. */
  lemma RecordSpans(s: Stat, r: Response, solved: bool)
    requires Inv(s) && r.second > 0
    ensures var s' := Record(s, r, solved);
      (FirstSecond(s'), s'.lastSecond) ==
        if r.elapsed < 0 then (FirstSecond(s), s.lastSecond) else Spanning(FirstSecond(s), s.lastSecond, r.second)
  {
    if r.elapsed >= 0 {
      var s1 := s.(totalResponses := s.totalResponses + 1, totalSolved := s.totalSolved + if solved then 1 else 0);
      SameWindow(s, s1);
      MovedSpans(s1, r.second);
    }
  }

  /** The number of slots: one more per second up to sixty, one after a pause of a minute, else unchanged. */
  lemma SlotsAfter(s: Stat, r: Response, solved: bool)
    requires Inv(s) && r.second > 0 && r.elapsed >= 0
    ensures var n, ahead := |Record(s, r, solved).requests|, r.second - s.lastSecond;
      if s.lastSecond == 0 || ahead >= 60 then n == 1
      else if ahead <= 0 then n == |s.requests|
      else n == if |s.requests| + ahead < 60 then |s.requests| + ahead else 60
  {
    RecordSpans(s, r, solved);
  }

  /** The first and the last second that have a slot, computed from the responses and resets alone. */
  function Span(es: seq<Event>): (int, int) {
    if es == [] then (1, 0)
    else match es[|es| - 1]
      case Reset => (1, 0)
      case Respond(r, _) =>
        var (first, last) := Span(es[..|es| - 1]);
        if r.elapsed < 0 then (first, last) else Spanning(first, last, r.second)
  }

  /** After any sequence of responses and resets the window has exactly these slots. */
  lemma {:induction false} WindowSpans(es: seq<Event>)
    requires Positive(es)
    ensures var s := ApplyAll(Fresh(), es); (FirstSecond(s), s.lastSecond) == Span(es)
    decreases |es|
  {
    if es != [] {
      var n := |es| - 1;
      assert es[n] in es && forall e :: e in es[..n] ==> e in es;
      WindowIsExact(es[..n]);
      WindowSpans(es[..n]);
      if es[n].Respond? { RecordSpans(ApplyAll(Fresh(), es[..n]), es[n].response, es[n].solved); }
    }
  }

  /** A response is counted in a slot exactly when the window is new or its second is not before the first slot's; in
      that slot, and in no other. */
  lemma DiscardedIffOld(s: Stat, r: Response)
    requires Inv(s) && r.second > 0 && r.elapsed >= 0
    ensures Recorded(s, r).requests != Moved(s, r.second).requests <==>
      s.lastSecond == 0 || FirstSecond(s) <= r.second
    ensures r.second <= s.lastSecond ==>
      (Recorded(s, r).requests != s.requests <==> FirstSecond(s) <= r.second)
  {
    MovedKeeps(s, r.second);
    MovedSpans(s, r.second);
    var w := Moved(s, r.second);
    var idx := r.second - FirstSecond(w);
    if 0 <= idx < |w.requests| { assert Recorded(s, r).requests[idx] == w.requests[idx] + 1; }
  }

  // ---------------------------------------------------------------- the object

  class Statistics {
    var lastSecond: int
    var requests: seq<int>
    var latencies: seq<int>
    var totalResponses: int
    var totalSolved: int
    var totalLatency: int
    var badLatency: int
    ghost var history: seq<Response>

    ghost function View(): Stat
      reads this
    {
      Stat(lastSecond, requests, latencies, totalResponses, totalSolved, totalLatency, badLatency, history)
    }

    constructor ()
      ensures View() == Fresh()
    {
      lastSecond, requests, latencies := 0, [], [];
      totalResponses, totalSolved, totalLatency, badLatency := 0, 0, 0, 0;
      history := [];
    }

    method ReSet()
      modifies this
      ensures View() == Fresh()
    {
      lastSecond, requests, latencies := 0, [], [];
      totalResponses, totalSolved, totalLatency, badLatency := 0, 0, 0, 0;
      history := [];
    }

    /** Moves the window forward. */
    method JumpAhead(second: int)
      requires Inv(View()) && 0 < lastSecond < second
      modifies `lastSecond, `requests, `latencies
      ensures View() == Moved(old(View()), second)
    {
      ghost var s := View();
      if second < lastSecond + SECONDS {
        while lastSecond < second
          invariant OpenUntil(View(), second) == OpenUntil(s, second)
          decreases second - lastSecond
        {
          requests, latencies := Push(requests, 0), Push(latencies, 0);
          lastSecond := lastSecond + 1;
        }
      } else {
        requests, latencies := [], [];
        lastSecond := second;
        requests, latencies := Push(requests, 0), Push(latencies, 0);
      }
    }

    method Add(idx: int, elapsed: int)
      requires 0 <= idx < |requests| == |latencies|
      modifies `requests, `latencies
      ensures View() == Bump(old(View()), idx, elapsed)
    {
      requests := requests[idx := requests[idx] + 1];
      latencies := latencies[idx := latencies[idx] + elapsed];
    }

    /** The slot the response belongs to, after the window has moved to hold it; -1 for a second before the window. */
    method FindSlot(second: int) returns (idx: int)
      requires Inv(View()) && second > 0
      modifies `lastSecond, `requests, `latencies
      ensures View() == Moved(old(View()), second)
      ensures idx == if second < FirstSecond(View()) then -1 else second - FirstSecond(View())
      ensures -1 <= idx < |requests| == |latencies|
    {
      ghost var s := View();
      MovedKeeps(s, second);
      var firstSecond := lastSecond - |requests| + 1;
      if lastSecond == second {
        idx := |requests| - 1;
      } else if lastSecond + 1 == second || lastSecond == 0 {
        assert second == lastSecond + 1 ==> OpenUntil(Open(s), second) == Open(s);
        lastSecond := second;
        requests, latencies := Push(requests, 0), Push(latencies, 0);
        idx := |requests| - 1;
      } else if second > lastSecond {
        JumpAhead(second);
        idx := |requests| - 1;
      } else if second >= firstSecond {
        idx := second - firstSecond;
        assert idx < |requests|;
      } else {
        assert second < firstSecond;
        idx := -1;
      }
    }

    /** recordResponse, after the totals. */
    method Tally(second: int, elapsed: int)
      requires Inv(View()) && second > 0 && elapsed >= 0
      modifies `lastSecond, `requests, `latencies, `totalLatency, `history
      ensures View() == Recorded(old(View()), Response(second, elapsed))
    {
      var idx := FindSlot(second);
      totalLatency := totalLatency + elapsed;
      history := history + [Response(second, elapsed)];
      if idx >= 0 { Add(idx, elapsed); }
    }

    /** now, receive: microseconds since the epoch */
    method RecordResponse(now: int, receive: int, solved: bool)
      requires Inv(View()) && now >= 1000000
      modifies this
      ensures Inv(View()) && View() == Record(old(View()), Response(now / 1000000, now - receive), solved)
    {
      RecordAt(now / 1000000, now - receive, solved);
    }

    method Total(solved: bool)
      modifies `totalResponses, `totalSolved
      ensures totalResponses == old(totalResponses) + 1
      ensures totalSolved == old(totalSolved) + if solved then 1 else 0
    {
      totalResponses := totalResponses + 1;
      if solved { totalSolved := totalSolved + 1; }
    }

    method RecordAt(second: int, elapsed: int, solved: bool)
      requires Inv(View()) && second > 0
      modifies this
      ensures Inv(View()) && View() == Record(old(View()), Response(second, elapsed), solved)
    {
      ghost var s := View();
      ghost var s' := RecordKeeps(s, Response(second, elapsed), solved);
      Total(solved);
      SameWindow(s, View());
      if elapsed < 0 {
        badLatency := badLatency + 1;
      } else {
        Tally(second, elapsed);
      }
      assert View() == s';
    }
  }
}
