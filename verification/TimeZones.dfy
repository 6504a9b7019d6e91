/** Time zones as tables of transitions: conversion to and from local time across skipped and repeated hours. */
module TimeZones {
  import opened Calendar

  datatype LocalTime = LocalTime(utcOffset: int, isDst: bool, desigIdx: int)

  datatype Transition = Transition(utctime: int, localtime: int, localtimeIdx: nat)

  datatype Zone = Zone(transitions: seq<Transition>, localtimes: seq<LocalTime>)

  // ---------------------------------------------------------------- the table

  function AddLocalTime(z: Zone, lt: LocalTime): Zone { z.(localtimes := z.localtimes + [lt]) }

  function AddTransition(z: Zone, utctime: int, idx: nat): Zone
    requires idx < |z.localtimes|
  {
    z.(transitions := z.transitions + [Transition(utctime, utctime + z.localtimes[idx].utcOffset, idx)])
  }

  /** What loading a table leaves: some local time, and transitions that carry their own local time. */
  ghost predicate WellFormed(z: Zone) {
    && z.localtimes != []
    && forall i :: 0 <= i < |z.transitions| ==>
         z.transitions[i].localtimeIdx < |z.localtimes| &&
         z.transitions[i].localtime == z.transitions[i].utctime + z.localtimes[z.transitions[i].localtimeIdx].utcOffset
  }

  lemma AddingKeeps(z: Zone, lt: LocalTime, utctime: int, idx: nat)
    requires WellFormed(z)
    ensures WellFormed(AddLocalTime(z, lt))
    ensures idx < |z.localtimes| ==> WellFormed(AddTransition(z, utctime, idx))
  {
  }

  // ---------------------------------------------------------------- the searches

  /** upper_bound by UTC time, from index k on */
  function UpperUtc(ts: seq<Transition>, t: int, k: nat): (r: nat)
    requires k <= |ts|
    ensures k <= r <= |ts|
    decreases |ts| - k
  {
    if k == |ts| || t < ts[k].utctime then k else UpperUtc(ts, t, k + 1)
  }

  /** upper_bound by local time, from index k on */
  function UpperLocal(ts: seq<Transition>, l: int, k: nat): (r: nat)
    requires k <= |ts|
    ensures k <= r <= |ts|
    decreases |ts| - k
  {
    if k == |ts| || l < ts[k].localtime then k else UpperLocal(ts, l, k + 1)
  }

  type Table = z: Zone | WellFormed(z) ghost witness Zone([], [LocalTime(0, false, 0)])

  /** The local time that transition i starts. */
  function Starts(z: Table, i: nat): LocalTime
    requires i < |z.transitions|
  {
    z.localtimes[z.transitions[i].localtimeIdx]
  }

  /** findLocalTime for a UTC time */
  function FindUtc(z: Table, t: int): LocalTime {
    var ts := z.transitions;
    if ts == [] || t < ts[0].utctime then z.localtimes[0]
    else
      var k := UpperUtc(ts, t, 0);
      if 0 < k < |ts| then Starts(z, k - 1) else Starts(z, |ts| - 1)
  }

  /** The last local second before transition k, if transition i is in force until then. */
  function PriorSecond(z: Table, k: nat, i: nat): int
    requires k < |z.transitions| && i < |z.transitions|
  {
    z.transitions[k].utctime - 1 + Starts(z, i).utcOffset
  }

  /** findLocalTime for a local time.  Just before the second transition the code compares with the prior second of the
      second transition, not of the first. */
  function FindLocal(z: Table, l: int, postTransition: bool): LocalTime {
    var ts := z.transitions;
    if ts == [] || l < ts[0].localtime then z.localtimes[0]
    else
      var k := UpperLocal(ts, l, 0);
      if k == 0 || k == |ts| then Starts(z, |ts| - 1)
      else if PriorSecond(z, k, k - 1) < l then Starts(z, if postTransition then k else k - 1)
      else
        var j := k - 1;
        var (prior, second) := if j != 0 then (j - 1, PriorSecond(z, j, j - 1)) else (k - 1, PriorSecond(z, k, k - 1));
        if l <= second then Starts(z, if postTransition then j else prior)
        else Starts(z, j)
  }

  function LocalSeconds(z: Table, t: int): int { t + FindUtc(z, t).utcOffset }

  function ToLocalTime(z: Table, t: int): DateTime { BreakTime(LocalSeconds(z, t)) }

  /** A local time in seconds, converted back. */
  function Back(z: Table, l: int, postTransition: bool): int { l - FindLocal(z, l, postTransition).utcOffset }

  function FromLocalTime(z: Table, dt: DateTime, postTransition: bool): int {
    Back(z, FromUtcTime(dt), postTransition)
  }

  // ---------------------------------------------------------------- segments

  /** The offset after transition i; -1 stands for the time before the first. */
  function Off(z: Table, i: int): int
    requires -1 <= i < |z.transitions|
  {
    if i == -1 then z.localtimes[0].utcOffset else Starts(z, i).utcOffset
  }

  function Utc(z: Table, i: nat): int
    requires i < |z.transitions|
  {
    z.transitions[i].utctime
  }

  function Local(z: Table, i: nat): int
    requires i < |z.transitions|
  {
    z.transitions[i].localtime
  }

  ghost predicate Sorted(z: Table) {
    forall i, j :: 0 <= i < j < |z.transitions| ==> Utc(z, i) < Utc(z, j) && Local(z, i) < Local(z, j)
  }

  function Min(a: int, b: int): int { if a <= b then a else b }

  /** Transitions i and i + 1 are so far apart that the clock just before i is behind the clock on both sides of
      i + 1. */
  ghost predicate Apart(z: Table, i: nat)
    requires i + 1 < |z.transitions|
  {
    Utc(z, i) + Off(z, i - 1) <= Utc(z, i + 1) + Min(Off(z, i), Off(z, i + 1))
  }

  ghost predicate Regular(z: Table) {
    Sorted(z) && forall i: nat :: i + 1 < |z.transitions| ==> Apart(z, i)
  }

  function Abs(x: int): int { if x < 0 then -x else x }

  /** Transitions further apart than both their offset changes together are far enough apart. */
  lemma FurtherApart(z: Table, i: nat)
    requires i + 1 < |z.transitions|
    requires Utc(z, i + 1) - Utc(z, i) >= Abs(Off(z, i) - Off(z, i - 1)) + Abs(Off(z, i + 1) - Off(z, i))
    ensures Apart(z, i)
  {
  }

  /** The transition in force at t; -1 before the first. */
  function Segment(z: Table, t: int): (i: int)
    ensures -1 <= i < |z.transitions|
  {
    UpperUtc(z.transitions, t, 0) - 1
  }

  lemma {:induction false} UpperUtcIs(z: Table, t: int, k: nat)
    requires Sorted(z) && k <= |z.transitions| && (k == 0 || Utc(z, k - 1) <= t)
    ensures var r := UpperUtc(z.transitions, t, k);
      (r == 0 || Utc(z, r - 1) <= t) && (r < |z.transitions| ==> t < Utc(z, r))
    decreases |z.transitions| - k
  {
    if k < |z.transitions| && Utc(z, k) <= t { UpperUtcIs(z, t, k + 1); }
  }

  lemma {:induction false} UpperLocalIs(z: Table, l: int, k: nat, r: nat)
    requires Sorted(z) && k <= r <= |z.transitions|
    requires (r == 0 || Local(z, r - 1) <= l) && (r < |z.transitions| ==> l < Local(z, r))
    ensures UpperLocal(z.transitions, l, k) == r
    decreases r - k
  {
    if k < r {
      assert k < r - 1 ==> Local(z, k) < Local(z, r - 1);
      UpperLocalIs(z, l, k + 1, r);
    }
  }

  lemma SegmentIs(z: Table, t: int)
    requires Sorted(z)
    ensures var i := Segment(z, t);
      && (i >= 0 ==> Utc(z, i) <= t) && (i + 1 < |z.transitions| ==> t < Utc(z, i + 1))
      && FindUtc(z, t).utcOffset == Off(z, i)
  {
    UpperUtcIs(z, t, 0);
    var i := Segment(z, t);
    if i > 0 { assert Utc(z, 0) < Utc(z, i); }
  }

  // ---------------------------------------------------------------- repeats

  /** t's local time comes again after the next transition. */
  ghost predicate ComesAgain(z: Table, t: int) {
    var i := Segment(z, t);
    i + 1 < |z.transitions| && t + Off(z, i) >= Local(z, i + 1)
  }

  /** t's local time has been before the last transition. */
  ghost predicate HasBeen(z: Table, t: int) {
    var i := Segment(z, t);
    i >= 0 && t + Off(z, i) < Utc(z, i) + Off(z, i - 1)
  }

  lemma NotBoth(z: Table, t: int)
    requires Regular(z)
    ensures !(ComesAgain(z, t) && HasBeen(z, t))
  {
    var i := Segment(z, t);
    if i >= 0 && i + 1 < |z.transitions| { assert Apart(z, i); }
  }

  /** What the search finds for the local time of t when that does not come again. */
  lemma FindLast(z: Table, t: int, post: bool)
    requires Regular(z) && !ComesAgain(z, t)
    ensures var i := Segment(z, t);
      FindLocal(z, t + Off(z, i), post).utcOffset ==
        if HasBeen(z, t) && !post && 0 < i < |z.transitions| - 1 then Off(z, i - 1) else Off(z, i)
  {
    SegmentIs(z, t);
    var i := Segment(z, t);
    if i >= 0 {
      UpperLocalIs(z, t + Off(z, i), 0, i + 1);
      if i > 0 { assert Local(z, 0) < Local(z, i); }
    }
  }

  /** What it finds when that comes again. */
  lemma FindAgain(z: Table, t: int, post: bool)
    requires Regular(z) && ComesAgain(z, t)
    ensures var i := Segment(z, t);
      FindLocal(z, t + Off(z, i), post).utcOffset ==
        if !post && 0 <= i < |z.transitions| - 2 then Off(z, i) else Off(z, i + 1)
    ensures Off(z, Segment(z, t) + 1) < Off(z, Segment(z, t))
  {
    SegmentIs(z, t);
    var i := Segment(z, t);
    if i + 2 < |z.transitions| { assert Apart(z, i + 1); }
    UpperLocalIs(z, t + Off(z, i), 0, i + 2);
    if i >= 0 { assert Local(z, 0) < Local(z, i + 1); }
  }

  /** The search by local time finds the offset that was used to make it. */
  ghost predicate Recovers(z: Table, t: int, post: bool) {
    FindLocal(z, LocalSeconds(z, t), post).utcOffset == FindUtc(z, t).utcOffset
  }

  /** t's local time comes again at the first or the last transition, which the code does not look behind. */
  ghost predicate Unreachable(z: Table, t: int) {
    var i := Segment(z, t);
    ComesAgain(z, t) && (i == -1 || i + 1 == |z.transitions| - 1)
  }

  /** t's local time has been before an inner transition. */
  ghost predicate Repeats(z: Table, t: int) {
    HasBeen(z, t) && 0 < Segment(z, t) < |z.transitions| - 1
  }

  lemma PostRecovers(z: Table, t: int)
    requires Regular(z)
    ensures Recovers(z, t, true) <==> !ComesAgain(z, t)
  {
    SegmentIs(z, t);
    if ComesAgain(z, t) { FindAgain(z, t, true); } else { FindLast(z, t, true); }
  }

  lemma PreRecovers(z: Table, t: int)
    requires Regular(z)
    ensures Recovers(z, t, false) <==> !Repeats(z, t) && !Unreachable(z, t)
  {
    SegmentIs(z, t);
    NotBoth(z, t);
    if ComesAgain(z, t) { FindAgain(z, t, false); } else { FindLast(z, t, false); }
  }

  // ---------------------------------------------------------------- skipped local times

  /** Transition k sets the clock forward over l. */
  ghost predicate Skips(z: Table, k: nat, l: int)
    requires k < |z.transitions|
  {
    Utc(z, k) + Off(z, k - 1) <= l < Local(z, k) && (k > 0 ==> Local(z, k - 1) <= l)
  }

  /** No clock ever shows a skipped local time. */
  lemma NeverShown(z: Table, k: nat, l: int, t: int)
    requires Regular(z) && k < |z.transitions| && Skips(z, k, l)
    ensures LocalSeconds(z, t) != l
  {
    SegmentIs(z, t);
    var i := Segment(z, t);
    if i >= k {
      assert i > k ==> Local(z, k) < Local(z, i);
    } else if i + 1 < k {
      assert Apart(z, i + 1);
      assert i + 2 < k - 1 ==> Local(z, i + 2) < Local(z, k - 1);
    }
  }

  /** For a skipped local time the search finds the offset after the transition if it is asked for that, and the offset
      before it otherwise; the first transition is not looked behind. */
  lemma FindSkipped(z: Table, k: nat, l: int, post: bool)
    requires Regular(z) && k < |z.transitions| && Skips(z, k, l)
    ensures FindLocal(z, l, post).utcOffset == if post && k > 0 then Off(z, k) else Off(z, k - 1)
  {
    if k > 0 {
      UpperLocalIs(z, l, 0, k);
      assert k > 1 ==> Local(z, 0) < Local(z, k - 1);
    }
  }

  /** The time that comes back for a skipped clock reading: as long after the transition as the reading is past the
      clock's last reading before it, or as long before it as the reading is short of the first one after it. */
  lemma SkippedTime(z: Table, k: nat, l: int)
    requires Regular(z) && 0 < k < |z.transitions| && Skips(z, k, l) && l >= FIRST_SECOND
    ensures FromLocalTime(z, BreakTime(l), false) == Utc(z, k) + (l - (Utc(z, k) + Off(z, k - 1))) >= Utc(z, k)
    ensures FromLocalTime(z, BreakTime(l), true) == Utc(z, k) - (Local(z, k) - l) < Utc(z, k)
  {
    FindSkipped(z, k, l, false);
    FindSkipped(z, k, l, true);
    FieldsThere(z, l, false);
    FieldsThere(z, l, true);
  }

  // ---------------------------------------------------------------- round trips

  /** Local time is within the era of the calendar. */
  predicate InRange(z: Table, t: int) { LocalSeconds(z, t) >= FIRST_SECOND }

  ghost predicate GivesBack(z: Table, t: int, post: bool) { FromLocalTime(z, ToLocalTime(z, t), post) == t }

  lemma ThroughFields(z: Table, t: int, post: bool)
    requires InRange(z, t)
    ensures GivesBack(z, t, post) <==> Recovers(z, t, post)
  {
    BackIffSame(z, t, FindUtc(z, t).utcOffset, LocalSeconds(z, t), post);
  }

  lemma BackIffSame(z: Table, t: int, offset: int, l: int, post: bool)
    requires l == t + offset && l >= FIRST_SECOND
    ensures FromLocalTime(z, BreakTime(l), post) == t <==> FindLocal(z, l, post).utcOffset == offset
  {
    FieldsThere(z, l, post);
  }

  lemma FieldsThere(z: Table, l: int, post: bool)
    requires l >= FIRST_SECOND
    ensures FromLocalTime(z, BreakTime(l), post) == Back(z, l, post)
  {
    SecondsRoundTrip(l);
  }

  /** Asking for the time after a transition gives t back exactly when its local time does not come again. */
  lemma PostRoundTrip(z: Table, t: int)
    requires Regular(z) && InRange(z, t)
    ensures GivesBack(z, t, true) <==> !ComesAgain(z, t)
  {
    ThroughFields(z, t, true);
    PostRecovers(z, t);
  }

  /** Asking for the time before a transition gives t back exactly when its local time has not been before an inner
      transition, and does not come again at the first or the last one. */
  lemma PreRoundTrip(z: Table, t: int)
    requires Regular(z) && InRange(z, t)
    ensures GivesBack(z, t, false) <==> !Repeats(z, t) && !Unreachable(z, t)
  {
    ThroughFields(z, t, false);
    PreRecovers(z, t);
  }

  /** Some flag gives every time back but those that come again at the first or the last transition; both flags do for
      a time that is in no repeat. */
  lemma RoundTrip(z: Table, t: int)
    requires Regular(z) && InRange(z, t)
    ensures (exists post: bool :: GivesBack(z, t, post)) <==> !Unreachable(z, t)
    ensures !ComesAgain(z, t) && !HasBeen(z, t) ==> forall post: bool :: GivesBack(z, t, post)
  {
    PostRoundTrip(z, t);
    PreRoundTrip(z, t);
    NotBoth(z, t);
    if GivesBack(z, t, true) || GivesBack(z, t, false) { assert exists post: bool :: GivesBack(z, t, post); }
  }

  /** A zone whose only transition sets the clock back an hour: the last second before it is lost. */
  lemma FirstRepeatLost()
    ensures var z := Zone([Transition(1000, 1000, 1)], [LocalTime(3600, true, 0), LocalTime(0, false, 0)]);
      WellFormed(z) && Regular(z) && forall post: bool :: !GivesBack(z, 999, post)
  {
    var z: Table := Zone([Transition(1000, 1000, 1)], [LocalTime(3600, true, 0), LocalTime(0, false, 0)]);
    assert UpperUtc(z.transitions, 999, 0) == 0;
    assert Unreachable(z, 999);
    RoundTrip(z, 999);
  }
}
