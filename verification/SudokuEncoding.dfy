/** Bookkeeping of the solver's constructor: which columns and choices exist after
    each step of its loops, and that in the end they encode the clues. */
module SudokuEncoding {
  import opened DancingLinks
  import opened MatrixBuild
  import opened SudokuRules

  const MAX_NODES: nat := 1 + 81 * 4 + 9 * 9 * 9 * 4
  const NAMES: nat := 400

  /** The table from names to headers is right: entry 0 means "no such column". */
  ghost predicate Indexed(columns: nat, names: seq<nat>, table: seq<nat>) {
    && |table| == NAMES && |names| == columns + 1
    && (forall h: nat {:trigger names[h]} :: 1 <= h <= columns ==> names[h] < NAMES && table[names[h]] == h)
    && (forall n: nat {:trigger table[n]} :: n < NAMES && table[n] != 0 ==> table[n] <= columns && names[table[n]] == n)
  }

  lemma IndexedAppend(columns: nat, names: seq<nat>, table: seq<nat>, name: nat)
    requires Indexed(columns, names, table) && name < NAMES && table[name] == 0
    ensures Indexed(columns + 1, names + [name], table[name := columns + 1])
  {
  }

  /** The position of a key in the constructor's second column loop. */
  function Rank(t: nat, u: nat, v: nat): int { 27 * u + 3 * (v - 1) + t }

  ghost predicate IsKey(t: nat, u: nat, v: nat) { t < 3 && u < 9 && 1 <= v <= 9 }

  lemma RankIsKey(t: nat, u: nat, v: nat, t': nat, u': nat, v': nat)
    requires IsKey(t, u, v) && IsKey(t', u', v')
    ensures 0 <= Rank(t, u, v) < 243 && 100 <= KeyName(t, u, v) < NAMES
    ensures Rank(t, u, v) == Rank(t', u', v') <==> t == t' && u == u' && v == v'
    ensures KeyName(t, u, v) == KeyName(t', u', v') <==> t == t' && u == u' && v == v'
  {
    KeyParts(t, u, v, t', u', v');
  }

  ghost predicate KeyDone(table: seq<nat>, clues: seq<int>, r: int, t: nat, u: nat, v: nat)
    requires |table| == NAMES && IsKey(t, u, v)
  {
    RankIsKey(t, u, v, t, u, v);
    table[KeyName(t, u, v)] != 0 <==> Rank(t, u, v) < r && !Used(clues, t, u, v)
  }

  /** The columns that exist once the cells before `cells` and the keys ranked before r have been looked at. */
  ghost predicate Progress(table: seq<nat>, clues: seq<int>, cells: nat, r: int) {
    && |table| == NAMES && |clues| == CELLS
    && (forall i: nat {:trigger table[i]} :: i < CELLS ==> (table[i] != 0 <==> i < cells && clues[i] == 0))
    && (forall t: nat, u: nat, v: nat {:trigger KeyDone(table, clues, r, t, u, v)} ::
          IsKey(t, u, v) ==> KeyDone(table, clues, r, t, u, v))
    && (forall n: nat {:trigger table[n]} :: n < NAMES && table[n] != 0 ==> HeaderOf(n, clues))
  }

  lemma ProgressNone(clues: seq<int>)
    requires |clues| == CELLS
    ensures Progress(seq(NAMES, _ => 0), clues, 0, 0)
  {
    forall t: nat, u: nat, v: nat | IsKey(t, u, v) ensures KeyDone(seq(NAMES, _ => 0), clues, 0, t, u, v) {
      RankIsKey(t, u, v, t, u, v);
    }
  }

  lemma ProgressCell(table: seq<nat>, clues: seq<int>, i: nat, h: nat)
    requires Progress(table, clues, i, 0) && i < CELLS && h != 0
    ensures Progress(if clues[i] == 0 then table[i := h] else table, clues, i + 1, 0)
  {
    var table' := if clues[i] == 0 then table[i := h] else table;
    forall t: nat, u: nat, v: nat | IsKey(t, u, v) ensures KeyDone(table', clues, 0, t, u, v) {
      RankIsKey(t, u, v, t, u, v);
      assert KeyDone(table, clues, 0, t, u, v);
    }
    assert clues[i] == 0 ==> OpenCell(clues, i);
  }

  lemma ProgressKey(table: seq<nat>, clues: seq<int>, t: nat, u: nat, v: nat, h: nat)
    requires IsKey(t, u, v) && Progress(table, clues, CELLS, Rank(t, u, v)) && h != 0
    ensures 100 <= KeyName(t, u, v) < NAMES && table[KeyName(t, u, v)] == 0
    ensures var table' := if Used(clues, t, u, v) then table else table[KeyName(t, u, v) := h];
      Progress(table', clues, CELLS, Rank(t, u, v) + 1)
  {
    RankIsKey(t, u, v, t, u, v);
    assert KeyDone(table, clues, Rank(t, u, v), t, u, v);
    var n := KeyName(t, u, v);
    var table' := if Used(clues, t, u, v) then table else table[n := h];
    forall t': nat, u': nat, v': nat | IsKey(t', u', v') ensures KeyDone(table', clues, Rank(t, u, v) + 1, t', u', v') {
      RankIsKey(t, u, v, t', u', v');
      RankIsKey(t', u', v', t', u', v');
      assert KeyDone(table, clues, Rank(t, u, v), t', u', v');
    }
    if !Used(clues, t, u, v) { assert OpenKey(clues, t, u, v); }
  }

  /** All columns are there. */
  lemma ProgressAll(columns: nat, names: seq<nat>, table: seq<nat>, clues: seq<int>)
    requires Indexed(columns, names, table) && Progress(table, clues, CELLS, 243)
    ensures forall h: nat, h': nat :: 1 <= h < h' <= columns ==> names[h] != names[h']
    ensures forall h: nat :: 1 <= h <= columns ==> HeaderOf(names[h], clues)
    ensures forall i: nat :: OpenCell(clues, i) ==> table[i] != 0
    ensures forall t: nat, u: nat, v: nat {:trigger OpenKey(clues, t, u, v)} ::
      OpenKey(clues, t, u, v) ==> KeyName(t, u, v) < NAMES && table[KeyName(t, u, v)] != 0
  {
    forall t: nat, u: nat, v: nat | OpenKey(clues, t, u, v)
      ensures KeyName(t, u, v) < NAMES && table[KeyName(t, u, v)] != 0
    {
      RankIsKey(t, u, v, t, u, v);
      assert KeyDone(table, clues, 243, t, u, v);
    }
    forall h: nat | 1 <= h <= columns ensures HeaderOf(names[h], clues) {
      assert table[names[h]] == h;
    }
  }

  // ---------------------------------------------------------------- choices

  function CellKey(i: nat, v: nat): nat { 10 * i + v }

  /** The choices that exist once the candidates with keys below `bound` have been added, in key order. */
  ghost predicate Chosen(choices: seq<Choice>, names: seq<nat>, clues: seq<int>, bound: nat) {
    && (forall k :: 0 <= k < |choices| ==>
      ChoiceOf(names, choices[k], clues) && CellKey(choices[k].cell, choices[k].digit) < bound)
    && (forall k, k' :: 0 <= k < k' < |choices| ==>
          CellKey(choices[k].cell, choices[k].digit) < CellKey(choices[k'].cell, choices[k'].digit))
    && (forall i: nat, v: nat {:trigger Candidate(clues, i, v)} ::
          Candidate(clues, i, v) && CellKey(i, v) < bound ==> Listed(choices, i, v))
  }

  ghost predicate Listed(choices: seq<Choice>, i: nat, v: nat) {
    exists k: nat :: k < |choices| && choices[k].cell == i && choices[k].digit == v
  }

  lemma ChosenAdd(choices: seq<Choice>, names: seq<nat>, clues: seq<int>, q: Choice)
    requires Chosen(choices, names, clues, CellKey(q.cell, q.digit)) && ChoiceOf(names, q, clues)
    ensures Chosen(choices + [q], names, clues, CellKey(q.cell, q.digit) + 1)
  {
    var choices' := choices + [q];
    forall i: nat, v: nat | Candidate(clues, i, v) && CellKey(i, v) < CellKey(q.cell, q.digit) + 1
      ensures Listed(choices', i, v)
    {
      if CellKey(i, v) < CellKey(q.cell, q.digit) {
        assert Listed(choices, i, v);
        var k: nat :| k < |choices| && choices[k].cell == i && choices[k].digit == v;
        assert choices'[k] == choices[k];
      } else {
        assert choices'[|choices|] == q;
      }
    }
  }

  lemma ChosenSkip(choices: seq<Choice>, names: seq<nat>, clues: seq<int>, i: nat, v: nat)
    requires Chosen(choices, names, clues, CellKey(i, v)) && 1 <= v <= 9 && !Candidate(clues, i, v)
    ensures Chosen(choices, names, clues, CellKey(i, v) + 1)
  {
  }

  lemma ChosenRaise(choices: seq<Choice>, names: seq<nat>, clues: seq<int>, low: nat, high: nat)
    requires Chosen(choices, names, clues, low) && low <= high
    requires forall i: nat, v: nat {:trigger Candidate(clues, i, v)} :: low <= CellKey(i, v) < high ==>
      !Candidate(clues, i, v)
    ensures Chosen(choices, names, clues, high)
  {
  }

  lemma ChosenStart(choices: seq<Choice>, names: seq<nat>, clues: seq<int>, i: nat)
    requires Chosen(choices, names, clues, 10 * i)
    ensures Chosen(choices, names, clues, CellKey(i, 1))
    ensures !OpenCell(clues, i) ==> Chosen(choices, names, clues, 10 * (i + 1))
  {
    forall j: nat, v: nat | Candidate(clues, j, v) && 10 * i <= CellKey(j, v) < 10 * (i + 1)
      ensures j == i && v >= 1 { }
    ChosenRaise(choices, names, clues, 10 * i, CellKey(i, 1));
    if !OpenCell(clues, i) { ChosenRaise(choices, names, clues, 10 * i, 10 * (i + 1)); }
  }

  /** The names of the four columns hit by digit v in cell i. */
  function ChoiceNames(i: nat, v: nat): (ns: seq<nat>)
    ensures |ns| == 4
  {
    [i, KeyName(0, UnitOf(0, i), v), KeyName(1, UnitOf(1, i), v), KeyName(2, UnitOf(2, i), v)]
  }

  lemma ChoiceNamesFacts(i: nat, v: nat)
    requires i < CELLS && 1 <= v <= 9
    ensures forall t :: 0 <= t < 4 ==> ChoiceNames(i, v)[t] < NAMES
    ensures forall t, t' :: 0 <= t < t' < 4 ==> ChoiceNames(i, v)[t] != ChoiceNames(i, v)[t']
    ensures forall t :: 1 <= t < 4 ==> 100 <= ChoiceNames(i, v)[t] && ChoiceNames(i, v)[t] % 10 == v % 10
  {
    KeyNameRange(0, i, v);
    KeyNameRange(1, i, v);
    KeyNameRange(2, i, v);
  }

  lemma KeyNameRange(t: nat, i: nat, v: nat)
    requires t < 3 && i < CELLS && 1 <= v <= 9
    ensures 100 * (t + 1) <= KeyName(t, UnitOf(t, i), v) < 100 * (t + 2) && KeyName(t, UnitOf(t, i), v) % 10 == v % 10
  {
    CellPlace(t, i);
  }

  /** The choice the constructor makes of a candidate. */
  ghost function ChoiceFor(table: seq<nat>, i: nat, v: nat): Choice
    requires |table| == NAMES && i < CELLS && 1 <= v <= 9
  {
    ChoiceNamesFacts(i, v);
    var ns := ChoiceNames(i, v);
    Choice([table[ns[0]], table[ns[1]], table[ns[2]], table[ns[3]]], i, v)
  }

  /** The columns of a candidate exist. */
  lemma CandidateColumns(table: seq<nat>, clues: seq<int>, i: nat, v: nat, t: nat)
    requires Progress(table, clues, CELLS, 243) && Candidate(clues, i, v) && t < 4
    ensures ChoiceNames(i, v)[t] < NAMES && table[ChoiceNames(i, v)[t]] != 0
  {
    ChoiceNamesFacts(i, v);
    if t > 0 {
      CellPlace(t - 1, i);
      RankIsKey(t - 1, UnitOf(t - 1, i), v, t - 1, UnitOf(t - 1, i), v);
      assert KeyDone(table, clues, 243, t - 1, UnitOf(t - 1, i), v);
    }
  }

  /** The choice of a candidate is well formed. */
  lemma ChoiceForFits(m: Matrix, names: seq<nat>, table: seq<nat>, clues: seq<int>, i: nat, v: nat)
    requires Indexed(m.columns, names, table) && Progress(table, clues, CELLS, 243) && Candidate(clues, i, v)
    ensures m.ValidChoice(ChoiceFor(table, i, v)) && ChoiceOf(names, ChoiceFor(table, i, v), clues)
  {
    ChoiceNamesFacts(i, v);
    var ns, q := ChoiceNames(i, v), ChoiceFor(table, i, v);
    forall t | 0 <= t < 4
      ensures q.cols[t] == table[ns[t]] && 1 <= q.cols[t] <= m.columns && names[q.cols[t]] == ns[t]
    {
      CandidateColumns(table, clues, i, v, t);
    }
  }

  /** The constructor's loops, run to the end, encode the clues. */
  lemma BuiltEncodes(m: Matrix, names: seq<nat>, table: seq<nat>, clues: seq<int>)
    requires Board(clues) && m.Valid() && Indexed(m.columns, names, table) && Progress(table, clues, CELLS, 243)
    requires Chosen(m.choices, names, clues, 810)
    ensures Encodes(m, names, clues) && CellsKeyed(m)
  {
    ProgressAll(m.columns, names, table, clues);
    forall i: nat | OpenCell(clues, i) ensures HasName(m, names, i) { assert names[table[i]] == i; }
    forall t: nat, u: nat, v: nat | OpenKey(clues, t, u, v) ensures HasName(m, names, KeyName(t, u, v)) {
      assert names[table[KeyName(t, u, v)]] == KeyName(t, u, v);
    }
    forall i: nat, v: nat | Candidate(clues, i, v) ensures HasChoice(m, i, v) { assert Listed(m.choices, i, v); }
    forall k, k' | 0 <= k < |m.choices| && 0 <= k' < |m.choices| && m.choices[k].cell == m.choices[k'].cell
      ensures m.choices[k].cols[0] == m.choices[k'].cols[0]
    {
      assert ChoiceOf(names, m.choices[k], clues) && ChoiceOf(names, m.choices[k'], clues);
      assert m.ValidChoice(m.choices[k]) && m.ValidChoice(m.choices[k']);
      assert table[names[m.choices[k].cols[0]]] == m.choices[k].cols[0];
    }
  }

  // ---------------------------------------------------------------- stages of the choice loop

  /** All columns exist, and the choices for the candidates with keys below bound, at most count of them. */
  ghost predicate Stage(x: Covering, names: seq<nat>, table: seq<nat>, clues: seq<int>, bound: nat, count: nat) {
    && x.H == x.m.Headers() && |x.s| == MAX_NODES && x.m.columns <= CELLS + 243 && |x.m.choices| <= count
    && Indexed(x.m.columns, names, table) && Progress(table, clues, CELLS, 243)
    && Chosen(x.m.choices, names, clues, bound) && Named(x.m, x.s)
  }

  /** The snapshot after looking at digit v for cell i. */
  ghost function StageStep(x: Covering, names: seq<nat>, table: seq<nat>, clues: seq<int>, i: nat, v: nat,
      count: nat): (y: Covering)
    requires Stage(x, names, table, clues, CellKey(i, v), count) && count < 729 && 1 <= v <= 9
    ensures Candidate(clues, i, v) ==>
      Addable(x, ChoiceFor(table, i, v)) && y == ChoiceStep(x, ChoiceFor(table, i, v), ChoiceNames(i, v))
    ensures !Candidate(clues, i, v) ==> y == x
  {
    if Candidate(clues, i, v) then
      ChoiceForFits(x.m, names, table, clues, i, v);
      ChoiceStep(x, ChoiceFor(table, i, v), ChoiceNames(i, v))
    else
      x
  }

  lemma StageAdvances(x: Covering, names: seq<nat>, table: seq<nat>, clues: seq<int>, i: nat, v: nat, count: nat)
    requires Stage(x, names, table, clues, CellKey(i, v), count) && count < 729 && 1 <= v <= 9
    ensures Stage(StageStep(x, names, table, clues, i, v, count), names, table, clues, CellKey(i, v) + 1, count + 1)
  {
    if Candidate(clues, i, v) {
      var q := ChoiceFor(table, i, v);
      ChoiceForFits(x.m, names, table, clues, i, v);
      ChosenAdd(x.m.choices, names, clues, q);
      StageNames(x, table, clues, i, v);
    } else {
      ChosenSkip(x.m.choices, names, clues, i, v);
    }
  }

  lemma StageNames(x: Covering, table: seq<nat>, clues: seq<int>, i: nat, v: nat)
    requires |table| == NAMES && i < CELLS && 1 <= v <= 9 && Addable(x, ChoiceFor(table, i, v)) && Named(x.m, x.s)
    ensures var y := ChoiceStep(x, ChoiceFor(table, i, v), ChoiceNames(i, v)); Named(y.m, y.s)
  {
    ChoiceNamesFacts(i, v);
    ChoiceStepNames(x, ChoiceFor(table, i, v), ChoiceNames(i, v));
  }

  // ---------------------------------------------------------------- first and last stage

  /** A store that holds only the root. */
  lemma RootHolds(s: Store)
    requires |s| > 0 && s[0] == FreshNode(0, 0)
    ensures Inv(Matrix(0, []), s, {})
  {
    var m := Matrix(0, []);
    assert ShapedNode(m, s, 0);
    assert m.Active({}) == {};
    assert HeaderLinked(s, {0}, 0) && {} + {0} == {0};
  }

  lemma StageStarts(x: Covering, names: seq<nat>, table: seq<nat>, clues: seq<int>)
    requires x.H == x.m.Headers() && |x.s| == MAX_NODES && x.m.columns <= CELLS + 243 && x.m.choices == []
    requires Indexed(x.m.columns, names, table) && Progress(table, clues, CELLS, 243)
    ensures Stage(x, names, table, clues, 0, 0)
  {
  }

  /** The position from which the search starts. */
  ghost function StartOf(x: Covering): Position { Position(x, [], {}, CELLS) }

  lemma StageEnds(x: Covering, names: seq<nat>, table: seq<nat>, clues: seq<int>, count: nat)
    requires Board(clues) && Stage(x, names, table, clues, 10 * CELLS, count)
    ensures Encodes(x.m, names, clues) && Searching(StartOf(x))
  {
    BuiltEncodes(x.m, names, table, clues);
    forall k | 0 <= k < |x.m.choices|
      ensures x.m.choices[k].cell < CELLS
    {
      assert ChoiceOf(names, x.m.choices[k], clues);
    }
    assert x.m.Headers() - x.H == {};
  }
}
