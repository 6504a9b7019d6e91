/** Sudoku as an exact-cover problem.

    `Completes` is the rule book: the digits 1..9, all different in every row,
    column and box, agreeing with the clues.  `Encodes` is what the solver's
    constructor builds from the clues.  The two theorems say that exact covers of
    the encoding and completions of the clues are the same thing. */
module SudokuRules {
  import opened DancingLinks

  const CELLS: nat := 81

  /** The row (t = 0), column (t = 1) or box (t = 2) of cell i. */
  function UnitOf(t: nat, i: nat): nat {
    if t == 0 then i / 9 else if t == 1 then i % 9 else i / 9 / 3 * 3 + i % 9 / 3
  }

  /** The p-th cell of unit u of kind t. */
  function CellAt(t: nat, u: nat, p: nat): nat {
    if t == 0 then 9 * u + p else if t == 1 then 9 * p + u else 27 * (u / 3) + 3 * (u % 3) + 9 * (p / 3) + p % 3
  }

  /** The place of cell i in its unit of kind t. */
  function PlaceOf(t: nat, i: nat): nat {
    if t == 0 then i % 9 else if t == 1 then i / 9 else i / 9 % 3 * 3 + i % 9 % 3
  }

  /** Boxes: cell 27a + 9b + 3c + d is place 3b + d of box 3a + c. */
  lemma BoxParts(a: nat, b: nat, c: nat, d: nat)
    requires a < 3 && b < 3 && c < 3 && d < 3
    ensures UnitOf(2, 27 * a + 9 * b + 3 * c + d) == 3 * a + c && PlaceOf(2, 27 * a + 9 * b + 3 * c + d) == 3 * b + d
    ensures CellAt(2, 3 * a + c, 3 * b + d) == 27 * a + 9 * b + 3 * c + d
  {
    var n, r, k := 27 * a + 9 * b + 3 * c + d, 3 * a + b, 3 * c + d;
    assert n == 9 * r + k && n / 9 == r && n % 9 == k;
    assert r / 3 == a && r % 3 == b && k / 3 == c && k % 3 == d;
    assert (3 * a + c) / 3 == a && (3 * a + c) % 3 == c && (3 * b + d) / 3 == b && (3 * b + d) % 3 == d;
  }

  lemma UnitCells(t: nat, u: nat, p: nat)
    requires t < 3 && u < 9 && p < 9
    ensures CellAt(t, u, p) < CELLS && UnitOf(t, CellAt(t, u, p)) == u && PlaceOf(t, CellAt(t, u, p)) == p
  {
    if t == 2 { BoxParts(u / 3, p / 3, u % 3, p % 3); }
  }

  lemma CellPlace(t: nat, i: nat)
    requires t < 3 && i < CELLS
    ensures UnitOf(t, i) < 9 && PlaceOf(t, i) < 9 && CellAt(t, UnitOf(t, i), PlaceOf(t, i)) == i
  {
    if t == 2 {
      var r, k := i / 9, i % 9;
      BoxParts(r / 3, r % 3, k / 3, k % 3);
      assert i == 27 * (r / 3) + 9 * (r % 3) + 3 * (k / 3) + k % 3;
    }
  }

  /** The name of the constraint that digit v occurs in unit u of kind t. */
  function KeyName(t: nat, u: nat, v: nat): nat { 100 * (t + 1) + 10 * u + v }

  predicate Board(b: seq<int>) {
    |b| == CELLS && forall i :: 0 <= i < CELLS ==> 0 <= b[i] <= 9
  }

  /** Some cell before n in unit u of kind t holds v. */
  ghost predicate UsedBefore(b: seq<int>, n: nat, t: nat, u: nat, v: int)
    requires n <= |b|
  {
    exists i: nat {:trigger b[i]} {:trigger UnitOf(t, i)} :: i < n && UnitOf(t, i) == u && b[i] == v
  }

  lemma UsedStep(b: seq<int>, n: nat, t: nat, u: nat, v: int)
    requires n < |b|
    ensures UsedBefore(b, n + 1, t, u, v) <==> UsedBefore(b, n, t, u, v) || (UnitOf(t, n) == u && b[n] == v)
  {
  }

  ghost predicate Used(b: seq<int>, t: nat, u: nat, v: int) { UsedBefore(b, |b|, t, u, v) }

  ghost predicate Clash(b: seq<int>, i: nat, j: nat)
    requires |b| == CELLS && i < CELLS && j < CELLS
  {
    i != j && b[i] == b[j] &&
      (UnitOf(0, i) == UnitOf(0, j) || UnitOf(1, i) == UnitOf(1, j) || UnitOf(2, i) == UnitOf(2, j))
  }

  /** b is a finished Sudoku. */
  ghost predicate Finished(b: seq<int>) {
    && |b| == CELLS
    && (forall i :: 0 <= i < CELLS ==> 1 <= b[i] <= 9)
    && (forall i: nat, j: nat {:trigger Clash(b, i, j)} :: i < CELLS && j < CELLS ==> !Clash(b, i, j))
  }

  /** b is a finished Sudoku that agrees with every clue. */
  ghost predicate Completes(b: seq<int>, clues: seq<int>) {
    && Finished(b)
    && |clues| == CELLS
    && forall i :: 0 <= i < CELLS && clues[i] != 0 ==> b[i] == clues[i]
  }

  // ---------------------------------------------------------------- the encoding

  /** The columns the clues leave open: an empty cell, or a digit missing from a unit. */
  ghost predicate OpenKey(clues: seq<int>, t: nat, u: nat, v: nat) {
    t < 3 && u < 9 && 1 <= v <= 9 && !Used(clues, t, u, v)
  }

  ghost predicate OpenCell(clues: seq<int>, i: nat) { i < |clues| && clues[i] == 0 }

  /** Digit v may be written into cell i. */
  ghost predicate Candidate(clues: seq<int>, i: nat, v: nat) {
    OpenCell(clues, i) && 1 <= v <= 9 &&
      forall t: nat {:trigger UnitOf(t, i)} :: t < 3 ==> !Used(clues, t, UnitOf(t, i), v)
  }

  ghost predicate ChoiceOf(names: seq<nat>, q: Choice, clues: seq<int>) {
    && |q.cols| == 4
    && (forall t :: 0 <= t < 4 ==> q.cols[t] < |names|)
    && Candidate(clues, q.cell, q.digit)
    && names[q.cols[0]] == q.cell
    && (forall t: nat {:trigger KeyName(t, UnitOf(t, q.cell), q.digit)} ::
          t < 3 ==> names[q.cols[t + 1]] == KeyName(t, UnitOf(t, q.cell), q.digit))
  }

  /** Header h stands for an open cell or an open key. */
  ghost predicate HeaderOf(name: nat, clues: seq<int>) {
    OpenCell(clues, name) || exists t: nat, u: nat, v: nat :: OpenKey(clues, t, u, v) && name == KeyName(t, u, v)
  }

  ghost predicate HasName(m: Matrix, names: seq<nat>, name: nat) {
    exists h: nat :: 1 <= h <= m.columns && h < |names| && names[h] == name
  }

  ghost predicate HasChoice(m: Matrix, i: nat, v: nat) {
    exists k: nat :: k < |m.choices| && m.choices[k].cell == i && m.choices[k].digit == v
  }

  /** The matrix, with the headers' names, is the exact-cover form of the clues. */
  ghost predicate Encodes(m: Matrix, names: seq<nat>, clues: seq<int>) {
    && m.Valid() && |names| == m.columns + 1
    && (forall h: nat, h': nat :: 1 <= h < h' <= m.columns ==> names[h] != names[h'])
    && (forall h: nat :: 1 <= h <= m.columns ==> HeaderOf(names[h], clues))
    && (forall i: nat {:trigger HasName(m, names, i)} :: OpenCell(clues, i) ==> HasName(m, names, i))
    && (forall t: nat, u: nat, v: nat {:trigger HasName(m, names, KeyName(t, u, v))} ::
          OpenKey(clues, t, u, v) ==> HasName(m, names, KeyName(t, u, v)))
    && (forall k :: 0 <= k < |m.choices| ==> ChoiceOf(names, m.choices[k], clues))
    && (forall k, k' :: 0 <= k < k' < |m.choices| ==>
          m.choices[k].cell != m.choices[k'].cell || m.choices[k].digit != m.choices[k'].digit)
    && (forall i: nat, v: nat {:trigger HasChoice(m, i, v)} :: Candidate(clues, i, v) ==> HasChoice(m, i, v))
  }

  lemma KeyParts(t: nat, u: nat, v: nat, t': nat, u': nat, v': nat)
    requires t < 3 && u < 9 && 1 <= v <= 9 && t' < 3 && u' < 9 && 1 <= v' <= 9
    ensures KeyName(t, u, v) >= 100
    ensures KeyName(t, u, v) == KeyName(t', u', v') ==> t == t' && u == u' && v == v'
  {
  }

  /** If a choice hits the header named by a cell, it is a choice for that cell. */
  lemma CellHit(m: Matrix, names: seq<nat>, clues: seq<int>, k: nat, h: nat)
    requires Encodes(m, names, clues) && Board(clues) && k < |m.choices| && 1 <= h <= m.columns &&
      h in m.choices[k].cols && names[h] < CELLS
    ensures m.choices[k].cell == names[h]
  {
    var q := m.choices[k];
    var t: nat :| t < 4 && q.cols[t] == h;
    if t > 0 {
      CellPlace(t - 1, q.cell);
      KeyParts(t - 1, UnitOf(t - 1, q.cell), q.digit, 0, 0, 1);
    }
  }

  /** If a choice hits the header named by a key, it writes that digit into that unit. */
  lemma KeyHit(m: Matrix, names: seq<nat>, clues: seq<int>, k: nat, h: nat, t: nat, u: nat, v: nat)
    requires Encodes(m, names, clues) && Board(clues) && k < |m.choices| && 1 <= h <= m.columns &&
      h in m.choices[k].cols
    requires t < 3 && u < 9 && 1 <= v <= 9 && names[h] == KeyName(t, u, v)
    ensures UnitOf(t, m.choices[k].cell) == u && m.choices[k].digit == v
  {
    var q := m.choices[k];
    var e: nat :| e < 4 && q.cols[e] == h;
    if e > 0 {
      CellPlace(e - 1, q.cell);
      assert names[q.cols[e - 1 + 1]] == KeyName(e - 1, UnitOf(e - 1, q.cell), q.digit);
      KeyParts(e - 1, UnitOf(e - 1, q.cell), q.digit, t, u, v);
    }
  }

  // ---------------------------------------------------------------- pigeonhole

  ghost function Digits(): set<int> { set v: int | 1 <= v <= 9 && IsDigit(v) }

  predicate IsDigit(v: int) { 1 <= v <= 9 }

  lemma NineDigits()
    ensures |Digits()| == 9
  {
    assert Digits() == {1, 2, 3, 4, 5, 6, 7, 8, 9};
  }

  ghost function Values(s: seq<int>): set<int> { set x | x in s }

  lemma {:induction false} FewValues(s: seq<int>)
    ensures |Values(s)| <= |s|
  {
    if s != [] {
      FewValues(s[1..]);
      assert Values(s) == {s[0]} + Values(s[1..]);
    }
  }

  /** Nine places that hold all nine digits hold them once each. */
  lemma OntoIsInjective(s: seq<int>, p: nat, q: nat)
    requires |s| == 9 && (forall v :: v in Digits() ==> v in s) && p < q < 9
    ensures s[p] != s[q]
  {
    if s[p] == s[q] {
      var s' := s[..q] + s[q + 1..];
      forall v | v in Digits() ensures v in s' {
        var i :| 0 <= i < 9 && s[i] == v;
        assert v == if i == q then s'[p] else if i < q then s'[i] else s'[i - 1];
      }
      FewValues(s');
      NineDigits();
      SubsetSize(Digits(), Values(s'));
    }
  }

  /** Nine places that hold different digits hold all nine. */
  lemma {:induction false} InjectiveSize(s: seq<int>)
    requires forall p: nat, q: nat :: p < q < |s| ==> s[p] != s[q]
    ensures |Values(s)| == |s|
  {
    if s != [] {
      InjectiveSize(s[1..]);
      assert Values(s) == {s[0]} + Values(s[1..]);
      assert s[0] !in s[1..];
    }
  }

  lemma InjectiveIsOnto(s: seq<int>, v: int)
    requires |s| == 9 && (forall p: nat :: p < 9 ==> 1 <= s[p] <= 9) && 1 <= v <= 9
    requires forall p: nat, q: nat :: p < q < 9 ==> s[p] != s[q]
    ensures v in s
  {
    InjectiveSize(s);
    NineDigits();
    if v !in s {
      SubsetSize(Values(s), Digits() - {v});
    }
  }

  lemma SubsetSize(a: set<int>, b: set<int>)
    requires a <= b
    ensures |a| <= |b|
  {
    assert b == a + (b - a);
  }

  // ---------------------------------------------------------------- exact cover to completion

  lemma CellFilled(m: Matrix, names: seq<nat>, clues: seq<int>, b: seq<int>, R: set<nat>, i: nat)
    requires Encodes(m, names, clues) && Board(clues) && ExactCover(m, m.Headers(), R) && Written(m, clues, b, R) &&
      i < CELLS
    ensures 1 <= b[i] <= 9 && (clues[i] != 0 ==> b[i] == clues[i])
  {
    if clues[i] == 0 {
      assert OpenCell(clues, i) && HasName(m, names, i);
      var h: nat :| 1 <= h <= m.columns && names[h] == i;
      assert h in m.Headers() && Hit(m, R, h);
      var k :| k in R && k < |m.choices| && h in m.choices[k].cols;
      CellHit(m, names, clues, k, h);
      assert ChoiceOf(names, m.choices[k], clues);
    } else {
      forall k | k in R
        ensures k < |m.choices| && m.choices[k].cell != i
      {
        assert ChoiceOf(names, m.choices[k], clues);
      }
    }
  }

  /** Every unit holds every digit: from a clue, or from the choice that hits the key. */
  lemma DigitPlaced(m: Matrix, names: seq<nat>, clues: seq<int>, b: seq<int>, R: set<nat>, t: nat, u: nat, v: nat)
      returns (i: nat)
    requires Encodes(m, names, clues) && Board(clues) && ExactCover(m, m.Headers(), R) && Written(m, clues, b, R)
    requires t < 3 && u < 9 && 1 <= v <= 9
    ensures i < CELLS && UnitOf(t, i) == u && b[i] == v
  {
    if Used(clues, t, u, v) {
      i :| i < |clues| && UnitOf(t, i) == u && clues[i] == v;
      CellFilled(m, names, clues, b, R, i);
    } else {
      assert OpenKey(clues, t, u, v) && HasName(m, names, KeyName(t, u, v));
      var h: nat :| 1 <= h <= m.columns && names[h] == KeyName(t, u, v);
      assert h in m.Headers() && Hit(m, R, h);
      var k :| k in R && k < |m.choices| && h in m.choices[k].cols;
      KeyHit(m, names, clues, k, h, t, u, v);
      i := m.choices[k].cell;
      assert ChoiceOf(names, m.choices[k], clues);
    }
  }

  ghost function UnitValues(b: seq<int>, t: nat, u: nat): (s: seq<int>)
    requires |b| == CELLS && t < 3 && u < 9
    ensures |s| == 9
  {
    seq(9, p requires 0 <= p < 9 => UnitCells(t, u, p); b[CellAt(t, u, p)])
  }

  lemma NoClash(m: Matrix, names: seq<nat>, clues: seq<int>, b: seq<int>, R: set<nat>, t: nat, i: nat, j: nat)
    requires Encodes(m, names, clues) && Board(clues) && ExactCover(m, m.Headers(), R) && Written(m, clues, b, R)
    requires t < 3 && i < CELLS && j < CELLS && i != j && UnitOf(t, i) == UnitOf(t, j)
    ensures b[i] != b[j]
  {
    CellPlace(t, i);
    CellPlace(t, j);
    var u, p, q := UnitOf(t, i), PlaceOf(t, i), PlaceOf(t, j);
    var s := UnitValues(b, t, u);
    assert s[p] == b[i] && s[q] == b[j];
    forall v | v in Digits() ensures v in s {
      var c := DigitPlaced(m, names, clues, b, R, t, u, v);
      CellPlace(t, c);
      assert s[PlaceOf(t, c)] == v;
    }
    if p < q { OntoIsInjective(s, p, q); } else { OntoIsInjective(s, q, p); }
  }

  /** Writing an exact cover into the clues completes them. */
  lemma CoverCompletes(m: Matrix, names: seq<nat>, clues: seq<int>, b: seq<int>, R: set<nat>)
    requires Encodes(m, names, clues) && Board(clues) && ExactCover(m, m.Headers(), R) && Written(m, clues, b, R)
    ensures Completes(b, clues)
  {
    forall i: nat | i < CELLS ensures 1 <= b[i] <= 9 && (clues[i] != 0 ==> b[i] == clues[i]) {
      CellFilled(m, names, clues, b, R, i);
    }
    forall i: nat, j: nat | i < CELLS && j < CELLS ensures !Clash(b, i, j) {
      forall t: nat | t < 3 && i != j && UnitOf(t, i) == UnitOf(t, j) ensures b[i] != b[j] {
        NoClash(m, names, clues, b, R, t, i, j);
      }
    }
  }

  // ---------------------------------------------------------------- completion to exact cover

  /** The choices a completion makes. */
  ghost function ChoicesOf(m: Matrix, b: seq<int>): set<nat> {
    set k: nat | k < |m.choices| && m.choices[k].cell < |b| && b[m.choices[k].cell] == m.choices[k].digit
  }

  lemma CompletionIsCandidate(b: seq<int>, clues: seq<int>, i: nat)
    requires Completes(b, clues) && Board(clues) && OpenCell(clues, i)
    ensures Candidate(clues, i, b[i])
  {
    forall t: nat | t < 3 ensures !Used(clues, t, UnitOf(t, i), b[i]) {
      forall j: nat | j < |clues| && UnitOf(t, j) == UnitOf(t, i) ensures clues[j] != b[i] {
        assert !Clash(b, i, j);
      }
    }
  }

  lemma CellCovered(m: Matrix, names: seq<nat>, clues: seq<int>, b: seq<int>, h: nat, i: nat)
    requires Encodes(m, names, clues) && Board(clues) && Completes(b, clues)
    requires 1 <= h <= m.columns && OpenCell(clues, i)
    requires names[h] == i || exists t: nat :: t < 3 && names[h] == KeyName(t, UnitOf(t, i), b[i])
    ensures Hit(m, ChoicesOf(m, b), h)
  {
    CompletionIsCandidate(b, clues, i);
    assert HasChoice(m, i, b[i]);
    var k: nat :| k < |m.choices| && m.choices[k].cell == i && m.choices[k].digit == b[i];
    var q := m.choices[k];
    assert ChoiceOf(names, q, clues) && m.ValidChoice(q);
    var e: nat;
    if names[h] == i { e := 0; } else {
      var t: nat :| t < 3 && names[h] == KeyName(t, UnitOf(t, i), b[i]);
      e := t + 1;
      assert names[q.cols[t + 1]] == KeyName(t, UnitOf(t, i), b[i]);
    }
    assert names[q.cols[e]] == names[h];
    assert q.cols[e] == h;
    assert k in ChoicesOf(m, b);
  }

  lemma DigitInUnit(b: seq<int>, t: nat, u: nat, v: nat) returns (i: nat)
    requires Finished(b) && t < 3 && u < 9 && 1 <= v <= 9
    ensures i < CELLS && UnitOf(t, i) == u && b[i] == v
  {
    var s := UnitValues(b, t, u);
    forall p: nat, q: nat | p < q < 9 ensures s[p] != s[q] {
      UnitCells(t, u, p);
      UnitCells(t, u, q);
      assert !Clash(b, CellAt(t, u, p), CellAt(t, u, q));
    }
    forall p: nat | p < 9 ensures 1 <= s[p] <= 9 { UnitCells(t, u, p); }
    InjectiveIsOnto(s, v);
    var p :| 0 <= p < 9 && s[p] == v;
    UnitCells(t, u, p);
    i := CellAt(t, u, p);
  }

  lemma HeaderCovered(m: Matrix, names: seq<nat>, clues: seq<int>, b: seq<int>, h: nat)
    requires Encodes(m, names, clues) && Board(clues) && Completes(b, clues) && 1 <= h <= m.columns
    ensures Hit(m, ChoicesOf(m, b), h)
  {
    assert HeaderOf(names[h], clues);
    if OpenCell(clues, names[h]) {
      CellCovered(m, names, clues, b, h, names[h]);
    } else {
      var t: nat, u: nat, v: nat :| OpenKey(clues, t, u, v) && names[h] == KeyName(t, u, v);
      var i := DigitInUnit(b, t, u, v);
      assert OpenCell(clues, i);
      CellCovered(m, names, clues, b, h, i);
    }
  }

  lemma ChoicesApart(m: Matrix, names: seq<nat>, clues: seq<int>, b: seq<int>, k: nat, k': nat, h: nat)
    requires Encodes(m, names, clues) && Board(clues) && Completes(b, clues)
    requires k in ChoicesOf(m, b) && k' in ChoicesOf(m, b) && h in m.choices[k].cols && h in m.choices[k'].cols
    ensures k == k'
  {
    assert ChoiceOf(names, m.choices[k], clues) && ChoiceOf(names, m.choices[k'], clues);
    assert m.ValidChoice(m.choices[k]) && 1 <= h <= m.columns && HeaderOf(names[h], clues);
    if OpenCell(clues, names[h]) {
      CellHit(m, names, clues, k, h);
      CellHit(m, names, clues, k', h);
    } else {
      var t: nat, u: nat, v: nat :| OpenKey(clues, t, u, v) && names[h] == KeyName(t, u, v);
      KeyHit(m, names, clues, k, h, t, u, v);
      KeyHit(m, names, clues, k', h, t, u, v);
      assert !Clash(b, m.choices[k].cell, m.choices[k'].cell);
    }
  }

  /** Every completion of the clues is an exact cover of the encoding. */
  lemma CompletionCovers(m: Matrix, names: seq<nat>, clues: seq<int>, b: seq<int>)
    requires Encodes(m, names, clues) && Board(clues) && Completes(b, clues)
    ensures ExactCover(m, m.Headers(), ChoicesOf(m, b))
  {
    var R := ChoicesOf(m, b);
    forall k | k in R ensures m.Available(m.Headers(), k) { assert m.ValidChoice(m.choices[k]); }
    forall h | h in m.Headers() ensures Hit(m, R, h) { HeaderCovered(m, names, clues, b, h); }
    forall k, k' | k in R && k' in R && k != k' ensures Disjoint(m.choices[k].cols, m.choices[k'].cols) {
      forall h | h in m.choices[k].cols ensures h !in m.choices[k'].cols {
        if h in m.choices[k'].cols { ChoicesApart(m, names, clues, b, k, k', h); }
      }
    }
  }
}
