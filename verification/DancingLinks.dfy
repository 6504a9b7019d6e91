/** The four-way circular links of the Sudoku solver, as values.

    A `Store` is the content of the node array.  Node 0 is the root, nodes
    1..columns are the column headers and every choice (a matrix row) owns four
    consecutive nodes after them.  `Covered` says what covering a column does to
    a store; the lemmas say which store results and that the steps can be undone
    in reverse order. */
module DancingLinks {

  datatype Node = Node(left: nat, right: nat, up: nat, down: nat, col: nat, name: nat, size: int)

  type Store = seq<Node>

  /** A row of the exact-cover matrix: the four headers it hits, and the cell and digit it stands for. */
  datatype Choice = Choice(cols: seq<nat>, cell: nat, digit: nat)

  datatype Matrix = Matrix(columns: nat, choices: seq<Choice>)
  {
    ghost predicate Valid() {
      forall k :: 0 <= k < |choices| ==> ValidChoice(choices[k])
    }

    ghost predicate ValidChoice(q: Choice) {
      && |q.cols| == 4
      && (forall t :: 0 <= t < 4 ==> 1 <= q.cols[t] <= columns)
      && (forall t, t' :: 0 <= t < t' < 4 ==> q.cols[t] != q.cols[t'])
    }

    function First(): nat { columns + 1 }

    function Count(): nat { First() + 4 * |choices| }

    function RowOf(n: nat): nat
      requires First() <= n
    {
      (n - First()) / 4
    }

    function Slot(n: nat): nat
      requires First() <= n
    {
      (n - First()) % 4
    }

    function NodeOf(k: nat, t: nat): nat { First() + 4 * k + t }

    ghost function Col(n: nat): nat
      requires Valid() && n < Count()
    {
      if n < First() then n else choices[RowOf(n)].cols[Slot(n)]
    }

    /** The headers of the matrix. */
    ghost function Headers(): set<nat> {
      set h: nat | h <= columns && IsHeader(h)
    }

    predicate IsHeader(h: nat) { 1 <= h <= columns }

    ghost predicate Available(H: set<nat>, k: nat)
      requires Valid() && k < |choices|
    {
      forall t :: 0 <= t < 4 ==> choices[k].cols[t] in H
    }

    /** The nodes that sit in a vertical ring while exactly the columns of H are uncovered. */
    ghost function Active(H: set<nat>): set<nat>
      requires Valid()
    {
      set n: nat | n < Count() && (if n < First() then n in H else Available(H, RowOf(n)))
    }
  }

  lemma NodeArithmetic(m: Matrix, k: nat, t: nat)
    requires t < 4
    ensures m.RowOf(m.NodeOf(k, t)) == k && m.Slot(m.NodeOf(k, t)) == t
  {
  }

  lemma NodeSplit(m: Matrix, n: nat)
    requires m.First() <= n < m.Count()
    ensures m.RowOf(n) < |m.choices| && m.Slot(n) < 4
    ensures n == m.NodeOf(m.RowOf(n), m.Slot(n))
  {
  }

  // ---------------------------------------------------------------- the fixed part of a store

  /** The slot i steps to the right of slot t on the horizontal ring of a choice. */
  function Turn(t: nat, i: nat): nat
    requires t < 4 && i <= 4
  {
    if t + i < 4 then t + i else t + i - 4
  }

  ghost predicate ShapedNode(m: Matrix, s: Store, n: nat)
    requires m.Valid() && n < m.Count() <= |s|
  {
    && s[n].col == m.Col(n)
    && s[n].up < |s| && s[n].down < |s| && s[n].left < |s| && s[n].right < |s|
    && (m.First() <= n ==>
          var k, t := m.RowOf(n), m.Slot(n);
          && s[n].right == m.NodeOf(k, Turn(t, 1))
          && s[n].left == m.NodeOf(k, Turn(t, 3)))
  }

  /** Everything the search never changes: headers, the rows' horizontal rings. */
  ghost predicate Shaped(m: Matrix, s: Store) {
    && m.Valid()
    && m.Count() <= |s|
    && forall n: nat {:trigger ShapedNode(m, s, n)} :: n < m.Count() ==> ShapedNode(m, s, n)
  }

  // ---------------------------------------------------------------- rings

  /** Node n is properly linked in the vertical ring of its column, among the nodes of A:
      rings run in node order and close at the header. */
  ghost predicate Linked(s: Store, A: set<nat>, n: nat) {
    && n < |s|
    && var d, u, c := s[n].down, s[n].up, s[n].col;
    && d in A && u in A && d < |s| && u < |s|
    && s[d].col == c == s[u].col
    && s[d].up == n && s[u].down == n
    && (if n < d
        then forall x :: x in A && x < |s| && s[x].col == c ==> !(n < x < d)
        else d == c && forall x :: x in A && x < |s| && s[x].col == c ==> x <= n)
  }

  ghost predicate Rings(m: Matrix, s: Store, A: set<nat>) {
    && Shaped(m, s)
    && (forall n {:trigger n in A} :: n in A ==> 1 <= n < m.Count())
    && (forall n {:trigger Linked(s, A, n)} :: n in A ==> Linked(s, A, n))
  }

  /** Header h is properly linked on the header ring of H (root included in H). */
  ghost predicate HeaderLinked(s: Store, H: set<nat>, h: nat) {
    && h < |s|
    && var r, l := s[h].right, s[h].left;
    && r in H && l in H && r < |s| && l < |s|
    && s[r].left == h && s[l].right == h
    && (if h < r then forall x :: x in H ==> !(h < x < r)
        else r == 0 && forall x :: x in H ==> x <= h)
  }

  ghost predicate HeaderRing(s: Store, H: set<nat>) {
    forall h {:trigger HeaderLinked(s, H, h)} :: h in H ==> HeaderLinked(s, H, h)
  }

  /** The row nodes of column c that are linked. */
  ghost function Members(m: Matrix, A: set<nat>, c: nat): set<nat>
    requires m.Valid()
  {
    set n | n in A && m.First() <= n < m.Count() && m.Col(n) == c
  }

  ghost predicate Sized(m: Matrix, s: Store, A: set<nat>, H: set<nat>)
    requires m.Valid()
  {
    forall c {:trigger Members(m, A, c)} :: c in H ==> c < |s| && s[c].size == |Members(m, A, c)|
  }

  /** The state of the search while exactly the columns of H are uncovered. */
  ghost predicate Inv(m: Matrix, s: Store, H: set<nat>) {
    && m.Valid()
    && H <= m.Headers()
    && Rings(m, s, m.Active(H))
    && HeaderRing(s, H + {0})
    && Sized(m, s, m.Active(H), H)
  }

  // ---------------------------------------------------------------- elementary steps

  function SetUp(s: Store, n: nat, v: nat): Store
    requires n < |s|
  {
    s[n := s[n].(up := v)]
  }

  function SetDown(s: Store, n: nat, v: nat): Store
    requires n < |s|
  {
    s[n := s[n].(down := v)]
  }

  function SetLeft(s: Store, n: nat, v: nat): Store
    requires n < |s|
  {
    s[n := s[n].(left := v)]
  }

  function SetRight(s: Store, n: nat, v: nat): Store
    requires n < |s|
  {
    s[n := s[n].(right := v)]
  }

  function AddSize(s: Store, n: nat, v: int): Store
    requires n < |s|
  {
    s[n := s[n].(size := s[n].size + v)]
  }

  predicate InStore(s: Store, j: nat) {
    && j < |s|
    && s[j].up < |s| && s[j].down < |s| && s[j].left < |s| && s[j].right < |s| && s[j].col < |s|
  }

  /** Takes node j out of its column. */
  function Unlink(s: Store, j: nat): Store
    requires InStore(s, j)
  {
    AddSize(SetDown(SetUp(s, s[j].down, s[j].up), s[j].up, s[j].down), s[j].col, -1)
  }

  /** Puts node j back into its column. */
  function Relink(s: Store, j: nat): Store
    requires InStore(s, j)
  {
    SetDown(SetUp(AddSize(s, s[j].col, 1), s[j].down, j), s[j].up, j)
  }

  lemma RelinkUndoesUnlink(s: Store, j: nat)
    requires InStore(s, j)
    requires s[s[j].down].up == j && s[s[j].up].down == j
    requires s[j].down != j && s[j].up != j
    ensures InStore(Unlink(s, j), j)
    ensures Relink(Unlink(s, j), j) == s
  {
    var s' := Unlink(s, j);
    assert s'[j].down == s[j].down && s'[j].up == s[j].up && s'[j].col == s[j].col;
    var s'' := Relink(s', j);
    forall n | 0 <= n < |s| ensures s''[n] == s[n] { }
  }

  /** Everything but up, down and size of other nodes survives Unlink. */
  lemma UnlinkFrame(s: Store, j: nat)
    requires InStore(s, j)
    ensures |Unlink(s, j)| == |s|
    ensures forall n {:trigger Unlink(s, j)[n]} :: 0 <= n < |s| ==>
      && Unlink(s, j)[n].left == s[n].left && Unlink(s, j)[n].right == s[n].right
      && Unlink(s, j)[n].col == s[n].col && Unlink(s, j)[n].name == s[n].name
      && Unlink(s, j)[n].size == (if n == s[j].col then s[n].size - 1 else s[n].size)
      && Unlink(s, j)[n].up == (if n == s[j].down then s[j].up else s[n].up)
      && Unlink(s, j)[n].down == (if n == s[j].up then s[j].down else s[n].down)
  {
  }

  lemma UnlinkShaped(m: Matrix, s: Store, j: nat)
    requires Shaped(m, s) && InStore(s, j)
    ensures Shaped(m, Unlink(s, j))
  {
    UnlinkFrame(s, j);
    forall n: nat | n < m.Count() ensures ShapedNode(m, Unlink(s, j), n) {
      assert ShapedNode(m, s, n);
    }
  }

  lemma UnlinkKeepsLinked(s: Store, A: set<nat>, j: nat, n: nat)
    requires InStore(s, j) && j in A && s[j].col != j && n in A && n != j
    requires Linked(s, A, j) && Linked(s, A, n) && Linked(s, A, s[j].up) && Linked(s, A, s[j].down)
    ensures Linked(Unlink(s, j), A - {j}, n)
  {
    UnlinkFrame(s, j);
  }

  lemma UnlinkKeepsRings(m: Matrix, s: Store, A: set<nat>, j: nat)
    requires Rings(m, s, A) && j in A && m.First() <= j
    ensures InStore(s, j)
    ensures Rings(m, Unlink(s, j), A - {j})
  {
    assert Linked(s, A, j) && ShapedNode(m, s, j);
    UnlinkShaped(m, s, j);
    forall n | n in A - {j} ensures Linked(Unlink(s, j), A - {j}, n) {
      assert Linked(s, A, n) && Linked(s, A, s[j].up) && Linked(s, A, s[j].down);
      UnlinkKeepsLinked(s, A, j, n);
    }
  }

  lemma UnlinkKeepsSizes(m: Matrix, s: Store, A: set<nat>, H: set<nat>, j: nat)
    requires Rings(m, s, A) && j in A && m.First() <= j && Sized(m, s, A, H)
    ensures InStore(s, j)
    ensures Sized(m, Unlink(s, j), A - {j}, H)
  {
    assert Linked(s, A, j) && ShapedNode(m, s, j);
    var s', A' := Unlink(s, j), A - {j};
    UnlinkFrame(s, j);
    forall c | c in H ensures c < |s'| && s'[c].size == |Members(m, A', c)| {
      assert Members(m, A, c) == Members(m, A, c) && c < |s|;
      if c == m.Col(j) {
        assert Members(m, A, c) == Members(m, A', c) + {j};
      } else {
        assert Members(m, A, c) == Members(m, A', c);
      }
    }
  }

  // ---------------------------------------------------------------- one row

  /** The node reached from r by i steps to the right. */
  ghost function Around(m: Matrix, r: nat, i: nat): (n: nat)
    requires m.First() <= r < m.Count() && i <= 4
    ensures m.First() <= n < m.Count()
  {
    Ring(m, r)[i]
  }

  ghost function Ring(m: Matrix, r: nat): (ring: seq<nat>)
    requires m.First() <= r < m.Count()
    ensures |ring| == 5 && forall n :: n in ring ==> m.First() <= n < m.Count()
  {
    NodeSplit(m, r);
    seq(5, i requires 0 <= i < 5 => m.NodeOf(m.RowOf(r), Turn(m.Slot(r), i)))
  }

  lemma AroundFacts(m: Matrix, r: nat, i: nat)
    requires m.First() <= r < m.Count() && i <= 4
    ensures m.RowOf(r) < |m.choices| && m.Slot(r) < 4
    ensures m.RowOf(Around(m, r, i)) == m.RowOf(r) && m.Slot(Around(m, r, i)) == Turn(m.Slot(r), i)
  {
    NodeSplit(m, r);
    NodeArithmetic(m, m.RowOf(r), Turn(m.Slot(r), i));
  }

  lemma AroundEnds(m: Matrix, r: nat)
    requires m.First() <= r < m.Count()
    ensures Around(m, r, 0) == r == Around(m, r, 4)
  {
    NodeSplit(m, r);
  }

  /** The store's left and right links follow the ring, which closes after four steps. */
  lemma RowLinks(m: Matrix, s: Store, r: nat, i: nat)
    requires Shaped(m, s) && m.First() <= r < m.Count() && i < 4
    ensures s[Around(m, r, i)].right == Around(m, r, i + 1)
    ensures s[Around(m, r, i + 1)].left == Around(m, r, i)
    ensures (Around(m, r, i) == r <==> i == 0) && (Around(m, r, i + 1) == r <==> i == 3)
  {
    AroundFacts(m, r, i);
    AroundFacts(m, r, i + 1);
    NodeSplit(m, r);
    assert ShapedNode(m, s, Around(m, r, i)) && ShapedNode(m, s, Around(m, r, i + 1));
  }

  lemma AroundOnto(m: Matrix, r: nat, n: nat) returns (i: nat)
    requires m.First() <= r < m.Count() && m.First() <= n < m.Count() && m.RowOf(n) == m.RowOf(r)
    ensures i < 4 && n == Around(m, r, i)
  {
    NodeSplit(m, r);
    NodeSplit(m, n);
    i := if m.Slot(r) <= m.Slot(n) then m.Slot(n) - m.Slot(r) else m.Slot(n) + 4 - m.Slot(r);
  }

  /** The store after taking one row node out. */
  ghost function Out(m: Matrix, s: Store, j: nat): (s': Store)
    requires Shaped(m, s) && m.First() <= j < m.Count()
    ensures Shaped(m, s')
  {
    assert ShapedNode(m, s, j);
    UnlinkShaped(m, s, j);
    Unlink(s, j)
  }

  /** The store after taking out the i nodes to the right of r. */
  ghost function RowOut(m: Matrix, s: Store, r: nat, i: nat): (s': Store)
    requires Shaped(m, s) && m.First() <= r < m.Count() && i < 4
    ensures Shaped(m, s')
  {
    if i == 0 then s else Out(m, RowOut(m, s, r, i - 1), Around(m, r, i))
  }

  /** Only vertical links and sizes differ. */
  ghost predicate SameSides(s: Store, s': Store) {
    && |s| == |s'|
    && forall n {:trigger s'[n]} :: 0 <= n < |s| ==>
         s'[n].left == s[n].left && s'[n].right == s[n].right && s'[n].col == s[n].col && s'[n].name == s[n].name
  }

  /** The vertical links of column c are the same. */
  ghost predicate SameColumn(m: Matrix, s: Store, s': Store, c: nat)
    requires m.Count() <= |s| == |s'|
  {
    forall n: nat {:trigger s'[n]} :: n < m.Count() && s[n].col == c ==> s'[n].up == s[n].up && s'[n].down == s[n].down
  }

  ghost function Minus(m: Matrix, A: set<nat>, r: nat, i: nat): set<nat>
    requires m.First() <= r < m.Count() && i < 4
  {
    if i == 0 then A else Minus(m, A, r, i - 1) - {Around(m, r, i)}
  }

  lemma MinusMember(m: Matrix, A: set<nat>, r: nat, i: nat, n: nat)
    requires m.First() <= r < m.Count() && i < 4
    ensures n in Minus(m, A, r, i) <==>
      n in A && forall e: nat {:trigger Around(m, r, e)} :: 1 <= e <= i ==> n != Around(m, r, e)
  {
  }

  lemma RowColumnsDiffer(m: Matrix, r: nat, e: nat, e': nat)
    requires m.Valid() && m.First() <= r < m.Count() && e < e' < 4
    ensures m.Col(Around(m, r, e)) != m.Col(Around(m, r, e')) && Around(m, r, e) != Around(m, r, e')
  {
    AroundFacts(m, r, e);
    AroundFacts(m, r, e');
  }

  lemma FrameTrans(m: Matrix, s: Store, s1: Store, s2: Store, s3: Store, c: nat)
    requires SameSides(s1, s2) && SameSides(s2, s3) && |s| == |s1| && m.Count() <= |s|
    requires forall n: nat {:trigger s2[n]} :: n < m.Count() ==> s2[n].col == s[n].col
    requires SameColumn(m, s, s2, c) && SameColumn(m, s2, s3, c)
    ensures SameSides(s1, s3) && SameColumn(m, s, s3, c)
  {
    forall n: nat | n < m.Count() && s[n].col == c ensures s3[n].up == s[n].up && s3[n].down == s[n].down {
      assert s2[n].col == c;
    }
    forall n | 0 <= n < |s1|
      ensures s3[n].left == s1[n].left && s3[n].right == s1[n].right && s3[n].col == s1[n].col &&
        s3[n].name == s1[n].name
    {
      assert s2[n].left == s1[n].left;
    }
  }

  /** Taking out the nodes to the right of r keeps rings and sizes, and leaves r's own column alone. */
  lemma RowOutKeeps(m: Matrix, s: Store, A: set<nat>, H: set<nat>, r: nat, i: nat)
    requires Rings(m, s, A) && Sized(m, s, A, H)
    requires m.First() <= r < m.Count() && i < 4
    requires forall e: nat {:trigger Around(m, r, e)} :: 1 <= e <= i ==> Around(m, r, e) in A
    ensures Rings(m, RowOut(m, s, r, i), Minus(m, A, r, i)) && Sized(m, RowOut(m, s, r, i), Minus(m, A, r, i), H)
    ensures SameSides(s, RowOut(m, s, r, i)) && SameColumn(m, s, RowOut(m, s, r, i), m.Col(r))
  {
    if i > 0 {
      RowOutKeeps(m, s, A, H, r, i - 1);
      var s1, A1, j := RowOut(m, s, r, i - 1), Minus(m, A, r, i - 1), Around(m, r, i);
      MinusMember(m, A, r, i - 1, j);
      forall e: nat | 1 <= e < i ensures j != Around(m, r, e) { RowColumnsDiffer(m, r, e, i); }
      assert j in A1;
      UnlinkKeepsRings(m, s1, A1, j);
      UnlinkKeepsSizes(m, s1, A1, H, j);
      UnlinkFrame(s1, j);
      AroundEnds(m, r);
      RowColumnsDiffer(m, r, 0, i);
      assert Linked(s1, A1, j) && ShapedNode(m, s1, j);
    }
  }

  // ---------------------------------------------------------------- the header ring

  /** Takes header c off the header ring. */
  function Unhook(s: Store, c: nat): Store
    requires InStore(s, c)
  {
    SetRight(SetLeft(s, s[c].right, s[c].left), s[c].left, s[c].right)
  }

  function Hook(s: Store, c: nat): Store
    requires InStore(s, c)
  {
    SetRight(SetLeft(s, s[c].right, c), s[c].left, c)
  }

  lemma HookUndoesUnhook(s: Store, c: nat)
    requires InStore(s, c)
    requires s[s[c].right].left == c && s[s[c].left].right == c && s[c].right != c && s[c].left != c
    ensures InStore(Unhook(s, c), c)
    ensures Hook(Unhook(s, c), c) == s
  {
    var s' := Hook(Unhook(s, c), c);
    forall n | 0 <= n < |s| ensures s'[n] == s[n] { }
  }

  lemma UnhookFrame(s: Store, c: nat)
    requires InStore(s, c)
    ensures |Unhook(s, c)| == |s|
    ensures forall n {:trigger Unhook(s, c)[n]} :: 0 <= n < |s| ==>
      && Unhook(s, c)[n].up == s[n].up && Unhook(s, c)[n].down == s[n].down
      && Unhook(s, c)[n].col == s[n].col && Unhook(s, c)[n].name == s[n].name && Unhook(s, c)[n].size == s[n].size
      && Unhook(s, c)[n].left == (if n == s[c].right then s[c].left else s[n].left)
      && Unhook(s, c)[n].right == (if n == s[c].left then s[c].right else s[n].right)
  {
  }

  lemma HeaderInStore(m: Matrix, s: Store, H: set<nat>, c: nat)
    requires Inv(m, s, H) && c in H
    ensures InStore(s, c) && HeaderLinked(s, H + {0}, c) && s[c].right != c && s[c].left != c
    ensures s[c].right < m.First() && s[c].left < m.First()
  {
    assert ShapedNode(m, s, c) && HeaderLinked(s, H + {0}, c);
    assert HeaderLinked(s, H + {0}, 0);
  }

  lemma UnhookShaped(m: Matrix, s: Store, c: nat)
    requires Shaped(m, s) && InStore(s, c) && s[c].right < m.First() && s[c].left < m.First()
    ensures Shaped(m, Unhook(s, c))
  {
    UnhookFrame(s, c);
    forall n: nat | n < m.Count() ensures ShapedNode(m, Unhook(s, c), n) {
      assert ShapedNode(m, s, n);
    }
  }

  lemma UnhookKeepsRings(m: Matrix, s: Store, A: set<nat>, c: nat)
    requires Rings(m, s, A) && InStore(s, c) && s[c].right < m.First() && s[c].left < m.First()
    ensures Rings(m, Unhook(s, c), A)
  {
    UnhookFrame(s, c);
    UnhookShaped(m, s, c);
    forall n | n in A ensures Linked(Unhook(s, c), A, n) { assert Linked(s, A, n); }
  }

  lemma UnhookShrinksHeaderRing(s: Store, H: set<nat>, c: nat)
    requires HeaderRing(s, H) && InStore(s, c) && c in H && c != 0 && 0 in H
    ensures HeaderRing(Unhook(s, c), H - {c})
  {
    UnhookFrame(s, c);
    assert HeaderLinked(s, H, c);
    forall h | h in H - {c} ensures HeaderLinked(Unhook(s, c), H - {c}, h) {
      assert HeaderLinked(s, H, h) && HeaderLinked(s, H, s[c].right) && HeaderLinked(s, H, s[c].left);
    }
  }

  /** Unhooking leaves rings and sizes alone and takes c off the header ring. */
  lemma UnhookKeeps(m: Matrix, s: Store, H: set<nat>, c: nat)
    requires Inv(m, s, H) && c in H
    ensures InStore(s, c)
    ensures Rings(m, Unhook(s, c), m.Active(H)) && Sized(m, Unhook(s, c), m.Active(H), H)
    ensures HeaderRing(Unhook(s, c), H - {c} + {0})
  {
    HeaderInStore(m, s, H, c);
    UnhookFrame(s, c);
    UnhookKeepsRings(m, s, m.Active(H), c);
    UnhookShrinksHeaderRing(s, H + {0}, c);
    assert H + {0} - {c} == H - {c} + {0};
  }

  // ---------------------------------------------------------------- covering a column

  /** Walking up a column: the node above r is earlier in the array and in the same column. */
  lemma UpIsEarlier(m: Matrix, s: Store, A: set<nat>, c: nat, r: nat)
    requires Rings(m, s, A) && m.IsHeader(c) && r in A && s[r].col == c && r != c
    ensures m.First() <= r < m.Count() && s[r].up in A && s[s[r].up].col == c && s[r].up < r
    ensures s[s[r].up].down == r && forall x :: x in A && x < |s| && s[x].col == c ==> !(s[r].up < x < r)
  {
    assert Linked(s, A, r) && ShapedNode(m, s, r) && Linked(s, A, s[r].up);
  }

  /** The store reached by cover(c) when the rows of column c up to node r are done. */
  ghost function CoveredTo(m: Matrix, s: Store, H: set<nat>, c: nat, r: nat): (s': Store)
    requires Inv(m, s, H) && c in H && r in m.Active(H) && s[r].col == c
    ensures Shaped(m, s')
    decreases r
  {
    if r == c then
      UnhookKeeps(m, s, H, c);
      Unhook(s, c)
    else
      UpIsEarlier(m, s, m.Active(H), c, r);
      RowOut(m, CoveredTo(m, s, H, c, s[r].up), r, 3)
  }

  lemma HeaderActive(m: Matrix, s: Store, H: set<nat>, c: nat)
    requires Inv(m, s, H) && c in H
    ensures c in m.Active(H) && c < m.First() && s[c].col == c && s[c].up in m.Active(H) && s[s[c].up].col == c
    ensures s[c].down in m.Active(H) && s[s[c].down].col == c && s[s[c].down].up == c && s[s[c].up].down == c
  {
    assert ShapedNode(m, s, c);
    assert Linked(s, m.Active(H), c);
  }

  /** The store after cover(c). */
  ghost function Covered(m: Matrix, s: Store, H: set<nat>, c: nat): (s': Store)
    requires Inv(m, s, H) && c in H
    ensures Shaped(m, s')
  {
    HeaderActive(m, s, H, c);
    CoveredTo(m, s, H, c, s[c].up)
  }

  /** Node n belongs to a choice that hits column c at another node, at or before r. */
  ghost predicate Dropped(m: Matrix, c: nat, r: nat, n: nat)
    requires m.Valid() && n < m.Count()
  {
    && m.First() <= n
    && exists t: nat {:trigger m.NodeOf(m.RowOf(n), t)} ::
         t < 4 && m.choices[m.RowOf(n)].cols[t] == c && n != m.NodeOf(m.RowOf(n), t) <= r
  }

  ghost function Kept(m: Matrix, H: set<nat>, c: nat, r: nat): set<nat>
    requires m.Valid()
  {
    set n | n in m.Active(H) && !Dropped(m, c, r, n)
  }

  /** Doing row r drops exactly the other nodes of r's choice. */
  lemma DroppedStep(m: Matrix, s: Store, H: set<nat>, c: nat, r: nat, n: nat)
    requires Inv(m, s, H) && c in H && r in m.Active(H) && s[r].col == c && r != c && n in m.Active(H)
    ensures m.First() <= r < m.Count()
    ensures Dropped(m, c, r, n) <==> Dropped(m, c, s[r].up, n) || (m.First() <= n && m.RowOf(n) == m.RowOf(r) && n != r)
    ensures m.First() <= n && m.RowOf(n) == m.RowOf(r) && n != r ==> !Dropped(m, c, s[r].up, n)
  {
    UpIsEarlier(m, s, m.Active(H), c, r);
    assert ShapedNode(m, s, r);
    NodeSplit(m, r);
    if m.First() <= n {
      if m.RowOf(n) == m.RowOf(r) {
        assert r == m.NodeOf(m.RowOf(n), m.Slot(r));
      } else if Dropped(m, c, r, n) {
        var t: nat :| t < 4 && m.choices[m.RowOf(n)].cols[t] == c && n != m.NodeOf(m.RowOf(n), t) <= r;
        var x := m.NodeOf(m.RowOf(n), t);
        NodeArithmetic(m, m.RowOf(n), t);
        assert ShapedNode(m, s, x) && x in m.Active(H);
        assert x <= s[r].up;
      }
    }
  }

  lemma RowMates(m: Matrix, r: nat, n: nat)
    requires m.First() <= r < m.Count() && m.First() <= n < m.Count()
    ensures m.RowOf(n) == m.RowOf(r) && n != r <==>
      exists e: nat {:trigger Around(m, r, e)} :: 1 <= e <= 3 && n == Around(m, r, e)
  {
    AroundEnds(m, r);
    if m.RowOf(n) == m.RowOf(r) && n != r { var e := AroundOnto(m, r, n); }
    forall e: nat | 1 <= e <= 3 ensures m.RowOf(Around(m, r, e)) == m.RowOf(r) && Around(m, r, e) != r {
      AroundFacts(m, r, e);
    }
  }

  lemma KeptStep(m: Matrix, s: Store, H: set<nat>, c: nat, r: nat)
    requires Inv(m, s, H) && c in H && r in m.Active(H) && s[r].col == c && r != c
    ensures m.First() <= r < m.Count()
    ensures forall e: nat {:trigger Around(m, r, e)} :: 1 <= e <= 3 ==> Around(m, r, e) in Kept(m, H, c, s[r].up)
    ensures Kept(m, H, c, r) == Minus(m, Kept(m, H, c, s[r].up), r, 3)
  {
    UpIsEarlier(m, s, m.Active(H), c, r);
    var K := Kept(m, H, c, s[r].up);
    forall e: nat | 1 <= e <= 3 ensures Around(m, r, e) in K {
      var n := Around(m, r, e);
      RowMates(m, r, n);
      AroundFacts(m, r, e);
      DroppedStep(m, s, H, c, r, n);
    }
    forall n ensures n in Kept(m, H, c, r) <==> n in Minus(m, K, r, 3) {
      MinusMember(m, K, r, 3, n);
      if n in m.Active(H) {
        DroppedStep(m, s, H, c, r, n);
        if m.First() <= n { RowMates(m, r, n); }
      }
    }
  }

  /** What cover(c) has kept after the rows up to r. */
  lemma CoveredToKeeps(m: Matrix, s: Store, H: set<nat>, c: nat, r: nat)
    requires Inv(m, s, H) && c in H && r in m.Active(H) && s[r].col == c
    ensures Rings(m, CoveredTo(m, s, H, c, r), Kept(m, H, c, r))
    ensures Sized(m, CoveredTo(m, s, H, c, r), Kept(m, H, c, r), H)
    ensures InStore(s, c) && SameSides(Unhook(s, c), CoveredTo(m, s, H, c, r))
    ensures SameColumn(m, s, CoveredTo(m, s, H, c, r), c)
    decreases r
  {
    HeaderInStore(m, s, H, c);
    if r == c {
      UnhookKeeps(m, s, H, c);
      UnhookFrame(s, c);
      assert Kept(m, H, c, r) == m.Active(H);
    } else {
      UpIsEarlier(m, s, m.Active(H), c, r);
      var s2, K := CoveredTo(m, s, H, c, s[r].up), Kept(m, H, c, s[r].up);
      CoveredToKeeps(m, s, H, c, s[r].up);
      KeptStep(m, s, H, c, r);
      RowOutKeeps(m, s2, K, H, r, 3);
      assert m.Col(r) == c by { assert ShapedNode(m, s, r); }
      assert |s| == |Unhook(s, c)| && forall n: nat {:trigger s2[n]} :: n < m.Count() ==> s2[n].col == s[n].col by {
        UnhookFrame(s, c);
      }
      FrameTrans(m, s, Unhook(s, c), s2, CoveredTo(m, s, H, c, r), c);
    }
  }

  /** A ring survives forgetting whole other columns. */
  lemma ForgetColumn(m: Matrix, s: Store, A: set<nat>, B: set<nat>, c: nat)
    requires Rings(m, s, A)
    requires forall n :: n in B <==> n in A && s[n].col != c
    ensures Rings(m, s, B)
  {
    forall n | n in B ensures Linked(s, B, n) {
      assert Linked(s, A, n);
    }
  }

  lemma LastInColumn(m: Matrix, s: Store, H: set<nat>, c: nat, k: nat, t: nat)
    requires Inv(m, s, H) && c in H && k < |m.choices| && m.Available(H, k) && t < 4 && m.choices[k].cols[t] == c
    ensures m.NodeOf(k, t) in m.Active(H) && s[m.NodeOf(k, t)].col == c && m.NodeOf(k, t) <= s[c].up
  {
    HeaderActive(m, s, H, c);
    NodeArithmetic(m, k, t);
    assert ShapedNode(m, s, m.NodeOf(k, t));
    assert Linked(s, m.Active(H), s[c].up) && ShapedNode(m, s, s[c].up);
  }

  /** Once all rows of column c are done, what is kept outside column c is what is active without c. */
  lemma KeptAll(m: Matrix, s: Store, H: set<nat>, c: nat, n: nat)
    requires Inv(m, s, H) && c in H
    ensures n in m.Active(H - {c}) <==> n in Kept(m, H, c, s[c].up) && s[n].col != c
  {
    if n in m.Active(H) {
      assert ShapedNode(m, s, n);
      if m.First() <= n {
        NodeSplit(m, n);
        var k := m.RowOf(n);
        forall t: nat | t < 4 && m.choices[k].cols[t] == c ensures m.NodeOf(k, t) <= s[c].up {
          LastInColumn(m, s, H, c, k, t);
        }
        if t: nat :| t < 4 && m.choices[k].cols[t] == c {
          assert s[n].col == c || n != m.NodeOf(k, t);
        } else {
          assert m.Available(H - {c}, k);
        }
      }
    }
  }

  lemma MembersForget(m: Matrix, s: Store, A: set<nat>, B: set<nat>, c: nat, h: nat)
    requires Rings(m, s, A) && h != c
    requires forall n :: n in B <==> n in A && s[n].col != c
    ensures Members(m, A, h) == Members(m, B, h)
  {
    forall n: nat ensures n in Members(m, A, h) <==> n in Members(m, B, h) {
      if n < m.Count() { assert ShapedNode(m, s, n); }
    }
  }

  lemma HeaderRingFrame(s: Store, s': Store, H: set<nat>)
    requires HeaderRing(s, H) && SameSides(s, s')
    ensures HeaderRing(s', H)
  {
    forall h | h in H ensures HeaderLinked(s', H, h) { assert HeaderLinked(s, H, h); }
  }

  /** Covering a column keeps the invariant, and leaves the links of the covered column as they were. */
  lemma CoverKeeps(m: Matrix, s: Store, H: set<nat>, c: nat)
    requires Inv(m, s, H) && c in H
    ensures Inv(m, Covered(m, s, H, c), H - {c})
    ensures |Covered(m, s, H, c)| == |s| && SameColumn(m, s, Covered(m, s, H, c), c)
  {
    HeaderActive(m, s, H, c);
    var s', A', B := Covered(m, s, H, c), Kept(m, H, c, s[c].up), m.Active(H - {c});
    CoveredToKeeps(m, s, H, c, s[c].up);
    assert |s'| == |s| by { UnhookFrame(s, c); }
    assert forall n :: n in B <==> n in A' && s'[n].col != c by {
      UnhookFrame(s, c);
      forall n: nat ensures n in B <==> n in A' && s'[n].col != c { KeptAll(m, s, H, c, n); }
    }
    ForgetColumn(m, s', A', B, c);
    UnhookKeeps(m, s, H, c);
    HeaderRingFrame(Unhook(s, c), s', H - {c} + {0});
    forall h | h in H - {c} ensures s'[h].size == |Members(m, B, h)| {
      MembersForget(m, s', A', B, c, h);
    }
  }

  /** A matrix, a store and the columns that are uncovered in it. */
  datatype Snapshot = Snapshot(m: Matrix, s: Store, H: set<nat>)

  const BLANK := Snapshot(Matrix(0, []), [Node(0, 0, 0, 0, 0, 0, 0)], {})

  lemma BlankHolds()
    ensures Inv(BLANK.m, BLANK.s, BLANK.H)
  {
    var m, s := BLANK.m, BLANK.s;
    assert ShapedNode(m, s, 0);
    assert m.Active({}) == {};
    assert HeaderLinked(s, {0}, 0);
  }

  /** The snapshots the search goes through. */
  type Covering = x: Snapshot | Inv(x.m, x.s, x.H) ghost witness (BlankHolds(); BLANK)

  /** The snapshot after cover(c). */
  ghost function CoverStep(x: Covering, c: nat): (y: Covering)
    requires c in x.H
    ensures y.m == x.m && y.H == x.H - {c} && |y.s| == |x.s|
  {
    CoverKeeps(x.m, x.s, x.H, c);
    Snapshot(x.m, Covered(x.m, x.s, x.H, c), x.H - {c})
  }

  // ---------------------------------------------------------------- uncovering

  /** Relinking the node taken out last gives the store from before it was taken out. */
  lemma RowOutUndone(m: Matrix, s: Store, A: set<nat>, H: set<nat>, r: nat, i: nat)
    requires Rings(m, s, A) && Sized(m, s, A, H)
    requires m.First() <= r < m.Count() && 1 <= i < 4
    requires forall e: nat {:trigger Around(m, r, e)} :: 1 <= e <= 3 ==> Around(m, r, e) in A
    ensures InStore(RowOut(m, s, r, i), Around(m, r, i))
    ensures Relink(RowOut(m, s, r, i), Around(m, r, i)) == RowOut(m, s, r, i - 1)
  {
    RowOutKeeps(m, s, A, H, r, i - 1);
    var s1, A1, j := RowOut(m, s, r, i - 1), Minus(m, A, r, i - 1), Around(m, r, i);
    MinusMember(m, A, r, i - 1, j);
    forall e: nat | 1 <= e < i ensures j != Around(m, r, e) { RowColumnsDiffer(m, r, e, i); }
    assert Linked(s1, A1, j) && ShapedNode(m, s1, j);
    assert Linked(s1, A1, s1[j].up);
    RelinkUndoesUnlink(s1, j);
  }

  /** What the loop that puts a row back meets at its i-th node. */
  lemma RelinkRung(m: Matrix, s: Store, A: set<nat>, H: set<nat>, r: nat, i: nat)
    requires Rings(m, s, A) && Sized(m, s, A, H)
    requires m.First() <= r < m.Count() && 1 <= i < 4
    requires forall e: nat {:trigger Around(m, r, e)} :: 1 <= e <= 3 ==> Around(m, r, e) in A
    ensures var s1, j := RowOut(m, s, r, i), Around(m, r, i);
      InStore(s1, j) && Relink(s1, j) == RowOut(m, s, r, i - 1) && j < |Relink(s1, j)| &&
        Relink(s1, j)[j].left == Around(m, r, i - 1)
    ensures Around(m, r, i - 1) == r <==> i == 1
  {
    RowOutUndone(m, s, A, H, r, i);
    RowLinks(m, RowOut(m, s, r, i - 1), r, i - 1);
  }

  /** The rows of column c are done one after the other, so the last one can be undone first. */
  lemma CoveredStep(m: Matrix, s: Store, H: set<nat>, c: nat, r: nat)
    requires Inv(m, s, H) && c in H && r in m.Active(H) && s[r].col == c && r != c
    ensures m.First() <= r < m.Count() && s[r].up in m.Active(H) && s[s[r].up].col == c
    ensures CoveredTo(m, s, H, c, r) == RowOut(m, CoveredTo(m, s, H, c, s[r].up), r, 3)
    ensures forall e: nat {:trigger Around(m, r, e)} :: 1 <= e <= 3 ==> Around(m, r, e) in Kept(m, H, c, s[r].up)
    ensures Rings(m, CoveredTo(m, s, H, c, s[r].up), Kept(m, H, c, s[r].up))
    ensures Sized(m, CoveredTo(m, s, H, c, s[r].up), Kept(m, H, c, s[r].up), H)
  {
    UpIsEarlier(m, s, m.Active(H), c, r);
    KeptStep(m, s, H, c, r);
    CoveredToKeeps(m, s, H, c, s[r].up);
  }

  /** Walking down a column. */
  lemma DownIsLater(m: Matrix, s: Store, H: set<nat>, c: nat, r: nat)
    requires Inv(m, s, H) && c in H && r in m.Active(H) && s[r].col == c
    ensures r < m.Count() && s[r].down in m.Active(H) && s[s[r].down].col == c && s[s[r].down].up == r
    ensures s[r].down == c || r < s[r].down
  {
    assert Linked(s, m.Active(H), r);
  }

  // ---------------------------------------------------------------- exact covers

  /** The choices of R hit every column of H exactly once, and no column outside H. */
  ghost predicate ExactCover(m: Matrix, H: set<nat>, R: set<nat>)
    requires m.Valid()
  {
    && (forall k :: k in R ==> k < |m.choices| && m.Available(H, k))
    && (forall c {:trigger Hit(m, R, c)} :: c in H ==> Hit(m, R, c))
    && (forall k, k' {:trigger Disjoint(m.choices[k].cols, m.choices[k'].cols)} ::
          k in R && k' in R && k != k' ==> Disjoint(m.choices[k].cols, m.choices[k'].cols))
  }

  ghost predicate Hit(m: Matrix, R: set<nat>, c: nat) {
    exists k :: k in R && k < |m.choices| && c in m.choices[k].cols
  }

  ghost predicate NoCover(m: Matrix, H: set<nat>)
    requires m.Valid()
  {
    forall R :: !ExactCover(m, H, R)
  }

  ghost predicate Disjoint(a: seq<nat>, b: seq<nat>) {
    forall x :: x in a ==> x !in b
  }

  ghost function Elements(a: seq<nat>): set<nat> {
    set x | x in a
  }

  /** The columns of H that the choice owning node r does not hit. */
  ghost function Below(m: Matrix, H: set<nat>, r: nat): set<nat>
    requires m.Valid() && m.First() <= r < m.Count()
  {
    H - Elements(m.choices[m.RowOf(r)].cols)
  }

  /** Removing a choice from an exact cover leaves an exact cover of the columns it does not hit. */
  lemma CoverSplit(m: Matrix, H: set<nat>, R: set<nat>, k: nat)
    requires m.Valid() && ExactCover(m, H, R) && k in R
    ensures ExactCover(m, H - Elements(m.choices[k].cols), R - {k})
  {
    var H' := H - Elements(m.choices[k].cols);
    forall c | c in H' ensures Hit(m, R - {k}, c) {
      assert Hit(m, R, c);
      var i :| i in R && i < |m.choices| && c in m.choices[i].cols;
      assert i in R - {k};
    }
    forall i | i in R - {k} ensures m.Available(H', i) {
      assert Disjoint(m.choices[i].cols, m.choices[k].cols);
    }
  }

  /** Adding an available choice to an exact cover of the covered columns. */
  lemma CoverJoin(m: Matrix, H: set<nat>, P: set<nat>, k: nat)
    requires m.Valid() && H <= m.Headers() && ExactCover(m, m.Headers() - H, P) && k < |m.choices| && m.Available(H, k)
    ensures k !in P
    ensures ExactCover(m, m.Headers() - (H - Elements(m.choices[k].cols)), P + {k})
  {
    var U, q := m.Headers() - (H - Elements(m.choices[k].cols)), m.choices[k].cols;
    assert q[0] in q;
    forall i | i in P ensures m.Available(U, i) && Disjoint(m.choices[i].cols, q) && Disjoint(q, m.choices[i].cols) {
      assert m.Available(m.Headers() - H, i);
    }
    assert m.Available(U, k);
    forall c | c in U ensures Hit(m, P + {k}, c) {
      if c in q {
        assert k in P + {k};
      } else {
        assert c in m.Headers() - H && Hit(m, P, c);
        var i :| i in P && i < |m.choices| && c in m.choices[i].cols;
        assert i in P + {k};
      }
    }
  }

  // ---------------------------------------------------------------- choosing a row

  /** The columns left when column c and the first i others of row r are covered. */
  ghost function Without(m: Matrix, H: set<nat>, r: nat, i: nat): set<nat>
    requires m.Valid() && m.First() <= r < m.Count() && i < 4
  {
    if i == 0 then H else Without(m, H, r, i - 1) - {m.Col(Around(m, r, i))}
  }

  ghost predicate Fits(m: Matrix, H: set<nat>, r: nat)
    requires m.Valid()
  {
    && m.First() <= r < m.Count()
    && forall e: nat {:trigger Around(m, r, e)} :: 1 <= e < 4 ==> m.Col(Around(m, r, e)) in H
  }

  lemma WithoutMember(m: Matrix, H: set<nat>, r: nat, i: nat)
    requires m.Valid() && Fits(m, H, r) && 1 <= i < 4
    ensures m.Col(Around(m, r, i)) in Without(m, H, r, i - 1)
  {
    RowColumnsDiffer(m, r, 1, 2);
    RowColumnsDiffer(m, r, 1, 3);
    RowColumnsDiffer(m, r, 2, 3);
    if i == 3 { assert Without(m, H, r, 2) == Without(m, H, r, 1) - {m.Col(Around(m, r, 2))}; }
    assert i > 1 ==> Without(m, H, r, 1) == Without(m, H, r, 0) - {m.Col(Around(m, r, 1))};
  }

  /** The snapshot after covering the columns of the first i nodes to the right of r. */
  ghost function ChooseStep(x: Covering, r: nat, i: nat): (y: Covering)
    requires Fits(x.m, x.H, r) && i < 4
    ensures y.m == x.m && y.H == Without(x.m, x.H, r, i) && |y.s| == |x.s|
  {
    if i == 0 then x
    else
      WithoutMember(x.m, x.H, r, i);
      CoverStep(ChooseStep(x, r, i - 1), x.m.Col(Around(x.m, r, i)))
  }

  /** What the loops that cover and uncover the columns of a row meet at their i-th node. */
  lemma Rung(x: Covering, r: nat, i: nat)
    requires Fits(x.m, x.H, r) && 1 <= i < 4
    ensures var y, z, j := ChooseStep(x, r, i - 1), ChooseStep(x, r, i), Around(x.m, r, i);
      && j < |y.s| && y.s[j].col == z.s[j].col && y.s[j].col in y.H && z == CoverStep(y, y.s[j].col)
      && z.s[j].right == Around(x.m, r, i + 1) && y.s[j].left == Around(x.m, r, i - 1)
    ensures (Around(x.m, r, i - 1) == r <==> i == 1) && (Around(x.m, r, i + 1) == r <==> i == 3)
  {
    var y, z, j := ChooseStep(x, r, i - 1), ChooseStep(x, r, i), Around(x.m, r, i);
    WithoutMember(x.m, x.H, r, i);
    assert ShapedNode(y.m, y.s, j) && ShapedNode(z.m, z.s, j);
    RowLinks(y.m, y.s, r, i - 1);
    RowLinks(z.m, z.s, r, i);
  }

  /** The nodes next to r on its ring, in any snapshot. */
  lemma RungEnds(x: Covering, r: nat)
    requires x.m.First() <= r < x.m.Count()
    ensures r < |x.s| && x.s[r].right == Around(x.m, r, 1) != r && x.s[r].left == Around(x.m, r, 3) != r
    ensures Around(x.m, r, 0) == r == Around(x.m, r, 4)
  {
    RowLinks(x.m, x.s, r, 0);
    RowLinks(x.m, x.s, r, 3);
    AroundEnds(x.m, r);
  }

  lemma WithoutAll(m: Matrix, H: set<nat>, c: nat, r: nat)
    requires m.Valid() && m.First() <= r < m.Count() && m.Col(r) == c
    ensures Without(m, H - {c}, r, 3) == Below(m, H, r)
  {
    AroundFacts(m, r, 1);
    AroundFacts(m, r, 2);
    AroundFacts(m, r, 3);
    var q := m.choices[m.RowOf(r)].cols;
    var G := H - {c};
    assert Without(m, G, r, 1) == Without(m, G, r, 0) - {m.Col(Around(m, r, 1))};
    assert Without(m, G, r, 2) == Without(m, G, r, 1) - {m.Col(Around(m, r, 2))};
    assert Without(m, G, r, 3) == Without(m, G, r, 2) - {m.Col(Around(m, r, 3))};
    assert Elements(q) == {q[0], q[1], q[2], q[3]};
  }

  lemma AvailableFits(m: Matrix, H: set<nat>, c: nat, r: nat)
    requires m.Valid() && c in H && r in m.Active(H) && m.First() <= r && m.Col(r) == c
    ensures m.RowOf(r) < |m.choices| && m.Available(H, m.RowOf(r)) && Fits(m, H - {c}, r)
  {
    NodeSplit(m, r);
    AroundEnds(m, r);
    forall e: nat | 1 <= e < 4 ensures m.Col(Around(m, r, e)) in H - {c} {
      RowColumnsDiffer(m, r, 0, e);
      AroundFacts(m, r, e);
    }
  }

  // ---------------------------------------------------------------- pruning

  /** No exact cover of H hits column c at a node that comes before row (or anywhere, if row is the header). */
  ghost predicate Pruned(m: Matrix, H: set<nat>, c: nat, row: nat)
    requires m.Valid()
  {
    forall R, k, t: nat {:trigger ExactCover(m, H, R), m.choices[k].cols[t], k in R} ::
      ExactCover(m, H, R) && k in R && t < 4 && m.choices[k].cols[t] == c ==> row != c && row <= m.NodeOf(k, t)
  }

  lemma PrunedAtFirst(m: Matrix, s: Store, H: set<nat>, c: nat)
    requires Inv(m, s, H) && c in H
    ensures c < |s| && Pruned(m, H, c, s[c].down)
  {
    HeaderActive(m, s, H, c);
    forall R, k, t: nat | ExactCover(m, H, R) && k in R && t < 4 && m.choices[k].cols[t] == c
      ensures s[c].down != c && s[c].down <= m.NodeOf(k, t)
    {
      LastInColumn(m, s, H, c, k, t);
      NextInColumn(m, s, H, c, c, m.NodeOf(k, t));
    }
  }

  lemma PrunedAtNext(m: Matrix, s: Store, H: set<nat>, c: nat, row: nat)
    requires Inv(m, s, H) && c in H && row in m.Active(H) && s[row].col == c && row != c
    requires Pruned(m, H, c, row)
    requires m.First() <= row < m.Count()
    requires NoCover(m, Below(m, H, row))
    ensures Pruned(m, H, c, s[row].down)
  {
    forall R, k, t: nat | ExactCover(m, H, R) && k in R && t < 4 && m.choices[k].cols[t] == c
      ensures s[row].down != c && s[row].down <= m.NodeOf(k, t)
    {
      assert row <= m.NodeOf(k, t);
      LastInColumn(m, s, H, c, k, t);
      assert m.RowOf(row) != k by { if m.RowOf(row) == k { CoverSplit(m, H, R, k); } }
      assert row != m.NodeOf(k, t) by { NodeArithmetic(m, k, t); }
      NextInColumn(m, s, H, c, row, m.NodeOf(k, t));
    }
  }

  lemma NextInColumn(m: Matrix, s: Store, H: set<nat>, c: nat, r: nat, n: nat)
    requires Inv(m, s, H) && c in H && r in m.Active(H) && s[r].col == c
    requires n in m.Active(H) && s[n].col == c && r < n
    ensures s[r].down != c && s[r].down <= n
  {
    assert Linked(s, m.Active(H), r) && ShapedNode(m, s, c) && ShapedNode(m, s, r);
  }

  lemma PrunedOut(m: Matrix, H: set<nat>, c: nat)
    requires m.Valid() && c in H && Pruned(m, H, c, c)
    ensures NoCover(m, H)
  {
    forall R ensures !ExactCover(m, H, R) { assert ExactCover(m, H, R) ==> Hit(m, R, c); }
  }

  // ---------------------------------------------------------------- names

  /** The first node of a choice is named by its cell, the other three by a constraint that ends in its digit. */
  ghost predicate NamedNode(m: Matrix, s: Store, n: nat)
    requires m.First() <= n < m.Count() <= |s|
  {
    var q := m.choices[m.RowOf(n)];
    if m.Slot(n) == 0 then s[n].name == q.cell < 100 else 100 <= s[n].name && s[n].name % 10 == q.digit
  }

  ghost predicate Named(m: Matrix, s: Store) {
    && m.Count() <= |s|
    && (forall n: nat {:trigger NamedNode(m, s, n)} :: m.First() <= n < m.Count() ==> NamedNode(m, s, n))
  }

  /** Choices for the same cell share their first column. */
  ghost predicate CellsKeyed(m: Matrix)
    requires m.Valid()
  {
    forall k, k' {:trigger m.choices[k].cell, m.choices[k'].cell} ::
      0 <= k < |m.choices| && 0 <= k' < |m.choices| && m.choices[k].cell == m.choices[k'].cell ==>
        m.choices[k].cols[0] == m.choices[k'].cols[0]
  }

  /** Board b' is b with the digits of the choices of R written into their cells. */
  ghost predicate Written(m: Matrix, b: seq<int>, b': seq<int>, R: set<nat>) {
    && |b'| == |b|
    && (forall k :: k in R ==>
      k < |m.choices| && m.choices[k].cell < |b| && b'[m.choices[k].cell] == m.choices[k].digit)
    && (forall i :: 0 <= i < |b| && (forall k :: k in R ==> k < |m.choices| && m.choices[k].cell != i) ==>
      b'[i] == b[i])
  }

  /** Board b' comes from b by writing an exact cover of all columns. */
  ghost predicate Solution(m: Matrix, b: seq<int>, b': seq<int>)
    requires m.Valid()
  {
    exists R :: ExactCover(m, m.Headers(), R) && Written(m, b, b', R)
  }

  ghost predicate Picked(m: Matrix, stack: seq<nat>, P: set<nat>) {
    && (forall i :: 0 <= i < |stack| ==> m.First() <= stack[i] < m.Count() && m.RowOf(stack[i]) in P)
    && (forall k {:trigger OnStack(m, stack, k)} :: k in P ==> OnStack(m, stack, k))
  }

  ghost predicate OnStack(m: Matrix, stack: seq<nat>, k: nat) {
    exists i :: 0 <= i < |stack| && m.First() <= stack[i] && m.RowOf(stack[i]) == k
  }

  lemma PickedPush(m: Matrix, stack: seq<nat>, P: set<nat>, r: nat)
    requires Picked(m, stack, P) && m.First() <= r < m.Count()
    ensures Picked(m, stack + [r], P + {m.RowOf(r)})
  {
    var stack' := stack + [r];
    forall k | k in P + {m.RowOf(r)} ensures OnStack(m, stack', k) {
      if k in P {
        assert OnStack(m, stack, k);
        var i :| 0 <= i < |stack| && m.First() <= stack[i] && m.RowOf(stack[i]) == k;
        assert stack'[i] == stack[i];
      } else {
        assert stack'[|stack|] == r;
      }
    }
  }

  lemma CoveredNames(m: Matrix, s: Store, H: set<nat>, c: nat)
    requires Inv(m, s, H) && c in H && Named(m, s)
    ensures Named(m, Covered(m, s, H, c))
  {
    HeaderActive(m, s, H, c);
    CoveredToKeeps(m, s, H, c, s[c].up);
    UnhookFrame(s, c);
    var s' := Covered(m, s, H, c);
    forall n: nat | m.First() <= n < m.Count() ensures NamedNode(m, s', n) { assert NamedNode(m, s, n); }
  }

  lemma ChooseNames(x: Covering, r: nat, i: nat)
    requires Fits(x.m, x.H, r) && i < 4 && Named(x.m, x.s)
    ensures Named(x.m, ChooseStep(x, r, i).s)
  {
    if i > 0 {
      ChooseNames(x, r, i - 1);
      WithoutMember(x.m, x.H, r, i);
      var y := ChooseStep(x, r, i - 1);
      CoveredNames(y.m, y.s, y.H, x.m.Col(Around(x.m, r, i)));
    }
  }

  lemma RootAlone(s: Store, H: set<nat>)
    requires HeaderRing(s, H + {0})
    ensures 0 < |s| && (s[0].left == 0 <==> H <= {0})
  {
    assert HeaderLinked(s, H + {0}, 0);
    if s[0].left != 0 { assert s[0].left in H; }
  }

  lemma CellsDiffer(m: Matrix, H: set<nat>, P: set<nat>, k: nat, k': nat)
    requires m.Valid() && CellsKeyed(m) && ExactCover(m, H, P) && k in P && k' in P && k != k'
    ensures m.choices[k].cell != m.choices[k'].cell
  {
    assert Disjoint(m.choices[k].cols, m.choices[k'].cols);
    assert m.choices[k].cols[0] in m.choices[k].cols && m.choices[k'].cols[0] in m.choices[k'].cols;
  }

  // ---------------------------------------------------------------- the search, as values

  /** Where the search stands: the snapshot, the stack, the set of stacked choices and the board size. */
  datatype Position = Position(x: Covering, stack: seq<nat>, P: set<nat>, cells: nat)

  /** The stacked choices cover exactly the columns that are not uncovered. */
  ghost predicate Searching(p: Position) {
    && var m := p.x.m;
    && Named(m, p.x.s)
    && CellsKeyed(m)
    && (forall k :: 0 <= k < |m.choices| ==> m.choices[k].cell < p.cells)
    && Picked(m, p.stack, p.P)
    && ExactCover(m, m.Headers() - p.x.H, p.P)
  }

  type Search = p: Position | Searching(p) ghost witness (BlankHolds(); Position(BLANK, [], {}, 0))

  ghost predicate RowAt(x: Covering, c: nat, r: nat) {
    c in x.H && r in x.m.Active(x.H) && x.m.First() <= r && x.m.Col(r) == c
  }

  lemma DescendCover(p: Search, c: nat, r: nat)
    requires RowAt(p.x, c, r)
    ensures Fits(p.x.m, p.x.H - {c}, r) && Below(p.x.m, p.x.H, r) == Without(p.x.m, p.x.H - {c}, r, 3)
    ensures |Below(p.x.m, p.x.H, r)| < |p.x.H| && p.x.m.RowOf(r) < |p.x.m.choices|
    ensures ExactCover(p.x.m, p.x.m.Headers() - Below(p.x.m, p.x.H, r), p.P + {p.x.m.RowOf(r)})
    ensures Picked(p.x.m, p.stack + [r], p.P + {p.x.m.RowOf(r)})
  {
    var m, H := p.x.m, p.x.H;
    AvailableFits(m, H, c, r);
    WithoutAll(m, H, c, r);
    CoverJoin(m, H, p.P, m.RowOf(r));
    PickedPush(m, p.stack, p.P, r);
    NodeSplit(m, r);
    assert m.choices[m.RowOf(r)].cols[m.Slot(r)] == c;
    Smaller(H, Below(m, H, r), c);
  }

  lemma DescendNames(p: Search, c: nat, r: nat)
    requires RowAt(p.x, c, r) && Fits(p.x.m, p.x.H - {c}, r)
    ensures Named(p.x.m, ChooseStep(CoverStep(p.x, c), r, 3).s)
  {
    CoveredNames(p.x.m, p.x.s, p.x.H, c);
    ChooseNames(CoverStep(p.x, c), r, 3);
  }

  ghost function Pushed(p: Search, c: nat, r: nat): Position
    requires RowAt(p.x, c, r) && Fits(p.x.m, p.x.H - {c}, r)
  {
    Position(ChooseStep(CoverStep(p.x, c), r, 3), p.stack + [r], p.P + {p.x.m.RowOf(r)}, p.cells)
  }

  lemma PushedSearching(p: Search, c: nat, r: nat)
    requires RowAt(p.x, c, r) && Fits(p.x.m, p.x.H - {c}, r)
    ensures Searching(Pushed(p, c, r)) && Pushed(p, c, r).x.H == Below(p.x.m, p.x.H, r)
  {
    DescendCover(p, c, r);
    DescendNames(p, c, r);
    assert Pushed(p, c, r).x.m == p.x.m;
  }

  /** The position after choosing row r of column c. */
  ghost function Descend(p: Search, c: nat, r: nat): (q: Search)
    requires RowAt(p.x, c, r)
    ensures Fits(p.x.m, p.x.H - {c}, r) && q == Pushed(p, c, r)
    ensures q.x.H == Below(p.x.m, p.x.H, r) && |q.x.H| < |p.x.H|
  {
    DescendCover(p, c, r);
    PushedSearching(p, c, r);
    Pushed(p, c, r)
  }

  lemma Smaller(H: set<nat>, H': set<nat>, c: nat)
    requires H' <= H && c in H && c !in H'
    ensures |H'| < |H|
  {
    assert H == H' + (H - H');
  }

  /** The place of a row in the walk down column c: everything before it has been pruned. */
  ghost predicate Walking(x: Covering, c: nat, r: nat) {
    c in x.H && r in x.m.Active(x.H) && r < |x.s| && x.s[r].col == c && Pruned(x.m, x.H, c, r)
  }

  lemma WalkStart(x: Covering, c: nat)
    requires c in x.H
    ensures c < |x.s| && CoverStep(x, c).s[c].down == x.s[c].down
    ensures Walking(x, c, x.s[c].down)
  {
    HeaderActive(x.m, x.s, x.H, c);
    CoverKeeps(x.m, x.s, x.H, c);
    PrunedAtFirst(x.m, x.s, x.H, c);
  }

  lemma WalkRow(x: Covering, c: nat, r: nat)
    requires Walking(x, c, r) && r != c
    ensures RowAt(x, c, r) && r < x.m.Count()
  {
    assert ShapedNode(x.m, x.s, r);
  }

  lemma WalkNext(x: Covering, c: nat, r: nat)
    requires Walking(x, c, r) && r != c
    requires x.m.First() <= r < x.m.Count() && NoCover(x.m, Below(x.m, x.H, r))
    ensures CoverStep(x, c).s[r].down == x.s[r].down && (x.s[r].down == c || r < x.s[r].down < x.m.Count())
    ensures Walking(x, c, x.s[r].down)
  {
    CoverKeeps(x.m, x.s, x.H, c);
    DownIsLater(x.m, x.s, x.H, c, r);
    PrunedAtNext(x.m, x.s, x.H, c, r);
  }

  lemma WalkEnd(x: Covering, c: nat)
    requires Walking(x, c, c)
    ensures NoCover(x.m, x.H)
  {
    PrunedOut(x.m, x.H, c);
  }
}
