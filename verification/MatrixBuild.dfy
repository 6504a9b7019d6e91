/** How the solver's constructor grows the link structure: one header at a time,
    then one choice (four row nodes) at a time, keeping the search invariant. */
module MatrixBuild {
  import opened DancingLinks

  function PutLeft(s: Store, old': nat, n: nat): Store
    requires old' < |s| && n < |s| && s[old'].left < |s| && old' != n
  {
    var l := s[old'].left;
    SetLeft(SetRight(s[n := s[n].(left := l, right := old')], l, n), old', n)
  }

  function FreshNode(n: nat, name: nat): Node { Node(n, n, n, n, n, name, 0) }

  // ---------------------------------------------------------------- headers

  /** The store after append_column. */
  function WithColumn(s: Store, n: nat, name: nat): Store
    requires 0 < n < |s| && s[0].left < n
  {
    PutLeft(s[n := FreshNode(n, name)], 0, n)
  }

  lemma WithColumnFrame(s: Store, n: nat, name: nat)
    requires 0 < n < |s| && s[0].left < n
    ensures |WithColumn(s, n, name)| == |s|
    ensures forall x {:trigger WithColumn(s, n, name)[x]} :: 0 <= x < |s| ==>
      var y := WithColumn(s, n, name)[x];
      if x == n then y == Node(s[0].left, 0, n, n, n, name, 0)
      else
        && y.up == s[x].up && y.down == s[x].down && y.col == s[x].col && y.name == s[x].name && y.size == s[x].size
        && y.left == (if x == 0 then n else s[x].left)
        && y.right == (if x == s[0].left then n else s[x].right)
  {
  }

  lemma WithColumnHeaderRing(s: Store, H: set<nat>, n: nat, name: nat)
    requires 0 in H && HeaderRing(s, H) && 0 < n < |s| && forall h :: h in H ==> h < n
    ensures s[0].left < n && HeaderRing(WithColumn(s, n, name), H + {n})
  {
    assert HeaderLinked(s, H, 0);
    WithColumnFrame(s, n, name);
    forall h | h in H + {n} ensures HeaderLinked(WithColumn(s, n, name), H + {n}, h) {
      if h != n { assert HeaderLinked(s, H, h); }
      assert HeaderLinked(s, H, s[0].left);
    }
  }

  lemma WithColumnRings(m: Matrix, s: Store, name: nat)
    requires m.choices == [] && Inv(m, s, m.Headers()) && m.Count() < |s| && s[0].left < m.Count()
    ensures var m', s' := Matrix(m.columns + 1, []), WithColumn(s, m.Count(), name);
      Rings(m', s', m'.Active(m'.Headers())) && Sized(m', s', m'.Active(m'.Headers()), m'.Headers())
  {
    var n := m.Count();
    var m', s' := Matrix(m.columns + 1, []), WithColumn(s, n, name);
    var A, A' := m.Active(m.Headers()), m'.Active(m'.Headers());
    WithColumnFrame(s, n, name);
    forall x: nat ensures x in A' <==> x in A + {n} { }
    assert A' == A + {n};
    forall x: nat | x < m'.Count() ensures ShapedNode(m', s', x) {
      if x < n { assert ShapedNode(m, s, x); }
    }
    forall x | x in A' ensures Linked(s', A', x) {
      if x != n {
        assert Linked(s, A, x) && ShapedNode(m, s, x);
      }
    }
    forall c | c in m'.Headers() ensures c < |s'| && s'[c].size == |Members(m', A', c)| {
      assert Members(m', A', c) == {};
      if c != n { assert Members(m, A, c) == {}; }
    }
  }

  /** Appending a header keeps the invariant of a matrix without rows. */
  lemma WithColumnKeeps(m: Matrix, s: Store, name: nat)
    requires m.choices == [] && Inv(m, s, m.Headers()) && m.Count() < |s|
    ensures s[0].left < m.Count()
    ensures Inv(Matrix(m.columns + 1, []), WithColumn(s, m.Count(), name), Matrix(m.columns + 1, []).Headers())
  {
    var m' := Matrix(m.columns + 1, []);
    WithColumnHeaderRing(s, m.Headers() + {0}, m.Count(), name);
    assert m.Headers() + {0} + {m.Count()} == m'.Headers() + {0};
    WithColumnRings(m, s, name);
  }

  // ---------------------------------------------------------------- row nodes

  /** The store after new_row: node n hangs at the bottom of column c. */
  function WithRowNode(s: Store, n: nat, name: nat, c: nat): Store
    requires n < |s| && c < |s| && c != n && s[c].up < |s|
  {
    var u := s[c].up;
    AddSize(SetUp(SetDown(s[n := FreshNode(n, name).(up := u, down := c, col := c)], u, n), c, n), c, 1)
  }

  lemma WithRowNodeFrame(s: Store, n: nat, name: nat, c: nat)
    requires n < |s| && c < |s| && c != n && s[c].up < |s| && s[c].up != n
    ensures |WithRowNode(s, n, name, c)| == |s|
    ensures forall x {:trigger WithRowNode(s, n, name, c)[x]} :: 0 <= x < |s| ==>
      var y := WithRowNode(s, n, name, c)[x];
      if x == n then y == Node(n, n, s[c].up, c, c, name, 0)
      else
        && y.left == s[x].left && y.right == s[x].right && y.col == s[x].col && y.name == s[x].name
        && y.size == (if x == c then s[x].size + 1 else s[x].size)
        && y.up == (if x == c then n else s[x].up)
        && y.down == (if x == s[c].up then n else s[x].down)
  {
  }

  ghost predicate VerticalRings(s: Store, A: set<nat>) {
    forall n {:trigger Linked(s, A, n)} :: n in A ==> Linked(s, A, n)
  }

  lemma WithRowNodeLinked(s: Store, A: set<nat>, n: nat, name: nat, c: nat, x: nat)
    requires c in A && c < |s| && s[c].col == c && n < |s| && (forall y :: y in A ==> y < n)
    requires Linked(s, A, c) && Linked(s, A, s[c].up)
    requires x in A ==> Linked(s, A, x)
    requires (forall y :: y in A && s[y].col == c ==> c <= y) && (x in A || x == n)
    ensures Linked(WithRowNode(s, n, name, c), A + {n}, x)
  {
    WithRowNodeFrame(s, n, name, c);
  }

  lemma WithRowNodeRings(s: Store, A: set<nat>, n: nat, name: nat, c: nat)
    requires VerticalRings(s, A) && c in A && c < |s| && s[c].col == c && n < |s|
    requires (forall y :: y in A ==> y < n) && (forall y :: y in A && s[y].col == c ==> c <= y)
    ensures s[c].up < n && VerticalRings(WithRowNode(s, n, name, c), A + {n})
  {
    assert Linked(s, A, c) && Linked(s, A, s[c].up);
    forall x | x in A + {n} ensures Linked(WithRowNode(s, n, name, c), A + {n}, x) {
      assert x in A ==> Linked(s, A, x);
      WithRowNodeLinked(s, A, n, name, c, x);
    }
  }

  // ---------------------------------------------------------------- one choice

  ghost function Block(n: nat, i: nat): set<nat> {
    set x: nat | n <= x < n + i && InBlock(n, i, x)
  }

  predicate InBlock(n: nat, i: nat, x: nat) { n <= x < n + i }

  /** The nodes below n form vertical rings in which the headers of q come first. */
  ghost predicate Growable(s: Store, A: set<nat>, n: nat, q: Choice) {
    && n + 4 <= |s| && |q.cols| == 4
    && VerticalRings(s, A)
    && (forall y :: y in A ==> y < n)
    && InRange(s, n)
    && (forall t :: 0 <= t < 4 ==> q.cols[t] in A && s[q.cols[t]].col == q.cols[t])
    && (forall y, t :: y in A && 0 <= t < 4 && s[y].col == q.cols[t] ==> q.cols[t] <= y)
    && (forall t, t' :: 0 <= t < t' < 4 ==> q.cols[t] != q.cols[t'])
  }

  /** Column x is one of the first i columns of q. */
  ghost predicate Among(q: Choice, i: nat, x: nat)
    requires i <= |q.cols|
  {
    i > 0 && (q.cols[i - 1] == x || Among(q, i - 1, x))
  }

  lemma {:induction false} AmongIndex(q: Choice, i: nat, x: nat)
    requires i <= |q.cols|
    ensures Among(q, i, x) <==> exists t: nat :: t < i && q.cols[t] == x
  {
    if i > 0 { AmongIndex(q, i - 1, x); }
  }

  /** What the first i row nodes of a choice add. */
  ghost predicate Grown(s: Store, A: set<nat>, n: nat, q: Choice, names: seq<nat>, i: nat, s': Store)
    requires |q.cols| == 4 == |names| && i <= 4 && n + 4 <= |s|
  {
    VerticalRings(s', A + Block(n, i)) && GrownNodes(s, n, q, names, i, s')
  }

  ghost predicate GrownNodes(s: Store, n: nat, q: Choice, names: seq<nat>, i: nat, s': Store)
    requires |q.cols| == 4 == |names| && i <= 4 && n + 4 <= |s|
  {
    InRange(s', n + i) && OldNodes(s, n, q, i, s') && NewNodes(n, q, names, i, s')
  }

  ghost predicate OldNodes(s: Store, n: nat, q: Choice, i: nat, s': Store)
    requires i <= |q.cols|
  {
    && n <= |s| == |s'|
    && forall x: nat {:trigger s'[x]} :: x < n ==>
         && s'[x].left == s[x].left && s'[x].right == s[x].right && s'[x].col == s[x].col && s'[x].name == s[x].name
         && s'[x].size == if Among(q, i, x) then s[x].size + 1 else s[x].size
  }

  ghost predicate NewNodes(n: nat, q: Choice, names: seq<nat>, i: nat, s': Store)
    requires i <= |q.cols| == |names|
  {
    && n + i <= |s'|
    && forall x: nat {:trigger s'[x]} :: n <= x < n + i ==>
         s'[x].left == x && s'[x].right == x && s'[x].col == q.cols[x - n] && s'[x].name == names[x - n]
  }

  ghost predicate InRange(s: Store, n: nat) {
    n <= |s| && forall x: nat {:trigger s[x]} :: x < n ==> s[x].up < |s| && s[x].down < |s|
  }

  /** The store after the first i calls of new_row for a choice. */
  ghost function RowNodes(s: Store, n: nat, q: Choice, names: seq<nat>, i: nat): (s': Store)
    requires n + 4 <= |s| && InRange(s, n) && |q.cols| == 4 == |names| && i <= 4
    requires forall t :: 0 <= t < 4 ==> q.cols[t] < n
    ensures |s'| == |s| && InRange(s', n + i)
  {
    if i == 0 then s
    else
      var s1, c := RowNodes(s, n, q, names, i - 1), q.cols[i - 1];
      assert s1[c].up < |s|;
      WithRowNode(s1, n + i - 1, names[i - 1], c)
  }

  lemma {:induction false} RowNodesGrown(s: Store, A: set<nat>, n: nat, q: Choice, names: seq<nat>, i: nat)
    requires Growable(s, A, n, q) && |names| == 4 && i <= 4
    ensures Grown(s, A, n, q, names, i, RowNodes(s, n, q, names, i))
  {
    if i == 0 {
      assert A + Block(n, 0) == A;
    } else {
      RowNodesGrown(s, A, n, q, names, i - 1);
      RowNodesStep(s, A, n, q, names, i - 1, RowNodes(s, n, q, names, i - 1));
    }
  }

  /** What the next call of new_row needs, and what it leads to. */
  lemma RowNodesAbove(s: Store, A: set<nat>, n: nat, q: Choice, names: seq<nat>, i: nat)
    requires Growable(s, A, n, q) && |names| == 4 && i < 4
    ensures q.cols[i] < n && RowNodes(s, n, q, names, i)[q.cols[i]].up < n + i
    ensures RowNodes(s, n, q, names, i + 1) == WithRowNode(RowNodes(s, n, q, names, i), n + i, names[i], q.cols[i])
  {
    RowNodesGrown(s, A, n, q, names, i);
    RowNodesStep(s, A, n, q, names, i, RowNodes(s, n, q, names, i));
  }

  lemma RowNodesStep(s: Store, A: set<nat>, n: nat, q: Choice, names: seq<nat>, i: nat, s1: Store)
    requires Growable(s, A, n, q) && |names| == 4 && i < 4 && Grown(s, A, n, q, names, i, s1)
    ensures q.cols[i] < n && s1[q.cols[i]].up < n + i
    ensures Grown(s, A, n, q, names, i + 1, WithRowNode(s1, n + i, names[i], q.cols[i]))
  {
    RowNodesRings(s, A, n, q, names, i, s1);
    AmongIndex(q, i, q.cols[i]);
    RowNodesFrame(s, n, q, names, i, s1);
  }

  lemma RowNodesRings(s: Store, A: set<nat>, n: nat, q: Choice, names: seq<nat>, i: nat, s1: Store)
    requires Growable(s, A, n, q) && |names| == 4 && i < 4 && Grown(s, A, n, q, names, i, s1)
    ensures q.cols[i] < n && s1[q.cols[i]].up < n + i
    ensures VerticalRings(WithRowNode(s1, n + i, names[i], q.cols[i]), A + Block(n, i + 1))
  {
    var c := q.cols[i];
    forall y | y in A + Block(n, i) ensures y < n + i && (s1[y].col == c ==> c <= y) { }
    WithRowNodeRings(s1, A + Block(n, i), n + i, names[i], c);
    assert A + Block(n, i) + {n + i} == A + Block(n, i + 1);
  }

  lemma WithRowNodeInRange(s: Store, n: nat, name: nat, c: nat)
    requires n < |s| && c < n && InRange(s, n) && s[c].up < n
    ensures InRange(WithRowNode(s, n, name, c), n + 1)
  {
    WithRowNodeFrame(s, n, name, c);
    var s' := WithRowNode(s, n, name, c);
    forall x: nat | x < n + 1 ensures s'[x].up < |s'| && s'[x].down < |s'| { assert s[c].up < |s|; }
  }

  lemma OldNodesFrame(s: Store, n: nat, q: Choice, i: nat, s1: Store, m: nat, name: nat)
    requires i < |q.cols| && n <= m < |s| && OldNodes(s, n, q, i, s1)
    requires q.cols[i] < n && s1[q.cols[i]].up < m && !Among(q, i, q.cols[i])
    ensures OldNodes(s, n, q, i + 1, WithRowNode(s1, m, name, q.cols[i]))
  {
    WithRowNodeFrame(s1, m, name, q.cols[i]);
    var s2 := WithRowNode(s1, m, name, q.cols[i]);
    forall x: nat | x < n
      ensures s2[x].left == s[x].left && s2[x].right == s[x].right && s2[x].col == s[x].col && s2[x].name == s[x].name
      ensures s2[x].size == if Among(q, i + 1, x) then s[x].size + 1 else s[x].size
    {
      assert s1[x].left == s[x].left && s1[x].size == if Among(q, i, x) then s[x].size + 1 else s[x].size;
    }
  }

  lemma NewNodesFrame(n: nat, q: Choice, names: seq<nat>, i: nat, s1: Store)
    requires |q.cols| == |names| && i < |names| && n + i < |s1| && NewNodes(n, q, names, i, s1)
    requires q.cols[i] < n && s1[q.cols[i]].up < n + i
    ensures NewNodes(n, q, names, i + 1, WithRowNode(s1, n + i, names[i], q.cols[i]))
  {
    WithRowNodeFrame(s1, n + i, names[i], q.cols[i]);
    var s2 := WithRowNode(s1, n + i, names[i], q.cols[i]);
    forall x: nat | n <= x < n + i + 1
      ensures s2[x].left == x && s2[x].right == x && s2[x].col == q.cols[x - n] && s2[x].name == names[x - n]
    {
      assert x < n + i ==> s1[x].left == x;
    }
  }

  lemma RowNodesFrame(s: Store, n: nat, q: Choice, names: seq<nat>, i: nat, s1: Store)
    requires |q.cols| == 4 == |names| && i < 4 && n + 4 <= |s| && GrownNodes(s, n, q, names, i, s1)
    requires q.cols[i] < n && s1[q.cols[i]].up < n + i && !Among(q, i, q.cols[i])
    ensures GrownNodes(s, n, q, names, i + 1, WithRowNode(s1, n + i, names[i], q.cols[i]))
  {
    WithRowNodeInRange(s1, n + i, names[i], q.cols[i]);
    OldNodesFrame(s, n, q, i, s1, n + i, names[i]);
    NewNodesFrame(n, q, names, i, s1);
  }

  /** The store after the three put_left calls that close a choice's horizontal ring. */
  function Tied(s: Store, n: nat): (s': Store)
    requires n + 4 <= |s| && forall x: nat :: n <= x < n + 4 ==> s[x].left == x && s[x].right == x
    ensures |s'| == |s|
    ensures s'[n].right == n + 1 && s'[n + 1].right == n + 2 && s'[n + 2].right == n + 3 && s'[n + 3].right == n
    ensures s'[n].left == n + 3 && s'[n + 1].left == n && s'[n + 2].left == n + 1 && s'[n + 3].left == n + 2
    ensures forall x {:trigger s'[x]} :: 0 <= x < |s| ==>
      && s'[x].up == s[x].up && s'[x].down == s[x].down && s'[x].col == s[x].col
      && s'[x].name == s[x].name && s'[x].size == s[x].size
      && (x < n || n + 4 <= x ==> s'[x].left == s[x].left && s'[x].right == s[x].right)
  {
    assert s[n].left == n && s[n].right == n;
    PutLeft(PutLeft(PutLeft(s, n, n + 1), n, n + 2), n, n + 3)
  }

  ghost function Extended(m: Matrix, q: Choice): Matrix { m.(choices := m.choices + [q]) }

  ghost function AllActive(m: Matrix): set<nat>
    requires m.Valid()
  {
    m.Active(m.Headers())
  }

  lemma InvGrowable(m: Matrix, s: Store, q: Choice)
    requires Inv(m, s, m.Headers()) && m.ValidChoice(q) && m.Count() + 4 <= |s|
    ensures Growable(s, AllActive(m), m.Count(), q)
  {
    var A, n := AllActive(m), m.Count();
    forall x: nat | x < n ensures s[x].up < |s| && s[x].down < |s| { assert ShapedNode(m, s, x); }
    forall t | 0 <= t < 4
      ensures q.cols[t] in A && s[q.cols[t]].col == q.cols[t]
    {
      assert ShapedNode(m, s, q.cols[t]);
    }
    forall y, t | y in A && 0 <= t < 4 && s[y].col == q.cols[t] ensures q.cols[t] <= y { assert ShapedNode(m, s, y); }
  }

  /** What the nodes of a choice, once in place, change. */
  ghost predicate Placed(s: Store, n: nat, q: Choice, names: seq<nat>, s': Store)
    requires |q.cols| == 4 == |names| && n + 4 <= |s|
  {
    && |s'| == |s|
    && (forall x: nat {:trigger s'[x]} :: x < n + 4 ==> s'[x].up < |s| && s'[x].down < |s|)
    && (forall x: nat {:trigger s'[x]} :: x < n ==>
          && s'[x].left == s[x].left && s'[x].right == s[x].right && s'[x].col == s[x].col && s'[x].name == s[x].name
          && s'[x].size == (if Among(q, |q.cols|, x) then s[x].size + 1 else s[x].size))
    && (forall x: nat {:trigger s'[x]} :: n <= x < n + 4 ==>
          && s'[x].right == n + Turn(x - n, 1) && s'[x].left == n + Turn(x - n, 3)
          && s'[x].col == q.cols[x - n] && s'[x].name == names[x - n])
  }

  /** The store after all the nodes of choice q are in place. */
  ghost function WithChoice(m: Matrix, s: Store, q: Choice, names: seq<nat>): (s': Store)
    requires Inv(m, s, m.Headers()) && m.ValidChoice(q) && m.Count() + 4 <= |s| && |names| == 4
    ensures Placed(s, m.Count(), q, names, s') && VerticalRings(s', AllActive(m) + Block(m.Count(), 4))
  {
    InvGrowable(m, s, q);
    RowNodesGrown(s, AllActive(m), m.Count(), q, names, |q.cols|);
    TiedPlaced(s, AllActive(m), m.Count(), q, names, RowNodes(s, m.Count(), q, names, |q.cols|));
    Tied(RowNodes(s, m.Count(), q, names, |q.cols|), m.Count())
  }

  lemma TiedPlaced(s: Store, A: set<nat>, n: nat, q: Choice, names: seq<nat>, s1: Store)
    requires |q.cols| == 4 == |names| && n + 4 <= |s| && Grown(s, A, n, q, names, |q.cols|, s1)
    ensures Placed(s, n, q, names, Tied(s1, n)) && VerticalRings(Tied(s1, n), A + Block(n, 4))
  {
    TiedRings(s1, n, A + Block(n, |q.cols|));
  }

  lemma TiedRings(s: Store, n: nat, A: set<nat>)
    requires n + 4 <= |s| && (forall x: nat :: n <= x < n + 4 ==> s[x].left == x && s[x].right == x) &&
      VerticalRings(s, A)
    ensures VerticalRings(Tied(s, n), A)
  {
    forall x | x in A ensures Linked(Tied(s, n), A, x) { assert Linked(s, A, x); }
  }

  lemma ExtendedNodes(m: Matrix, q: Choice)
    requires m.Valid() && m.ValidChoice(q)
    ensures Extended(m, q).Valid() && Extended(m, q).Count() == m.Count() + 4 && Extended(m, q).First() == m.First()
    ensures forall x: nat {:trigger Extended(m, q).Col(x)} :: x < m.Count() ==> Extended(m, q).Col(x) == m.Col(x)
    ensures forall x: nat {:trigger Extended(m, q).Col(x)} {:trigger Extended(m, q).RowOf(x)} ::
      m.Count() <= x < m.Count() + 4 ==>
      && Extended(m, q).RowOf(x) == |m.choices| && Extended(m, q).Slot(x) == x - m.Count()
      && Extended(m, q).Col(x) == q.cols[x - m.Count()]
  {
    var m' := Extended(m, q);
    forall x: nat | m.First() <= x < m.Count() ensures m'.Col(x) == m.Col(x) { NodeSplit(m, x); }
    forall x: nat | m.Count() <= x < m.Count() + 4 ensures m'.RowOf(x) == |m.choices| && m'.Slot(x) == x - m.Count() {
      NodeArithmetic(m', |m.choices|, x - m.Count());
    }
  }

  lemma ExtendedActive(m: Matrix, q: Choice)
    requires m.Valid() && m.ValidChoice(q)
    ensures Extended(m, q).Valid() && AllActive(Extended(m, q)) == AllActive(m) + Block(m.Count(), 4)
  {
    ExtendedNodes(m, q);
    var m', n := Extended(m, q), m.Count();
    assert m'.Headers() == m.Headers();
    forall x: nat ensures x in AllActive(m') <==> x in AllActive(m) + Block(n, 4) {
      if m.First() <= x < n {
        NodeSplit(m, x);
        assert m'.choices[m.RowOf(x)] == m.choices[m.RowOf(x)];
      } else if n <= x < n + 4 {
        assert m'.RowOf(x) == |m.choices|;
      }
    }
  }

  /** Everything the invariant asks of single nodes. */
  lemma PlacedShaped(m: Matrix, s: Store, q: Choice, names: seq<nat>, s': Store)
    requires Shaped(m, s) && m.ValidChoice(q) && m.Count() + 4 <= |s| && |names| == 4 &&
      Placed(s, m.Count(), q, names, s')
    ensures Shaped(Extended(m, q), s')
  {
    ExtendedNodes(m, q);
    forall x: nat | x < Extended(m, q).Count() ensures ShapedNode(Extended(m, q), s', x) {
      if x < m.Count() {
        OldNodeShaped(m, s, q, s', x);
      } else {
        NewNodeShaped(m, s, q, names, s', x);
      }
    }
  }

  lemma NewNodeShaped(m: Matrix, s: Store, q: Choice, names: seq<nat>, s': Store, x: nat)
    requires m.Valid() && m.ValidChoice(q) && m.Count() + 4 <= |s| && |names| == 4 && Placed(s, m.Count(), q, names, s')
    requires m.Count() <= x < m.Count() + 4
    ensures Extended(m, q).Valid() && Extended(m, q).Count() == m.Count() + 4 && ShapedNode(Extended(m, q), s', x)
  {
    ExtendedNodes(m, q);
    assert s'[x].col == Extended(m, q).Col(x);
    assert Extended(m, q).NodeOf(|m.choices|, 0) == m.Count();
  }

  lemma OldNodeShaped(m: Matrix, s: Store, q: Choice, s': Store, x: nat)
    requires Shaped(m, s) && m.ValidChoice(q) && x < m.Count() && |s'| == |s| && m.Count() + 4 <= |s|
    requires s'[x].left == s[x].left && s'[x].right == s[x].right && s'[x].col == s[x].col && s'[x].up < |s| &&
      s'[x].down < |s|
    ensures Extended(m, q).Valid() && Extended(m, q).Count() == m.Count() + 4 && ShapedNode(Extended(m, q), s', x)
  {
    ExtendedNodes(m, q);
    assert ShapedNode(m, s, x) && Extended(m, q).Col(x) == m.Col(x);
  }

  lemma PlacedHeaderRing(m: Matrix, s: Store, q: Choice, names: seq<nat>, s': Store)
    requires m.ValidChoice(q) && m.Count() + 4 <= |s| && |names| == 4 && Placed(s, m.Count(), q, names, s')
    requires HeaderRing(s, m.Headers() + {0})
    ensures HeaderRing(s', m.Headers() + {0})
  {
    forall h | h in m.Headers() + {0} ensures HeaderLinked(s', m.Headers() + {0}, h) {
      assert HeaderLinked(s, m.Headers() + {0}, h);
    }
  }

  lemma ExtendedMembers(m: Matrix, q: Choice, c: nat)
    requires m.Valid() && m.ValidChoice(q)
    ensures Extended(m, q).Valid()
    ensures |Members(Extended(m, q), AllActive(Extended(m, q)), c)|
         == |Members(m, AllActive(m), c)| + if Among(q, |q.cols|, c) then 1 else 0
  {
    assert Extended(m, q).Valid() by { ExtendedNodes(m, q); }
    var m', n := Extended(m, q), m.Count();
    var M, M' := Members(m, AllActive(m), c), Members(m', AllActive(m'), c);
    forall x: nat ensures Joins(M, M', n, q, c, x) { MemberStep(m, q, c, x); }
    MembersGrow(M, M', n, q, c);
  }

  ghost predicate Joins(M: set<nat>, M': set<nat>, n: nat, q: Choice, c: nat, x: nat)
    requires |q.cols| == 4
  {
    (x in M ==> x < n) && (x in M' <==> x in M || (n <= x < n + 4 && q.cols[x - n] == c))
  }

  lemma MembersGrow(M: set<nat>, M': set<nat>, n: nat, q: Choice, c: nat)
    requires |q.cols| == 4 && (forall t, t' :: 0 <= t < t' < 4 ==> q.cols[t] != q.cols[t'])
    requires forall x: nat {:trigger Joins(M, M', n, q, c, x)} :: Joins(M, M', n, q, c, x)
    ensures |M'| == |M| + if Among(q, |q.cols|, c) then 1 else 0
  {
    AmongIndex(q, |q.cols|, c);
    if t: nat :| t < 4 && q.cols[t] == c {
      forall x: nat ensures x in M' <==> x in M + {n + t} { assert Joins(M, M', n, q, c, x); }
      assert Joins(M, M', n, q, c, n + t) && M' == M + {n + t};
    } else {
      forall x: nat ensures x in M' <==> x in M { assert Joins(M, M', n, q, c, x); }
      assert M' == M;
    }
  }

  lemma MemberStep(m: Matrix, q: Choice, c: nat, x: nat)
    requires m.Valid() && m.ValidChoice(q) && Extended(m, q).Valid()
    ensures x in Members(Extended(m, q), AllActive(Extended(m, q)), c) <==>
      x in Members(m, AllActive(m), c) || (m.Count() <= x < m.Count() + 4 && q.cols[x - m.Count()] == c)
  {
    ExtendedNodes(m, q);
    ExtendedActive(m, q);
    if x < m.Count() + 4 { assert Extended(m, q).Col(x) == Extended(m, q).Col(x); }
  }

  lemma PlacedSized(m: Matrix, s: Store, q: Choice, names: seq<nat>, s': Store)
    requires m.Valid() && m.ValidChoice(q) && m.Count() + 4 <= |s| && |names| == 4 && Placed(s, m.Count(), q, names, s')
    requires Sized(m, s, AllActive(m), m.Headers())
    ensures Extended(m, q).Valid() && Sized(Extended(m, q), s', AllActive(Extended(m, q)), m.Headers())
  {
    assert Extended(m, q).Valid() by { ExtendedNodes(m, q); }
    forall c | c in m.Headers()
      ensures c < |s'| && s'[c].size == |Members(Extended(m, q), AllActive(Extended(m, q)), c)|
    {
      ExtendedMembers(m, q, c);
      assert s[c].size == |Members(m, AllActive(m), c)|;
    }
  }

  /** Adding a choice keeps the search invariant with all columns uncovered. */
  lemma WithChoiceKeeps(m: Matrix, s: Store, q: Choice, names: seq<nat>)
    requires Inv(m, s, m.Headers()) && m.ValidChoice(q) && m.Count() + 4 <= |s| && |names| == 4
    ensures Inv(Extended(m, q), WithChoice(m, s, q, names), Extended(m, q).Headers())
  {
    var s' := WithChoice(m, s, q, names);
    assert Extended(m, q).Headers() == m.Headers();
    PlacedShaped(m, s, q, names, s');
    PlacedHeaderRing(m, s, q, names, s');
    PlacedSized(m, s, q, names, s');
    ExtendedActive(m, q);
  }

  // ---------------------------------------------------------------- snapshots

  /** The snapshot after append_column, on a matrix without rows. */
  ghost function ColumnStep(x: Covering, name: nat): (y: Covering)
    requires x.m.choices == [] && x.H == x.m.Headers() && x.m.Count() < |x.s|
    ensures y.m == Matrix(x.m.columns + 1, []) && y.H == y.m.Headers() && |y.s| == |x.s|
    ensures x.s[0].left < x.m.Count() && y.s == WithColumn(x.s, x.m.Count(), name)
  {
    WithColumnKeeps(x.m, x.s, name);
    WithColumnFrame(x.s, x.m.Count(), name);
    Snapshot(Matrix(x.m.columns + 1, []), WithColumn(x.s, x.m.Count(), name), Matrix(x.m.columns + 1, []).Headers())
  }

  ghost predicate Addable(x: Covering, q: Choice) {
    x.H == x.m.Headers() && x.m.ValidChoice(q) && x.m.Count() + 4 <= |x.s|
  }

  /** The store after the first i of the four new_row calls of a choice. */
  ghost function RowsOf(x: Covering, q: Choice, names: seq<nat>, i: nat): (s: Store)
    requires Addable(x, q) && |names| == 4 && i <= 4
    ensures |s| == |x.s|
  {
    InvGrowable(x.m, x.s, q);
    RowNodes(x.s, x.m.Count(), q, names, i)
  }

  lemma RowsStep(x: Covering, q: Choice, names: seq<nat>, i: nat)
    requires Addable(x, q) && |names| == 4 && i < 4
    ensures 0 < q.cols[i] < x.m.Count() && RowsOf(x, q, names, i)[q.cols[i]].up < x.m.Count() + i
    ensures RowsOf(x, q, names, i + 1) == WithRowNode(RowsOf(x, q, names, i), x.m.Count() + i, names[i], q.cols[i])
  {
    InvGrowable(x.m, x.s, q);
    RowNodesAbove(x.s, AllActive(x.m), x.m.Count(), q, names, i);
  }

  lemma RowsLoose(x: Covering, q: Choice, names: seq<nat>)
    requires Addable(x, q) && |names| == 4
    ensures RowsOf(x, q, names, 0) == x.s
    ensures forall n: nat :: x.m.Count() <= n < x.m.Count() + 4 ==>
      RowsOf(x, q, names, 4)[n].left == n == RowsOf(x, q, names, 4)[n].right
    ensures Tied(RowsOf(x, q, names, 4), x.m.Count()) == ChoiceStep(x, q, names).s
  {
    InvGrowable(x.m, x.s, q);
    RowNodesGrown(x.s, AllActive(x.m), x.m.Count(), q, names, 4);
  }

  /** The snapshot after the four new_row and three put_left calls of a choice. */
  ghost function ChoiceStep(x: Covering, q: Choice, names: seq<nat>): (y: Covering)
    requires Addable(x, q) && |names| == 4
    ensures y.m == Extended(x.m, q) && y.H == y.m.Headers() && |y.s| == |x.s|
    ensures y.s == WithChoice(x.m, x.s, q, names)
  {
    WithChoiceKeeps(x.m, x.s, q, names);
    Snapshot(Extended(x.m, q), WithChoice(x.m, x.s, q, names), Extended(x.m, q).Headers())
  }

  lemma ChoiceStepNames(x: Covering, q: Choice, names: seq<nat>)
    requires Addable(x, q) && |names| == 4
    requires Named(x.m, x.s)
    requires names[0] == q.cell < 100 && forall t :: 1 <= t < 4 ==> 100 <= names[t] && names[t] % 10 == q.digit
    ensures Named(ChoiceStep(x, q, names).m, ChoiceStep(x, q, names).s)
  {
    var m', s', n := Extended(x.m, q), WithChoice(x.m, x.s, q, names), x.m.Count();
    ExtendedNodes(x.m, q);
    forall i: nat | m'.First() <= i < m'.Count() ensures NamedNode(m', s', i) {
      if i < n {
        assert NamedNode(x.m, x.s, i);
        NodeSplit(x.m, i);
        assert m'.choices[m'.RowOf(i)] == x.m.choices[x.m.RowOf(i)];
      } else {
        assert m'.RowOf(i) == |x.m.choices| && m'.Slot(i) == i - n;
      }
    }
  }
}
