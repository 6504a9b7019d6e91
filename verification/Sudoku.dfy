/** The Sudoku solver: in-place dancing links over a fixed node array. */
module Sudoku {
  import opened DancingLinks
  import opened MatrixBuild
  import opened SudokuRules
  import opened SudokuEncoding

  const NO_SOLUTION: string := "NoSolution"

  class SudokuSolver {
    const nodes: array<Node>
    const inout: array<int>
    const columns: array<nat>
    var stack: seq<nat>
    var cur: nat
    ghost var matrix: Matrix
    ghost var names: seq<nat>

    /** Builds the link structure of the clues on the board. */
    constructor (board: array<int>)
      requires Board(board[..])
      ensures inout == board && unchanged(board) && fresh(nodes)
      ensures exists p: Search :: Ready(p, board[..])
    {
      nodes := new Node[MAX_NODES](_ => FreshNode(0, 0));
      columns := new nat[NAMES](_ => 0);
      inout := board;
      stack := [];
      cur := 1;
      matrix := Matrix(0, []);
      names := [0];
      new;
      RootHolds(nodes[..]);
      assert Matrix(0, []).Headers() == {};
      ProgressNone(board[..]);
      assert columns[..] == seq(NAMES, _ => 0);
      ghost var p := Build(Snapshot(Matrix(0, []), nodes[..], {}));
    }

    /** The loops of the constructor. */
    method Build(ghost x0: Covering) returns (ghost p: Search)
      requires Building(x0) && x0.m == Matrix(0, []) && Board(inout[..]) && Progress(columns[..], inout[..], 0, 0) &&
        stack == []
      modifies nodes, columns, this`cur, this`matrix, this`names
      ensures Ready(p, inout[..]) && unchanged(inout)
    {
      ghost var b := inout[..];
      var rows, cols, boxes := MarkUsed(inout);
      ghost var x := AppendCells(x0);
      x := AppendKeys(rows, cols, boxes, b, x);
      StageStarts(x, names, columns[..], b);
      x := AddChoices(rows, cols, boxes, b, x);
      StageEnds(x, names, columns[..], b, 9 * CELLS);
      p := StartOf(x);
    }

    /** The solver is at the start of the search for a completion of b. */
    ghost predicate Ready(p: Position, b: seq<int>)
      reads this, nodes
    {
      At(p) && p.x.H == p.x.m.Headers() && Encodes(p.x.m, names, b)
    }

    /** Takes node j out of its column (the body of cover's inner loop). */
    method UnlinkNode(j: nat)
      requires InStore(nodes[..], j)
      modifies nodes
      ensures nodes[..] == Unlink(old(nodes[..]), j)
    {
      var d, u, c := nodes[j].down, nodes[j].up, nodes[j].col;
      nodes[d] := nodes[d].(up := u);
      nodes[u] := nodes[u].(down := d);
      nodes[c] := nodes[c].(size := nodes[c].size - 1);
    }

    /** Puts node j back into its column (the body of uncover's inner loop). */
    method RelinkNode(j: nat)
      requires InStore(nodes[..], j)
      modifies nodes
      ensures nodes[..] == Relink(old(nodes[..]), j)
    {
      var d, u, c := nodes[j].down, nodes[j].up, nodes[j].col;
      nodes[c] := nodes[c].(size := nodes[c].size + 1);
      nodes[d] := nodes[d].(up := j);
      nodes[u] := nodes[u].(down := j);
    }

    /** The inner loop of cover: takes the other nodes of a row out, going right. */
    method UnlinkRow(row: nat)
      requires Shaped(matrix, nodes[..]) && matrix.First() <= row < matrix.Count()
      modifies nodes
      ensures nodes[..] == RowOut(matrix, old(nodes[..]), row, 3)
    {
      ghost var m, s, i := matrix, nodes[..], 1;
      RowLinks(m, s, row, 0);
      AroundEnds(m, row);
      var j := nodes[row].right;
      while j != row
        invariant 1 <= i <= 4 && j == Around(m, row, i) && (j == row <==> i == 4)
        invariant nodes[..] == RowOut(m, s, row, i - 1)
        decreases 4 - i
      {
        assert ShapedNode(m, nodes[..], j);
        UnlinkNode(j);
        assert nodes[..] == RowOut(m, s, row, i);
        RowLinks(m, nodes[..], row, i);
        j := nodes[j].right;
        i := i + 1;
      }
    }

    /** The inner loop of uncover: puts the other nodes of a row back, going left. */
    method RelinkRow(row: nat, ghost s: Store, ghost A: set<nat>, ghost H: set<nat>)
      requires Rings(matrix, s, A) && Sized(matrix, s, A, H) && matrix.First() <= row < matrix.Count()
      requires forall e: nat {:trigger Around(matrix, row, e)} :: 1 <= e <= 3 ==> Around(matrix, row, e) in A
      requires nodes[..] == RowOut(matrix, s, row, 3)
      modifies nodes
      ensures nodes[..] == s
    {
      ghost var m, i := matrix, 3;
      RowLinks(m, nodes[..], row, 3);
      AroundEnds(m, row);
      var j := nodes[row].left;
      while j != row
        invariant 0 <= i <= 3 && j == Around(m, row, i) && (j == row <==> i == 0)
        invariant nodes[..] == RowOut(m, s, row, i)
        decreases i
      {
        RelinkRung(m, s, A, H, row, i);
        RelinkNode(j);
        j := nodes[j].left;
        i := i - 1;
      }
    }

    /** The node array is the store of snapshot x. */
    ghost predicate Holds(x: Snapshot)
      reads this, nodes
    {
      matrix == x.m && nodes[..] == x.s
    }

    method Cover(c: nat, ghost x: Covering)
      requires Holds(x) && c in x.H
      modifies nodes
      ensures Holds(CoverStep(x, c))
    {
      ghost var m, s, H := x.m, x.s, x.H;
      HeaderInStore(m, s, H, c);
      HeaderActive(m, s, H, c);
      var r, l := nodes[c].right, nodes[c].left;
      nodes[r] := nodes[r].(left := l);
      nodes[l] := nodes[l].(right := r);
      assert nodes[..] == CoveredTo(m, s, H, c, c);
      CoveredToKeeps(m, s, H, c, c);
      var row := nodes[c].down;
      assert row == nodes[..][c].down;
      while row != c
        invariant row in m.Active(H) && row < |s| && s[row].col == c
        invariant s[row].up in m.Active(H) && s[row].up < |s| && s[s[row].up].col == c
        invariant nodes[..] == CoveredTo(m, s, H, c, s[row].up)
        decreases if row == c then 0 else m.Count() - row
      {
        CoveredStep(m, s, H, c, row);
        UnlinkRow(row);
        CoveredToKeeps(m, s, H, c, row);
        DownIsLater(m, s, H, c, row);
        assert nodes[..][row].down == s[row].down;
        row := nodes[row].down;
      }
    }

    /** Uncovering column c undoes cover(c) on the whole node array. */
    method Uncover(c: nat, ghost x: Covering)
      requires c in x.H && Holds(CoverStep(x, c))
      modifies nodes
      ensures Holds(x)
    {
      ghost var m, s, H := x.m, x.s, x.H;
      HeaderInStore(m, s, H, c);
      HeaderActive(m, s, H, c);
      CoveredToKeeps(m, s, H, c, s[c].up);
      var row := nodes[c].up;
      assert row == nodes[..][c].up;
      while row != c
        invariant row in m.Active(H) && row < |s| && s[row].col == c
        invariant nodes[..] == CoveredTo(m, s, H, c, row)
        decreases row
      {
        CoveredToKeeps(m, s, H, c, row);
        CoveredStep(m, s, H, c, row);
        UpIsEarlier(m, s, m.Active(H), c, row);
        RelinkRow(row, CoveredTo(m, s, H, c, s[row].up), Kept(m, H, c, s[row].up), H);
        CoveredToKeeps(m, s, H, c, s[row].up);
        assert nodes[..][row].up == s[row].up;
        row := nodes[row].up;
      }
      HookUndoesUnhook(s, c);
      var r, l := nodes[c].right, nodes[c].left;
      nodes[r] := nodes[r].(left := c);
      nodes[l] := nodes[l].(right := c);
      assert nodes[..] == Hook(Unhook(s, c), c);
    }

    /** Picks an uncovered column: one of size at most one, or else one of least size. */
    method GetMinColumn(ghost H: set<nat>) returns (c: nat)
      requires HeaderRing(nodes[..], H + {0}) && H <= matrix.Headers() && H != {}
      ensures c in H && c < nodes.Length
      ensures nodes[c].size <= 1 || forall h :: h in H ==> h < nodes.Length && nodes[c].size <= nodes[h].size
    {
      ghost var s, G := nodes[..], H + {0};
      assert HeaderLinked(s, G, 0);
      ghost var h0 :| h0 in H;
      c := nodes[0].right;
      assert HeaderLinked(s, G, c);
      var minSize := nodes[c].size;
      if minSize > 1 {
        var cc := nodes[c].right;
        while cc != 0
          invariant cc in G && cc < |s| && c in H && c < |s| && minSize == nodes[c].size > 1
          invariant forall h :: h in H && (cc == 0 || h < cc) ==> h < |s| && minSize <= nodes[h].size
          decreases if cc == 0 then 0 else matrix.First() - cc
        {
          assert HeaderLinked(s, G, cc);
          if minSize > nodes[cc].size {
            c := cc;
            minSize := nodes[cc].size;
            if minSize <= 1 {
              break;
            }
          }
          cc := nodes[cc].right;
        }
      }
    }

    /** Writes the digits of the chosen rows into the board. */
    method WriteBoard(ghost P: set<nat>)
      requires Shaped(matrix, nodes[..]) && Named(matrix, nodes[..]) && CellsKeyed(matrix)
      requires Picked(matrix, stack, P)
      requires forall k :: k in P ==> k < |matrix.choices| && matrix.choices[k].cell < inout.Length
      requires forall k, k' :: k in P && k' in P && k != k' ==> matrix.choices[k].cell != matrix.choices[k'].cell
      modifies inout
      ensures Written(matrix, old(inout[..]), inout[..], P)
    {
      ghost var m, b := matrix, inout[..];
      for i := 0 to |stack|
        invariant forall e :: 0 <= e < i ==>
          inout[m.choices[m.RowOf(stack[e])].cell] == m.choices[m.RowOf(stack[e])].digit
        invariant forall x :: 0 <= x < |b| && (forall k :: k in P ==> m.choices[k].cell != x) ==> inout[x] == b[x]
      {
        var cell, digit := ReadChoice(stack[i]);
        inout[cell] := digit;
      }
      forall k | k in P ensures inout[m.choices[k].cell] == m.choices[k].digit { assert OnStack(m, stack, k); }
    }

    /** Walks right from a row node until it has seen the cell and a digit. */
    method ReadChoice(n0: nat) returns (cell: nat, digit: nat)
      requires Shaped(matrix, nodes[..]) && Named(matrix, nodes[..]) && matrix.First() <= n0 < matrix.Count()
      ensures matrix.RowOf(n0) < |matrix.choices|
      ensures cell == matrix.choices[matrix.RowOf(n0)].cell && digit == matrix.choices[matrix.RowOf(n0)].digit
    {
      ghost var m, s, i := matrix, nodes[..], 0;
      NodeSplit(m, n0);
      AroundEnds(m, n0);
      var n := n0;
      var cellFound: int, digitFound: int := -1, -1;
      while cellFound == -1 || digitFound == -1
        invariant 0 <= i <= 4 && n == Around(m, n0, i)
        invariant cellFound == -1 || cellFound == m.choices[m.RowOf(n0)].cell
        invariant digitFound == -1 || digitFound == m.choices[m.RowOf(n0)].digit
        invariant cellFound == -1 ==> m.Slot(n0) + i <= 4 && (m.Slot(n0) == 0 ==> i == 0)
        invariant digitFound == -1 ==> i == 0 || (i == 1 && m.Slot(n0) == 0)
        decreases 4 - i
      {
        AroundFacts(m, n0, i);
        assert NamedNode(m, s, n);
        if nodes[n].name < 100 {
          cellFound := nodes[n].name;
        } else {
          digitFound := nodes[n].name % 10;
        }
        RowLinks(m, s, n0, i);
        n := nodes[n].right;
        i := i + 1;
      }
      cell, digit := cellFound, digitFound;
    }

    /** Covers the columns of the other nodes of a row, going right. */
    method CoverOthers(row: nat, ghost x: Covering)
      requires Holds(x) && Fits(x.m, x.H, row)
      modifies nodes
      ensures Holds(ChooseStep(x, row, 3))
    {
      ghost var i := 1;
      RungEnds(x, row);
      var j := nodes[row].right;
      while j != row
        invariant 1 <= i <= 4 && j == Around(x.m, row, i) && (j == row <==> i == 4)
        invariant Holds(ChooseStep(x, row, i - 1))
        decreases 4 - i
      {
        Rung(x, row, i);
        Cover(nodes[j].col, ChooseStep(x, row, i - 1));
        j := nodes[j].right;
        i := i + 1;
      }
    }

    /** Uncovers the columns of the other nodes of a row, going left. */
    method UncoverOthers(row: nat, ghost x: Covering)
      requires Fits(x.m, x.H, row) && Holds(ChooseStep(x, row, 3))
      modifies nodes
      ensures Holds(x)
    {
      ghost var i := 3;
      RungEnds(ChooseStep(x, row, 3), row);
      var j := nodes[row].left;
      while j != row
        invariant 0 <= i <= 3 && j == Around(x.m, row, i) && (j == row <==> i == 0)
        invariant Holds(ChooseStep(x, row, i))
        decreases i
      {
        Rung(x, row, i);
        Uncover(nodes[j].col, ChooseStep(x, row, i - 1));
        j := nodes[j].left;
        i := i - 1;
      }
    }

    /** The solver stands at position p of the search. */
    ghost predicate At(p: Position)
      reads this, nodes
    {
      Holds(p.x) && stack == p.stack && inout.Length == p.cells && nodes as object != inout as object
    }

    /** Backtracking search: succeeds iff the uncovered columns have an exact cover.  On success the board
        holds an exact cover of all columns; on failure everything is as it was. */
    method Solve(ghost p: Search) returns (found: bool)
      requires At(p)
      modifies nodes, inout, this`stack
      ensures found ==> Solution(p.x.m, old(inout[..]), inout[..])
      ensures !found ==> At(p) && unchanged(inout) && NoCover(p.x.m, p.x.H)
      decreases |p.x.H|, 1
    {
      RootAlone(p.x.s, p.x.H);
      if nodes[0].left == 0 {
        Finish(p);
        return true;
      }
      var col := GetMinColumn(p.x.H);
      WalkStart(p.x, col);
      Cover(col, p.x);
      var row := nodes[col].down;
      while row != col
        invariant AtColumn(p, col) && unchanged(inout)
        invariant Walking(p.x, col, row)
        decreases if row == col then 0 else p.x.m.Count() - row
      {
        WalkRow(p.x, col, row);
        found := TryRow(col, row, p);
        if found {
          return true;
        }
        WalkNext(p.x, col, row);
        row := nodes[row].down;
      }
      Uncover(col, p.x);
      WalkEnd(p.x, col);
      found := false;
    }

    /** All columns are covered: the stack is a solution. */
    method Finish(ghost p: Search)
      requires At(p) && p.x.H <= {0}
      modifies inout
      ensures Solution(p.x.m, old(inout[..]), inout[..])
    {
      ghost var m := p.x.m;
      assert m.Headers() - p.x.H == m.Headers();
      forall k, k' | k in p.P && k' in p.P && k != k' ensures m.choices[k].cell != m.choices[k'].cell {
        CellsDiffer(m, m.Headers(), p.P, k, k');
      }
      WriteBoard(p.P);
    }

    /** Column col is covered and the search stands at p otherwise. */
    ghost predicate AtColumn(p: Position, col: nat)
      requires col in p.x.H
      reads this, nodes
    {
      At(p.(x := CoverStep(p.x, col)))
    }

    /** One round of solve's loop: choose row, search, and undo the choice if the search fails. */
    method TryRow(col: nat, row: nat, ghost p: Search) returns (found: bool)
      requires RowAt(p.x, col, row) && AtColumn(p, col)
      modifies nodes, inout, this`stack
      ensures found ==> Solution(p.x.m, old(inout[..]), inout[..])
      ensures !found ==> AtColumn(p, col) && unchanged(inout) && NoCover(p.x.m, Below(p.x.m, p.x.H, row))
      decreases |p.x.H|, 0
    {
      ghost var q, y := Descend(p, col, row), CoverStep(p.x, col);
      found := SearchBelow(row, y, q);
      if found {
        return true;
      }
      Pop(row, y);
    }

    /** Chooses a row and searches from the position q this leads to. */
    method SearchBelow(row: nat, ghost x: Covering, ghost q: Search) returns (found: bool)
      requires Holds(x) && Fits(x.m, x.H, row) && nodes as object != inout as object
      requires q.x == ChooseStep(x, row, 3) && q.stack == stack + [row] && q.cells == inout.Length
      modifies nodes, inout, this`stack
      ensures found ==> Solution(q.x.m, old(inout[..]), inout[..])
      ensures !found ==> At(q) && unchanged(inout) && NoCover(q.x.m, q.x.H)
      decreases |q.x.H|, 2
    {
      Push(row, x);
      found := Solve(q);
    }

    /** Chooses a row: pushes it and covers its other columns. */
    method Push(row: nat, ghost x: Covering)
      requires Holds(x) && Fits(x.m, x.H, row) && nodes as object != inout as object
      modifies nodes, this`stack
      ensures Holds(ChooseStep(x, row, 3)) && stack == old(stack) + [row] && unchanged(inout)
    {
      stack := stack + [row];
      CoverOthers(row, x);
    }

    /** Takes the choice of a row back. */
    method Pop(row: nat, ghost x: Covering)
      requires stack != [] && Fits(x.m, x.H, row) && Holds(ChooseStep(x, row, 3)) && nodes as object != inout as object
      modifies nodes, this`stack
      ensures Holds(x) && stack == old(stack)[..|old(stack)| - 1] && unchanged(inout)
    {
      stack := stack[..|stack| - 1];
      UncoverOthers(row, x);
    }

    // -------------------------------------------------------------- construction

    /** The arrays are three different objects. */
    ghost predicate Apart() {
      nodes as object != inout as object && nodes as object != columns as object && columns as object != inout as object
    }

    /** All columns of snapshot x are uncovered and the name table fits it. */
    ghost predicate Building(x: Snapshot)
      reads this, nodes, columns
    {
      && Apart() && Holds(x) && x.H == x.m.Headers()
      && cur == x.m.Count() && nodes.Length == MAX_NODES
      && Indexed(x.m.columns, names, columns[..])
    }

    method PutLeft(old': nat, n: nat)
      requires old' < nodes.Length && n < nodes.Length && nodes[old'].left < nodes.Length && old' != n
      modifies nodes
      ensures nodes[..] == MatrixBuild.PutLeft(old(nodes[..]), old', n)
    {
      var l := nodes[old'].left;
      nodes[n] := nodes[n].(left := l);
      nodes[n] := nodes[n].(right := old');
      nodes[l] := nodes[l].(right := n);
      nodes[old'] := nodes[old'].(left := n);
    }

    /** Allocates a header and hangs it left of the root. */
    method AppendColumn(name: nat, ghost x: Covering) returns (ghost y: Covering)
      requires Building(x) && x.m.choices == [] && name < NAMES && columns[name] == 0 && x.m.Count() < MAX_NODES
      modifies nodes, columns, this`cur, this`matrix, this`names
      ensures y == ColumnStep(x, name) && Building(y)
      ensures columns[..] == old(columns[..])[name := y.m.columns] && names == old(names) + [name]
    {
      y := ColumnStep(x, name);
      var c := cur;
      nodes[c] := FreshNode(c, name);
      cur := cur + 1;
      PutLeft(0, c);
      IndexedAppend(x.m.columns, names, columns[..], name);
      columns[name] := c;
      matrix := y.m;
      names := names + [name];
    }

    /** Allocates a row node and hangs it at the bottom of the column called name. */
    method NewRow(name: nat) returns (r: nat)
      requires name < columns.Length && 0 != columns[name] < cur < nodes.Length && nodes[columns[name]].up < cur
      modifies nodes, this`cur
      ensures r == old(cur) && cur == r + 1
      ensures nodes[..] == WithRowNode(old(nodes[..]), r, name, columns[name])
    {
      r := cur;
      cur := cur + 1;
      var c := columns[name];
      nodes[r] := FreshNode(r, name).(col := c);
      PutUp(c, r);
    }

    method PutUp(c: nat, n: nat)
      requires c < nodes.Length && n < nodes.Length && c != n && nodes[c].up < nodes.Length && nodes[c].up != n
      modifies nodes
      ensures var s, u := old(nodes[..]), old(nodes[c].up);
        nodes[..] == AddSize(SetUp(SetDown(s[n := s[n].(up := u, down := c, col := c)], u, n), c, n), c, 1)
    {
      var u := nodes[c].up;
      nodes[n] := nodes[n].(up := u);
      nodes[n] := nodes[n].(down := c);
      nodes[u] := nodes[u].(down := n);
      nodes[c] := nodes[c].(up := n);
      nodes[c] := nodes[c].(size := nodes[c].size + 1);
      nodes[n] := nodes[n].(col := c);
    }

    /** The table knows the four columns of digit v in cell i as the columns of q. */
    ghost predicate Knows(i: nat, v: nat, q: Choice)
      reads columns
    {
      columns.Length == NAMES && i < CELLS && 1 <= v <= 9 && q == ChoiceFor(columns[..], i, v)
    }

    /** Adds the four nodes for digit v in cell i and ties them into a ring. */
    method AddChoice(i: nat, v: nat, ghost x: Covering, ghost q: Choice)
      requires Apart() && Holds(x) && cur == x.m.Count() && Addable(x, q) && Knows(i, v, q)
      modifies nodes, this`cur, this`matrix
      ensures Holds(ChoiceStep(x, q, ChoiceNames(i, v))) && cur == x.m.Count() + 4 && unchanged(columns)
    {
      AddRow(i, v, x, q);
      matrix := Extended(x.m, q);
    }

    method AddRow(i: nat, v: nat, ghost x: Covering, ghost q: Choice)
      requires nodes[..] == x.s && cur == x.m.Count() && Addable(x, q) && Knows(i, v, q) &&
        nodes as object != columns as object
      modifies nodes, this`cur
      ensures nodes[..] == ChoiceStep(x, q, ChoiceNames(i, v)).s && cur == x.m.Count() + 4 && unchanged(columns)
    {
      var ns := ChoiceNames(i, v);
      ChoiceNamesFacts(i, v);
      RowsLoose(x, q, ns);
      var n0, nr, nc, nb := NewRows(ns, x, q);
      TieRow(n0, nr, nc, nb);
    }

    /** The four new_row calls of a choice. */
    method NewRows(ns: seq<nat>, ghost x: Covering, ghost q: Choice) returns (n0: nat, nr: nat, nc: nat, nb: nat)
      requires Addable(x, q) && |ns| == 4 && nodes as object != columns as object
      requires forall t: nat :: t < 4 ==> ns[t] < columns.Length && columns[ns[t]] == q.cols[t]
      requires nodes[..] == RowsOf(x, q, ns, 0) && cur == x.m.Count()
      modifies nodes, this`cur
      ensures nodes[..] == RowsOf(x, q, ns, 4) && cur == x.m.Count() + 4 && unchanged(columns)
      ensures n0 == x.m.Count() && nr == n0 + 1 && nc == n0 + 2 && nb == n0 + 3
    {
      n0 := NewRowAt(ns[0], x, q, ns, 0);
      nr := NewRowAt(ns[1], x, q, ns, 1);
      nc := NewRowAt(ns[2], x, q, ns, 2);
      nb := NewRowAt(ns[3], x, q, ns, 3);
    }

    /** The t-th new_row call of a choice. */
    method NewRowAt(name: nat, ghost x: Covering, ghost q: Choice, ghost ns: seq<nat>, ghost t: nat) returns (r: nat)
      requires Addable(x, q) && |ns| == 4 && t < 4 && name == ns[t] && name < columns.Length &&
        columns[name] == q.cols[t]
      requires nodes[..] == RowsOf(x, q, ns, t) && cur == x.m.Count() + t
      modifies nodes, this`cur
      ensures nodes[..] == RowsOf(x, q, ns, t + 1) && cur == x.m.Count() + t + 1 && r == x.m.Count() + t
    {
      RowsStep(x, q, ns, t);
      r := NewRow(name);
    }

    /** Closes the horizontal ring of four fresh nodes. */
    method TieRow(n0: nat, nr: nat, nc: nat, nb: nat)
      requires nr == n0 + 1 && nc == n0 + 2 && nb == n0 + 3 && nb < nodes.Length
      requires forall x: nat :: n0 <= x < n0 + 4 ==> nodes[x].left == x && nodes[x].right == x
      modifies nodes
      ensures nodes[..] == Tied(old(nodes[..]), n0)
    {
      PutLeft(n0, nr);
      PutLeft(n0, nc);
      PutLeft(n0, nb);
    }

    /** The flags a[u][v] say which digits the cells before n put into the units of kind t. */
    static ghost predicate Marks(a: seq<seq<bool>>, b: seq<int>, n: nat, t: nat)
      requires n <= |b|
    {
      && |a| == CELLS
      && forall u: nat :: u < CELLS ==>
           |a[u]| == 10 && forall v: nat :: v < 10 ==> (a[u][v] <==> UsedBefore(b, n, t, u, v))
    }

    static method MarkUsed(board: array<int>)
        returns (rows: seq<seq<bool>>, cols: seq<seq<bool>>, boxes: seq<seq<bool>>)
      requires Board(board[..])
      ensures Marks(rows, board[..], CELLS, 0) && Marks(cols, board[..], CELLS, 1) && Marks(boxes, board[..], CELLS, 2)
    {
      rows := seq(CELLS, _ => seq(10, _ => false));
      cols, boxes := rows, rows;
      for i := 0 to CELLS
        invariant Marks(rows, board[..], i, 0) && Marks(cols, board[..], i, 1) && Marks(boxes, board[..], i, 2)
      {
        var row, col, val := i / 9, i % 9, board[i];
        var box := row / 3 * 3 + col / 3;
        MarkStep(rows, board[..], i, 0);
        MarkStep(cols, board[..], i, 1);
        MarkStep(boxes, board[..], i, 2);
        rows := rows[row := rows[row][val := true]];
        cols := cols[col := cols[col][val := true]];
        boxes := boxes[box := boxes[box][val := true]];
      }
    }

    static lemma MarkedIsUsed(a: seq<seq<bool>>, b: seq<int>, t: nat, u: nat, v: nat)
      requires |b| == CELLS && Marks(a, b, CELLS, t) && u < 9 && v < 10
      ensures |a| == CELLS && |a[u]| == 10 && (a[u][v] <==> Used(b, t, u, v))
    {
    }

    static lemma MarkStep(a: seq<seq<bool>>, b: seq<int>, i: nat, t: nat)
      requires Board(b) && i < CELLS && t < 3 && Marks(a, b, i, t)
      ensures UnitOf(t, i) < CELLS && 0 <= b[i] < |a[UnitOf(t, i)]|
      ensures Marks(a[UnitOf(t, i) := a[UnitOf(t, i)][b[i] := true]], b, i + 1, t)
    {
      CellPlace(t, i);
      var a' := a[UnitOf(t, i) := a[UnitOf(t, i)][b[i] := true]];
      forall u: nat, v: nat | u < CELLS && v < 10
        ensures |a'[u]| == 10 && (a'[u][v] <==> UsedBefore(b, i + 1, t, u, v))
      {
        UsedStep(b, i, t, u, v);
      }
    }

    /** First column loop: one column for every empty cell. */
    method AppendCells(ghost x0: Covering) returns (ghost x: Covering)
      requires Building(x0) && x0.m == Matrix(0, []) && Board(inout[..]) && Progress(columns[..], inout[..], 0, 0)
      modifies nodes, columns, this`cur, this`matrix, this`names
      ensures Building(x) && x.m.choices == [] && x.m.columns <= CELLS
      ensures Progress(columns[..], inout[..], CELLS, 0) && unchanged(inout)
    {
      x := x0;
      ghost var b := inout[..];
      for i := 0 to CELLS
        invariant Building(x) && x.m.choices == [] && x.m.columns <= i
        invariant Progress(columns[..], b, i, 0) && inout[..] == b
      {
        ghost var table := columns[..];
        ProgressCell(table, b, i, x.m.columns + 1);
        if inout[i] == 0 {
          assert table[i] == 0;
          x := AppendColumn(i, x);
        }
      }
    }

    /** One column for a digit that is missing from a unit. */
    method AppendKey(t: nat, u: nat, v: nat, used: bool, ghost b: seq<int>, ghost x0: Covering, ghost r: int)
        returns (ghost x: Covering)
      requires KeyStage(x0, b, r) && r == Rank(t, u, v) && IsKey(t, u, v) && (used <==> Used(b, t, u, v))
      modifies nodes, columns, this`cur, this`matrix, this`names
      ensures KeyStage(x, b, r + 1)
    {
      x := x0;
      ProgressKey(columns[..], b, t, u, v, x.m.columns + 1);
      RankIsKey(t, u, v, t, u, v);
      if !used {
        x := AppendColumn(KeyName(t, u, v), x);
      }
    }

    method AppendDigit(i: nat, v: nat, inRow: bool, inCol: bool, inBox: bool, ghost b: seq<int>, ghost x0: Covering,
        ghost r: int)
      returns (ghost x: Covering, ghost r': int)
      requires KeyStage(x0, b, r) && r == Rank(0, i, v) && i < 9 && 1 <= v <= 9
      requires (inRow <==> Used(b, 0, i, v)) && (inCol <==> Used(b, 1, i, v)) && (inBox <==> Used(b, 2, i, v))
      modifies nodes, columns, this`cur, this`matrix, this`names
      ensures KeyStage(x, b, r') && r' == r + 3
    {
      r' := r;
      x := AppendKey(0, i, v, inRow, b, x0, r');
      r' := r' + 1;
      x := AppendKey(1, i, v, inCol, b, x, r');
      r' := r' + 1;
      x := AppendKey(2, i, v, inBox, b, x, r');
      r' := r' + 1;
    }

    /** The columns for all empty cells and for the keys ranked before r exist. */
    ghost predicate KeyStage(x: Snapshot, b: seq<int>, r: int)
      reads this, nodes, columns
    {
      Building(x) && x.m.choices == [] && x.m.columns <= CELLS + r && Progress(columns[..], b, CELLS, r)
    }

    /** What the flags say is what the clues use. */
    static ghost predicate Flagged(rows: seq<seq<bool>>, cols: seq<seq<bool>>, boxes: seq<seq<bool>>, b: seq<int>) {
      |b| == CELLS && Marks(rows, b, CELLS, 0) && Marks(cols, b, CELLS, 1) && Marks(boxes, b, CELLS, 2)
    }

    /** Second column loop: one column for every digit missing from a row, column or box. */
    method AppendKeys(rows: seq<seq<bool>>, cols: seq<seq<bool>>, boxes: seq<seq<bool>>, ghost b: seq<int>,
        ghost x0: Covering)
      returns (ghost x: Covering)
      requires KeyStage(x0, b, 0) && Flagged(rows, cols, boxes, b)
      modifies nodes, columns, this`cur, this`matrix, this`names
      ensures KeyStage(x, b, 243)
    {
      x := x0;
      ghost var r := 0;
      for i := 0 to 9
        invariant KeyStage(x, b, r) && r == 27 * i
      {
        x, r := AppendUnits(i, rows, cols, boxes, b, x, r);
      }
    }

    method AppendUnits(i: nat, rows: seq<seq<bool>>, cols: seq<seq<bool>>, boxes: seq<seq<bool>>, ghost b: seq<int>,
        ghost x0: Covering, ghost r: int)
      returns (ghost x: Covering, ghost r': int)
      requires KeyStage(x0, b, r) && r == 27 * i && i < 9 && Flagged(rows, cols, boxes, b)
      modifies nodes, columns, this`cur, this`matrix, this`names
      ensures KeyStage(x, b, r') && r' == r + 27
    {
      x, r' := x0, r;
      for v := 1 to 10
        invariant KeyStage(x, b, r') && r' == 27 * i + 3 * (v - 1)
      {
        MarkedIsUsed(rows, b, 0, i, v);
        MarkedIsUsed(cols, b, 1, i, v);
        MarkedIsUsed(boxes, b, 2, i, v);
        x, r' := AppendDigit(i, v, rows[i][v], cols[i][v], boxes[i][v], b, x, r');
      }
    }

    /** The solver holds snapshot x, at the given stage of the choice loop. */
    ghost predicate ChoiceStage(x: Covering, b: seq<int>, bound: nat, count: nat)
      reads this, nodes, columns
    {
      Apart() && Holds(x) && cur == x.m.Count() && Stage(x, names, columns[..], b, bound, count)
    }

    /** Adds the choice for digit v in cell i, if it is a candidate. */
    method TryChoice(i: nat, v: nat, ok: bool, ghost b: seq<int>, ghost count: nat, ghost x0: Covering)
        returns (ghost x: Covering)
      requires ChoiceStage(x0, b, CellKey(i, v), count) && count < 729 && 1 <= v <= 9 && (ok <==> Candidate(b, i, v))
      modifies nodes, this`cur, this`matrix
      ensures ChoiceStage(x, b, CellKey(i, v) + 1, count + 1) && unchanged(columns)
    {
      x := StageStep(x0, names, columns[..], b, i, v, count);
      StageAdvances(x0, names, columns[..], b, i, v, count);
      if ok {
        AddChoice(i, v, x0, ChoiceFor(columns[..], i, v));
      }
    }

    /** The choices for one empty cell. */
    method AddCell(i: nat, rows: seq<seq<bool>>, cols: seq<seq<bool>>, boxes: seq<seq<bool>>, ghost b: seq<int>,
        ghost x0: Covering)
      returns (ghost x: Covering)
      requires ChoiceStage(x0, b, 10 * i, 9 * i) && i < CELLS && Flagged(rows, cols, boxes, b) && OpenCell(b, i)
      modifies nodes, this`cur, this`matrix
      ensures ChoiceStage(x, b, 10 * (i + 1), 9 * (i + 1)) && unchanged(columns)
    {
      x := x0;
      ChosenStart(x.m.choices, names, b, i);
      for v := 1 to 10
        invariant ChoiceStage(x, b, CellKey(i, v), 9 * i + v - 1) && unchanged(columns)
      {
        var ok := IsCandidate(i, v, rows, cols, boxes, b);
        x := TryChoice(i, v, ok, b, 9 * i + v - 1, x);
      }
    }

    /** The constructor's test whether digit v may go into cell i. */
    static method IsCandidate(i: nat, v: nat, rows: seq<seq<bool>>, cols: seq<seq<bool>>, boxes: seq<seq<bool>>,
        ghost b: seq<int>)
      returns (ok: bool)
      requires i < CELLS && 1 <= v <= 9 && Flagged(rows, cols, boxes, b) && OpenCell(b, i)
      ensures ok <==> Candidate(b, i, v)
    {
      var row, col := i / 9, i % 9;
      var box := row / 3 * 3 + col / 3;
      CellPlace(0, i);
      CellPlace(1, i);
      CellPlace(2, i);
      MarkedIsUsed(rows, b, 0, row, v);
      MarkedIsUsed(cols, b, 1, col, v);
      MarkedIsUsed(boxes, b, 2, box, v);
      ok := !(rows[row][v] || cols[col][v] || boxes[box][v]);
      CandidateUnits(b, i, v);
    }

    /** Third loop: the choices for every empty cell. */
    method AddChoices(rows: seq<seq<bool>>, cols: seq<seq<bool>>, boxes: seq<seq<bool>>, ghost b: seq<int>,
        ghost x0: Covering)
      returns (ghost x: Covering)
      requires ChoiceStage(x0, b, 0, 0) && Flagged(rows, cols, boxes, b) && inout[..] == b
      modifies nodes, this`cur, this`matrix
      ensures ChoiceStage(x, b, 10 * CELLS, 9 * CELLS) && unchanged(columns)
    {
      x := x0;
      for i := 0 to CELLS
        invariant ChoiceStage(x, b, 10 * i, 9 * i) && unchanged(columns) && inout[..] == b
      {
        if inout[i] == 0 {
          x := AddCell(i, rows, cols, boxes, b, x);
        } else {
          ChosenStart(x.m.choices, names, b, i);
        }
      }
    }
  }

  lemma CandidateUnits(b: seq<int>, i: nat, v: nat)
    requires OpenCell(b, i) && 1 <= v <= 9
    ensures Candidate(b, i, v) <==>
      !Used(b, 0, UnitOf(0, i), v) && !Used(b, 1, UnitOf(1, i), v) && !Used(b, 2, UnitOf(2, i), v)
  {
    assert Candidate(b, i, v) ==>
      !Used(b, 0, UnitOf(0, i), v) && !Used(b, 1, UnitOf(1, i), v) && !Used(b, 2, UnitOf(2, i), v);
  }

  ghost predicate Solvable(clues: seq<int>) {
    exists b :: Completes(b, clues)
  }

  /** Builds a solver for the board and runs it: the board is completed if the clues can be. */
  method SolveBoard(board: array<int>) returns (found: bool)
    requires Board(board[..])
    modifies board
    ensures found <==> Solvable(old(board[..]))
    ensures found ==> Completes(board[..], old(board[..]))
    ensures !found ==> board[..] == old(board[..])
  {
    ghost var clues := board[..];
    var s := new SudokuSolver(board);
    ghost var p: Search :| s.Ready(p, clues);
    ghost var m, names := p.x.m, s.names;
    found := s.Solve(p);
    if found {
      ghost var R :| ExactCover(m, m.Headers(), R) && Written(m, clues, board[..], R);
      CoverCompletes(m, names, clues, board[..], R);
    } else {
      forall b ensures !Completes(b, clues) {
        if Completes(b, clues) { CompletionCovers(m, names, clues, b); }
      }
    }
  }

  /** The digits of a puzzle; other characters give numbers outside 0..9. */
  function Decode(puzzle: string): (b: seq<int>)
    ensures |b| == |puzzle|
  {
    seq(|puzzle|, i requires 0 <= i < |puzzle| => puzzle[i] as int - '0' as int)
  }

  /** The text interface: a completion of the puzzle, or the fixed text if there is none or the puzzle is malformed. */
  method SolveSudoku(puzzle: string) returns (result: string)
    requires |puzzle| == CELLS
    ensures Board(Decode(puzzle)) && Solvable(Decode(puzzle)) ==> Completes(Decode(result), Decode(puzzle))
    ensures !(Board(Decode(puzzle)) && Solvable(Decode(puzzle))) ==> result == NO_SOLUTION
  {
    result := NO_SOLUTION;
    var board := new int[CELLS](_ => 0);
    var valid := true;
    for i := 0 to CELLS
      invariant forall j :: 0 <= j < i ==> board[j] == Decode(puzzle)[j]
      invariant valid <==> forall j :: 0 <= j < i ==> 0 <= Decode(puzzle)[j] <= 9
    {
      board[i] := puzzle[i] as int - '0' as int;
      valid := valid && 0 <= board[i] <= 9;
    }
    assert board[..] == Decode(puzzle);
    if valid {
      var found := SolveBoard(board);
      if found {
        result := Encode(board[..]);
      }
    }
  }

  function Encode(b: seq<int>): (s: string)
    requires forall i :: 0 <= i < |b| ==> 0 <= b[i] <= 9
    ensures Decode(s) == b
  {
    seq(|b|, i requires 0 <= i < |b| => (b[i] + '0' as int) as char)
  }
}
