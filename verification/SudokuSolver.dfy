/** The dancing-links solver: a fixed pool of nodes edited in place by a backtracking search. */
module Sudoku {
  import opened DancingLinks
  import opened Covering
  import opened ExactCover
  import opened CoverSearch
  import opened RowChoice
  import opened SudokuRules
  import opened Building
  import opened Encoding
  import opened Layout
  import opened SolverFacts
  import opened Puzzles

  const MAX_NODES: nat := 1 + 81 * 4 + 9 * 9 * 9 * 4

  class SudokuSolver {
    const nodes: array<Node>
    var curNode: nat
    var root: nat
    var stack: seq<nat>
    const inout: array<int>
    // The column of each name, or 0, which is the root, where there is none.
    const columns: array<nat>

    // What has been laid out: the fixed part, the columns with their lists, the move of every row node,
    // and the moves that have a row.
    ghost var mat: Matrix
    ghost var pic: Picture
    ghost var lab: seq<Move>
    ghost var done: set<Move>

    ghost predicate Pool()
      reads `curNode
    {
      curNode <= nodes.Length
    }

    /** The nodes in use. */
    ghost function View(): Links
      requires Pool()
      reads `curNode, nodes
    {
      nodes[..curNode]
    }

    /** The links stand for the part of the encoding laid out so far. */
    ghost predicate Laid()
      reads this, nodes, columns
    {
      Pool() && curNode >= 1 && root < curNode && LaidOut(View(), mat, root, pic, lab, columns[..], done)
    }

    // ----- building the matrix

    constructor (board: array<int>)
      requires IsBoard(board[..])
      ensures inout == board && fresh(nodes) && fresh(columns)
      ensures Laid() && stack == [] && IsLaidFor(View(), mat, root, pic, lab, columns[..], done, board[..])
    {
      inout := board;
      nodes := new Node[MAX_NODES];
      columns := new nat[COLUMN_NAMES](_ => 0);
      curNode, root, stack := 0, 0, [];
      mat, pic, lab, done := Matrix([0], [[]]), Picture([], map[]), [Move(0, 0)], {};
      new;
      root := NewColumn(0);
      nodes[root] := nodes[root].(right := root);
      nodes[root] := nodes[root].(left := root);
      assert View() == [Alone(0, 0, 0)];
      RootLaid(columns[..]);
      LayOut();
    }

    /** Lays out the columns and rows of the board. */
    method LayOut()
      requires Laid() && NoRows(mat) && done == {} && root == 0 && columns.Length == COLUMN_NAMES
      requires IsBoard(inout[..]) && curNode == 1 && nodes.Length == MAX_NODES
      requires forall n | 0 <= n < COLUMN_NAMES :: columns[n] == 0
      modifies nodes, columns, `curNode, `mat, `pic, `lab, `done
      ensures Laid() && IsLaidFor(View(), mat, root, pic, lab, columns[..], done, inout[..])
    {
      hide Laid, NoRows, StandsIn, Needed, IsCandidate, IsLaidFor;
      var rows := new bool[81, 10]((_, _) => false);
      var cols := new bool[81, 10]((_, _) => false);
      var boxes := new bool[81, 10]((_, _) => false);
      MarkGivens(rows, cols, boxes);
      AppendCellColumns();
      AppendAllUnitColumns(rows, cols, boxes);
      AppendRows(rows, cols, boxes);
      LaidMeans();
    }

    lemma LaidMeans()
      requires Laid() && IsBoard(inout[..]) && columns.Length == COLUMN_NAMES
      requires forall n: nat | n < COLUMN_NAMES :: columns[n] != 0 <==> Needed(inout[..], n)
      requires forall mv :: mv in done <==> IsCandidate(inout[..], mv.cell, mv.val)
      ensures Pool() && IsLaidFor(View(), mat, root, pic, lab, columns[..], done, inout[..])
    {
      hide Shows, Labelled, Directory, RowsSpell, Encodes;
      ShowsValid(View(), mat, root, pic);
      LayoutEncodes(View(), mat, root, pic, lab, columns[..], done, inout[..]);
    }

    method PutLeft(o: nat, n: nat)
      requires Pool() && InRange(View()) && o < curNode && n < curNode && n != o && nodes[o].left != n
      modifies nodes
      ensures View() == InsertLeft(old(View()), o, n)
    {
      nodes[n] := nodes[n].(left := nodes[o].left);
      nodes[n] := nodes[n].(right := o);
      nodes[nodes[o].left] := nodes[nodes[o].left].(right := n);
      nodes[o] := nodes[o].(left := n);
    }

    method PutUp(o: nat, n: nat)
      requires Pool() && InRange(View()) && o < curNode && n < curNode && n != o && nodes[o].up != n
      modifies nodes
      ensures View() == InsertUp(old(View()), o, n)
    {
      nodes[n] := nodes[n].(up := nodes[o].up);
      nodes[n] := nodes[n].(down := o);
      nodes[nodes[o].up] := nodes[nodes[o].up].(down := n);
      nodes[o] := nodes[o].(up := n);
      nodes[o] := nodes[o].(size := nodes[o].size + 1);
      nodes[n] := nodes[n].(col := o);
    }

    method NewColumn(n: nat) returns (c: nat)
      requires Pool() && curNode < nodes.Length
      modifies nodes, `curNode
      ensures Pool() && c == old(curNode) && curNode == c + 1 && View() == old(View()) + [Alone(c, c, n)]
    {
      c := curNode;
      curNode := curNode + 1;
      nodes[c] := Node(c, c, c, c, c, n, 0);
    }

    method AppendColumn(n: nat)
      requires Laid() && NoRows(mat) && done == {} && curNode < nodes.Length && n < COLUMN_NAMES && columns[n] == 0
      requires root == 0
      modifies nodes, columns, `curNode, `mat, `pic, `lab
      ensures Laid() && NoRows(mat) && curNode == old(curNode) + 1
      ensures columns[..] == old(columns[..])[n := old(curNode)]
    {
      hide InsertLeft, Labelled, RowsSpell, NoRows;
      ghost var s, e := View(), columns[..];
      ColumnLaidOut(s, mat, root, pic, lab, e, n, InsertLeft(s + [Alone(|s|, |s|, n)], root, |s|));
      var c := NewColumn(n);
      PutLeft(root, c);
      columns[n] := c;
      mat, pic, lab := Grow(mat, c, []), Picture(pic.cols + [c], pic.lst[c := [c]]), lab + [Move(0, 0)];
    }

    method NewRow(name: nat) returns (r: nat)
      requires Pool() && InRange(View()) && curNode < nodes.Length
      requires name < columns.Length && columns[name] < curNode
      modifies nodes, `curNode
      ensures Pool() && r == old(curNode) && curNode == r + 1
      ensures View() == AddNode(old(View()), columns[name], name)
    {
      ghost var s := View();
      assert s[columns[name]].up < |s|;
      r := curNode;
      curNode := curNode + 1;
      nodes[r] := Node(r, r, r, r, columns[name], name, 0);
      assert View() == s + [Alone(r, columns[name], name)];
      PutUp(columns[name], r);
    }

    /** Links four new nodes into one row. */
    method JoinRow(n0: nat, nr: nat, nc: nat, nb: nat)
      requires Pool() && InRange(View()) && curNode == n0 + 4 && nr == n0 + 1 && nc == n0 + 2 && nb == n0 + 3
      requires forall k | n0 <= k < n0 + 4 :: nodes[k].left == nodes[k].right == k
      modifies nodes
      ensures Joined(old(View()), View(), n0)
    {
      ghost var u := View();
      PutLeft(n0, nr);
      assert View()[n0].left == nr;
      PutLeft(n0, nc);
      assert View()[n0].left == nc;
      PutLeft(n0, nb);
      JoinLinks(u, n0);
    }

    /** The four nodes that say "digit v goes into cell i", joined into a row. */
    method AddRow(i: nat, row: nat, col: nat, box: nat, v: nat)
      requires Pool() && InRange(View()) && curNode + 4 <= nodes.Length && columns.Length == COLUMN_NAMES
      requires i < CELLS && 1 <= v <= 9 && row == UnitOf(Row, i) && col == UnitOf(Col, i) && box == UnitOf(Box, i)
      requires forall k | 0 <= k < 4 :: Headers(columns[..], Move(i, v))[k] < curNode
      modifies nodes, `curNode
      ensures Pool() && curNode == old(curNode) + 4
      ensures Joined(AddNodes(old(View()), Headers(columns[..], Move(i, v)), MoveNames(Move(i, v))), View(),
                     old(curNode))
    {
      hide AddNode, AddNodes, Joined, InsertUp, NodesAfter, UnitOf;
      ghost var s, hs, names := View(), Headers(columns[..], Move(i, v)), MoveNames(Move(i, v));
      FourSteps(s, hs, names);
      AddNodesAfter(s, hs, names);
      assert hs[0] < |s| && hs[1] < |s| && hs[2] < |s| && hs[3] < |s|;
      var n0 := NewRow(i);
      var nr := NewRow(100 + row * 10 + v);
      var nc := NewRow(200 + col * 10 + v);
      var nb := NewRow(300 + box * 10 + v);
      JoinRow(n0, nr, nc, nb);
    }

    /** Lays out the row of one more move. */
    method LayRow(i: nat, row: nat, col: nat, box: nat, v: nat)
      requires Laid() && curNode + 4 <= nodes.Length && columns.Length == COLUMN_NAMES
      requires HasColumns(columns[..], Move(i, v))
      requires row == UnitOf(Row, i) && col == UnitOf(Col, i) && box == UnitOf(Box, i)
      modifies nodes, `curNode, `mat, `pic, `lab, `done
      ensures Laid() && curNode == old(curNode) + 4 && done == old(done) + {Move(i, v)}
    {
      hide Shows, Labelled, AddNodes, GrowAll, AddPictures, FourHung, RowsSpell, Directory, Joined;
      ghost var s, mv := View(), Move(i, v);
      ghost var e := columns[..];
      ghost var hs, names := Headers(e, mv), MoveNames(mv);
      HeadersDistinct(pic, e, mv);
      FourAdded(s, mat, root, pic, hs, names);
      ghost var g, b := GrowAll(mat, hs), AddPictures(pic, hs, |s|);
      AddRow(i, row, col, box, v);
      RowLaidOut(s, mat, root, pic, lab, e, done, mv, AddNodes(s, hs, names), g, b, View());
      mat, pic, lab, done := JoinRows(g, |s|), b, lab + [mv, mv, mv, mv], done + {mv};
    }

    /** Appends the columns of unit i and digit v that the givens leave to be filled. */
    method AppendUnitColumns(i: nat, v: nat, inRow: bool, inCol: bool, inBox: bool)
      requires Laid() && NoRows(mat) && done == {} && root == 0 && columns.Length == COLUMN_NAMES
      requires 1 <= curNode && curNode + 3 <= nodes.Length && i < 9 && 1 <= v <= 9
      requires forall kind :: columns[UnitName(kind, i, v)] == 0
      modifies nodes, columns, `curNode, `mat, `pic, `lab
      ensures Laid() && NoRows(mat) && 1 <= curNode <= old(curNode) + 3
      ensures forall n: nat | n < COLUMN_NAMES :: columns[n] != 0 <==>
                (old(columns[n]) != 0 || (n == UnitName(Row, i, v) && !inRow) || (n == UnitName(Col, i, v) && !inCol)
                 || (n == UnitName(Box, i, v) && !inBox))
    {
      hide Laid, NoRows;
      ghost var r, c, x := UnitName(Row, i, v), UnitName(Col, i, v), UnitName(Box, i, v);
      assert columns[r] == 0 && columns[c] == 0 && columns[x] == 0;
      if !inRow {
        AppendColumn(100 + i * 10 + v);
      }
      if !inCol {
        AppendColumn(200 + i * 10 + v);
      }
      if !inBox {
        AppendColumn(300 + i * 10 + v);
      }
    }

    /** Marks the digits that the givens put into each row, column and box. */
    method MarkGivens(rows: array2<bool>, cols: array2<bool>, boxes: array2<bool>)
      requires IsBoard(inout[..]) && rows != cols && cols != boxes && rows != boxes
      requires rows.Length0 == cols.Length0 == boxes.Length0 == 81
      requires rows.Length1 == cols.Length1 == boxes.Length1 == 10
      requires forall u, v | 0 <= u < 81 && 0 <= v < 10 :: !rows[u, v] && !cols[u, v] && !boxes[u, v]
      modifies rows, cols, boxes
      ensures forall u, v | 0 <= u < 9 && 0 <= v < 10 :: rows[u, v] <==> StandsIn(inout[..], Row, u, v)
      ensures forall u, v | 0 <= u < 9 && 0 <= v < 10 :: cols[u, v] <==> StandsIn(inout[..], Col, u, v)
      ensures forall u, v | 0 <= u < 9 && 0 <= v < 10 :: boxes[u, v] <==> StandsIn(inout[..], Box, u, v)
    {
      ghost var b := inout[..];
      var i := 0;
      while i < 81
        invariant 0 <= i <= 81
        invariant forall u, v | 0 <= u < 9 && 0 <= v < 10 :: rows[u, v] <==> StandsBefore(b, Row, u, v, i)
        invariant forall u, v | 0 <= u < 9 && 0 <= v < 10 :: cols[u, v] <==> StandsBefore(b, Col, u, v, i)
        invariant forall u, v | 0 <= u < 9 && 0 <= v < 10 :: boxes[u, v] <==> StandsBefore(b, Box, u, v, i)
      {
        var row, col := i / 9, i % 9;
        var box := row / 3 * 3 + col / 3;
        var val := inout[i];
        forall kind, u, v | 0 <= u < 9 && 0 <= v < 10
          ensures StandsBefore(b, kind, u, v, i + 1) <==>
                    (StandsBefore(b, kind, u, v, i) || (UnitOf(kind, i) == u && b[i] == v))
        {
          StandsNext(b, kind, u, v, i);
        }
        rows[row, val] := true;
        cols[col, val] := true;
        boxes[box, val] := true;
        i := i + 1;
      }
      forall kind, u, v | 0 <= u < 9 && 0 <= v < 10
        ensures StandsBefore(b, kind, u, v, 81) <==> StandsIn(b, kind, u, v)
      {
        StandsAll(b, kind, u, v);
      }
    }

    /** Appends a column for every empty cell. */
    method AppendCellColumns()
      requires Laid() && NoRows(mat) && done == {} && root == 0 && columns.Length == COLUMN_NAMES
      requires IsBoard(inout[..]) && curNode == 1 && nodes.Length == MAX_NODES
      requires forall n | 0 <= n < COLUMN_NAMES :: columns[n] == 0
      modifies nodes, columns, `curNode, `mat, `pic, `lab
      ensures Laid() && NoRows(mat) && 1 <= curNode <= 82
      ensures forall n: nat | n < COLUMN_NAMES :: columns[n] != 0 <==> n < CELLS && inout[n] == 0
    {
      hide Laid, NoRows;
      var i := 0;
      while i < 81
        invariant 0 <= i <= 81 && 1 <= curNode <= 1 + i && Laid() && NoRows(mat)
        invariant forall n: nat | n < COLUMN_NAMES :: columns[n] != 0 <==> n < i && inout[n] == 0
      {
        if inout[i] == 0 {
          AppendColumn(i);
        }
        i := i + 1;
      }
    }

    /** Appends a column for every digit that a unit still lacks. */
    method AppendAllUnitColumns(rows: array2<bool>, cols: array2<bool>, boxes: array2<bool>)
      requires Laid() && NoRows(mat) && done == {} && root == 0 && columns.Length == COLUMN_NAMES
      requires IsBoard(inout[..]) && 1 <= curNode <= 82 && nodes.Length == MAX_NODES
      requires forall n: nat | n < COLUMN_NAMES :: columns[n] != 0 <==> n < CELLS && inout[n] == 0
      requires rows.Length0 == cols.Length0 == boxes.Length0 == 81
      requires rows.Length1 == cols.Length1 == boxes.Length1 == 10
      requires forall u, v | 0 <= u < 9 && 0 <= v < 10 :: rows[u, v] <==> StandsIn(inout[..], Row, u, v)
      requires forall u, v | 0 <= u < 9 && 0 <= v < 10 :: cols[u, v] <==> StandsIn(inout[..], Col, u, v)
      requires forall u, v | 0 <= u < 9 && 0 <= v < 10 :: boxes[u, v] <==> StandsIn(inout[..], Box, u, v)
      modifies nodes, columns, `curNode, `mat, `pic, `lab
      ensures Laid() && curNode <= 82 + 9 * 27
      ensures forall n: nat | n < COLUMN_NAMES :: columns[n] != 0 <==> Needed(inout[..], n)
    {
      hide Laid, NoRows, StandsIn, UnitDue, NeededInUnit;
      ghost var b := inout[..];
      forall n: nat ensures !UnitDue(b, n, 0, 1) {
        UnitDueAll(b, n);
      }
      var i := 0;
      while i < 9
        invariant 0 <= i <= 9 && 1 <= curNode <= 82 + i * 27 && Laid() && NoRows(mat)
        invariant forall n: nat | n < COLUMN_NAMES ::
                    columns[n] != 0 <==> (n < CELLS && b[n] == 0) || UnitDue(b, n, i, 1)
      {
        var v := 1;
        while v < 10
          invariant 1 <= v <= 10 && 1 <= curNode <= 82 + i * 27 + (v - 1) * 3 && Laid() && NoRows(mat)
          invariant forall n: nat | n < COLUMN_NAMES ::
                      columns[n] != 0 <==> (n < CELLS && b[n] == 0) || UnitDue(b, n, i, v)
        {
          forall kind ensures columns[UnitName(kind, i, v)] == 0 {
            UnitNotDueYet(b, kind, i, v);
          }
          forall n: nat ensures UnitDue(b, n, i, v + 1) <==> (UnitDue(b, n, i, v)
            || (n == UnitName(Row, i, v) && !rows[i, v]) || (n == UnitName(Col, i, v) && !cols[i, v])
            || (n == UnitName(Box, i, v) && !boxes[i, v]))
          {
            UnitDueNext(b, n, i, v);
          }
          AppendUnitColumns(i, v, rows[i, v], cols[i, v], boxes[i, v]);
          v := v + 1;
        }
        forall n: nat ensures UnitDue(b, n, i, 10) <==> UnitDue(b, n, i + 1, 1) {
          UnitDueWrap(b, n, i);
        }
        i := i + 1;
      }
      forall n: nat ensures UnitDue(b, n, 9, 1) <==> NeededInUnit(b, n) {
        UnitDueAll(b, n);
      }
    }

    /** Lays out a row for every digit that may go into an empty cell. */
    method AppendRows(rows: array2<bool>, cols: array2<bool>, boxes: array2<bool>)
      requires Laid() && done == {} && columns.Length == COLUMN_NAMES
      requires IsBoard(inout[..]) && curNode <= 325 && nodes.Length == MAX_NODES
      requires forall n: nat | n < COLUMN_NAMES :: columns[n] != 0 <==> Needed(inout[..], n)
      requires rows.Length0 == cols.Length0 == boxes.Length0 == 81
      requires rows.Length1 == cols.Length1 == boxes.Length1 == 10
      requires forall u, v | 0 <= u < 9 && 0 <= v < 10 :: rows[u, v] <==> StandsIn(inout[..], Row, u, v)
      requires forall u, v | 0 <= u < 9 && 0 <= v < 10 :: cols[u, v] <==> StandsIn(inout[..], Col, u, v)
      requires forall u, v | 0 <= u < 9 && 0 <= v < 10 :: boxes[u, v] <==> StandsIn(inout[..], Box, u, v)
      modifies nodes, `curNode, `mat, `pic, `lab, `done
      ensures Laid() && forall mv :: mv in done <==> IsCandidate(inout[..], mv.cell, mv.val)
    {
      hide Laid, StandsIn, Needed, HasColumns;
      ghost var b, e := inout[..], columns[..];
      var i := 0;
      while i < 81
        invariant 0 <= i <= 81 && curNode <= 325 + i * 36 && Laid()
        invariant forall mv :: mv in done <==> MoveDue(b, mv, i, 1)
      {
        if inout[i] == 0 {
          var row, col := i / 9, i % 9;
          var box := row / 3 * 3 + col / 3;
          var v := 1;
          while v < 10
            invariant 1 <= v <= 10 && curNode <= 325 + i * 36 + (v - 1) * 4 && Laid()
            invariant forall mv :: mv in done <==> MoveDue(b, mv, i, v)
          {
            Candidate(b, i, v);
            if !(rows[row, v] || cols[col, v] || boxes[box, v]) {
              CandidateHasColumns(b, e, Move(i, v));
              LayRow(i, row, col, box, v);
            }
            v := v + 1;
          }
        }
        i := i + 1;
      }
    }

    method UnlinkNode(j: nat)
      requires Pool() && InRange(View()) && j < curNode
      modifies nodes
      ensures View() == Unlink(old(View()), j)
    {
      nodes[nodes[j].down] := nodes[nodes[j].down].(up := nodes[j].up);
      nodes[nodes[j].up] := nodes[nodes[j].up].(down := nodes[j].down);
      var c := nodes[j].col;
      nodes[c] := nodes[c].(size := nodes[c].size - 1);
    }

    method RelinkNode(j: nat)
      requires Pool() && InRange(View()) && j < curNode
      modifies nodes
      ensures View() == Relink(old(View()), j)
    {
      var c := nodes[j].col;
      nodes[c] := nodes[c].(size := nodes[c].size + 1);
      nodes[nodes[j].down] := nodes[nodes[j].down].(up := j);
      nodes[nodes[j].up] := nodes[nodes[j].up].(down := j);
    }

    method UnlinkHeader(c: nat)
      requires Pool() && InRange(View()) && c < curNode
      modifies nodes
      ensures View() == HUnlink(old(View()), c)
    {
      nodes[nodes[c].right] := nodes[nodes[c].right].(left := nodes[c].left);
      nodes[nodes[c].left] := nodes[nodes[c].left].(right := nodes[c].right);
    }

    method RelinkHeader(c: nat)
      requires Pool() && InRange(View()) && c < curNode
      modifies nodes
      ensures View() == HRelink(old(View()), c)
    {
      nodes[nodes[c].right] := nodes[nodes[c].right].(left := c);
      nodes[nodes[c].left] := nodes[nodes[c].left].(right := c);
    }

    /** The inner loop of covering: takes the row's other nodes out of their columns, rightwards. */
    method UnlinkMates(row: nat, ghost m: Matrix)
      requires Pool() && Base(View(), m) && m.IsRow(row)
      modifies nodes
      ensures Within(old(View()), m.row[row][1..])
      ensures View() == UnlinkAll(old(View()), m.row[row][1..])
    {
      hide Base, UnlinkAll, Unlink, HRing, Matrix.Valid, NodeOk, HUnlink;
      ghost var s, r := View(), m.row[row];
      UnlinkMatesStep(s, m, row, 1);
      var j := nodes[row].right;
      ghost var k := 1;
      while j != row
        invariant View() == nodes[..curNode] && curNode <= nodes.Length
        invariant 1 <= k <= |r| && j == Next(r, k - 1)
        invariant Within(s, r[1..k]) && View() == UnlinkAll(s, r[1..k])
        decreases |r| - k
      {
        UnlinkMatesStep(s, m, row, k);
        UnlinkNode(j);
        UnlinkMatesStep(s, m, row, k + 1);
        j := nodes[j].right;
        k := k + 1;
      }
      UnlinkMatesStep(s, m, row, k);
    }

    /** The inner loop of uncovering: puts the row's other nodes back, leftwards. */
    method RelinkMates(row: nat, ghost m: Matrix)
      requires Pool() && Base(View(), m) && m.IsRow(row)
      modifies nodes
      ensures Within(old(View()), m.row[row][1..])
      ensures View() == RelinkAll(old(View()), m.row[row][1..])
    {
      hide Base, RelinkAll, Relink, Within, RelinkingRow, Matrix.Valid;
      ghost var s, r := View(), m.row[row];
      RelinkingStart(s, m, row);
      var j := nodes[row].left;
      ghost var k := |r|;
      while j != row
        invariant 1 <= k <= |r| && j == r[k - 1] && row == r[0]
        invariant RelinkingRow(s, View(), m, row, k)
        decreases k
      {
        RelinkingNode(s, View(), m, row, k);
        RelinkNode(j);
        j := nodes[j].left;
        k := k - 1;
      }
      RelinkingEnd(s, View(), m, row, k);
    }

    /** Takes column c, whose rows are l, out of the header ring, and every other node of those rows
        out of its own column. */
    method Cover(c: nat, ghost m: Matrix, ghost l: seq<nat>)
      requires Pool() && Base(View(), m) && m.IsHeader(c) && IsColumn(m, l, c) && VRing(View(), [c] + l)
      modifies nodes
      ensures Within(old(View()), Trace(m, l))
      ensures View() == CoverBy(old(View()), c, Trace(m, l))
    {
      ghost var s0 := View();
      UnlinkHeader(c);
      ghost var s1 := View();
      HUnlinkKeeps(s0, m, c);
      VRingDown(s0, s1, [c] + l);
      var row := nodes[c].down;
      ghost var i := 0;
      while row != c
        invariant 0 <= i <= |l| && row == Next([c] + l, i)
        invariant Within(s1, Trace(m, l[..i])) && View() == UnlinkAll(s1, Trace(m, l[..i]))
        decreases |l| - i
      {
        CoverStep(s1, m, l, c, i);
        UnlinkMates(row, m);
        CoverStep(s1, m, l, c, i + 1);
        row := nodes[row].down;
        i := i + 1;
      }
      assert l[..i] == l;
    }

    /** The row loop of uncovering: relinks the column's rows from below. */
    method RelinkRows(c: nat, ghost m: Matrix, ghost l: seq<nat>)
      requires Pool() && Base(View(), m) && m.IsHeader(c) && IsColumn(m, l, c) && VRing(View(), [c] + l)
      modifies nodes
      ensures Within(old(View()), Trace(m, l))
      ensures View() == RelinkAll(old(View()), Trace(m, l))
    {
      ghost var s := View();
      ColumnPrevious(s, m, l, c, |l|);
      var row := nodes[c].up;
      ghost var i := |l|;
      while row != c
        invariant 0 <= i <= |l| && row == ([c] + l)[i]
        invariant Relinking(s, View(), m, l, c, i)
        decreases i
      {
        RelinkRow(s, View(), m, l, c, i);
        RelinkMates(row, m);
        ColumnPrevious(View(), m, l, c, i);
        row := nodes[row].up;
        i := i - 1;
      }
      ColumnPrevious(View(), m, l, c, i);
    }

    /** Puts back what covering column c took out, in the opposite order. */
    method Uncover(c: nat, ghost m: Matrix, ghost l: seq<nat>)
      requires Pool() && Base(View(), m) && m.IsHeader(c) && IsColumn(m, l, c) && VRing(View(), [c] + l)
      modifies nodes
      ensures Within(old(View()), Trace(m, l))
      ensures View() == UncoverBy(old(View()), c, Trace(m, l))
    {
      RelinkRows(c, m, l);
      RelinkHeader(c);
    }

    /** Covers the other columns of the row, rightwards; way lists the states it passes through. */
    method CoverMates(row: nat, ghost m: Matrix, ghost way: seq<Links>, ghost ls: seq<seq<nat>>)
      requires Pool() && m.Valid() && m.IsRow(row) && RowWay(m, row, way, ls) && View() == way[0]
      modifies nodes
      ensures View() == way[|way| - 1]
    {
      hide CoverBy, UncoverBy, Base, VRing, UnlinkAll, Trace;
      ghost var r := m.row[row];
      WayAt(m, row, way, ls, 0);
      var j := nodes[row].right;
      ghost var k := 0;
      while j != row
        invariant 0 <= k < |r| && j == Next(r, k) && View() == way[k]
        decreases |r| - k
      {
        WayAt(m, row, way, ls, k);
        Cover(nodes[j].col, m, ls[k]);
        k := k + 1;
        j := nodes[j].right;
      }
      WayAt(m, row, way, ls, k);
    }

    /** Uncovers them again, leftwards. */
    method UncoverMates(row: nat, ghost m: Matrix, ghost way: seq<Links>, ghost ls: seq<seq<nat>>)
      requires Pool() && m.Valid() && m.IsRow(row) && RowWay(m, row, way, ls) && View() == way[|way| - 1]
      modifies nodes
      ensures View() == way[0]
    {
      hide CoverBy, UncoverBy, Base, VRing, UnlinkAll, Trace;
      ghost var r := m.row[row];
      WayAt(m, row, way, ls, |r| - 1);
      var j := nodes[row].left;
      ghost var k := |r| - 1;
      while j != row
        invariant 0 <= k < |r| && j == r[k] && r[0] == row && View() == way[k]
        decreases k
      {
        k := k - 1;
        WayAt(m, row, way, ls, k);
        Uncover(nodes[j].col, m, ls[k]);
        j := nodes[j].left;
      }
      WayAt(m, row, way, ls, k);
    }

    /** The leftmost uncovered column with at most one row, or, if there is none, the leftmost of the
        smallest columns. */
    method GetMinColumn(ghost cols: seq<nat>) returns (c: nat, ghost at: nat)
      requires Pool() && root < curNode && cols != []
      requires HRing(View(), [root] + cols) && NoDup([root] + cols)
      ensures at < |cols| && c == cols[at] < curNode
      ensures forall i | 0 <= i < at ::
                cols[i] < curNode && nodes[cols[i]].size > 1 && nodes[cols[i]].size > nodes[c].size
      ensures nodes[c].size <= 1 || forall i | 0 <= i < |cols| ::
                cols[i] < curNode && nodes[cols[i]].size >= nodes[c].size
    {
      RingNext(View(), root, cols, 0);
      RingNext(View(), root, cols, 1);
      c, at := nodes[root].right, 0;
      var minSize := nodes[c].size;
      if minSize > 1 {
        var cc := nodes[c].right;
        ghost var k := 1;
        while cc != root
          invariant 1 <= k <= |cols| && cc == Next([root] + cols, k)
          invariant at < k && c == cols[at] < curNode && minSize == nodes[c].size > 1
          invariant forall i | 0 <= i < k :: cols[i] < curNode && nodes[cols[i]].size >= minSize
          invariant forall i | 0 <= i < at :: nodes[cols[i]].size > minSize
          decreases |cols| - k
        {
          RingNext(View(), root, cols, k);
          RingNext(View(), root, cols, k + 1);
          if minSize > nodes[cc].size {
            c, at := cc, k;
            minSize := nodes[cc].size;
            if minSize <= 1 {
              break;
            }
          }
          cc := nodes[cc].right;
          k := k + 1;
        }
        if cc == root {
          RingNext(View(), root, cols, k);
        }
      }
    }

    /** Reads the cell and the value of the row r off the names met from its first node rightwards. */
    method ReadRow(first: nat, ghost r: seq<nat>, ghost l: Move) returns (cell: int, val: int)
      requires Pool() && Readable(View(), first, r, l)
      ensures cell == l.cell && val == l.val
    {
      var n := first;
      cell, val := -1, -1;
      ghost var k := 0;
      assert Next(r, |r| - 1) == r[0];
      while cell == -1 || val == -1
        invariant 0 <= k <= |r| && n == if k < |r| then r[k] else r[0]
        invariant cell == -1 || cell == l.cell
        invariant val == -1 || val == l.val
        invariant forall i | 0 <= i < k :: if nodes[r[i]].name < 100 then cell == l.cell else val == l.val
        decreases |r| - k
      {
        assert k < |r| && nodes[r[k]].right == Next(r, k);
        if nodes[n].name < 100 {
          cell := nodes[n].name;
        } else {
          val := nodes[n].name % 10;
        }
        n := nodes[n].right;
        k := k + 1;
      }
    }

    /** Writes the rows on the stack onto the board, bottom first. */
    method WriteStack(ghost m: Matrix, ghost lab: seq<Move>)
      requires Pool() && AllReadable(View(), m, lab, inout.Length, stack)
      modifies inout
      ensures inout[..] == Decoded(old(inout[..]), lab, stack)
    {
      ghost var b := inout[..];
      var i := 0;
      while i < |stack|
        invariant 0 <= i <= |stack|
        invariant inout[..] == Decoded(b, lab, stack[..i])
      {
        var cell, val := ReadRow(stack[i], m.row[stack[i]], lab[stack[i]]);
        DecodedSnoc(b, lab, stack[..i], stack[i]);
        SliceSnoc(stack, 0, i);
        inout[cell] := val;
        i := i + 1;
      }
      assert stack[..i] == stack;
    }

    /** Searches for rows that complete the stack to an exact cover. On success the rows found are on
        the stack and written to the board; on failure there is no such choice, and the links, the
        stack and the board are what they were. */
    method Solve(ghost m: Matrix, ghost a: Picture, ghost lab: seq<Move>)
      returns (found: bool, ghost picked: seq<nat>)
      requires Pool() && Shows(View(), m, root, a) && m.Valid()
      requires Labelled(View(), m, lab, inout.Length) && RowNodes(m, stack)
      modifies nodes, inout, this`stack
      ensures found ==> IsFound(m, a, lab, old(stack), stack, picked, old(inout[..]), inout[..])
      ensures !found ==>
        View() == old(View()) && stack == old(stack) && inout[..] == old(inout[..]) && !Solvable(ProblemOf(m, a))
      decreases a.lst.Keys, 2
    {
      hide Shows, Base, VRing, HRing, NoDup, Labelled, Readable, Matrix.Valid, IsColumn, Trace, CoverBy, UncoverBy;
      hide HUnlink, HRelink, Unlink, Relink, UnlinkAll, RelinkAll, RowsOf;
      hide CoverOne, CoverStepOk, ProblemOf, Reduce, Solvable, IsChoice, BoardAfter, Decoded, NoneOf;
      ghost var s, b := View(), inout[..];
      RootLeft(s, m, root, a);
      if nodes[root].left == root {
        SolvedHere(s, m, root, a, lab, inout.Length, stack);
        WriteStack(m, lab);
        BoardWritten(m, lab, s, b, inout[..], stack);
        return true, [];
      }
      var col, at := GetMinColumn(a.cols);
      ghost var l, q := SearchColumn(s, m, root, a, col);
      Cover(col, m, l);
      found, picked := TryRows(col, m, s, a, l, lab);
      if !found {
        CoverBack(s, q, m, col, l);
        Uncover(col, m, l);
        NoChoice(s, m, root, a, col, l);
      }
    }

    /** The row loop: tries the rows of the covered column, downwards, until one leads to a solution. */
    method TryRows(col: nat, ghost m: Matrix, ghost s: Links, ghost a: Picture, ghost l: seq<nat>, ghost lab: seq<Move>)
      returns (found: bool, ghost picked: seq<nat>)
      requires Pool() && Shows(s, m, root, a) && m.Valid() && Labelled(s, m, lab, inout.Length) && RowNodes(m, stack)
      requires col in a.lst && a.lst[col] != [] && l == RowsOf(a, col)
      requires View() == CoverOne(s, m, root, a, col).0 && CoverStepOk(s, View(), m, col, l)
      modifies nodes, inout, this`stack
      ensures found ==> IsFound(m, a, lab, old(stack), stack, picked, old(inout[..]), inout[..])
      ensures !found ==>
        View() == old(View()) && stack == old(stack) && inout[..] == old(inout[..]) && NoneOf(m, a, l, |l|)
      decreases a.lst.Keys, 1
    {
      hide Shows, Base, VRing, Labelled, Matrix.Valid, IsColumn, CoverOne, CoverStepOk;
      hide HUnlink, HRelink, Unlink, Relink, UnlinkAll, RelinkAll, CoverBy, UncoverBy, Trace;
      hide ProblemOf, Reduce, Solvable, IsFound, NoneOf, NoDup;
      ghost var q := View();
      NoneYet(m, a, l);
      RingDown(s, q, m, col, l, 0);
      var row := nodes[col].down;
      ghost var i := 0;
      while row != col
        invariant 0 <= i <= |l| && row == Next([col] + l, i)
        invariant View() == q && stack == old(stack) && inout[..] == old(inout[..])
        invariant NoneOf(m, a, l, i)
        decreases |l| - i
      {
        RingDown(s, q, m, col, l, i);
        assert row == a.lst[col][i + 1];
        found, picked := TryRow(row, m, s, a, col, lab);
        if found {
          return;
        }
        OneMore(m, a, l, i);
        RingDown(s, q, m, col, l, i + 1);
        row := nodes[row].down;
        i := i + 1;
      }
      RingDown(s, q, m, col, l, i);
      return false, [];
    }

    /** One turn of the row loop: chooses the row, searches on, and takes it back if that fails. */
    method TryRow(row: nat, ghost m: Matrix, ghost s: Links, ghost a: Picture, ghost col: nat, ghost lab: seq<Move>)
      returns (found: bool, ghost picked: seq<nat>)
      requires Pool() && Shows(s, m, root, a) && m.Valid() && Labelled(s, m, lab, inout.Length) && RowNodes(m, stack)
      requires col in a.lst && row in a.lst[col] && m.IsRow(row) && View() == CoverOne(s, m, root, a, col).0
      modifies nodes, inout, this`stack
      ensures found ==> IsFound(m, a, lab, old(stack), stack, picked, old(inout[..]), inout[..])
      ensures !found ==>
        View() == old(View()) && stack == old(stack) && inout[..] == old(inout[..]) &&
        !Solvable(Reduce(ProblemOf(m, a), m.Cols(row)))
      decreases a.lst.Keys, 0
    {
      hide Shows, Base, Labelled, Matrix.Valid, CoverOne, RowWay, ProblemOf, Reduce, Solvable, IsChoice, BoardAfter;
      ghost var way, ls, r := ChooseRow(s, m, root, a, col, row, lab, inout.Length);
      stack := stack + [row];
      CoverMates(row, m, way, ls);
      found, picked := Solve(m, r, lab);
      if found {
        ChoiceGrows(m, a, r, row, picked);
        picked := [row] + picked;
      } else {
        stack := stack[..|stack| - 1];
        UncoverMates(row, m, way, ls);
      }
    }
  }

  // ----- the interface

  /** Builds the matrix for the board and searches it. */
  method SolveBoard(board: array<int>) returns (found: bool)
    requires IsBoard(board[..])
    modifies board
    ensures board.Length == CELLS && found == CanBeSolved(old(board[..]))
    ensures found ==> IsSolution(board[..]) && Agrees(board[..], old(board[..]))
    ensures !found ==> board[..] == old(board[..])
  {
    hide Shows, Labelled, Matrix.Valid, IsLaidFor, IsFound, Solvable, ProblemOf, IsSolution, Agrees, LaidOut;
    ghost var b := board[..];
    var s := new SudokuSolver(board);
    ghost var v, m, a, l, d := s.View(), s.mat, s.pic, s.lab, s.done;
    ghost var e := s.columns[..];
    Ready(v, m, s.root, a, l, e, d, b);
    ghost var picked;
    found, picked := s.Solve(m, a, l);
    if found {
      FoundSolves(v, m, s.root, a, l, e, d, b, s.stack, picked, board[..]);
    } else {
      NotFound(v, m, s.root, a, l, e, d, b);
    }
  }

  const NO_SOLUTION := "NoSolution"

  /** Solves any puzzle of 81 characters, '0' being an empty cell: a complete grid with the givens if there is one,
      whether or not the givens contradict each other, and otherwise, or if a character is no digit, "NoSolution". */
  method SolveSudoku(puzzle: string) returns (result: string)
    requires |puzzle| == 81
    ensures IsPuzzle(puzzle) && HasSolution(puzzle) ==> SolvesPuzzle(result, puzzle)
    ensures !(IsPuzzle(puzzle) && HasSolution(puzzle)) ==> result == "NoSolution"
    ensures IsBoard(DigitsOf(puzzle)) && CanBeSolved(DigitsOf(puzzle)) ==>
              IsSolution(DigitsOf(result)) && Agrees(DigitsOf(result), DigitsOf(puzzle))
    ensures !(IsBoard(DigitsOf(puzzle)) && CanBeSolved(DigitsOf(puzzle))) ==> result == NO_SOLUTION
  {
    hide IsPuzzle, SolvesPuzzle, HasSolution, CanBeSolved;
    ghost var b := DigitsOf(puzzle);
    result := NO_SOLUTION;
    var board := new int[CELLS](_ => 0);
    var valid := true;
    for i := 0 to CELLS
      invariant forall k | 0 <= k < i :: board[k] == b[k]
      invariant valid <==> forall k | 0 <= k < i :: 0 <= b[k] <= 9
    {
      board[i] := puzzle[i] as int - '0' as int;
      valid := valid && 0 <= board[i] && board[i] <= 9;
    }
    assert board[..] == b;
    if valid {
      var found := SolveBoard(board);
      if found {
        ghost var g := board[..];
        result := "";
        for i := 0 to CELLS
          invariant |result| == i && forall k | 0 <= k < i :: result[k] as int == g[k] + '0' as int
        {
          assert board[i] == g[i];
          result := result + [(board[i] + '0' as int) as char];
        }
        assert DigitsOf(result) == g;
      }
    }
    PuzzleIsBoard(puzzle);
    if IsPuzzle(puzzle) {
      SolvableIff(puzzle);
      SolvesPuzzleIff(result, puzzle);
    }
  }
}
