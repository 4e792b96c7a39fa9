/** The matrix laid out for a board: which columns there are, which rows, and that its links stand for
    the board's exact cover encoding. */
module Layout {
  import opened DancingLinks
  import opened Covering
  import opened CoverSearch
  import opened Building
  import opened SudokuRules
  import opened Encoding

  /** The columns in use are exactly those entered in the directory, each under one name. */
  ghost predicate Directory(a: Picture, columns: seq<nat>)
  {
    && |columns| == COLUMN_NAMES
    && (forall n: nat | n < COLUMN_NAMES && columns[n] != 0 :: columns[n] in a.lst)
    && (forall d | d in a.lst :: d != 0 && d in columns)
    && (forall n, k | 0 <= n < k < COLUMN_NAMES && columns[n] != 0 :: columns[n] != columns[k])
  }

  /** Every row node stands in its column and its row fills the columns of its move; the moves are done. */
  ghost predicate RowsSpell(m: Matrix, a: Picture, lab: seq<Move>, columns: seq<nat>, done: set<Move>)
    requires m.Valid()
  {
    && |columns| == COLUMN_NAMES && |lab| == |m.row|
    && (forall x: nat {:trigger lab[x]} | m.IsRow(x) ::
          Live(m, a, x) && lab[x] in done && m.Cols(x) == FilledBy(columns, lab[x]))
    && (forall mv | mv in done :: exists x: nat :: m.IsRow(x) && lab[x] == mv)
  }

  ghost predicate LaidOut(s: Links, m: Matrix, root: nat, a: Picture, lab: seq<Move>, columns: seq<nat>,
                          done: set<Move>)
  {
    && Shows(s, m, root, a) && Labelled(s, m, lab, CELLS)
    && Directory(a, columns) && RowsSpell(m, a, lab, columns, done)
  }

  ghost predicate NoRows(m: Matrix) { forall k | 0 <= k < |m.row| :: m.row[k] == [] }

  lemma LayoutCols(a: Picture, columns: seq<nat>, c: nat)
    requires Directory(a, columns)
    ensures c in a.lst <==> c != 0 && c in columns
  {
    if c != 0 && c in columns {
      var n :| 0 <= n < COLUMN_NAMES && columns[n] == c;
    }
  }

  lemma LayoutRow(m: Matrix, a: Picture, lab: seq<Move>, columns: seq<nat>, done: set<Move>, b: Grid, mv: Move)
    requires m.Valid() && RowsSpell(m, a, lab, columns, done) && |b| == CELLS
    requires mv in done && IsCandidate(b, mv.cell, mv.val)
    ensures Filled(columns, mv.cell, mv.val) in ProblemOf(m, a).rows
  {
    var x: nat :| m.IsRow(x) && lab[x] == mv;
    assert x in LiveNodes(m, a);
  }

  lemma LayoutMove(m: Matrix, a: Picture, lab: seq<Move>, columns: seq<nat>, done: set<Move>, b: Grid, r: set<nat>)
    requires m.Valid() && RowsSpell(m, a, lab, columns, done) && |b| == CELLS
    requires (forall mv | mv in done :: IsCandidate(b, mv.cell, mv.val)) && r in ProblemOf(m, a).rows
    ensures IsFilled(b, columns, r)
  {
    var x :| x in LiveNodes(m, a) && r == m.Cols(x);
    assert m.IsRow(x) && lab[x] in done;
    assert IsCandidate(b, lab[x].cell, lab[x].val);
  }

  lemma LayoutKeys(m: Matrix, a: Picture)
    requires m.Valid()
    ensures ProblemOf(m, a).cols == a.lst.Keys
  {
  }

  /** A complete layout stands for the board's encoding. */
  lemma LayoutEncodes(s: Links, m: Matrix, root: nat, a: Picture, lab: seq<Move>, columns: seq<nat>, done: set<Move>,
                      b: Grid)
    requires LaidOut(s, m, root, a, lab, columns, done) && |b| == CELLS && m.Valid()
    requires forall n: nat | n < COLUMN_NAMES :: columns[n] != 0 <==> Needed(b, n)
    requires forall mv :: mv in done <==> IsCandidate(b, mv.cell, mv.val)
    ensures Encodes(b, columns, ProblemOf(m, a))
  {
    hide Shows, Labelled, Needed, Matrix.Valid, RowsSpell, ProblemOf;
    LayoutKeys(m, a);
    var p := ProblemOf(m, a);
    forall c ensures c in p.cols <==> c != 0 && c in columns {
      LayoutCols(a, columns, c);
    }
    forall i: nat, v: nat | IsCandidate(b, i, v) ensures Filled(columns, i, v) in p.rows {
      assert Move(i, v) in done;
      LayoutRow(m, a, lab, columns, done, b, Move(i, v));
    }
    forall r | r in p.rows ensures IsFilled(b, columns, r) {
      LayoutMove(m, a, lab, columns, done, b, r);
    }
  }

  // ----- adding a column

  lemma ColumnAdded(s: Links, m: Matrix, root: nat, a: Picture, name: nat)
    requires Shows(s, m, root, a)
    ensures
      var c := |s|;
      && c !in a.lst
      && Shows(InsertLeft(s + [Alone(c, c, name)], root, c), Grow(m, c, []), root,
               Picture(a.cols + [c], a.lst[c := [c]]))
  {
    var c := |s|;
    AloneShows(s, m, root, a, c, name, []);
    forall d | d in a.lst ensures d < c {
      assert ColumnOk(s, m, a.lst[d]);
    }
    ColumnAppended(s + [Alone(c, c, name)], Grow(m, c, []), root, a, c);
  }

  lemma DirectoryEntered(a: Picture, columns: seq<nat>, name: nat, c: nat)
    requires Directory(a, columns) && name < COLUMN_NAMES && columns[name] == 0 && c !in a.lst && c != 0
    ensures Directory(Picture(a.cols + [c], a.lst[c := [c]]), columns[name := c])
  {
    var e, b := columns[name := c], Picture(a.cols + [c], a.lst[c := [c]]);
    forall d | d in b.lst ensures d != 0 && d in e {
      if d != c {
        var k :| 0 <= k < COLUMN_NAMES && columns[k] == d;
        assert e[k] == d;
      } else {
        assert e[name] == c;
      }
    }
  }

  /** Laying out one more column, before there are any rows. */
  lemma ColumnLaidOut(s: Links, m: Matrix, root: nat, a: Picture, lab: seq<Move>, columns: seq<nat>, name: nat,
                      t: Links)
    requires LaidOut(s, m, root, a, lab, columns, {}) && NoRows(m) && s != []
    requires name < COLUMN_NAMES && columns[name] == 0
    requires t == InsertLeft(s + [Alone(|s|, |s|, name)], root, |s|)
    ensures
      var g := Grow(m, |s|, []);
      && LaidOut(t, g, root, Picture(a.cols + [|s|], a.lst[|s| := [|s|]]),
                 lab + [Move(0, 0)], columns[name := |s|], {})
      && NoRows(g)
  {
    hide Shows, Directory, InsertLeft;
    ColumnAdded(s, m, root, a, name);
    DirectoryEntered(a, columns, name, |s|);
    ShowsValid(s, m, root, a);
    var g, b := Grow(m, |s|, []), Picture(a.cols + [|s|], a.lst[|s| := [|s|]]);
    ShowsValid(t, g, root, b);
    NothingSpelled(t, g, b, lab + [Move(0, 0)], columns[name := |s|]);
  }

  lemma NothingSpelled(t: Links, g: Matrix, b: Picture, lab: seq<Move>, columns: seq<nat>)
    requires g.Valid() && NoRows(g) && |lab| == |g.row| && |columns| == COLUMN_NAMES
    ensures Labelled(t, g, lab, CELLS) && RowsSpell(g, b, lab, columns, {})
  {
  }

  // ----- adding a row

  /** One node of a new row: appended to the pool and hung below its column. */
  lemma NodeAdded(s: Links, m: Matrix, root: nat, a: Picture, h: nat, name: nat)
    requires Shows(s, m, root, a) && h in a.lst
    ensures
      var n := |s|;
      && (forall d | d in a.lst :: n !in a.lst[d]) && h < n
      && Shows(InsertUp(s + [Alone(n, h, name)], h, n), Grow(m, h, [n]), root,
               Picture(a.cols, a.lst[h := a.lst[h] + [n]]))
  {
    var n := |s|;
    forall d | d in a.lst ensures n !in a.lst[d] && d < n && m.IsHeader(d) {
      assert ColumnOk(s, m, a.lst[d]);
    }
    AloneShows(s, m, root, a, h, name, [n]);
    NodeHung(s + [Alone(n, h, name)], Grow(m, h, [n]), root, a, h, n);
  }

  /** g is m with one more row of four nodes, in the columns hs. */
  ghost predicate Extended(m: Matrix, g: Matrix, hs: seq<nat>)
  {
    && |m.col| == |m.row| && |hs| == 4 && g.col == m.col + hs
    && var n := |m.row|; g.row == m.row + [Four(n, 0), Four(n, 1), Four(n, 2), Four(n, 3)]
  }

  lemma ExtendedOld(m: Matrix, g: Matrix, hs: seq<nat>, x: nat)
    requires m.Valid() && g.Valid() && Extended(m, g, hs) && x < |m.row|
    ensures g.row[x] == m.row[x] && g.col[x] == m.col[x] && (g.IsRow(x) <==> m.IsRow(x))
    ensures m.IsRow(x) ==> g.Cols(x) == m.Cols(x)
  {
    if m.IsRow(x) {
      assert m.ValidRow(x);
      assert forall k | k in m.row[x] :: k < |m.row| && g.col[k] == m.col[k];
    }
  }

  lemma ExtendedRow(m: Matrix, g: Matrix, hs: seq<nat>, i: nat)
    requires Extended(m, g, hs) && i < 4
    ensures |g.row| == |m.row| + 4 == |g.col|
    ensures g.row[|m.row| + i] == Four(|m.row|, i) && g.col[|m.row| + i] == hs[i]
  {
    hide Four;
  }

  lemma FourCols(g: Matrix, hs: seq<nat>, n: nat, i: nat)
    requires g.Valid() && |hs| == 4 && i < 4 && |g.row| == |g.col| == n + 4
    requires g.col[n] == hs[0] && g.col[n + 1] == hs[1] && g.col[n + 2] == hs[2] && g.col[n + 3] == hs[3]
    requires g.row[n + i] == Four(n, i)
    ensures g.Cols(n + i) == {hs[0], hs[1], hs[2], hs[3]}
  {
    hide Matrix.Valid, Matrix.ValidRow;
    FourMembers(n, i);
    hide Four;
    var f, cs := Four(n, i), g.Cols(n + i);
    assert n in f && n + 1 in f && n + 2 in f && n + 3 in f;
    assert g.col[n] in cs && g.col[n + 1] in cs && g.col[n + 2] in cs && g.col[n + 3] in cs;
    forall k | k in f ensures k == n || k == n + 1 || k == n + 2 || k == n + 3 {
    }
  }

  lemma ExtendedNew(m: Matrix, g: Matrix, hs: seq<nat>, i: nat)
    requires m.Valid() && g.Valid() && Extended(m, g, hs) && i < 4
    ensures g.row[|m.row| + i] == Four(|m.row|, i) && g.col[|m.row| + i] == hs[i]
    ensures g.Cols(|m.row| + i) == {hs[0], hs[1], hs[2], hs[3]}
  {
    hide Extended, Matrix.Valid, Four;
    ExtendedRow(m, g, hs, 0);
    ExtendedRow(m, g, hs, 1);
    ExtendedRow(m, g, hs, 2);
    ExtendedRow(m, g, hs, 3);
    ExtendedRow(m, g, hs, i);
    ExtendedSize(m, g, hs);
    FourCols(g, hs, |m.row|, i);
  }

  lemma ExtendedSize(m: Matrix, g: Matrix, hs: seq<nat>)
    requires Extended(m, g, hs)
    ensures |hs| == 4 && |g.row| == |g.col| == |m.row| + 4
  {
  }

  /** The columns of a move, as the four headers its row hangs from. */
  ghost function Headers(columns: seq<nat>, mv: Move): seq<nat>
    requires |columns| == COLUMN_NAMES && mv.cell < CELLS && 1 <= mv.val <= 9
  {
    [columns[mv.cell], columns[UnitName(Row, UnitOf(Row, mv.cell), mv.val)],
     columns[UnitName(Col, UnitOf(Col, mv.cell), mv.val)], columns[UnitName(Box, UnitOf(Box, mv.cell), mv.val)]]
  }

  /** a' has every list of a, grown by the nodes from n on below the headers hs. */
  ghost predicate ListsGrown(a: Picture, a': Picture, hs: seq<nat>, n: nat)
    requires |hs| == 4
  {
    && a'.cols == a.cols && a'.lst.Keys == a.lst.Keys
    && (forall d, x | d in a.lst && x in a.lst[d] :: x in a'.lst[d])
    && (forall i | 0 <= i < 4 :: hs[i] in a.lst && n + i in a'.lst[hs[i]])
  }

  lemma RowSpelledAt(m: Matrix, g: Matrix, a: Picture, a': Picture, lab: seq<Move>, columns: seq<nat>, done: set<Move>,
                     mv: Move, x: nat)
    requires m.Valid() && g.Valid() && RowsSpell(m, a, lab, columns, done)
    requires mv.cell < CELLS && 1 <= mv.val <= 9
    requires Extended(m, g, Headers(columns, mv)) && ListsGrown(a, a', Headers(columns, mv), |m.row|) && g.IsRow(x)
    ensures var lab' := lab + [mv, mv, mv, mv];
      |lab'| == |g.row| && Live(g, a', x) && lab'[x] in done + {mv} && g.Cols(x) == FilledBy(columns, lab'[x])
  {
    hide Matrix.Valid;
    var n, hs := |m.row|, Headers(columns, mv);
    ExtendedSize(m, g, hs);
    if x < n {
      ExtendedOld(m, g, hs, x);
      assert (lab + [mv, mv, mv, mv])[x] == lab[x] && Live(m, a, x);
      assert g.col[x] in a'.lst.Keys;
    } else {
      ExtendedNew(m, g, hs, x - n);
      assert n + (x - n) in a'.lst[hs[x - n]];
      assert hs[x - n] in a'.lst.Keys;
    }
  }

  lemma RowSpelled(m: Matrix, g: Matrix, a: Picture, a': Picture, lab: seq<Move>, columns: seq<nat>, done: set<Move>,
                   mv: Move)
    requires m.Valid() && g.Valid() && RowsSpell(m, a, lab, columns, done)
    requires mv.cell < CELLS && 1 <= mv.val <= 9
    requires Extended(m, g, Headers(columns, mv)) && ListsGrown(a, a', Headers(columns, mv), |m.row|)
    ensures RowsSpell(g, a', lab + [mv, mv, mv, mv], columns, done + {mv})
  {
    hide Matrix.Valid, Extended, ListsGrown, Live, Matrix.Cols;
    var n, hs, lab' := |m.row|, Headers(columns, mv), lab + [mv, mv, mv, mv];
    ExtendedSize(m, g, hs);
    forall x: nat | g.IsRow(x)
      ensures Live(g, a', x) && lab'[x] in done + {mv} && g.Cols(x) == FilledBy(columns, lab'[x])
    {
      RowSpelledAt(m, g, a, a', lab, columns, done, mv, x);
    }
    forall w | w in done + {mv} ensures exists x: nat :: g.IsRow(x) && lab'[x] == w {
      if w == mv {
        ExtendedNew(m, g, hs, 0);
        assert g.IsRow(n) && lab'[n] == mv;
      } else {
        var x: nat :| m.IsRow(x) && lab[x] == w;
        ExtendedOld(m, g, hs, x);
        assert lab'[x] == w;
      }
    }
  }

  /** The names of the new nodes spell the move; the old names are kept. */
  ghost predicate NamesGrown(s: Links, t: Links, mv: Move)
    requires mv.cell < CELLS && 1 <= mv.val <= 9
  {
    && |t| == |s| + 4 && (forall k | 0 <= k < |s| :: t[k].name == s[k].name)
    && var n := |s|;
       && t[n].name == mv.cell && t[n + 1].name == UnitName(Row, UnitOf(Row, mv.cell), mv.val)
       && t[n + 2].name == UnitName(Col, UnitOf(Col, mv.cell), mv.val)
       && t[n + 3].name == UnitName(Box, UnitOf(Box, mv.cell), mv.val)
  }

  lemma RowLabelled(s: Links, t: Links, m: Matrix, g: Matrix, hs: seq<nat>, lab: seq<Move>, mv: Move)
    requires mv.cell < CELLS && 1 <= mv.val <= 9 && |s| == |m.row| && Labelled(s, m, lab, CELLS)
    requires NamesGrown(s, t, mv) && Extended(m, g, hs)
    ensures Labelled(t, g, lab + [mv, mv, mv, mv], CELLS)
  {
    var n, lab' := |s|, lab + [mv, mv, mv, mv];
    forall x | 0 <= x < |g.row| && g.row[x] != [] ensures lab'[x].cell < CELLS && RowLabel(t, g.row[x], lab'[x]) {
      if x < n {
        var r := m.row[x];
        assert g.row[x] == r && RowLabel(s, r, lab[x]);
        var i :| 0 <= i < |r| && s[r[i]].name < 100;
        var j :| 0 <= j < |r| && s[r[j]].name >= 100;
        assert t[r[i]].name < 100 && t[r[j]].name >= 100;
      } else {
        FourLabel(t, n, x - n, mv);
        assert g.row[x] == Four(n, x - n);
      }
    }
  }

  lemma FourLabel(t: Links, n: nat, i: nat, mv: Move)
    requires i < 4 && |t| == n + 4 && t[n].name == mv.cell < 100
    requires forall k | n < k < n + 4 :: t[k].name >= 100 && t[k].name % 10 == mv.val
    ensures RowLabel(t, Four(n, i), mv)
  {
    var f := Four(n, i);
    var k := if i == 0 then 0 else 4 - i;
    assert f[k] == n;
    assert f[if k == 0 then 1 else 0] > n;
  }

  /** The pool after adding a node called name below the header h. */
  ghost function AddNode(s: Links, h: nat, name: nat): (t: Links)
    requires InRange(s) && h < |s|
    ensures InRange(t) && |t| == |s| + 1
  {
    var e := s + [Alone(|s|, h, name)];
    assert forall k | 0 <= k < |e| :: k < |s| ==> e[k] == s[k];
    InsertUp(e, h, |s|)
  }

  ghost function AddPicture(a: Picture, h: nat, n: nat): Picture
    requires h in a.lst
  {
    Picture(a.cols, a.lst[h := a.lst[h] + [n]])
  }

  ghost function AddNodes(s: Links, hs: seq<nat>, names: seq<nat>): (t: Links)
    requires InRange(s) && |hs| == |names| && forall i | 0 <= i < |hs| :: hs[i] < |s|
    ensures InRange(t) && |t| == |s| + |hs|
    decreases |hs|
  {
    if hs == [] then s else AddNodes(AddNode(s, hs[0], names[0]), hs[1..], names[1..])
  }

  ghost function GrowAll(m: Matrix, hs: seq<nat>): (g: Matrix)
    requires |m.col| == |m.row|
    ensures |g.col| == |g.row|
    decreases |hs|
  {
    if hs == [] then m else GrowAll(Grow(m, hs[0], [|m.row|]), hs[1..])
  }

  ghost function AddPictures(a: Picture, hs: seq<nat>, n: nat): (b: Picture)
    requires forall i | 0 <= i < |hs| :: hs[i] in a.lst
    ensures b.cols == a.cols && b.lst.Keys == a.lst.Keys
    ensures forall d, x | d in a.lst && x in a.lst[d] :: x in b.lst[d]
    ensures forall i | 0 <= i < |hs| :: n + i in b.lst[hs[i]]
    decreases |hs|
  {
    if hs == [] then a else
      var c := AddPicture(a, hs[0], n);
      assert n in c.lst[hs[0]];
      var b := AddPictures(c, hs[1..], n + 1);
      assert forall i | 1 <= i < |hs| :: hs[i] == hs[1..][i - 1];
      b
  }

  /** Adding nodes one by one below uncovered columns shows each below its column. */
  lemma {:induction false} NodesAdded(s: Links, m: Matrix, root: nat, a: Picture, hs: seq<nat>, names: seq<nat>)
    requires Shows(s, m, root, a) && |hs| == |names| && forall i | 0 <= i < |hs| :: hs[i] in a.lst
    ensures forall i | 0 <= i < |hs| :: hs[i] < |s|
    ensures Shows(AddNodes(s, hs, names), GrowAll(m, hs), root, AddPictures(a, hs, |s|))
    decreases |hs|
  {
    hide Shows, Grow, InsertUp, Matrix.Valid;
    if hs != [] {
      ShowsValid(s, m, root, a);
      ShownBelow(s, m, root, a);
      NodeAdded(s, m, root, a, hs[0], names[0]);
      NodesAdded(AddNode(s, hs[0], names[0]), Grow(m, hs[0], [|s|]), root, AddPicture(a, hs[0], |s|),
                 hs[1..], names[1..]);
    } else {
      ShowsValid(s, m, root, a);
      ShownBelow(s, m, root, a);
    }
  }

  lemma ShownBelow(s: Links, m: Matrix, root: nat, a: Picture)
    requires Shows(s, m, root, a)
    ensures forall d | d in a.lst :: d < |s|
  {
    forall d | d in a.lst ensures d < |s| {
      assert ColumnOk(s, m, a.lst[d]);
    }
  }

  /** t is s followed by nodes with these names that nothing links to across. */
  ghost predicate NodesAfter(s: Links, t: Links, names: seq<nat>)
  {
    && |t| == |s| + |names|
    && (forall k | 0 <= k < |s| :: t[k].left == s[k].left && t[k].right == s[k].right && t[k].name == s[k].name)
    && (forall k | |s| <= k < |t| :: t[k].left == t[k].right == k && t[k].name == names[k - |s|])
  }

  lemma {:induction false} AddNodesAfter(s: Links, hs: seq<nat>, names: seq<nat>)
    requires InRange(s) && |hs| == |names| && forall i | 0 <= i < |hs| :: hs[i] < |s|
    ensures NodesAfter(s, AddNodes(s, hs, names), names)
    decreases |hs|
  {
    if hs != [] {
      var u := AddNode(s, hs[0], names[0]);
      AddNodesAfter(u, hs[1..], names[1..]);
      var t := AddNodes(s, hs, names);
      assert NodesAfter(u, t, names[1..]);
      assert forall k | 0 <= k < |u| :: u[k].name == if k < |s| then s[k].name else names[0];
    }
  }

  lemma FourSteps(s: Links, h: seq<nat>, n: seq<nat>)
    requires InRange(s) && |h| == 4 == |n| && forall i | 0 <= i < 4 :: h[i] < |s|
    ensures AddNodes(s, h, n) == AddNode(AddNode(AddNode(AddNode(s, h[0], n[0]), h[1], n[1]), h[2], n[2]), h[3], n[3])
  {
    var s1 := AddNode(s, h[0], n[0]);
    var s2 := AddNode(s1, h[1], n[1]);
    var s3 := AddNode(s2, h[2], n[2]);
    assert h[1..][1..] == h[2..] && h[2..][1..] == h[3..] && h[3..][1..] == [];
    assert n[1..][1..] == n[2..] && n[2..][1..] == n[3..] && n[3..][1..] == [];
    calc {
      AddNodes(s, h, n);
      AddNodes(s1, h[1..], n[1..]);
      AddNodes(s2, h[2..], n[2..]);
      AddNodes(s3, h[3..], n[3..]);
      AddNodes(AddNode(s3, h[3], n[3]), [], []);
    }
  }

  lemma FourGrown(m: Matrix, h: seq<nat>)
    requires |m.col| == |m.row| && |h| == 4
    ensures var n := |m.row|;
      GrowAll(m, h) == Matrix(m.col + h, m.row + [[n], [n + 1], [n + 2], [n + 3]])
  {
    var n := |m.row|;
    var m1 := Grow(m, h[0], [n]);
    var m2 := Grow(m1, h[1], [n + 1]);
    var m3 := Grow(m2, h[2], [n + 2]);
    assert h[1..][1..] == h[2..] && h[2..][1..] == h[3..] && h[3..][1..] == [];
    calc {
      GrowAll(m, h);
      GrowAll(m1, h[1..]);
      GrowAll(m2, h[2..]);
      GrowAll(m3, h[3..]);
      Grow(m3, h[3], [n + 3]);
      Matrix(m.col + h, m.row + [[n], [n + 1], [n + 2], [n + 3]]);
    }
  }

  /** The names of the columns that a move fills. */
  function MoveNames(mv: Move): (names: seq<nat>)
    requires mv.cell < CELLS && 1 <= mv.val <= 9
    ensures |names| == 4 && forall i | 0 <= i < 4 :: names[i] < COLUMN_NAMES
  {
    [mv.cell, UnitName(Row, UnitOf(Row, mv.cell), mv.val), UnitName(Col, UnitOf(Col, mv.cell), mv.val),
     UnitName(Box, UnitOf(Box, mv.cell), mv.val)]
  }

  /** The columns of the move are all there. */
  ghost predicate HasColumns(columns: seq<nat>, mv: Move)
    requires |columns| == COLUMN_NAMES
  {
    mv.cell < CELLS && 1 <= mv.val <= 9 && forall i | 0 <= i < 4 :: columns[MoveNames(mv)[i]] != 0
  }

  lemma HeadersDistinct(a: Picture, columns: seq<nat>, mv: Move)
    requires Directory(a, columns) && HasColumns(columns, mv)
    ensures forall i | 0 <= i < 4 :: Headers(columns, mv)[i] in a.lst
    ensures NoDup(Headers(columns, mv))
  {
    var hs, names := Headers(columns, mv), MoveNames(mv);
    assert forall i | 0 <= i < 4 :: hs[i] == columns[names[i]];
    assert names[0] < names[1] < names[2] < names[3];
  }

  /** u, g and b are s, m and a after hanging four new nodes below the headers hs. */
  ghost predicate FourHung(s: Links, m: Matrix, a: Picture, root: nat, hs: seq<nat>, names: seq<nat>,
                           u: Links, g: Matrix, b: Picture)
    requires |hs| == 4
  {
    && |s| == |m.row| == |m.col| && |g.row| == |s| + 4 && Shows(u, g, root, b)
    && Loose(g, |s|) && FourLive(g, b.lst, |s|)
    && Extended(m, JoinRows(g, |s|), hs) && ListsGrown(a, b, hs, |s|) && NodesAfter(s, u, names)
  }

  lemma FourGrownLoose(m: Matrix, b: Picture, hs: seq<nat>)
    requires |m.col| == |m.row| && |hs| == 4 && NoDup(hs)
    requires forall i | 0 <= i < 4 :: hs[i] in b.lst && |m.row| + i in b.lst[hs[i]]
    ensures var g := GrowAll(m, hs);
      && |g.row| == |m.row| + 4 && Loose(g, |m.row|) && FourLive(g, b.lst, |m.row|)
      && Extended(m, JoinRows(g, |m.row|), hs)
  {
    FourGrown(m, hs);
    hide GrowAll;
    var g, n := GrowAll(m, hs), |m.row|;
    forall i | n <= i < n + 4 ensures g.col[i] == hs[i - n] && i in b.lst[g.col[i]] {
      assert n + (i - n) in b.lst[hs[i - n]];
    }
    assert JoinRows(g, n).row == m.row + [Four(n, 0), Four(n, 1), Four(n, 2), Four(n, 3)];
  }

  /** The four nodes of a new row, before they are joined. */
  lemma FourAdded(s: Links, m: Matrix, root: nat, a: Picture, hs: seq<nat>, names: seq<nat>)
    requires Shows(s, m, root, a) && |hs| == 4 == |names| && NoDup(hs) && forall i | 0 <= i < 4 :: hs[i] in a.lst
    ensures InRange(s) && |m.row| == |m.col| && forall i | 0 <= i < 4 :: hs[i] < |s|
    ensures FourHung(s, m, a, root, hs, names, AddNodes(s, hs, names), GrowAll(m, hs), AddPictures(a, hs, |s|))
  {
    hide Shows, AddNodes, GrowAll, Base;
    ShowsValid(s, m, root, a);
    NodesAdded(s, m, root, a, hs, names);
    AddNodesAfter(s, hs, names);
    FourGrownLoose(m, AddPictures(a, hs, |s|), hs);
  }

  /** Laying out the row of one more move. */
  lemma RowLaidOut(s: Links, m: Matrix, root: nat, a: Picture, lab: seq<Move>, columns: seq<nat>, done: set<Move>,
                   mv: Move, u: Links, g: Matrix, b: Picture, t: Links)
    requires LaidOut(s, m, root, a, lab, columns, done) && HasColumns(columns, mv)
    requires FourHung(s, m, a, root, Headers(columns, mv), MoveNames(mv), u, g, b) && Joined(u, t, |s|)
    ensures |s| + 4 == |g.row|
    ensures LaidOut(t, JoinRows(g, |s|), root, b, lab + [mv, mv, mv, mv], columns, done + {mv})
  {
    hide Shows, Base;
    var hs, n := Headers(columns, mv), |s|;
    RowJoined(u, t, g, root, b, n);
    ShowsValid(s, m, root, a);
    ShowsValid(t, JoinRows(g, n), root, b);
    RowSpelled(m, JoinRows(g, n), a, b, lab, columns, done, mv);
    NamesJoined(s, u, t, mv);
    RowLabelled(s, t, m, JoinRows(g, n), hs, lab, mv);
    ColumnsKept(a, b, columns);
  }

  lemma ColumnsKept(a: Picture, b: Picture, columns: seq<nat>)
    requires Directory(a, columns) && b.lst.Keys == a.lst.Keys
    ensures Directory(b, columns)
  {
    assert forall d :: d in b.lst <==> d in a.lst.Keys;
  }

  lemma NamesJoined(s: Links, u: Links, t: Links, mv: Move)
    requires mv.cell < CELLS && 1 <= mv.val <= 9 && Joined(u, t, |s|) && NodesAfter(s, u, MoveNames(mv))
    ensures NamesGrown(s, t, mv)
  {
  }

  // ----- which columns and rows are due

  /** The unit columns that come before unit i and digit v are those needed among units and digits so far. */
  ghost predicate UnitDue(b: Grid, n: nat, i: nat, v: nat)
    requires |b| == CELLS
  {
    exists kind, u: nat, d: nat {:trigger UnitName(kind, u, d)} ::
      u < 9 && 1 <= d <= 9 && n == UnitName(kind, u, d) && !StandsIn(b, kind, u, d)
      && (u < i || (u == i && d < v))
  }

  lemma UnitDueNext(b: Grid, n: nat, i: nat, v: nat)
    requires |b| == CELLS && i < 9 && 1 <= v <= 9
    ensures UnitDue(b, n, i, v + 1) <==>
      (UnitDue(b, n, i, v) || exists kind :: n == UnitName(kind, i, v) && !StandsIn(b, kind, i, v))
  {
    if UnitDue(b, n, i, v + 1) && !UnitDue(b, n, i, v) {
      var kind, u: nat, d: nat :| u < 9 && 1 <= d <= 9 && n == UnitName(kind, u, d) && !StandsIn(b, kind, u, d)
        && (u < i || (u == i && d < v + 1));
      assert u == i && d == v;
    }
  }

  lemma UnitDueWrap(b: Grid, n: nat, i: nat)
    requires |b| == CELLS
    ensures UnitDue(b, n, i, 10) <==> UnitDue(b, n, i + 1, 1)
  {
  }

  lemma UnitDueAll(b: Grid, n: nat)
    requires |b| == CELLS
    ensures UnitDue(b, n, 9, 1) <==> NeededInUnit(b, n)
    ensures !UnitDue(b, n, 0, 1)
  {
  }

  lemma UnitNotDueYet(b: Grid, kind: Kind, i: nat, v: nat)
    requires |b| == CELLS && i < 9 && 1 <= v <= 9
    ensures !UnitDue(b, UnitName(kind, i, v), i, v)
  {
    if UnitDue(b, UnitName(kind, i, v), i, v) {
      var k, u: nat, d: nat :|
        u < 9 && 1 <= d <= 9 && UnitName(kind, i, v) == UnitName(k, u, d) && !StandsIn(b, k, u, d)
        && (u < i || (u == i && d < v));
      UnitNameInjective(kind, i, v, k, u, d);
    }
  }

  /** The moves before cell i and digit v that have a row. */
  ghost predicate MoveDue(b: Grid, mv: Move, i: nat, v: nat)
    requires |b| == CELLS
  {
    IsCandidate(b, mv.cell, mv.val) && (mv.cell < i || (mv.cell == i && mv.val < v))
  }

  /** A candidate's columns are all needed. */
  lemma CandidateHasColumns(b: Grid, columns: seq<nat>, mv: Move)
    requires |b| == CELLS && |columns| == COLUMN_NAMES && IsCandidate(b, mv.cell, mv.val)
    requires forall n: nat | n < COLUMN_NAMES :: columns[n] != 0 <==> Needed(b, n)
    ensures HasColumns(columns, mv)
  {
    CandidateNeeds(b, mv.cell, mv.val, Row);
    CandidateNeeds(b, mv.cell, mv.val, Col);
    CandidateNeeds(b, mv.cell, mv.val, Box);
  }
}
