/** What the solver's loops rely on: one step of a walk along a row, a column or the header ring, one
    step of building, and what a finished search means. */
module SolverFacts {
  import opened DancingLinks
  import opened Covering
  import opened ExactCover
  import opened CoverSearch
  import opened RowChoice
  import opened SudokuRules
  import opened Building
  import opened Encoding
  import opened Layout

  // ----- what the loops need

  /** r is the row of first as the right links run, and its names spell the label l. */
  ghost predicate Readable(s: Links, first: nat, r: seq<nat>, l: Move)
  {
    r != [] && r[0] == first && HRing(s, r) && RowLabel(s, r, l)
  }

  ghost predicate AllReadable(s: Links, m: Matrix, lab: seq<Move>, cells: nat, ns: seq<nat>)
  {
    forall i | 0 <= i < |ns| ::
      ns[i] < |m.row| == |lab| && lab[ns[i]].cell < cells && Readable(s, ns[i], m.row[ns[i]], lab[ns[i]])
  }

  lemma StackReadable(s: Links, m: Matrix, lab: seq<Move>, cells: nat, ns: seq<nat>)
    requires Base(s, m) && Labelled(s, m, lab, cells) && forall i | 0 <= i < |ns| :: m.IsRow(ns[i])
    ensures AllReadable(s, m, lab, cells, ns)
  {
    forall i | 0 <= i < |ns| ensures Readable(s, ns[i], m.row[ns[i]], lab[ns[i]]) {
      RowWithin(s, m, ns[i]);
    }
  }

  lemma DecodedSnoc(board: seq<int>, lab: seq<Move>, ns: seq<nat>, n: nat)
    requires forall i | 0 <= i < |ns| :: ns[i] < |lab| && lab[ns[i]].cell < |board|
    requires n < |lab| && lab[n].cell < |board|
    ensures Decoded(board, lab, ns + [n]) == Decoded(board, lab, ns)[lab[n].cell := lab[n].val]
  {
    assert (ns + [n])[..|ns|] == ns;
  }

  lemma RowLinks(t: Links, m: Matrix, n: nat, k: nat)
    requires Base(t, m) && m.IsRow(n) && k < |m.row[n]|
    ensures
      var r := m.row[n];
      && r[0] == n < |t| && r[k] < |t| && t[r[k]].right == Next(r, k) && t[r[k]].col == m.col[r[k]]
      && (k == |r| - 1 ==> t[n].left == r[k] && Next(r, k) == n)
      && (k > 0 ==> r[k] != n && t[r[k]].left == r[k - 1])
  {
    assert m.ValidRow(n);
    RowWithin(t, m, n);
    assert NodeOk(t, m, m.row[n][k]);
  }

  /** The row of n while its first k other columns are covered. */
  lemma WayAt(m: Matrix, n: nat, way: seq<Links>, ls: seq<seq<nat>>, k: nat)
    requires m.Valid() && m.IsRow(n) && RowWay(m, n, way, ls) && k < |m.row[n]|
    ensures
      var r := m.row[n];
      var t := way[k];
      && Base(t, m) && r[0] == n < |t| && r[k] < |t| && t[r[k]].right == Next(r, k)
      && (k == |r| - 1 ==> t[n].left == r[k] && Next(r, k) == n)
      && (k > 0 ==> r[k] != n && t[r[k]].left == r[k - 1] && t[r[k]].col == m.col[r[k]])
      && (k < |r| - 1 ==>
            Next(r, k) == r[k + 1] != n && r[k + 1] < |t| && t[r[k + 1]].col == m.col[r[k + 1]] &&
            CoverStepOk(t, way[k + 1], m, m.col[r[k + 1]], ls[k]) &&
            t[r[k + 1]].left == r[k] && |way[k + 1]| == |t| && way[k + 1][r[k + 1]].col == m.col[r[k + 1]] &&
            way[k + 1][r[k + 1]].right == Next(r, k + 1))
  {
    if k < |m.row[n]| - 1 {
      assert WayStep(m, n, way, ls, k);
      RowLinks(way[k], m, n, k + 1);
      RowLinks(way[k + 1], m, n, k + 1);
    } else if k > 0 {
      assert WayStep(m, n, way, ls, k - 1);
    }
    RowLinks(way[k], m, n, k);
  }

  lemma RingNext(s: Links, root: nat, cols: seq<nat>, k: nat)
    requires HRing(s, [root] + cols) && NoDup([root] + cols) && k <= |cols| + 1
    ensures root < |s|
    ensures k <= |cols| ==> ([root] + cols)[k] < |s| && s[([root] + cols)[k]].right == Next([root] + cols, k)
    ensures k < |cols| ==> Next([root] + cols, k) == cols[k] != root && cols[k] < |s|
    ensures k == |cols| ==> Next([root] + cols, k) == root
    ensures k == |cols| > 0 ==> s[root].left == cols[k - 1] != root
  {
    var r := [root] + cols;
    assert r[0] == root;
    if k <= |cols| {
      assert s[r[k]].right == Next(r, k);
      if k < |cols| {
        assert r[k + 1] == cols[k] && r[0] != r[k + 1];
      } else if k > 0 {
        assert r[k] == cols[k - 1] && r[0] != r[k];
      }
    }
  }

  lemma RowWithin(s: Links, m: Matrix, n: nat)
    requires Base(s, m) && m.IsRow(n)
    ensures HRing(s, m.row[n]) && m.row[n][0] == n && Within(s, m.row[n][1..])
    ensures s[n].left == m.row[n][|m.row[n]| - 1]
    ensures forall i | 0 <= i < |m.row[n]| :: s[m.row[n][i]].right == Next(m.row[n], i)
    ensures forall i | 1 <= i < |m.row[n]| :: s[m.row[n][i]].left == m.row[n][i - 1]
  {
    assert m.ValidRow(n) && NodeOk(s, m, n);
    var r := m.row[n];
    assert forall i | 0 <= i < |r| - 1 :: r[1..][i] == r[i + 1];
    assert Next(r, |r| - 1) == n;
    forall i | 1 <= i < |r| ensures s[r[i]].left == r[i - 1] {
      assert Next(r, i - 1) == r[i];
    }
  }

  lemma RowNext(s: Links, m: Matrix, n: nat, k: nat)
    requires Base(s, m) && m.IsRow(n) && 1 <= k <= |m.row[n]|
    ensures m.row[n][0] == n < |s| && Within(s, m.row[n][1..k])
    ensures s[m.row[n][k - 1]].right == Next(m.row[n], k - 1)
    ensures k < |m.row[n]| ==> Next(m.row[n], k - 1) == m.row[n][k] < |s| && m.row[n][k] != n
    ensures k == |m.row[n]| ==> m.row[n][1..k] == m.row[n][1..] && Next(m.row[n], k - 1) == n
  {
    RowWithin(s, m, n);
    assert m.ValidRow(n);
    assert forall i | 0 <= i < k - 1 :: m.row[n][1..k][i] == m.row[n][i + 1];
  }

  lemma ColumnPrevious(s: Links, m: Matrix, l: seq<nat>, c: nat, i: nat)
    requires Base(s, m) && VRing(s, [c] + l) && IsColumn(m, l, c) && m.IsHeader(c) && i <= |l|
    ensures InRange(s) && c < |s| && ([c] + l)[i] < |s|
    ensures |s| == |m.col| == |m.row| && RowNodes(m, l[..i]) && Within(s, Trace(m, l[..i]))
    ensures i == |l| ==> s[c].up == ([c] + l)[i] && l[..i] == l
    ensures i > 0 ==> s[([c] + l)[i]].up == ([c] + l)[i - 1] && ([c] + l)[i] == l[i - 1] != c && m.IsRow(l[i - 1])
    ensures i == 0 ==> RelinkAll(s, Trace(m, l[..i])) == s
  {
    var r := [c] + l;
    TraceOutside(m, l, c, i);
    assert Next(r, |r| - 1) == c;
    if i > 0 {
      assert Next(r, i - 1) == r[i];
    }
  }

  lemma RowPrevious(s: Links, m: Matrix, n: nat, k: nat)
    requires Base(s, m) && m.IsRow(n) && 1 <= k <= |m.row[n]|
    ensures m.row[n][0] == n < |s| && Within(s, m.row[n][1..k])
    ensures k == |m.row[n]| ==> s[n].left == m.row[n][k - 1] && m.row[n][1..k] == m.row[n][1..]
    ensures k > 1 ==> m.row[n][k - 1] != n && s[m.row[n][k - 1]].left == m.row[n][k - 2]
  {
    RowWithin(s, m, n);
    assert m.ValidRow(n);
    assert forall i | 0 <= i < k - 1 :: m.row[n][1..k][i] == m.row[n][i + 1];
  }

  /** The row of n after taking out its first k - 1 other nodes. */
  lemma UnlinkMatesStep(s: Links, m: Matrix, n: nat, k: nat)
    requires Base(s, m) && m.IsRow(n) && 1 <= k <= |m.row[n]|
    ensures InRange(s) && Within(s, m.row[n][1..k]) && m.row[n][0] == n < |s|
    ensures var t := UnlinkAll(s, m.row[n][1..k]);
      InRange(t) && |t| == |s| && t[m.row[n][k - 1]].right == Next(m.row[n], k - 1)
    ensures k < |m.row[n]| ==>
      m.row[n][k] != n && Within(s, m.row[n][1..k + 1]) && m.row[n][k] < |s| &&
      UnlinkAll(s, m.row[n][1..k + 1]) == Unlink(UnlinkAll(s, m.row[n][1..k]), m.row[n][k])
    ensures k == 1 ==> UnlinkAll(s, m.row[n][1..k]) == s
    ensures k == |m.row[n]| ==> m.row[n][1..k] == m.row[n][1..] && Next(m.row[n], k - 1) == n
    ensures k < |m.row[n]| ==> Next(m.row[n], k - 1) == m.row[n][k]
  {
    RowNext(s, m, n, k);
    UnlinkAllKeeps(s, m, m.row[n][1..k]);
    RowNext(UnlinkAll(s, m.row[n][1..k]), m, n, k);
    if k < |m.row[n]| {
      SliceSnoc(m.row[n], 1, k);
      UnlinkAllSnoc(s, m.row[n][1..k], m.row[n][k]);
    }
  }

  /** t is on the way from s to s with the whole trace relinked: the rows l[i..] are done. */
  ghost predicate Relinking(s: Links, t: Links, m: Matrix, l: seq<nat>, c: nat, i: nat)
  {
    && Base(t, m) && |t| == |s| && InRange(s) && VRing(t, [c] + l) && i <= |l|
    && RowNodes(m, l[..i]) && Within(s, Trace(m, l[..i])) && RowNodes(m, l) && Within(s, Trace(m, l))
    && RelinkAll(t, Trace(m, l[..i])) == RelinkAll(s, Trace(m, l))
  }

  lemma RelinkRow(s: Links, t: Links, m: Matrix, l: seq<nat>, c: nat, i: nat)
    requires Relinking(s, t, m, l, c, i) && i > 0 && IsColumn(m, l, c) && m.IsHeader(c)
    ensures m.IsRow(l[i - 1]) && Within(t, m.row[l[i - 1]][1..])
    ensures Relinking(s, RelinkAll(t, m.row[l[i - 1]][1..]), m, l, c, i - 1)
  {
    UncoverStep(t, m, l, c, i);
    TraceOutside(m, l, c, i - 1);
  }

  /** t is on the way from s to s with the row's other nodes relinked: the nodes from k on are done. */
  ghost predicate RelinkingRow(s: Links, t: Links, m: Matrix, n: nat, k: nat)
    requires m.IsRow(n) && 1 <= k <= |m.row[n]|
  {
    && Base(t, m) && |t| == |s| && InRange(s) && Within(s, m.row[n][1..]) && Within(s, m.row[n][1..k])
    && RelinkAll(t, m.row[n][1..k]) == RelinkAll(s, m.row[n][1..])
  }

  lemma RelinkingStart(s: Links, m: Matrix, n: nat)
    requires Base(s, m) && m.IsRow(n)
    ensures n < |s| && RelinkingRow(s, s, m, n, |m.row[n]|) && m.row[n][0] == n
    ensures s[n].left == m.row[n][|m.row[n]| - 1]
  {
    RowPrevious(s, m, n, |m.row[n]|);
  }

  lemma RelinkingNode(s: Links, t: Links, m: Matrix, n: nat, k: nat)
    requires m.IsRow(n) && 1 < k <= |m.row[n]| && RelinkingRow(s, t, m, n, k)
    ensures InRange(t) && m.row[n][k - 1] < |t| && RelinkingRow(s, Relink(t, m.row[n][k - 1]), m, n, k - 1)
    ensures Relink(t, m.row[n][k - 1])[m.row[n][k - 1]].left == m.row[n][k - 2]
  {
    var r, j := m.row[n], m.row[n][k - 1];
    RowPrevious(t, m, n, k);
    SliceSnoc(r, 1, k - 1);
    assert r[1..k][k - 2] == j;
    RelinkKeeps(t, m, j);
    RowPrevious(t, m, n, k - 1);
    RelinkAllSnoc(t, r[1..k - 1], j);
  }

  lemma RelinkingEnd(s: Links, t: Links, m: Matrix, n: nat, k: nat)
    requires m.IsRow(n) && 1 <= k <= |m.row[n]| && RelinkingRow(s, t, m, n, k) && m.row[n][k - 1] == n
    ensures Within(s, m.row[n][1..]) && t == RelinkAll(s, m.row[n][1..])
  {
    RowPrevious(t, m, n, k);
  }

  // ----- what the building needs

  /** Everything is laid out for board b, and so the links stand for its encoding. */
  ghost predicate IsLaidFor(s: Links, m: Matrix, root: nat, a: Picture, lab: seq<Move>, columns: seq<nat>,
                            done: set<Move>, b: Grid)
  {
    && m.Valid() && LaidOut(s, m, root, a, lab, columns, done) && IsBoard(b)
    && Encodes(b, columns, ProblemOf(m, a)) && forall mv :: mv in done <==> IsCandidate(b, mv.cell, mv.val)
  }

  /** A root that links to itself shows the matrix without columns. */
  lemma RootShows()
    ensures Shows([Alone(0, 0, 0)], Matrix([0], [[]]), 0, Picture([], map[]))
  {
    var s, m := [Alone(0, 0, 0)], Matrix([0], [[]]);
    assert m.Valid();
    assert NodeOk(s, m, 0);
    assert Next([0], 0) == 0;
    assert [0] + [] == [0];
  }

  lemma RootLaid(columns: seq<nat>)
    requires |columns| == COLUMN_NAMES && forall n | 0 <= n < COLUMN_NAMES :: columns[n] == 0
    ensures LaidOut([Alone(0, 0, 0)], Matrix([0], [[]]), 0, Picture([], map[]), [Move(0, 0)], columns, {})
    ensures NoRows(Matrix([0], [[]]))
  {
    hide Shows;
    var m := Matrix([0], [[]]);
    RootShows();
    assert m.Valid() && m.row[0] == [] && !m.IsRow(0);
    assert Labelled([Alone(0, 0, 0)], m, [Move(0, 0)], CELLS);
    assert Directory(Picture([], map[]), columns);
    assert forall x: nat | m.IsRow(x) :: x == 0;
    assert RowsSpell(m, Picture([], map[]), [Move(0, 0)], columns, {});
  }

  lemma Candidate(b: Grid, i: nat, v: nat)
    requires |b| == CELLS && i < CELLS && b[i] == 0 && 1 <= v <= 9
    ensures IsCandidate(b, i, v) <==>
      !(StandsIn(b, Row, UnitOf(Row, i), v) || StandsIn(b, Col, UnitOf(Col, i), v)
        || StandsIn(b, Box, UnitOf(Box, i), v))
  {
    hide StandsIn;
    if !(StandsIn(b, Row, UnitOf(Row, i), v) || StandsIn(b, Col, UnitOf(Col, i), v)
         || StandsIn(b, Box, UnitOf(Box, i), v)) {
      forall kind ensures !StandsIn(b, kind, UnitOf(kind, i), v) {
        match kind
        case Row =>
        case Col =>
        case Box =>
      }
    }
  }

  /** Digit v stands in the unit within the first i cells. */
  ghost predicate StandsBefore(b: Grid, kind: Kind, u: nat, v: int, i: nat)
    requires |b| == CELLS && i <= CELLS
  {
    exists k :: 0 <= k < i && UnitOf(kind, k) == u && b[k] == v
  }

  lemma StandsNext(b: Grid, kind: Kind, u: nat, v: int, i: nat)
    requires |b| == CELLS && i < CELLS
    ensures StandsBefore(b, kind, u, v, i + 1) <==>
              (StandsBefore(b, kind, u, v, i) || (UnitOf(kind, i) == u && b[i] == v))
  {
    if StandsBefore(b, kind, u, v, i) {
      var k :| 0 <= k < i && UnitOf(kind, k) == u && b[k] == v;
    }
    if UnitOf(kind, i) == u && b[i] == v {
      assert 0 <= i < i + 1;
    }
  }

  lemma StandsAll(b: Grid, kind: Kind, u: nat, v: int)
    requires |b| == CELLS
    ensures StandsBefore(b, kind, u, v, CELLS) <==> StandsIn(b, kind, u, v)
    ensures !StandsBefore(b, kind, u, v, 0)
  {
  }

  // ----- what the search needs

  ghost function Chosen(m: Matrix, ns: seq<nat>): set<set<nat>>
    requires m.Valid() && RowNodes(m, ns)
  {
    set i | 0 <= i < |ns| :: m.Cols(ns[i])
  }

  /** The rows of ns share no column and together solve the problem of a. */
  ghost predicate IsChoice(m: Matrix, a: Picture, ns: seq<nat>)
    requires m.Valid()
  {
    && RowNodes(m, ns)
    && (forall i, j | 0 <= i < j < |ns| :: m.Cols(ns[i]) !! m.Cols(ns[j]))
    && Solves(ProblemOf(m, a), Chosen(m, ns))
  }

  ghost predicate BoardAfter(m: Matrix, lab: seq<Move>, b: seq<int>, c: seq<int>, ns: seq<nat>)
  {
    && |lab| == |m.row| && RowNodes(m, ns) && (forall i | 0 <= i < |ns| :: lab[ns[i]].cell < |b|)
    && c == Decoded(b, lab, ns)
  }

  /** The search has pushed picked onto the stack st0, a choice that solves a, and written st to the board. */
  ghost predicate IsFound(m: Matrix, a: Picture, lab: seq<Move>, st0: seq<nat>, st: seq<nat>, picked: seq<nat>,
                          b: seq<int>, c: seq<int>)
    requires m.Valid()
  {
    st == st0 + picked && IsChoice(m, a, picked) && BoardAfter(m, lab, b, c, st)
  }

  /** None of the first i rows of l leaves a solvable problem. */
  ghost predicate NoneOf(m: Matrix, a: Picture, l: seq<nat>, i: nat)
    requires m.Valid()
  {
    i <= |l| && forall k | 0 <= k < i :: m.IsRow(l[k]) && !Solvable(Reduce(ProblemOf(m, a), m.Cols(l[k])))
  }

  lemma RootLeft(s: Links, m: Matrix, root: nat, a: Picture)
    requires Shows(s, m, root, a) && m.Valid()
    ensures root < |s| && (s[root].left == root <==> a.cols == [])
    ensures HRing(s, [root] + a.cols) && NoDup([root] + a.cols)
    ensures forall i | 0 <= i < |a.cols| :: a.cols[i] in a.lst
  {
    RingNext(s, root, a.cols, |a.cols|);
    if a.cols == [] {
      assert Next([root], 0) == root;
    }
  }

  lemma SolvedHere(s: Links, m: Matrix, root: nat, a: Picture, lab: seq<Move>, cells: nat, ns: seq<nat>)
    requires Shows(s, m, root, a) && m.Valid() && a.cols == [] && Labelled(s, m, lab, cells) && RowNodes(m, ns)
    ensures IsChoice(m, a, []) && AllReadable(s, m, lab, cells, ns) && |lab| == |m.row|
  {
    StackReadable(s, m, lab, cells, ns);
    assert ProblemOf(m, a).cols == {};
    NothingLeft(ProblemOf(m, a));
    assert Chosen(m, []) == {};
  }

  lemma BoardWritten(m: Matrix, lab: seq<Move>, s: Links, b: seq<int>, c: seq<int>, ns: seq<nat>)
    requires |lab| == |m.row| && RowNodes(m, ns) && AllReadable(s, m, lab, |b|, ns) && c == Decoded(b, lab, ns)
    ensures BoardAfter(m, lab, b, c, ns)
  {
  }

  lemma SearchColumn(s: Links, m: Matrix, root: nat, a: Picture, c: nat) returns (l: seq<nat>, q: Links)
    requires Shows(s, m, root, a) && c in a.lst
    ensures a.lst[c] != [] && l == RowsOf(a, c) && q == CoverOne(s, m, root, a, c).0
    ensures Base(s, m) && m.IsHeader(c) && IsColumn(m, l, c) && VRing(s, [c] + l) && c < |s| == |q|
    ensures Within(s, Trace(m, l)) && q == CoverBy(s, c, Trace(m, l)) && CoverStepOk(s, q, m, c, l)
  {
    CoverOneLinks(s, m, root, a, c);
    l, q := RowsOf(a, c), CoverOne(s, m, root, a, c).0;
  }

  lemma RingDown(s: Links, q: Links, m: Matrix, c: nat, l: seq<nat>, i: nat)
    requires CoverStepOk(s, q, m, c, l) && i <= |l|
    ensures ([c] + l)[i] < |q| && q[([c] + l)[i]].down == Next([c] + l, i)
    ensures i < |l| ==> Next([c] + l, i) == l[i] != c && m.IsRow(l[i]) && ([c] + l)[i + 1] == l[i]
    ensures i == |l| ==> Next([c] + l, i) == c
    ensures ([c] + l)[0] == c
  {
  }

  lemma CoverBack(s: Links, q: Links, m: Matrix, c: nat, l: seq<nat>)
    requires CoverStepOk(s, q, m, c, l)
    ensures Base(q, m) && m.IsHeader(c) && IsColumn(m, l, c) && VRing(q, [c] + l) && c < |q|
    ensures Within(q, Trace(m, l)) && s == UncoverBy(q, c, Trace(m, l))
  {
  }

  /** Choosing the row of n, which stands in column c: the states the links go through, and what is left. */
  lemma ChooseRow(s: Links, m: Matrix, root: nat, a: Picture, c: nat, n: nat, lab: seq<Move>, cells: nat)
    returns (way: seq<Links>, ls: seq<seq<nat>>, r: Picture)
    requires Shows(s, m, root, a) && m.Valid() && c in a.lst && n in a.lst[c] && m.IsRow(n)
    requires Labelled(s, m, lab, cells)
    ensures RowWay(m, n, way, ls) && way[0] == CoverOne(s, m, root, a, c).0
    ensures Shows(way[|way| - 1], m, root, r) && Labelled(way[|way| - 1], m, lab, cells)
    ensures ProblemOf(m, r) == Reduce(ProblemOf(m, a), m.Cols(n)) && r.lst.Keys < a.lst.Keys
    ensures m.Cols(n) in ProblemOf(m, a).rows
  {
    PickRow(s, m, root, a, c, n);
    RowProblem(s, m, root, a, c, n);
    RowLive(s, m, root, a, c, n);
    hide *;
    var q := CoverOne(s, m, root, a, c);
    way, ls := RowWayExists(q.0, m, root, q.1, n);
    r := CoverMany(q.0, m, root, q.1, OtherCols(m, n)).1;
    CoverOneNames(s, m, root, a, c);
    LabelledSame(s, q.0, m, lab, cells);
    CoverManyNames(q.0, m, root, q.1, OtherCols(m, n));
    LabelledSame(q.0, way[|way| - 1], m, lab, cells);
  }

  lemma RowLive(s: Links, m: Matrix, root: nat, a: Picture, c: nat, n: nat)
    requires Shows(s, m, root, a) && m.Valid() && c in a.lst && n in a.lst[c] && m.IsRow(n)
    ensures m.Cols(n) in ProblemOf(m, a).rows
  {
    assert ColumnOk(s, m, a.lst[c]);
    assert n in LiveNodes(m, a);
  }

  lemma ChosenCons(m: Matrix, n: nat, ns: seq<nat>)
    requires m.Valid() && m.IsRow(n) && RowNodes(m, ns)
    ensures RowNodes(m, [n] + ns) && Chosen(m, [n] + ns) == Chosen(m, ns) + {m.Cols(n)}
  {
    var ms := [n] + ns;
    forall x | x in Chosen(m, ns) ensures x in Chosen(m, ms) {
      var i :| 0 <= i < |ns| && x == m.Cols(ns[i]);
      assert ms[i + 1] == ns[i];
    }
    assert ms[0] == n;
    assert m.Cols(ms[0]) in Chosen(m, ms);
  }

  lemma ChoiceGrows(m: Matrix, a: Picture, r: Picture, n: nat, ns: seq<nat>)
    requires m.Valid() && m.IsRow(n) && m.Cols(n) in ProblemOf(m, a).rows
    requires ProblemOf(m, r) == Reduce(ProblemOf(m, a), m.Cols(n)) && IsChoice(m, r, ns)
    ensures IsChoice(m, a, [n] + ns)
  {
    hide Matrix.Valid, ProblemOf, Matrix.Cols;
    SolveReduced(ProblemOf(m, a), m.Cols(n), Chosen(m, ns));
    ChosenCons(m, n, ns);
    var ms := [n] + ns;
    forall i, j | 0 <= i < j < |ms| ensures m.Cols(ms[i]) !! m.Cols(ms[j]) {
      assert ms[j] == ns[j - 1];
      assert m.Cols(ns[j - 1]) in Chosen(m, ns);
      if i > 0 {
        assert ms[i] == ns[i - 1];
      }
    }
  }

  lemma NoneYet(m: Matrix, a: Picture, l: seq<nat>)
    requires m.Valid()
    ensures NoneOf(m, a, l, 0)
  {
  }

  lemma OneMore(m: Matrix, a: Picture, l: seq<nat>, i: nat)
    requires m.Valid() && NoneOf(m, a, l, i) && i < |l| && m.IsRow(l[i])
    requires !Solvable(Reduce(ProblemOf(m, a), m.Cols(l[i])))
    ensures NoneOf(m, a, l, i + 1)
  {
  }

  lemma RowThrough(s: Links, m: Matrix, root: nat, a: Picture, c: nat, l: seq<nat>, r: set<nat>) returns (k: nat)
    requires Shows(s, m, root, a) && m.Valid() && c in a.lst && a.lst[c] != [] && l == RowsOf(a, c)
    requires r in ProblemOf(m, a).rows && c in r
    ensures k < |l| && m.IsRow(l[k]) && m.Cols(l[k]) == r
  {
    ColumnRowsMembers(s, m, a.lst, c);
    var n :| n in LiveNodes(m, a) && r == m.Cols(n);
    assert m.ValidRow(n);
    var x :| x in m.row[n] && m.col[x] == c;
    assert m.IsRow(x) && x in a.lst[c];
    hide Shows;
    SameCols(m, n, x);
    k :| 0 <= k < |l| && l[k] == x;
  }

  /** If no row of the column leaves a solvable problem, the problem is not solvable. */
  lemma NoChoice(s: Links, m: Matrix, root: nat, a: Picture, c: nat, l: seq<nat>)
    requires Shows(s, m, root, a) && m.Valid() && c in a.lst && a.lst[c] != [] && l == RowsOf(a, c)
    requires NoneOf(m, a, l, |l|)
    ensures !Solvable(ProblemOf(m, a))
  {
    hide Shows, Reduce, Matrix.Valid;
    var p := ProblemOf(m, a);
    Branch(p, c);
    forall r | r in p.rows && c in r ensures !Solvable(Reduce(p, r)) {
      var k := RowThrough(s, m, root, a, c, l, r);
    }
  }

  /** All the nodes of a row fill the same columns. */
  lemma SameCols(m: Matrix, n: nat, x: nat)
    requires m.Valid() && m.IsRow(n) && m.IsRow(x) && x in m.row[n]
    ensures m.Cols(x) == m.Cols(n)
  {
    assert m.ValidRow(n) && m.ValidRow(x);
    assert forall y :: y in m.row[x] <==> y in m.row[n];
  }

  // ----- from the rows found to the board

  lemma {:induction false} DecodedAfter(b: Grid, lab: seq<Move>, ns: seq<nat>, ms: seq<Move>)
    requires |b| == CELLS && |ms| == |ns| && forall k | 0 <= k < |ns| :: ns[k] < |lab| && ms[k] == lab[ns[k]]
    requires forall k | 0 <= k < |ms| :: ms[k].cell < CELLS
    requires forall j, k | 0 <= j < k < |ms| :: ms[j].cell != ms[k].cell
    ensures IsAfter(b, ms, Decoded(b, lab, ns))
    decreases |ns|
  {
    if ns != [] {
      var p, q := ns[..|ns| - 1], ms[..|ms| - 1];
      DecodedAfter(b, lab, p, q);
      var c, g := Decoded(b, lab, p), Decoded(b, lab, ns);
      forall k | 0 <= k < |ms| ensures g[ms[k].cell] == ms[k].val {
        if k < |q| {
          assert q[k] == ms[k];
        }
      }
      forall i | 0 <= i < CELLS && (forall k | 0 <= k < |ms| :: ms[k].cell != i) ensures g[i] == b[i] {
        assert ms[|q|].cell != i;
        assert forall k | 0 <= k < |q| :: q[k] == ms[k];
      }
    }
  }

  /** The moves of the rows of ns. */
  ghost function MovesOf(lab: seq<Move>, ns: seq<nat>): (ms: seq<Move>)
    requires forall k | 0 <= k < |ns| :: ns[k] < |lab|
    ensures |ms| == |ns| && forall k | 0 <= k < |ns| :: ms[k] == lab[ns[k]]
  {
    seq(|ns|, k requires 0 <= k < |ns| => lab[ns[k]])
  }

  lemma ChoiceMoves(s: Links, m: Matrix, root: nat, a: Picture, lab: seq<Move>, columns: seq<nat>, done: set<Move>,
                    b: Grid, ns: seq<nat>)
    requires IsLaidFor(s, m, root, a, lab, columns, done, b) && IsChoice(m, a, ns)
    ensures (forall k | 0 <= k < |ns| :: ns[k] < |lab|) && |columns| == COLUMN_NAMES
    ensures IsCoverMoves(b, columns, ProblemOf(m, a), MovesOf(lab, ns))
  {
    hide Shows, Labelled, Matrix.Valid, Encodes, IsCandidate, ProblemOf;
    var p := ProblemOf(m, a);
    forall k | 0 <= k < |ns|
      ensures ns[k] < |lab| && lab[ns[k]] in done && m.Cols(ns[k]) == FilledBy(columns, lab[ns[k]])
    {
      assert m.IsRow(ns[k]) && lab[ns[k]] == lab[ns[k]];
    }
    var ms := MovesOf(lab, ns);
    assert forall k | 0 <= k < |ns| :: m.Cols(ns[k]) == FilledBy(columns, ms[k]);
    forall c | c in p.cols ensures exists k :: 0 <= k < |ms| && c in FilledBy(columns, ms[k]) {
      var r :| r in Chosen(m, ns) && c in r;
      var k :| 0 <= k < |ns| && r == m.Cols(ns[k]);
    }
  }

  /** The board the search leaves behind is a solution that agrees with the givens. */
  lemma FoundSolves(s: Links, m: Matrix, root: nat, a: Picture, lab: seq<Move>, columns: seq<nat>, done: set<Move>,
                    b: Grid, st: seq<nat>, picked: seq<nat>, c: Grid)
    requires IsLaidFor(s, m, root, a, lab, columns, done, b) && IsFound(m, a, lab, [], st, picked, b, c)
    ensures IsSolution(c) && Agrees(c, b)
  {
    ChoiceMoves(s, m, root, a, lab, columns, done, b, picked);
    hide Shows, Labelled, Matrix.Valid, Encodes, ProblemOf, RowsSpell, Directory, IsSolution;
    assert st == picked;
    var ms := MovesOf(lab, picked);
    MovesApart(b, columns, ProblemOf(m, a), ms);
    DecodedAfter(b, lab, picked, ms);
    CoverToGrid(b, columns, ProblemOf(m, a), ms, c);
  }

  lemma MovesApart(b: Grid, columns: seq<nat>, p: Problem, ms: seq<Move>)
    requires |b| == CELLS && |columns| == COLUMN_NAMES && IsCoverMoves(b, columns, p, ms)
    ensures forall k | 0 <= k < |ms| :: ms[k].cell < CELLS
    ensures forall j, k | 0 <= j < k < |ms| :: ms[j].cell != ms[k].cell
  {
    forall k | 0 <= k < |ms| ensures ms[k].cell < CELLS && columns[ms[k].cell] in FilledBy(columns, ms[k]) {
      assert IsCandidate(b, ms[k].cell, ms[k].val);
    }
  }

  ghost predicate CanBeSolved(b: Grid)
    requires |b| == CELLS
  {
    exists g :: IsSolution(g) && Agrees(g, b)
  }

  lemma NotFound(s: Links, m: Matrix, root: nat, a: Picture, lab: seq<Move>, columns: seq<nat>, done: set<Move>,
                 b: Grid)
    requires IsLaidFor(s, m, root, a, lab, columns, done, b) && !Solvable(ProblemOf(m, a))
    ensures !CanBeSolved(b)
  {
    hide LaidOut, Matrix.Valid, ProblemOf, Encodes, IsSolution;
    forall g | IsSolution(g) && Agrees(g, b) ensures false {
      GridToCover(b, columns, ProblemOf(m, a), g);
    }
  }

  lemma Ready(s: Links, m: Matrix, root: nat, a: Picture, lab: seq<Move>, columns: seq<nat>, done: set<Move>, b: Grid)
    requires IsLaidFor(s, m, root, a, lab, columns, done, b)
    ensures Shows(s, m, root, a) && m.Valid() && Labelled(s, m, lab, CELLS) && |b| == CELLS
  {
  }
}
