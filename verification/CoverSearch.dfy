/** What the links stand for: the exact cover problem of a shown matrix, and how covering one column,
    or all the columns of a row, changes that problem. */
module CoverSearch {
  import opened DancingLinks
  import opened Covering
  import opened ExactCover
  import opened SudokuRules

  /** n is a row node standing in the list of an uncovered column. */
  ghost predicate Live(m: Matrix, a: Picture, n: nat)
  {
    m.IsRow(n) && n < |m.col| && m.col[n] in a.lst && n in a.lst[m.col[n]]
  }

  ghost function LiveNodes(m: Matrix, a: Picture): set<nat>
  {
    set n | 0 <= n < |m.row| && Live(m, a, n)
  }

  ghost function ProblemOf(m: Matrix, a: Picture): Problem
    requires m.Valid()
  {
    Problem(a.lst.Keys, set n | n in LiveNodes(m, a) :: m.Cols(n))
  }

  /** l is the column c of lst without its header, t its trace, and r is lst less t. */
  ghost predicate Traced(m: Matrix, lst: map<nat, seq<nat>>, l: seq<nat>, c: nat, t: seq<nat>, r: map<nat, seq<nat>>)
    requires m.Valid()
  {
    && WholeRows(m, lst) && c in lst && IsColumn(m, l, c)
    && (forall k :: k in l <==> k in lst[c] && m.IsRow(k))
    && (forall x :: x in t <==> InTrace(m, l, x))
    && Less(lst, r, t)
  }

  lemma CoverTraced(s: Links, m: Matrix, root: nat, a: Picture, c: nat)
    requires Shows(s, m, root, a) && c in a.lst
    ensures a.lst[c] != [] && IsColumn(m, RowsOf(a, c), c)
    ensures var t := Trace(m, RowsOf(a, c));
      InLists(m, a.lst, t) && Traced(m, a.lst, RowsOf(a, c), c, t, DropAll(a.lst, m, t))
  {
    TraceOk(s, m, a, c);
    TraceMembers(m, RowsOf(a, c), c);
    ColumnRowsMembers(s, m, a.lst, c);
    UnlinkAllColumns(s, m, a.lst, Trace(m, RowsOf(a, c)));
  }

  lemma CoverLive(m: Matrix, a: Picture, l: seq<nat>, c: nat, t: seq<nat>, r: map<nat, seq<nat>>, b: Picture, n: nat)
    requires m.Valid() && Traced(m, a.lst, l, c, t, r) && b.lst == r - {c} && m.IsRow(n)
    ensures Live(m, b, n) <==> Live(m, a, n) && c !in m.Cols(n)
  {
    var d := m.col[n];
    assert d in r.Keys <==> d in a.lst.Keys;
    if d in a.lst {
      assert SeqLess(a.lst[d], r[d], t);
    }
    if Live(m, a, n) {
      LiveTrace(m, a, l, c, n);
    }
  }

  lemma LiveTrace(m: Matrix, a: Picture, l: seq<nat>, c: nat, n: nat)
    requires m.Valid() && WholeRows(m, a.lst) && IsColumn(m, l, c) && c in a.lst
    requires forall k :: k in l <==> k in a.lst[c] && m.IsRow(k)
    requires Live(m, a, n)
    ensures c in m.Cols(n) <==> m.col[n] == c || InTrace(m, l, n)
  {
    assert m.ValidRow(n) && n == m.row[n][0] && n in m.row[n];
    if c in m.Cols(n) && m.col[n] != c {
      var x :| x in m.row[n] && m.col[x] == c;
      TraceWhole(m, a.lst, l, c, n, x);
    }
    if InTrace(m, l, n) {
      var i :| 0 <= i < |l| && n in m.row[l[i]] && n != l[i];
      SharedRow(m, l[i], n, n);
      assert l[i] in m.row[n];
    }
  }

  /** Covering column c leaves the problem without c and without the rows that fill it. */
  lemma CoverProblem(s: Links, m: Matrix, root: nat, a: Picture, c: nat)
    requires Shows(s, m, root, a) && c in a.lst
    ensures a.lst[c] != [] && IsColumn(m, RowsOf(a, c), c) && InLists(m, a.lst, Trace(m, RowsOf(a, c)))
    ensures ProblemOf(m, CoverPicture(m, a, Trace(m, RowsOf(a, c)), c)) == Reduce(ProblemOf(m, a), {c})
  {
    CoverTraced(s, m, root, a, c);
    var t := Trace(m, RowsOf(a, c));
    var b := CoverPicture(m, a, t, c);
    forall n | m.IsRow(n) ensures Live(m, b, n) <==> Live(m, a, n) && c !in m.Cols(n) {
      CoverLive(m, a, RowsOf(a, c), c, t, DropAll(a.lst, m, t), b, n);
    }
    ReducedRows(m, a, b, c);
  }

  lemma ReducedRows(m: Matrix, a: Picture, b: Picture, c: nat)
    requires m.Valid() && b.lst.Keys == a.lst.Keys - {c}
    requires forall n | m.IsRow(n) :: Live(m, b, n) <==> Live(m, a, n) && c !in m.Cols(n)
    ensures ProblemOf(m, b) == Reduce(ProblemOf(m, a), {c})
  {
    var p, q := ProblemOf(m, b), Reduce(ProblemOf(m, a), {c});
    forall r | r in p.rows ensures r in q.rows {
      var n :| n in LiveNodes(m, b) && r == m.Cols(n);
      assert n in LiveNodes(m, a);
    }
    forall r | r in q.rows ensures r in p.rows {
      var n :| n in LiveNodes(m, a) && r == m.Cols(n);
      assert n in LiveNodes(m, b);
    }
  }

  // ----- covering several columns in turn

  /** The links and the picture after covering column c. */
  ghost function CoverOne(s: Links, m: Matrix, root: nat, a: Picture, c: nat): (r: (Links, Picture))
    requires Shows(s, m, root, a) && c in a.lst
    ensures Shows(r.0, m, root, r.1) && |r.0| == |s|
    ensures r.1.lst.Keys == a.lst.Keys - {c}
  {
    CoverShows(s, m, root, a, c);
    var t := Trace(m, RowsOf(a, c));
    (CoverBy(s, c, t), CoverPicture(m, a, t, c))
  }

  ghost predicate AllIn(cs: seq<nat>, cols: set<nat>) { forall i | 0 <= i < |cs| :: cs[i] in cols }

  ghost function Elems(cs: seq<nat>): set<nat> { set c | c in cs }

  lemma ElemsLast(cs: seq<nat>)
    requires cs != []
    ensures Elems(cs) == Elems(cs[..|cs| - 1]) + {cs[|cs| - 1]}
  {
    var p, c := cs[..|cs| - 1], cs[|cs| - 1];
    assert cs == p + [c];
  }

  /** The links and the picture after covering the columns cs one after another. */
  ghost function CoverMany(s: Links, m: Matrix, root: nat, a: Picture, cs: seq<nat>): (r: (Links, Picture))
    requires Shows(s, m, root, a) && NoDup(cs) && AllIn(cs, a.lst.Keys)
    ensures Shows(r.0, m, root, r.1) && |r.0| == |s|
    ensures r.1.lst.Keys == a.lst.Keys - Elems(cs)
    decreases |cs|
  {
    hide Shows;
    if cs == [] then (s, a) else
      ElemsLast(cs);
      var q := CoverMany(s, m, root, a, cs[..|cs| - 1]);
      CoverOne(q.0, m, root, q.1, cs[|cs| - 1])
  }

  /** Covering several columns leaves the problem reduced by all of them. */
  lemma {:induction false} CoverManyProblem(s: Links, m: Matrix, root: nat, a: Picture, cs: seq<nat>)
    requires Shows(s, m, root, a) && NoDup(cs) && AllIn(cs, a.lst.Keys)
    ensures m.Valid()
    ensures ProblemOf(m, CoverMany(s, m, root, a, cs).1) == Reduce(ProblemOf(m, a), Elems(cs))
    decreases |cs|
  {
    ShowsValid(s, m, root, a);
    hide Shows;
    if cs == [] {
      ReduceNothing(ProblemOf(m, a));
      assert Elems(cs) == {};
    } else {
      var c, q := cs[|cs| - 1], CoverMany(s, m, root, a, cs[..|cs| - 1]);
      CoverManyProblem(s, m, root, a, cs[..|cs| - 1]);
      ElemsLast(cs);
      CoverProblem(q.0, m, root, q.1, c);
      ReduceTwice(ProblemOf(m, a), Elems(cs[..|cs| - 1]), {c});
    }
  }

  lemma ShowsValid(s: Links, m: Matrix, root: nat, a: Picture)
    requires Shows(s, m, root, a)
    ensures m.Valid() && Base(s, m) && InRange(s) && |s| == |m.col| == |m.row|
  {
  }

  // ----- names

  ghost predicate SameNames(s: Links, t: Links)
  {
    |s| == |t| && forall k | 0 <= k < |s| :: s[k].name == t[k].name
  }

  /** The row of n names one cell, below 100, and otherwise only columns whose last digit is one value. */
  ghost predicate RowLabel(s: Links, r: seq<nat>, l: Move)
  {
    && Within(s, r)
    && (forall i | 0 <= i < |r| :: if s[r[i]].name < 100 then s[r[i]].name == l.cell else s[r[i]].name % 10 == l.val)
    && (exists i :: 0 <= i < |r| && s[r[i]].name < 100)
    && (exists i :: 0 <= i < |r| && s[r[i]].name >= 100)
  }

  ghost predicate Labelled(s: Links, m: Matrix, lab: seq<Move>, cells: nat)
  {
    |lab| == |m.row| && forall n | 0 <= n < |m.row| && m.row[n] != [] ::
      lab[n].cell < cells && RowLabel(s, m.row[n], lab[n])
  }

  lemma LabelledSame(s: Links, t: Links, m: Matrix, lab: seq<Move>, cells: nat)
    requires SameNames(s, t) && Labelled(s, m, lab, cells)
    ensures Labelled(t, m, lab, cells)
  {
    forall n | 0 <= n < |m.row| && m.row[n] != [] ensures RowLabel(t, m.row[n], lab[n]) {
      var r := m.row[n];
      assert RowLabel(s, r, lab[n]);
      var i :| 0 <= i < |r| && s[r[i]].name < 100;
      var j :| 0 <= j < |r| && s[r[j]].name >= 100;
      assert t[r[i]].name < 100 && t[r[j]].name >= 100;
    }
  }

  /** The board after writing the rows ns onto it in order. */
  ghost function Decoded(board: seq<int>, lab: seq<Move>, ns: seq<nat>): (r: seq<int>)
    requires forall i | 0 <= i < |ns| :: ns[i] < |lab| && lab[ns[i]].cell < |board|
    ensures |r| == |board|
    decreases |ns|
  {
    if ns == [] then board
    else
      var l := lab[ns[|ns| - 1]];
      Decoded(board, lab, ns[..|ns| - 1])[l.cell := l.val]
  }

  lemma CoverOneNames(s: Links, m: Matrix, root: nat, a: Picture, c: nat)
    requires Shows(s, m, root, a) && c in a.lst
    ensures SameNames(s, CoverOne(s, m, root, a, c).0)
  {
    CoverShows(s, m, root, a, c);
    assert ColumnOk(s, m, a.lst[c]);
    HUnlinkKeeps(s, m, c);
    UnlinkAllKeeps(HUnlink(s, c), m, Trace(m, RowsOf(a, c)));
  }

  lemma {:induction false} CoverManyNames(s: Links, m: Matrix, root: nat, a: Picture, cs: seq<nat>)
    requires Shows(s, m, root, a) && NoDup(cs) && AllIn(cs, a.lst.Keys)
    ensures SameNames(s, CoverMany(s, m, root, a, cs).0)
    decreases |cs|
  {
    hide Shows;
    if cs != [] {
      var q := CoverMany(s, m, root, a, cs[..|cs| - 1]);
      CoverManyNames(s, m, root, a, cs[..|cs| - 1]);
      CoverOneNames(q.0, m, root, q.1, cs[|cs| - 1]);
    }
  }
}
