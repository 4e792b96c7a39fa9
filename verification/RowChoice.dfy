/** Choosing a row: covering its column and then the other columns it fills, one link step at a time. */
module RowChoice {
  import opened DancingLinks
  import opened Covering
  import opened ExactCover
  import opened CoverSearch

  /** The columns of the row of n other than n's own, rightwards. */
  ghost function OtherCols(m: Matrix, n: nat): (cs: seq<nat>)
    requires m.Valid() && m.IsRow(n)
    ensures |cs| == |m.row[n]| - 1 && forall i | 0 <= i < |cs| :: cs[i] == m.col[m.row[n][i + 1]]
  {
    assert m.ValidRow(n);
    seq(|m.row[n]| - 1, i requires 0 <= i < |m.row[n]| - 1 => m.col[m.row[n][i + 1]])
  }

  lemma OtherColsElems(m: Matrix, n: nat)
    requires m.Valid() && m.IsRow(n)
    ensures NoDup(OtherCols(m, n)) && m.col[n] !in Elems(OtherCols(m, n))
    ensures m.Cols(n) == {m.col[n]} + Elems(OtherCols(m, n))
  {
    assert m.ValidRow(n);
    var r, cs := m.row[n], OtherCols(m, n);
    forall c | c in m.Cols(n) ensures c == m.col[n] || c in cs {
      var i :| 0 <= i < |r| && m.col[r[i]] == c;
      if i > 0 {
        assert cs[i - 1] == c;
      }
    }
    forall c | c in cs ensures c in m.Cols(n) {
      var i :| 0 <= i < |cs| && cs[i] == c;
      assert r[i + 1] in r;
    }
    assert r[0] in r;
  }

  /** A row picked from column c: its other columns are still uncovered once c is covered. */
  lemma PickRow(s: Links, m: Matrix, root: nat, a: Picture, c: nat, n: nat)
    requires Shows(s, m, root, a) && c in a.lst && n in a.lst[c] && m.IsRow(n)
    ensures m.Valid() && m.col[n] == c && NoDup(OtherCols(m, n))
    ensures AllIn(OtherCols(m, n), CoverOne(s, m, root, a, c).1.lst.Keys)
    ensures m.Cols(n) == {c} + Elems(OtherCols(m, n))
  {
    assert ColumnOk(s, m, a.lst[c]);
    assert m.ValidRow(n);
    OtherColsElems(m, n);
    var cs := OtherCols(m, n);
    forall i | 0 <= i < |cs| ensures cs[i] in a.lst && cs[i] != c {
      assert m.row[n][i + 1] in m.row[n];
      assert cs[i] in cs;
    }
  }

  lemma CoverOneProblem(s: Links, m: Matrix, root: nat, a: Picture, c: nat)
    requires Shows(s, m, root, a) && c in a.lst && m.Valid()
    ensures ProblemOf(m, CoverOne(s, m, root, a, c).1) == Reduce(ProblemOf(m, a), {c})
  {
    CoverProblem(s, m, root, a, c);
  }

  /** Covering all the columns of a row reduces the problem by the row. */
  lemma RowProblem(s: Links, m: Matrix, root: nat, a: Picture, c: nat, n: nat)
    requires Shows(s, m, root, a) && c in a.lst && n in a.lst[c] && m.IsRow(n)
    requires m.Valid() && NoDup(OtherCols(m, n))
    requires AllIn(OtherCols(m, n), CoverOne(s, m, root, a, c).1.lst.Keys)
    ensures
      var q := CoverOne(s, m, root, a, c);
      var b := CoverMany(q.0, m, root, q.1, OtherCols(m, n)).1;
      ProblemOf(m, b) == Reduce(ProblemOf(m, a), m.Cols(n)) && b.lst.Keys < a.lst.Keys
  {
    PickRow(s, m, root, a, c, n);
    hide Shows, CoverOne, CoverMany, ProblemOf;
    var q, cs := CoverOne(s, m, root, a, c), OtherCols(m, n);
    CoverOneProblem(s, m, root, a, c);
    CoverManyProblem(q.0, m, root, q.1, cs);
    ReduceTwice(ProblemOf(m, a), {c}, Elems(cs));
    assert c !in CoverMany(q.0, m, root, q.1, cs).1.lst.Keys;
  }

  lemma ColumnRing(s: Links, m: Matrix, l: seq<nat>)
    requires |s| == |m.col| == |m.row| && ColumnOk(s, m, l)
    ensures VRing(s, [l[0]] + l[1..]) && m.IsHeader(l[0])
  {
    assert [l[0]] + l[1..] == l;
  }

  /** Covering column c, whose rows are l, leads from t to u, and uncovering it leads back. */
  ghost predicate CoverStepOk(t: Links, u: Links, m: Matrix, c: nat, l: seq<nat>)
  {
    && Base(t, m) && Base(u, m) && m.IsHeader(c) && IsColumn(m, l, c)
    && VRing(t, [c] + l) && VRing(u, [c] + l) && c < |t| && Within(t, Trace(m, l)) && Within(u, Trace(m, l))
    && u == CoverBy(t, c, Trace(m, l)) && t == UncoverBy(u, c, Trace(m, l))
  }

  lemma CoverOneLinks(s: Links, m: Matrix, root: nat, a: Picture, c: nat)
    requires Shows(s, m, root, a) && c in a.lst
    ensures a.lst[c] != [] && CoverStepOk(s, CoverOne(s, m, root, a, c).0, m, c, RowsOf(a, c))
  {
    CoverShows(s, m, root, a, c);
    UncoverCover(s, m, root, a, c);
    assert ColumnOk(s, m, a.lst[c]);
    ShowsValid(s, m, root, a);
    var q := CoverOne(s, m, root, a, c);
    ShowsValid(q.0, m, root, q.1);
    assert q.0 == CoverBy(s, c, Trace(m, RowsOf(a, c)));
    hide VRing, Shows, ColumnOk, Base, CoverOne, CoverBy, UncoverBy;
    ColumnRing(s, m, a.lst[c]);
    ColumnRing(q.0, m, a.lst[c]);
  }

  /** The states that covering the other columns of the row of n passes through, one after another. */
  ghost predicate RowWay(m: Matrix, n: nat, way: seq<Links>, ls: seq<seq<nat>>)
    requires m.Valid() && m.IsRow(n)
  {
    |way| == |m.row[n]| && |ls| == |way| - 1
    && (|way| == 1 ==> Base(way[0], m))
    && forall k | 0 <= k < |ls| :: WayStep(m, n, way, ls, k)
  }

  ghost predicate WayStep(m: Matrix, n: nat, way: seq<Links>, ls: seq<seq<nat>>, k: nat)
    requires m.Valid() && m.IsRow(n) && |way| == |m.row[n]| && |ls| == |way| - 1 && k < |ls|
  {
    CoverStepOk(way[k], way[k + 1], m, OtherCols(m, n)[k], ls[k])
  }

  /** The k-th step of covering the other columns of a row. */
  lemma CoverManyStep(s: Links, m: Matrix, root: nat, a: Picture, n: nat, k: nat)
    requires Shows(s, m, root, a) && m.Valid() && m.IsRow(n) && k < |m.row[n]| - 1
    requires NoDup(OtherCols(m, n)) && AllIn(OtherCols(m, n), a.lst.Keys)
    ensures
      var cs := OtherCols(m, n);
      && NoDup(cs[..k]) && AllIn(cs[..k], a.lst.Keys) && NoDup(cs[..k + 1]) && AllIn(cs[..k + 1], a.lst.Keys)
      && cs[k] in CoverMany(s, m, root, a, cs[..k]).1.lst
      && var q := CoverMany(s, m, root, a, cs[..k]);
         CoverMany(s, m, root, a, cs[..k + 1]) == CoverOne(q.0, m, root, q.1, cs[k])
  {
    hide Shows, CoverOne;
    var cs := OtherCols(m, n);
    SliceSnoc(cs, 0, k);
    assert cs[k] in a.lst.Keys;
    assert cs[..k + 1][..k] == cs[..k] && cs[..k + 1][k] == cs[k];
  }

  ghost predicate Prefix(m: Matrix, n: nat, way: seq<Links>, ls: seq<seq<nat>>, k: nat)
    requires m.Valid() && m.IsRow(n) && k < |m.row[n]|
  {
    |way| == k + 1 && |ls| == k
    && forall i | 0 <= i < k :: CoverStepOk(way[i], way[i + 1], m, OtherCols(m, n)[i], ls[i])
  }

  lemma PrefixSnoc(m: Matrix, n: nat, way: seq<Links>, ls: seq<seq<nat>>, k: nat, u: Links, l: seq<nat>)
    requires m.Valid() && m.IsRow(n) && k + 1 < |m.row[n]| && Prefix(m, n, way, ls, k)
    requires CoverStepOk(way[k], u, m, OtherCols(m, n)[k], l)
    ensures Prefix(m, n, way + [u], ls + [l], k + 1)
  {
    hide CoverStepOk;
  }

  lemma PrefixLength(m: Matrix, n: nat, way: seq<Links>, ls: seq<seq<nat>>, k: nat)
    requires m.Valid() && m.IsRow(n) && k < |m.row[n]| && Prefix(m, n, way, ls, k)
    ensures |way| == k + 1 && |ls| == k
  {
  }

  lemma {:induction false} PrefixExists(s: Links, m: Matrix, root: nat, a: Picture, n: nat, k: nat)
    returns (way: seq<Links>, ls: seq<seq<nat>>)
    requires Shows(s, m, root, a) && m.Valid() && m.IsRow(n) && k < |m.row[n]|
    requires NoDup(OtherCols(m, n)) && AllIn(OtherCols(m, n), a.lst.Keys)
    ensures NoDup(OtherCols(m, n)[..k]) && AllIn(OtherCols(m, n)[..k], a.lst.Keys)
    ensures Prefix(m, n, way, ls, k) && way[0] == s
    ensures way[k] == CoverMany(s, m, root, a, OtherCols(m, n)[..k]).0
  {
    var cs := OtherCols(m, n);
    if k == 0 {
      way, ls := [s], [];
    } else {
      hide *;
      var w, l := PrefixExists(s, m, root, a, n, k - 1);
      CoverManyStep(s, m, root, a, n, k - 1);
      var q := CoverMany(s, m, root, a, cs[..k - 1]);
      CoverOneLinks(q.0, m, root, q.1, cs[k - 1]);
      var u := CoverOne(q.0, m, root, q.1, cs[k - 1]).0;
      PrefixSnoc(m, n, w, l, k - 1, u, RowsOf(q.1, cs[k - 1]));
      PrefixLength(m, n, w, l, k - 1);
      way, ls := w + [u], l + [RowsOf(q.1, cs[k - 1])];
    }
  }

  /** Covering the other columns of a row from a shown matrix is such a way, and ends where CoverMany says. */
  lemma RowWayExists(s: Links, m: Matrix, root: nat, a: Picture, n: nat)
    returns (way: seq<Links>, ls: seq<seq<nat>>)
    requires Shows(s, m, root, a) && m.Valid() && m.IsRow(n)
    requires NoDup(OtherCols(m, n)) && AllIn(OtherCols(m, n), a.lst.Keys)
    ensures RowWay(m, n, way, ls) && way[0] == s
    ensures way[|way| - 1] == CoverMany(s, m, root, a, OtherCols(m, n)).0
  {
    ShowsValid(s, m, root, a);
    hide Shows, CoverMany, CoverStepOk, Base;
    var cs := OtherCols(m, n);
    way, ls := PrefixExists(s, m, root, a, n, |cs|);
    assert cs[..|cs|] == cs;
  }

  // ----- undoing several covers

  /** Uncovers, last first, the columns cs that were covered one after another from s. */
  ghost function UncoverMany(t: Links, s: Links, m: Matrix, root: nat, a: Picture, cs: seq<nat>): Links
    requires Shows(s, m, root, a) && NoDup(cs) && AllIn(cs, a.lst.Keys) && InRange(t) && |t| == |s|
    decreases |cs|
  {
    if cs == [] then t else
      var c := cs[|cs| - 1];
      var q := CoverMany(s, m, root, a, cs[..|cs| - 1]);
      CoverOneLinks(q.0, m, root, q.1, c);
      UncoverMany(UncoverBy(t, c, Trace(m, RowsOf(q.1, c))), s, m, root, a, cs[..|cs| - 1])
  }

  /** Covering any columns and uncovering them in the opposite order restores every link and every size. */
  lemma {:induction false} UncoverManyCoverMany(s: Links, m: Matrix, root: nat, a: Picture, cs: seq<nat>)
    requires Shows(s, m, root, a) && NoDup(cs) && AllIn(cs, a.lst.Keys)
    ensures var t := CoverMany(s, m, root, a, cs).0;
      InRange(t) && UncoverMany(t, s, m, root, a, cs) == s
    decreases |cs|
  {
    hide Shows, CoverOne, Base, CoverBy, UncoverBy;
    var q := CoverMany(s, m, root, a, cs);
    ShowsValid(q.0, m, root, q.1);
    if cs != [] {
      var c, p := cs[|cs| - 1], CoverMany(s, m, root, a, cs[..|cs| - 1]);
      CoverOneLinks(p.0, m, root, p.1, c);
      UncoverManyCoverMany(s, m, root, a, cs[..|cs| - 1]);
    }
  }
}
