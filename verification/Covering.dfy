/** Covering and uncovering a column: the two array transformations, what covering does to the exact
    cover problem that the matrix stands for, and that uncovering is its exact inverse. */
module Covering {
  import opened DancingLinks

  ghost predicate RowNodes(m: Matrix, l: seq<nat>)
  {
    forall i | 0 <= i < |l| :: l[i] < |m.row| && m.row[l[i]] != []
  }

  /** The nodes that covering takes out, in the order it takes them: for every row of the column l,
      downwards, the row's other nodes, rightwards. */
  ghost function Trace(m: Matrix, l: seq<nat>): seq<nat>
    requires RowNodes(m, l)
  {
    if l == [] then [] else Trace(m, l[..|l| - 1]) + m.row[l[|l| - 1]][1..]
  }

  /** The header c is bridged in the header ring. */
  function HUnlink(s: Links, c: nat): (r: Links)
    requires InRange(s) && c < |s|
    ensures InRange(r) && |r| == |s|
  {
    seq(|s|, k requires 0 <= k < |s| => s[k].(
      left := if k == s[c].right then s[c].left else s[k].left,
      right := if k == s[c].left then s[c].right else s[k].right))
  }

  /** The neighbours that the header c still remembers are linked to it again. */
  function HRelink(s: Links, c: nat): (r: Links)
    requires InRange(s) && c < |s|
    ensures InRange(r) && |r| == |s|
  {
    var before := if s[c].right == c then c else s[c].left;
    seq(|s|, k requires 0 <= k < |s| => s[k].(
      left := if k == s[c].right then c else s[k].left,
      right := if k == before then c else s[k].right))
  }

  ghost function CoverBy(s: Links, c: nat, t: seq<nat>): (r: Links)
    requires InRange(s) && c < |s| && Within(s, t)
    ensures InRange(r) && |r| == |s|
  {
    UnlinkAll(HUnlink(s, c), t)
  }

  ghost function UncoverBy(s: Links, c: nat, t: seq<nat>): (r: Links)
    requires InRange(s) && c < |s| && Within(s, t)
    ensures InRange(r) && |r| == |s|
  {
    HRelink(RelinkAll(s, t), c)
  }

  /** s is the state of a matrix in which cols are the uncovered columns, in ring order after the root,
      and lst their lists; the rows still in play are whole. */
  datatype Picture = Picture(cols: seq<nat>, lst: map<nat, seq<nat>>)

  ghost predicate Shows(s: Links, m: Matrix, root: nat, a: Picture)
  {
    && Base(s, m)
    && HRing(s, [root] + a.cols) && NoDup([root] + a.cols)
    && (forall i | 0 <= i < |a.cols| :: a.cols[i] in a.lst)
    && (forall d | d in a.lst :: d in a.cols)
    && m.IsHeader(root)
    && Columns(s, m, a.lst)
    && WholeRows(m, a.lst)
  }

  ghost predicate WholeRows(m: Matrix, lst: map<nat, seq<nat>>)
    requires |m.col| == |m.row|
  {
    forall d, n, x {:trigger n in lst[d], x in m.row[n]} | d in lst && n in lst[d] && m.IsRow(n) && x in m.row[n] ::
      x < |m.col| && m.col[x] in lst && x in lst[m.col[x]]
  }

  // ----- the trace

  ghost predicate IsColumn(m: Matrix, l: seq<nat>, c: nat)
    requires |m.col| == |m.row|
  {
    NoDup(l) && RowNodes(m, l) && forall i | 0 <= i < |l| :: m.col[l[i]] == c
  }

  /** A row meets a column at most once. */
  lemma OncePerColumn(m: Matrix, n: nat, x: nat, y: nat)
    requires m.Valid() && m.IsRow(n) && x in m.row[n] && y in m.row[n]
    requires x < |m.col| && y < |m.col| && m.col[x] == m.col[y]
    ensures x == y
  {
    assert m.ValidRow(n);
    var i :| 0 <= i < |m.row[n]| && m.row[n][i] == x;
    var j :| 0 <= j < |m.row[n]| && m.row[n][j] == y;
  }

  ghost predicate InTrace(m: Matrix, l: seq<nat>, x: nat)
    requires RowNodes(m, l)
  {
    exists i :: 0 <= i < |l| && x in m.row[l[i]] && x != l[i]
  }

  lemma MatesMembers(m: Matrix, n: nat)
    requires m.Valid() && m.IsRow(n)
    ensures NoDup(m.row[n][1..])
    ensures forall x :: x in m.row[n][1..] <==> x in m.row[n] && x != n
  {
    assert m.ValidRow(n);
    var r := m.row[n];
    forall i, j | 0 <= i < j < |r| ensures r[i] != r[j] {
      assert m.col[r[i]] != m.col[r[j]];
    }
    forall x | x in r && x != n ensures x in r[1..] {
      var i :| 0 <= i < |r| && r[i] == x;
      assert r[1..][i - 1] == x;
    }
  }

  lemma {:induction false} TraceMembers(m: Matrix, l: seq<nat>, c: nat)
    requires m.Valid() && IsColumn(m, l, c)
    ensures forall x :: x in Trace(m, l) <==> InTrace(m, l, x)
    ensures NoDup(Trace(m, l))
    decreases |l|
  {
    if l == [] {
    } else {
      var p, n := l[..|l| - 1], l[|l| - 1];
      TraceMembers(m, p, c);
      MatesMembers(m, n);
      forall x ensures InTrace(m, l, x) <==> InTrace(m, p, x) || (x in m.row[n] && x != n) {
        TraceLast(m, l, x);
      }
      forall x | x in Trace(m, p) && x in m.row[n][1..] ensures false {
        var i :| 0 <= i < |p| && x in m.row[p[i]] && x != p[i];
        SharedRow(m, p[i], n, x);
        assert m.ValidRow(n) && n in m.row[n];
        OncePerColumn(m, n, p[i], n);
      }
      NoDupJoin(Trace(m, p), m.row[n][1..]);
    }
  }

  lemma NoDupJoin<T(!new)>(p: seq<T>, q: seq<T>)
    requires NoDup(p) && NoDup(q) && forall x | x in p :: x !in q
    ensures NoDup(p + q)
  {
    var l := p + q;
    forall i, j | 0 <= i < j < |l| ensures l[i] != l[j] {
      if i < |p| <= j {
        assert p[i] in p && q[j - |p|] in q;
      }
    }
  }

  lemma TraceLast(m: Matrix, l: seq<nat>, x: nat)
    requires l != [] && RowNodes(m, l)
    ensures InTrace(m, l, x) <==>
              InTrace(m, l[..|l| - 1], x) || (x in m.row[l[|l| - 1]] && x != l[|l| - 1])
  {
    if InTrace(m, l[..|l| - 1], x) {
      var i :| 0 <= i < |l| - 1 && x in m.row[l[..|l| - 1][i]] && x != l[..|l| - 1][i];
      assert l[i] == l[..|l| - 1][i];
    }
    if InTrace(m, l, x) {
      var i :| 0 <= i < |l| && x in m.row[l[i]] && x != l[i];
      if i < |l| - 1 {
        assert l[i] == l[..|l| - 1][i];
      }
    }
  }

  /** Two nodes whose rows share a node are in one row. */
  lemma SharedRow(m: Matrix, n: nat, k: nat, x: nat)
    requires m.Valid() && m.IsRow(n) && m.IsRow(k) && x in m.row[n] && x in m.row[k]
    ensures n in m.row[k] && k in m.row[n] && m.IsRow(x)
  {
    assert m.ValidRow(n) && m.ValidRow(k);
    assert n in m.row[n] && k in m.row[k] && m.ValidRow(x);
    assert n in m.row[x] && k in m.row[x];
  }

  // ----- the header ring

  ghost predicate SameDown(s: Links, t: Links)
  {
    |s| == |t| && forall k | 0 <= k < |s| ::
      s[k].up == t[k].up && s[k].down == t[k].down && s[k].col == t[k].col && s[k].name == t[k].name
      && s[k].size == t[k].size
  }

  lemma RowRingSame(s: Links, t: Links, r: seq<nat>)
    requires |s| == |t| && HRing(s, r) && forall i | 0 <= i < |r| :: t[r[i]] == s[r[i]]
    ensures HRing(t, r)
  {
    forall i | 0 <= i < |r| ensures t[r[i]].right == Next(r, i) && t[Next(r, i)].left == r[i] {
      assert s[r[i]].right == Next(r, i);
    }
  }

  lemma BaseDown(s: Links, t: Links, m: Matrix)
    requires Base(s, m) && SameDown(s, t) && InRange(t)
    requires forall k | 0 <= k < |t| && m.IsHeader(k) :: m.IsHeader(t[k].left) && m.IsHeader(t[k].right)
    requires forall k | 0 <= k < |t| && m.IsRow(k) :: t[k] == s[k]
    ensures Base(t, m)
  {
    forall k | 0 <= k < |t| ensures NodeOk(t, m, k) {
      assert NodeOk(s, m, k);
      if m.IsRow(k) {
        assert m.ValidRow(k);
        RowRingSame(s, t, m.row[k]);
      }
    }
  }

  lemma HUnlinkKeeps(s: Links, m: Matrix, c: nat)
    requires Base(s, m) && m.IsHeader(c)
    ensures Base(HUnlink(s, c), m) && SameDown(s, HUnlink(s, c))
  {
    var t := HUnlink(s, c);
    assert NodeOk(s, m, c);
    forall k | 0 <= k < |t| && m.IsHeader(k) ensures m.IsHeader(t[k].left) && m.IsHeader(t[k].right) {
      assert NodeOk(s, m, k);
    }
    forall k | 0 <= k < |t| && m.IsRow(k) ensures t[k] == s[k] {
      assert k != s[c].left && k != s[c].right;
    }
    BaseDown(s, t, m);
  }

  lemma HRelinkUnlink(s: Links, c: nat)
    requires InRange(s) && c < |s| && s[s[c].right].left == c && s[s[c].left].right == c
    ensures HRelink(HUnlink(s, c), c) == s
  {
  }

  lemma HRingDrop(s: Links, l: seq<nat>, i: nat)
    requires InRange(s) && HRing(s, l) && NoDup(l) && 1 <= i < |l|
    ensures s[s[l[i]].right].left == l[i] && s[s[l[i]].left].right == l[i]
    ensures HRing(HUnlink(s, l[i]), l[..i] + l[i + 1..])
  {
    var j, r, t := l[i], l[..i] + l[i + 1..], HUnlink(s, l[i]);
    assert s[j].right == Next(l, i) && Next(l, i - 1) == j && s[j].left == l[i - 1];
    forall k | 0 <= k < |r|
      ensures r[k] < |t| && t[r[k]].right == Next(r, k) && t[Next(r, k)].left == r[k]
    {
      var k' := if k < i then k else k + 1;
      assert r[k] == l[k'] && s[l[k']].right == Next(l, k');
    }
  }

  lemma HRingSame(s: Links, t: Links, l: seq<nat>)
    requires HRing(s, l) && SameAcross(s, t)
    ensures HRing(t, l)
  {
    forall i | 0 <= i < |l| ensures t[l[i]].right == Next(l, i) && t[Next(l, i)].left == l[i] {
      assert s[l[i]].right == Next(l, i);
    }
  }

  lemma ColumnsDown(s: Links, t: Links, m: Matrix, lst: map<nat, seq<nat>>)
    requires |s| == |m.col| == |m.row| && SameDown(s, t) && Columns(s, m, lst)
    ensures Columns(t, m, lst)
  {
    forall d | d in lst ensures ColumnOk(t, m, lst[d]) && lst[d][0] == d {
      var l := lst[d];
      assert ColumnOk(s, m, l);
      forall i | 0 <= i < |l| ensures t[l[i]].down == Next(l, i) && t[Next(l, i)].up == l[i] {
        assert s[l[i]].down == Next(l, i);
      }
    }
  }

  // ----- covering

  ghost function RowsOf(a: Picture, c: nat): seq<nat>
    requires c in a.lst && a.lst[c] != []
  {
    a.lst[c][1..]
  }

  ghost function CoverPicture(m: Matrix, a: Picture, t: seq<nat>, c: nat): Picture
    requires forall i | 0 <= i < |t| :: t[i] < |m.col| && m.col[t[i]] in a.lst
  {
    Picture(Drop(a.cols, c), DropAll(a.lst, m, t) - {c})
  }

  lemma TraceNode(m: Matrix, lst: map<nat, seq<nat>>, l: seq<nat>, c: nat, x: nat)
    requires m.Valid() && WholeRows(m, lst) && c in lst
    requires IsColumn(m, l, c) && (forall i | 0 <= i < |l| :: l[i] in lst[c]) && InTrace(m, l, x)
    ensures m.IsRow(x) && m.col[x] in lst && x in lst[m.col[x]] && m.col[x] != c
  {
    var k :| 0 <= k < |l| && x in m.row[l[k]] && x != l[k];
    assert m.ValidRow(l[k]);
    assert l[k] == m.row[l[k]][0];
    assert m.col[x] != c;
  }

  lemma RowsOfColumn(s: Links, m: Matrix, l: seq<nat>)
    requires |s| == |m.col| == |m.row| && ColumnOk(s, m, l)
    ensures IsColumn(m, l[1..], l[0])
  {
    assert forall i | 0 <= i < |l| - 1 :: l[1..][i] == l[i + 1];
  }

  lemma TraceInLists(m: Matrix, lst: map<nat, seq<nat>>, l: seq<nat>, c: nat, t: seq<nat>)
    requires m.Valid() && WholeRows(m, lst) && c in lst
    requires IsColumn(m, l, c) && (forall i | 0 <= i < |l| :: l[i] in lst[c])
    requires NoDup(t) && forall x :: x in t <==> InTrace(m, l, x)
    ensures InLists(m, lst, t) && Outside(m, t, c)
  {
    forall i | 0 <= i < |t|
      ensures m.IsRow(t[i]) && m.col[t[i]] in lst && t[i] in lst[m.col[t[i]]] && m.col[t[i]] != c
    {
      assert t[i] in t;
      TraceNode(m, lst, l, c, t[i]);
    }
  }

  /** In a shown matrix, the trace of an uncovered column is distinct nodes of other uncovered columns. */
  lemma TraceOk(s: Links, m: Matrix, a: Picture, c: nat)
    requires |s| == |m.col| && m.Valid() && Columns(s, m, a.lst) && WholeRows(m, a.lst) && c in a.lst
    ensures a.lst[c] != [] && a.lst[c][0] == c && IsColumn(m, RowsOf(a, c), c)
    ensures InLists(m, a.lst, Trace(m, RowsOf(a, c))) && Outside(m, Trace(m, RowsOf(a, c)), c)
  {
    assert ColumnOk(s, m, a.lst[c]);
    RowsOfColumn(s, m, a.lst[c]);
    var l := RowsOf(a, c);
    assert forall i | 0 <= i < |l| :: l[i] == a.lst[c][i + 1];
    TraceMembers(m, l, c);
    TraceInLists(m, a.lst, l, c, Trace(m, l));
  }

  /** A row that loses one node to the covering of c, or has a node in c, loses all its others. */
  lemma TraceWhole(m: Matrix, lst: map<nat, seq<nat>>, l: seq<nat>, c: nat, n: nat, x: nat)
    requires m.Valid() && WholeRows(m, lst) && IsColumn(m, l, c) && c in lst
    requires forall k :: k in l <==> k in lst[c] && m.IsRow(k)
    requires m.IsRow(n) && m.col[n] != c && m.col[n] in lst && n in lst[m.col[n]] && x in m.row[n]
    requires m.IsRow(x) && (m.col[x] == c || InTrace(m, l, x))
    ensures InTrace(m, l, n)
  {
    assert m.ValidRow(n) && n == m.row[n][0] && n in m.row[n];
    if m.col[x] == c {
      var k :| 0 <= k < |l| && l[k] == x;
    } else {
      var k :| 0 <= k < |l| && x in m.row[l[k]] && x != l[k];
      SharedRow(m, n, l[k], x);
    }
  }

  lemma WholeRowsCover(m: Matrix, lst: map<nat, seq<nat>>, r: map<nat, seq<nat>>, l: seq<nat>, c: nat)
    requires m.Valid() && WholeRows(m, lst) && c in lst && IsColumn(m, l, c)
    requires forall n :: n in l <==> n in lst[c] && m.IsRow(n)
    requires Less(lst, r, Trace(m, l)) && (forall x :: x in Trace(m, l) <==> InTrace(m, l, x))
    requires forall d, n | d in lst && n in lst[d] :: n < |m.col| && m.col[n] == d
    ensures WholeRows(m, r - {c})
  {
    forall d, n, x | d in r - {c} && n in r[d] && m.IsRow(n) && x in m.row[n]
      ensures x < |m.col| && m.col[x] in r - {c} && x in r[m.col[x]]
    {
      assert d in lst && SeqLess(lst[d], r[d], Trace(m, l));
      assert n in lst[d] && !InTrace(m, l, n) && m.ValidRow(n);
      if m.col[x] == c || InTrace(m, l, x) {
        TraceWhole(m, lst, l, c, n, x);
      }
      assert SeqLess(lst[m.col[x]], r[m.col[x]], Trace(m, l));
    }
  }

  lemma CoverRing(s: Links, root: nat, cols: seq<nat>, c: nat)
    requires InRange(s) && HRing(s, [root] + cols) && NoDup([root] + cols) && c in cols
    ensures c < |s| && s[s[c].right].left == c && s[s[c].left].right == c
    ensures HRing(HUnlink(s, c), [root] + Drop(cols, c)) && NoDup([root] + Drop(cols, c))
    ensures forall x :: x in Drop(cols, c) <==> x in cols && x != c
    ensures |Drop(cols, c)| == |cols| - 1
  {
    var l := [root] + cols;
    assert forall i | 0 <= i < |cols| :: cols[i] == l[i + 1];
    assert c in l && c != l[0];
    var i :| 1 <= i < |l| && l[i] == c;
    HRingDrop(s, l, i);
    DropAt(l, i);
    DropMembers(l, c);
    DropMembers(cols, c);
    assert Drop(l, c) == [root] + Drop(l[1..], c);
    assert l[1..] == cols;
  }

  lemma ColumnRowsMembers(s: Links, m: Matrix, lst: map<nat, seq<nat>>, c: nat)
    requires |s| == |m.col| == |m.row| && Columns(s, m, lst) && c in lst && lst[c] != []
    ensures forall n :: n in lst[c][1..] <==> n in lst[c] && m.IsRow(n)
    ensures forall d, n | d in lst && n in lst[d] :: n < |m.col| && m.col[n] == d
  {
    assert ColumnOk(s, m, lst[c]);
    var l := lst[c];
    forall n | n in l && m.IsRow(n) ensures n in l[1..] {
      var i :| 0 <= i < |l| && l[i] == n;
      assert l[1..][i - 1] == n;
    }
    forall n | n in l[1..] ensures m.IsRow(n) {
      var i :| 0 <= i < |l| - 1 && l[1..][i] == n;
      assert l[i + 1] == n;
    }
    forall d, n | d in lst && n in lst[d] ensures n < |m.col| && m.col[n] == d {
      assert ColumnOk(s, m, lst[d]);
    }
  }

  lemma CoverWhole(s: Links, m: Matrix, root: nat, a: Picture, c: nat, t: seq<nat>)
    requires Shows(s, m, root, a) && c in a.lst && a.lst[c] != [] && IsColumn(m, RowsOf(a, c), c)
    requires t == Trace(m, RowsOf(a, c)) && InLists(m, a.lst, t)
    requires Less(a.lst, DropAll(a.lst, m, t), t)
    ensures WholeRows(m, CoverPicture(m, a, t, c).lst)
  {
    TraceMembers(m, RowsOf(a, c), c);
    ColumnRowsMembers(s, m, a.lst, c);
    WholeRowsCover(m, a.lst, DropAll(a.lst, m, t), RowsOf(a, c), c);
  }

  lemma CoverCols(m: Matrix, a: Picture, c: nat, t: seq<nat>)
    requires |m.col| == |m.row| && InLists(m, a.lst, t)
    requires (forall i | 0 <= i < |a.cols| :: a.cols[i] in a.lst) && (forall d | d in a.lst :: d in a.cols)
    requires forall x :: x in Drop(a.cols, c) <==> x in a.cols && x != c
    ensures var b := CoverPicture(m, a, t, c);
      (forall i | 0 <= i < |b.cols| :: b.cols[i] in b.lst) && (forall d | d in b.lst :: d in b.cols)
  {
    var b := CoverPicture(m, a, t, c);
    forall d | d in b.lst ensures d in b.cols {
      assert d in a.lst.Keys && d != c;
    }
    forall i | 0 <= i < |b.cols| ensures b.cols[i] in b.lst {
      assert b.cols[i] in b.cols && b.cols[i] in a.cols;
      assert b.cols[i] in a.lst.Keys;
    }
  }

  lemma CoverPictureShows(s: Links, m: Matrix, root: nat, a: Picture, c: nat, t: seq<nat>, s1: Links, s2: Links)
    requires Shows(s, m, root, a) && c in a.lst && a.lst[c] != [] && IsColumn(m, RowsOf(a, c), c)
    requires t == Trace(m, RowsOf(a, c)) && InLists(m, a.lst, t)
    requires Base(s2, m) && SameAcross(s1, s2) && HRing(s1, [root] + Drop(a.cols, c))
    requires Columns(s2, m, DropAll(a.lst, m, t)) && Less(a.lst, DropAll(a.lst, m, t), t)
    ensures Shows(s2, m, root, CoverPicture(m, a, t, c))
  {
    CoverRing(s, root, a.cols, c);
    HRingSame(s1, s2, [root] + Drop(a.cols, c));
    CoverWhole(s, m, root, a, c, t);
    CoverCols(m, a, c, t);
    hide WholeRows, ColumnOk, HRing, Less, Trace, IsColumn;
    ColumnsMinus(s2, m, DropAll(a.lst, m, t), c);
  }

  lemma ColumnsMinus(s: Links, m: Matrix, lst: map<nat, seq<nat>>, c: nat)
    requires |s| == |m.col| == |m.row| && Columns(s, m, lst)
    ensures Columns(s, m, lst - {c})
  {
    forall d | d in lst - {c} ensures ColumnOk(s, m, lst[d]) && (lst - {c})[d] == lst[d] && lst[d][0] == d {
      assert d in lst;
    }
  }

  /** Covering a column shows the picture without it and leaves the column itself alone. */
  lemma CoverShows(s: Links, m: Matrix, root: nat, a: Picture, c: nat)
    requires Shows(s, m, root, a) && c in a.lst
    ensures a.lst[c] != [] && a.lst[c][0] == c && IsColumn(m, RowsOf(a, c), c) && c < |s|
    ensures InLists(m, a.lst, Trace(m, RowsOf(a, c))) && Within(s, Trace(m, RowsOf(a, c)))
    ensures
      var t := Trace(m, RowsOf(a, c));
      var s' := CoverBy(s, c, t);
      Shows(s', m, root, CoverPicture(m, a, t, c)) && ColumnOk(s', m, a.lst[c])
  {
    TraceOk(s, m, a, c);
    var t := Trace(m, RowsOf(a, c));
    CoverRing(s, root, a.cols, c);
    assert ColumnOk(s, m, a.lst[c]);
    HUnlinkKeeps(s, m, c);
    var s1 := HUnlink(s, c);
    ColumnsDown(s, s1, m, a.lst);
    UnlinkAllColumns(s1, m, a.lst, t);
    UnlinkAllKeeps(s1, m, t);
    var s2 := UnlinkAll(s1, t);
    ColumnOkSame(s1, s2, m, a.lst[c]);
    CoverPictureShows(s, m, root, a, c, t, s1, s2);
  }

  /** Uncovering is an exact undo of covering: every link and every size is what it was. */
  lemma UncoverCover(s: Links, m: Matrix, root: nat, a: Picture, c: nat)
    requires Shows(s, m, root, a) && c in a.lst
    ensures a.lst[c] != [] && IsColumn(m, RowsOf(a, c), c) && c < |s| && Within(s, Trace(m, RowsOf(a, c)))
    ensures
      var t := Trace(m, RowsOf(a, c));
      UncoverBy(CoverBy(s, c, t), c, t) == s
  {
    TraceOk(s, m, a, c);
    var t := Trace(m, RowsOf(a, c));
    CoverRing(s, root, a.cols, c);
    assert ColumnOk(s, m, a.lst[c]);
    HUnlinkKeeps(s, m, c);
    ColumnsDown(s, HUnlink(s, c), m, a.lst);
    RelinkUnlinkAll(HUnlink(s, c), m, a.lst, t);
    HRelinkUnlink(s, c);
  }

  // ----- covering and uncovering row by row

  lemma {:induction false} UnlinkAllJoin(s: Links, t: seq<nat>, u: seq<nat>)
    requires InRange(s) && Within(s, t) && Within(s, u)
    ensures Within(s, t + u) && UnlinkAll(s, t + u) == UnlinkAll(UnlinkAll(s, t), u)
    decreases |u|
  {
    hide Unlink;
    if u == [] {
      assert t + u == t;
    } else {
      UnlinkAllJoin(s, t, u[..|u| - 1]);
      assert (t + u)[..|t + u| - 1] == t + u[..|u| - 1];
    }
  }

  lemma SliceSnoc<T>(r: seq<T>, i: nat, k: nat)
    requires i <= k < |r|
    ensures r[i..k + 1] == r[i..k] + [r[k]]
  {
  }

  lemma UnlinkAllSnoc(s: Links, t: seq<nat>, j: nat)
    requires InRange(s) && Within(s, t) && j < |s|
    ensures Within(s, t + [j]) && UnlinkAll(s, t + [j]) == Unlink(UnlinkAll(s, t), j)
  {
    assert (t + [j])[..|t|] == t;
  }

  lemma RelinkAllSnoc(s: Links, t: seq<nat>, j: nat)
    requires InRange(s) && Within(s, t) && j < |s|
    ensures Within(s, t + [j]) && RelinkAll(s, t + [j]) == RelinkAll(Relink(s, j), t)
  {
    assert (t + [j])[..|t|] == t;
  }

  lemma {:induction false} RelinkAllJoin(s: Links, t: seq<nat>, u: seq<nat>)
    requires InRange(s) && Within(s, t) && Within(s, u)
    ensures Within(s, t + u) && RelinkAll(s, t + u) == RelinkAll(RelinkAll(s, u), t)
    decreases |u|
  {
    hide Relink;
    if u == [] {
      assert t + u == t;
    } else {
      RelinkAllJoin(Relink(s, u[|u| - 1]), t, u[..|u| - 1]);
      assert (t + u)[..|t + u| - 1] == t + u[..|u| - 1];
    }
  }

  lemma VRingDown(s: Links, t: Links, l: seq<nat>)
    requires SameDown(s, t) && VRing(s, l)
    ensures VRing(t, l)
  {
    forall i | 0 <= i < |l| ensures t[l[i]].down == Next(l, i) && t[Next(l, i)].up == l[i] {
      assert s[l[i]].down == Next(l, i);
    }
  }

  lemma VRingSame(s: Links, t: Links, m: Matrix, l: seq<nat>, c: nat)
    requires |s| == |m.col| == |m.row| && SameColumn(s, t, m, c) && m.IsHeader(c) && m.col[c] == c
    requires IsColumn(m, l, c) && VRing(s, [c] + l)
    ensures VRing(t, [c] + l)
  {
    var r := [c] + l;
    assert forall i | 0 <= i < |r| :: m.col[r[i]] == c;
    forall i | 0 <= i < |r| ensures t[r[i]].down == Next(r, i) && t[Next(r, i)].up == r[i] {
      assert s[r[i]].down == Next(r, i);
    }
  }

  lemma TraceOutside(m: Matrix, l: seq<nat>, c: nat, i: nat)
    requires m.Valid() && IsColumn(m, l, c) && i <= |l|
    ensures IsColumn(m, l[..i], c) && Outside(m, Trace(m, l[..i]), c)
    ensures i < |l| ==> Trace(m, l[..i + 1]) == Trace(m, l[..i]) + m.row[l[i]][1..]
  {
    var p := l[..i];
    TraceMembers(m, p, c);
    forall k | 0 <= k < |Trace(m, p)| ensures Trace(m, p)[k] < |m.col| && m.col[Trace(m, p)[k]] != c {
      var x := Trace(m, p)[k];
      assert x in Trace(m, p) && InTrace(m, p, x);
      var h :| 0 <= h < |p| && x in m.row[p[h]] && x != p[h];
      assert m.ValidRow(p[h]);
      assert p[h] == m.row[p[h]][0];
    }
    if i < |l| {
      assert l[..i + 1][..i] == p;
    }
  }

  /** One more row of covering: the trace grows by the row's other nodes, and the column stays a ring. */
  lemma CoverStep(s: Links, m: Matrix, l: seq<nat>, c: nat, i: nat)
    requires Base(s, m) && m.IsHeader(c) && IsColumn(m, l, c) && VRing(s, [c] + l) && i <= |l|
    ensures Within(s, Trace(m, l[..i])) && Base(UnlinkAll(s, Trace(m, l[..i])), m)
    ensures VRing(UnlinkAll(s, Trace(m, l[..i])), [c] + l)
    ensures i < |l| ==>
      Within(s, m.row[l[i]][1..]) && Within(s, Trace(m, l[..i + 1])) &&
      UnlinkAll(s, Trace(m, l[..i + 1])) == UnlinkAll(UnlinkAll(s, Trace(m, l[..i])), m.row[l[i]][1..])
  {
    var t := Trace(m, l[..i]);
    TraceOutside(m, l, c, i);
    UnlinkAllKeeps(s, m, t);
    VRingSame(s, UnlinkAll(s, t), m, l, c);
    if i < |l| {
      TraceOutside(m, l, c, i + 1);
      RowInside(m, l[i]);
      UnlinkAllJoin(s, t, m.row[l[i]][1..]);
    }
  }

  lemma RowInside(m: Matrix, n: nat)
    requires m.Valid() && m.IsRow(n)
    ensures forall i | 0 <= i < |m.row[n][1..]| :: m.row[n][1..][i] < |m.col|
  {
    assert m.ValidRow(n);
    assert forall i | 0 <= i < |m.row[n][1..]| :: m.row[n][1..][i] == m.row[n][i + 1];
  }

  /** One more row of uncovering, from below. */
  lemma UncoverStep(s: Links, m: Matrix, l: seq<nat>, c: nat, i: nat)
    requires Base(s, m) && m.IsHeader(c) && IsColumn(m, l, c) && VRing(s, [c] + l) && 0 < i <= |l|
    ensures Within(s, Trace(m, l[..i])) && Within(s, Trace(m, l[..i - 1])) && Within(s, m.row[l[i - 1]][1..])
    ensures RelinkAll(s, Trace(m, l[..i])) == RelinkAll(RelinkAll(s, m.row[l[i - 1]][1..]), Trace(m, l[..i - 1]))
    ensures Base(RelinkAll(s, m.row[l[i - 1]][1..]), m)
    ensures VRing(RelinkAll(s, m.row[l[i - 1]][1..]), [c] + l)
  {
    var u := m.row[l[i - 1]][1..];
    TraceOutside(m, l, c, i - 1);
    TraceOutside(m, l, c, i);
    RowInside(m, l[i - 1]);
    RelinkAllJoin(s, Trace(m, l[..i - 1]), u);
    RelinkAllKeeps(s, m, u);
    MatesOutside(m, l[i - 1]);
    VRingSame(s, RelinkAll(s, u), m, l, c);
  }

  lemma MatesOutside(m: Matrix, n: nat)
    requires m.Valid() && m.IsRow(n)
    ensures Outside(m, m.row[n][1..], m.col[n])
  {
    assert m.ValidRow(n);
    assert forall i | 0 <= i < |m.row[n][1..]| :: m.row[n][1..][i] == m.row[n][i + 1];
  }
}
