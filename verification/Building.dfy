/** Building the matrix: adding a column, adding a node to a column, and joining four nodes into a row. */
module Building {
  import opened DancingLinks
  import opened Covering

  /** The matrix with one more node, of column c and row r. */
  ghost function Grow(m: Matrix, c: nat, r: seq<nat>): Matrix
  {
    Matrix(m.col + [c], m.row + [r])
  }

  /** A node that links to itself only. */
  function Alone(n: nat, c: nat, name: nat): Node
  {
    Node(n, n, n, n, c, name, 0)
  }

  lemma GrowValid(m: Matrix, c: nat, r: seq<nat>)
    requires m.Valid()
    requires (r == [] && c == |m.col|) || (r == [|m.col|] && m.IsHeader(c))
    ensures Grow(m, c, r).Valid()
  {
    var n, g := |m.col|, Grow(m, c, r);
    forall k | 0 <= k < |g.col| ensures g.IsHeader(g.col[k]) && (g.IsHeader(k) ==> g.col[k] == k) {
      if k < n {
        assert m.IsHeader(m.col[k]) && (m.IsHeader(k) ==> m.col[k] == k);
      }
    }
    forall k: nat | g.IsRow(k) ensures g.ValidRow(k) {
      if k < n {
        assert m.IsRow(k) && m.ValidRow(k) && g.row[k] == m.row[k];
        forall i | 0 <= i < |g.row[k]| ensures g.IsRow(g.row[k][i]) && g.row[k][i] < n {
          assert m.IsRow(m.row[k][i]);
        }
      }
    }
  }

  lemma AloneBase(s: Links, m: Matrix, c: nat, name: nat, r: seq<nat>)
    requires Base(s, m)
    requires (r == [] && c == |s|) || (r == [|s|] && m.IsHeader(c))
    ensures Base(s + [Alone(|s|, c, name)], Grow(m, c, r))
  {
    GrowValid(m, c, r);
    var n, t, g := |s|, s + [Alone(|s|, c, name)], Grow(m, c, r);
    forall k | 0 <= k < |t| ensures NodeOk(t, g, k) {
      if k < n {
        assert NodeOk(s, m, k) && t[k] == s[k];
        if m.IsRow(k) {
          assert m.ValidRow(k);
          RingExtends(s, t, m.row[k]);
        }
      } else {
        assert t[n] == Alone(n, c, name);
        if r == [n] {
          assert Next([n], 0) == n;
        }
      }
    }
  }

  lemma RingExtends(s: Links, t: Links, l: seq<nat>)
    requires HRing(s, l) && |s| <= |t| && forall k | 0 <= k < |s| :: t[k] == s[k]
    ensures HRing(t, l)
  {
    forall i | 0 <= i < |l| ensures t[l[i]].right == Next(l, i) && t[Next(l, i)].left == l[i] {
      assert s[l[i]].right == Next(l, i);
    }
  }

  lemma ColumnExtends(s: Links, t: Links, m: Matrix, g: Matrix, l: seq<nat>)
    requires |s| == |m.col| == |m.row| && |t| == |g.col| == |g.row| && |s| <= |t|
    requires forall k | 0 <= k < |s| :: t[k] == s[k] && g.col[k] == m.col[k] && g.row[k] == m.row[k]
    requires ColumnOk(s, m, l)
    ensures ColumnOk(t, g, l)
  {
    forall i | 0 <= i < |l| ensures t[l[i]].down == Next(l, i) && t[Next(l, i)].up == l[i] {
      assert s[l[i]].down == Next(l, i);
    }
    assert m.IsHeader(l[0]);
    forall i | 1 <= i < |l| ensures g.IsRow(l[i]) {
      assert m.IsRow(l[i]);
    }
  }

  /** A node that links to itself only changes nothing that the matrix shows. */
  lemma AloneShows(s: Links, m: Matrix, root: nat, a: Picture, c: nat, name: nat, r: seq<nat>)
    requires Shows(s, m, root, a)
    requires (r == [] && c == |s|) || (r == [|s|] && m.IsHeader(c))
    ensures Shows(s + [Alone(|s|, c, name)], Grow(m, c, r), root, a)
  {
    AloneBase(s, m, c, name, r);
    var n, t, g := |s|, s + [Alone(|s|, c, name)], Grow(m, c, r);
    RingExtends(s, t, [root] + a.cols);
    forall d | d in a.lst ensures ColumnOk(t, g, a.lst[d]) && a.lst[d][0] == d {
      assert ColumnOk(s, m, a.lst[d]);
      ColumnExtends(s, t, m, g, a.lst[d]);
    }
    AloneWhole(s, m, a, c, r);
  }

  lemma AloneWhole(s: Links, m: Matrix, a: Picture, c: nat, r: seq<nat>)
    requires m.Valid() && |s| == |m.col| && Columns(s, m, a.lst) && WholeRows(m, a.lst)
    ensures WholeRows(Grow(m, c, r), a.lst)
  {
    var g := Grow(m, c, r);
    forall d, k, x | d in a.lst && k in a.lst[d] && g.IsRow(k) && x in g.row[k]
      ensures x < |g.col| && g.col[x] in a.lst && x in a.lst[g.col[x]]
    {
      assert ColumnOk(s, m, a.lst[d]);
      assert k < |s| && g.row[k] == m.row[k] && m.IsRow(k);
      assert x < |m.col| && g.col[x] == m.col[x];
    }
  }

  // ----- linking a header into the ring, to the left of the root

  /** Node n comes between o and the node to the left of it. */
  function InsertLeft(s: Links, o: nat, n: nat): (r: Links)
    requires InRange(s) && o < |s| && n < |s|
    ensures InRange(r) && |r| == |s|
  {
    seq(|s|, k requires 0 <= k < |s| => s[k].(
      left := if k == o then n else if k == n then s[o].left else s[k].left,
      right := if k == n then o else if k == s[o].left then n else s[k].right))
  }

  /** Node n comes between the header o and the node above it, as the last of its column, which counts one node more. */
  function InsertUp(s: Links, o: nat, n: nat): (r: Links)
    requires InRange(s) && o < |s| && n < |s|
    ensures InRange(r) && |r| == |s|
  {
    seq(|s|, k requires 0 <= k < |s| => s[k].(
      up := if k == o then n else if k == n then s[o].up else s[k].up,
      down := if k == n then o else if k == s[o].up then n else s[k].down,
      size := if k == o then s[k].size + 1 else s[k].size,
      col := if k == n then o else s[k].col))
  }

  lemma InsertRing(s: Links, l: seq<nat>, n: nat)
    requires InRange(s) && l != [] && HRing(s, l) && NoDup(l) && n < |s| && n !in l
    ensures HRing(InsertLeft(s, l[0], n), l + [n]) && NoDup(l + [n])
  {
    var t, r := InsertLeft(s, l[0], n), l + [n];
    assert Next(l, |l| - 1) == l[0];
    forall i | 0 <= i < |r| ensures t[r[i]].right == Next(r, i) && t[Next(r, i)].left == r[i] {
      if i < |l| {
        assert s[l[i]].right == Next(l, i) && l[i] in l;
      }
    }
  }

  lemma InsertLeftBase(s: Links, m: Matrix, root: nat, c: nat)
    requires Base(s, m) && m.IsHeader(root) && m.IsHeader(c)
    ensures Base(InsertLeft(s, root, c), m) && SameDown(s, InsertLeft(s, root, c))
  {
    var t := InsertLeft(s, root, c);
    assert NodeOk(s, m, root);
    forall k | 0 <= k < |t| && m.IsHeader(k) ensures m.IsHeader(t[k].left) && m.IsHeader(t[k].right) {
      assert NodeOk(s, m, k);
    }
    BaseDown(s, t, m);
  }

  /** Appending a column: the header c, linked in at the right end, with nothing below it. */
  lemma ColumnAppended(s: Links, m: Matrix, root: nat, a: Picture, c: nat)
    requires Shows(s, m, root, a) && m.IsHeader(c) && c != root && c !in a.lst
    requires s[c].up == s[c].down == c && s[c].size == 0
    ensures Shows(InsertLeft(s, root, c), m, root, Picture(a.cols + [c], a.lst[c := [c]]))
  {
    var t, l := InsertLeft(s, root, c), [root] + a.cols;
    InsertLeftBase(s, m, root, c);
    ColumnsDown(s, t, m, a.lst);
    assert forall i | 0 <= i < |a.cols| :: a.cols[i] in a.lst;
    InsertRing(s, l, c);
    assert l + [c] == [root] + (a.cols + [c]);
    var lst := a.lst[c := [c]];
    assert ColumnOk(t, m, [c]) by {
      assert Next([c], 0) == c && m.col[c] == c;
    }
    forall d | d in lst ensures ColumnOk(t, m, lst[d]) && lst[d][0] == d {
      if d != c {
        assert d in a.lst;
      }
    }
    HeaderWhole(s, m, a.lst, c);
  }

  lemma HeaderWhole(s: Links, m: Matrix, lst: map<nat, seq<nat>>, c: nat)
    requires m.Valid() && |s| == |m.col| && Columns(s, m, lst) && WholeRows(m, lst) && c !in lst && m.IsHeader(c)
    ensures WholeRows(m, lst[c := [c]])
  {
    var r := lst[c := [c]];
    forall d, n, x | d in r && n in r[d] && m.IsRow(n) && x in m.row[n]
      ensures x < |m.col| && m.col[x] in r && x in r[m.col[x]]
    {
      assert d in lst && r[d] == lst[d];
    }
  }

  // ----- hanging a node below a column

  lemma InsertUpBase(s: Links, m: Matrix, h: nat, n: nat)
    requires Base(s, m) && m.IsHeader(h) && n < |s| && m.col[n] == h
    ensures Base(InsertUp(s, h, n), m) && SameAcross(s, InsertUp(s, h, n))
    ensures forall d | d != h :: SameColumn(s, InsertUp(s, h, n), m, d)
  {
    var t := InsertUp(s, h, n);
    assert NodeOk(s, m, h) && NodeOk(s, m, n) && m.col[h] == h;
    assert NodeOk(s, m, s[h].up);
    forall k | 0 <= k < |t| ensures m.col[t[k].up] == m.col[t[k].down] == m.col[k] {
      assert NodeOk(s, m, k);
    }
    BaseAcross(s, t, m);
  }

  lemma InsertColumn(s: Links, m: Matrix, l: seq<nat>, n: nat)
    requires Base(s, m) && ColumnOk(s, m, l) && m.IsRow(n) && m.col[n] == l[0] && n !in l
    ensures ColumnOk(InsertUp(s, l[0], n), m, l + [n])
  {
    var t, r := InsertUp(s, l[0], n), l + [n];
    assert Next(l, |l| - 1) == l[0];
    forall i | 0 <= i < |r| ensures t[r[i]].down == Next(r, i) && t[Next(r, i)].up == r[i] {
      if i < |l| {
        assert s[l[i]].down == Next(l, i) && l[i] in l;
      }
    }
  }

  /** Hanging the node n, a row of its own so far, below the column h. */
  lemma NodeHung(s: Links, m: Matrix, root: nat, a: Picture, h: nat, n: nat)
    requires Shows(s, m, root, a) && h in a.lst && m.IsRow(n) && m.row[n] == [n] && m.col[n] == h && n !in a.lst[h]
    ensures Shows(InsertUp(s, h, n), m, root, Picture(a.cols, a.lst[h := a.lst[h] + [n]]))
  {
    var t, lst := InsertUp(s, h, n), a.lst[h := a.lst[h] + [n]];
    assert ColumnOk(s, m, a.lst[h]);
    InsertUpBase(s, m, h, n);
    InsertColumn(s, m, a.lst[h], n);
    HRingSame(s, t, [root] + a.cols);
    forall d | d in lst ensures ColumnOk(t, m, lst[d]) && lst[d][0] == d {
      if d != h {
        assert d in a.lst && ColumnOk(s, m, a.lst[d]);
        ColumnOkSame(s, t, m, a.lst[d]);
      }
    }
    HungWhole(m, a.lst, h, n);
  }

  lemma HungWhole(m: Matrix, lst: map<nat, seq<nat>>, h: nat, n: nat)
    requires m.Valid() && WholeRows(m, lst) && h in lst && m.IsRow(n) && m.row[n] == [n] && m.col[n] == h
    ensures WholeRows(m, lst[h := lst[h] + [n]])
  {
    var r := lst[h := lst[h] + [n]];
    forall d, k, x | d in r && k in r[d] && m.IsRow(k) && x in m.row[k]
      ensures x < |m.col| && m.col[x] in r && x in r[m.col[x]]
    {
      assert d in lst;
      if k in lst[d] {
        assert x < |m.col| && m.col[x] in lst && x in lst[m.col[x]];
      } else {
        assert k == n && x == n;
      }
    }
  }

  // ----- joining four nodes into a row

  /** The four nodes from n on, read rightwards and round from the i-th. */
  function Four(n: nat, i: nat): seq<nat>
    requires i < 4
  {
    if i == 0 then [n, n + 1, n + 2, n + 3]
    else if i == 1 then [n + 1, n + 2, n + 3, n]
    else if i == 2 then [n + 2, n + 3, n, n + 1]
    else [n + 3, n, n + 1, n + 2]
  }

  ghost function JoinRows(m: Matrix, n: nat): Matrix
    requires n + 4 == |m.row|
  {
    Matrix(m.col, m.row[..n] + [Four(n, 0), Four(n, 1), Four(n, 2), Four(n, 3)])
  }

  /** The last four nodes are rows of their own, in four different columns. */
  ghost predicate Loose(m: Matrix, n: nat)
    requires |m.col| == |m.row|
  {
    && n + 4 == |m.row|
    && (forall i | n <= i < n + 4 :: m.row[i] == [i])
    && (forall i, j | n <= i < j < n + 4 :: m.col[i] != m.col[j])
  }

  lemma FourMembers(n: nat, i: nat)
    requires i < 4
    ensures forall x :: x in Four(n, i) <==> n <= x < n + 4
    ensures |Four(n, i)| == 4 && Four(n, i)[0] == n + i && NoDup(Four(n, i))
  {
  }

  lemma JoinedOld(m: Matrix, n: nat, k: nat)
    requires m.Valid() && Loose(m, n) && k < n && m.IsRow(k)
    ensures JoinRows(m, n).row[k] == m.row[k]
    ensures forall i | 0 <= i < |m.row[k]| :: m.row[k][i] < n && m.IsRow(m.row[k][i])
  {
    assert m.ValidRow(k);
    forall i | 0 <= i < |m.row[k]| ensures m.row[k][i] < n {
      var x := m.row[k][i];
      assert m.IsRow(x) && x in m.row[k] && k in m.row[k];
      assert x >= n ==> k in [x];
    }
  }

  lemma JoinValid(m: Matrix, n: nat)
    requires m.Valid() && Loose(m, n)
    ensures JoinRows(m, n).Valid()
  {
    var g := JoinRows(m, n);
    forall k | 0 <= k < |g.col| ensures g.IsHeader(g.col[k]) && (g.IsHeader(k) ==> g.col[k] == k) {
      assert m.IsHeader(m.col[k]) && (m.IsHeader(k) ==> m.col[k] == k);
    }
    forall k: nat | g.IsRow(k) ensures g.ValidRow(k) {
      if k < n {
        JoinedOldValid(m, n, k);
      } else {
        JoinedNewValid(m, n, k - n);
      }
    }
  }

  lemma JoinedOldValid(m: Matrix, n: nat, k: nat)
    requires m.Valid() && Loose(m, n) && k < n && m.IsRow(k)
    ensures JoinRows(m, n).IsRow(k) && JoinRows(m, n).ValidRow(k)
  {
    var g := JoinRows(m, n);
    JoinedOld(m, n, k);
    assert m.ValidRow(k);
    forall i | 0 <= i < |g.row[k]| ensures g.IsRow(g.row[k][i]) {
      assert g.row[k][i] < n && g.row[g.row[k][i]] == m.row[g.row[k][i]];
    }
    forall x, y | x in g.row[k] ensures y in g.row[x] <==> y in g.row[k] {
      assert x < n && g.row[x] == m.row[x];
    }
  }

  lemma JoinedRow(m: Matrix, n: nat, i: nat)
    requires n + 4 == |m.row| && i < 4
    ensures JoinRows(m, n).row[n + i] == Four(n, i)
  {
    hide Four;
    if i == 0 {
    } else if i == 1 {
    } else if i == 2 {
    }
  }

  lemma JoinedNewValid(m: Matrix, n: nat, i: nat)
    requires m.Valid() && Loose(m, n) && i < 4
    ensures JoinRows(m, n).IsRow(n + i) && JoinRows(m, n).row[n + i] == Four(n, i) && JoinRows(m, n).ValidRow(n + i)
  {
    hide Four, JoinRows;
    var g, f := JoinRows(m, n), Four(n, i);
    JoinedRow(m, n, i);
    FourMembers(n, i);
    JoinedCols(m, n);
    forall j | 0 <= j < |f| ensures g.IsRow(f[j]) {
      var x := f[j];
      assert x in f;
      JoinedRow(m, n, x - n);
      FourMembers(n, x - n);
      assert g.row[x] == Four(n, x - n);
    }
    forall x, y | x in f ensures y in g.row[x] <==> y in f {
      JoinedRow(m, n, x - n);
      FourMembers(n, x - n);
      assert g.row[x] == Four(n, x - n);
    }
    forall j, k | 0 <= j < k < |f| ensures g.col[f[j]] != g.col[f[k]] {
      assert f[j] != f[k] && f[j] in f && f[k] in f;
    }
  }

  lemma JoinedCols(m: Matrix, n: nat)
    requires |m.col| == |m.row| && Loose(m, n)
    ensures JoinRows(m, n).col == m.col && |JoinRows(m, n).row| == n + 4
    ensures forall j, k | n <= j < n + 4 && n <= k < n + 4 && j != k :: m.col[j] != m.col[k]
  {
  }

  /** The links of n..n+3 run round in one ring; nothing else differs from s. */
  ghost predicate Joined(s: Links, t: Links, n: nat)
  {
    && |t| == |s| == n + 4 && SameDown(s, t)
    && (forall k | 0 <= k < n :: t[k] == s[k])
    && t[n].right == n + 1 && t[n + 1].right == n + 2 && t[n + 2].right == n + 3 && t[n + 3].right == n
    && t[n].left == n + 3 && t[n + 1].left == n && t[n + 2].left == n + 1 && t[n + 3].left == n + 2
  }

  /** What the three put_left calls of a new row do to four nodes that link to themselves. */
  lemma JoinLinks(s: Links, n: nat)
    requires InRange(s) && |s| == n + 4 && forall i | n <= i < n + 4 :: s[i].left == s[i].right == i
    ensures Joined(s, InsertLeft(InsertLeft(InsertLeft(s, n, n + 1), n, n + 2), n, n + 3), n)
  {
    var s1 := InsertLeft(s, n, n + 1);
    assert forall k | 0 <= k < n :: s1[k] == s[k];
    var s2 := InsertLeft(s1, n, n + 2);
    assert forall k | 0 <= k < n :: s2[k] == s[k];
  }

  lemma FourRing(s: Links, t: Links, n: nat, i: nat)
    requires Joined(s, t, n) && i < 4
    ensures HRing(t, Four(n, i))
  {
    var f := Four(n, i);
    forall k | 0 <= k < |f| ensures t[f[k]].right == Next(f, k) && t[Next(f, k)].left == f[k] {
    }
  }

  lemma JoinBase(s: Links, t: Links, m: Matrix, n: nat)
    requires Base(s, m) && Loose(m, n) && Joined(s, t, n)
    ensures Base(t, JoinRows(m, n))
  {
    var g := JoinRows(m, n);
    JoinValid(m, n);
    assert forall k | 0 <= k < n :: g.row[k] == m.row[k];
    forall k | 0 <= k < |t|
      ensures t[k].left < |t| && t[k].right < |t| && t[k].up < |t| && t[k].down < |t| && t[k].col < |t|
    {
      if k < n {
        assert t[k] == s[k];
      }
    }
    forall k | 0 <= k < |t| ensures NodeOk(t, g, k) {
      assert NodeOk(s, m, k);
      if k >= n {
        FourRing(s, t, n, k - n);
        JoinedNewValid(m, n, k - n);
      } else if m.IsRow(k) {
        JoinedOld(m, n, k);
        RowRingSame(s, t, m.row[k]);
      } else {
        JoinHeader(s, m, n, k);
      }
    }
  }

  lemma JoinHeader(s: Links, m: Matrix, n: nat, k: nat)
    requires Base(s, m) && Loose(m, n) && m.IsHeader(k)
    ensures k < n && JoinRows(m, n).IsHeader(k)
    ensures JoinRows(m, n).IsHeader(s[k].left) && JoinRows(m, n).IsHeader(s[k].right)
  {
    assert NodeOk(s, m, k);
    forall h: nat | m.IsHeader(h) ensures h < n && JoinRows(m, n).row[h] == m.row[h] {
    }
  }

  lemma JoinColumn(s: Links, t: Links, m: Matrix, n: nat, l: seq<nat>)
    requires |s| == |m.col| == |m.row| && Loose(m, n) && Joined(s, t, n) && ColumnOk(s, m, l)
    ensures ColumnOk(t, JoinRows(m, n), l)
  {
    var g := JoinRows(m, n);
    forall k: nat | k < |m.row| ensures g.IsRow(k) <==> m.IsRow(k) {
      if k >= n {
        assert g.row[k] == Four(n, k - n);
      }
    }
    forall i | 1 <= i < |l| ensures g.IsRow(l[i]) {
      assert m.IsRow(l[i]);
    }
    VRingDown(s, t, l);
  }

  ghost predicate FourLive(m: Matrix, lst: map<nat, seq<nat>>, n: nat)
    requires n + 4 == |m.col|
  {
    forall i | n <= i < n + 4 :: m.col[i] in lst && i in lst[m.col[i]]
  }

  lemma JoinWhole(m: Matrix, lst: map<nat, seq<nat>>, n: nat)
    requires m.Valid() && Loose(m, n) && WholeRows(m, lst) && FourLive(m, lst, n)
    ensures WholeRows(JoinRows(m, n), lst)
  {
    var g := JoinRows(m, n);
    forall d, k, x | d in lst && k in lst[d] && g.IsRow(k) && x in g.row[k]
      ensures x < |g.col| && g.col[x] in lst && x in lst[g.col[x]]
    {
      if k < n {
        assert m.IsRow(k) && g.row[k] == m.row[k];
      } else {
        assert g.row[k] == Four(n, k - n);
        FourMembers(n, k - n);
      }
    }
  }

  /** Joining the four new nodes into one row shows the same columns, with whole rows. */
  lemma RowJoined(s: Links, t: Links, m: Matrix, root: nat, a: Picture, n: nat)
    requires Shows(s, m, root, a) && Loose(m, n) && Joined(s, t, n) && FourLive(m, a.lst, n)
    ensures Shows(t, JoinRows(m, n), root, a)
  {
    JoinBase(s, t, m, n);
    JoinHeader(s, m, n, root);
    forall i | 0 <= i < |a.cols| ensures t[a.cols[i]] == s[a.cols[i]] {
      assert a.cols[i] in a.lst && ColumnOk(s, m, a.lst[a.cols[i]]);
      JoinHeader(s, m, n, a.cols[i]);
    }
    RowRingSame(s, t, [root] + a.cols);
    forall d | d in a.lst ensures ColumnOk(t, JoinRows(m, n), a.lst[d]) && a.lst[d][0] == d {
      assert ColumnOk(s, m, a.lst[d]);
      JoinColumn(s, t, m, n, a.lst[d]);
    }
    JoinWhole(m, a.lst, n);
  }
}
