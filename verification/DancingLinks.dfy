/** The toroidal matrix of the dancing-links solver, as a value: the node array, the two ways of
    taking a column out and putting it back, and what they do to rings, sizes and rows. */
module DancingLinks {

  /** One element of the solver's fixed node pool; the four links and col are indices into the pool. */
  datatype Node = Node(left: nat, right: nat, up: nat, down: nat, col: nat, name: nat, size: int)

  type Links = seq<Node>

  /** The part of the matrix that covering never changes: the header of every node and, for a row node,
      its row read rightwards from that node. Headers (and the root) have the empty row. */
  datatype Matrix = Matrix(col: seq<nat>, row: seq<seq<nat>>)
  {
    ghost predicate IsRow(n: nat) { n < |row| && row[n] != [] }

    ghost predicate IsHeader(n: nat) { n < |row| && row[n] == [] }

    ghost predicate ValidRow(n: nat)
      requires IsRow(n) && |col| == |row|
    {
      && row[n][0] == n
      && (forall i | 0 <= i < |row[n]| :: IsRow(row[n][i]))
      && (forall i, j | 0 <= i < j < |row[n]| :: col[row[n][i]] != col[row[n][j]])
      && (forall k, x {:trigger x in row[k], k in row[n]} | k in row[n] :: x in row[k] <==> x in row[n])
    }

    ghost predicate Valid()
    {
      && |col| == |row|
      && (forall n | 0 <= n < |col| :: IsHeader(col[n]) && (IsHeader(n) ==> col[n] == n))
      && (forall n {:trigger ValidRow(n)} | IsRow(n) :: ValidRow(n))
    }

    /** The columns that the row of n fills. */
    ghost function Cols(n: nat): set<nat>
      requires Valid() && IsRow(n)
    {
      assert ValidRow(n);
      set k | k in row[n] :: col[k]
    }
  }

  // ----- rings

  function Next<T>(l: seq<T>, i: nat): T
    requires i < |l|
  {
    if i + 1 < |l| then l[i + 1] else l[0]
  }

  ghost predicate NoDup<T(!new)>(l: seq<T>) { forall i, j | 0 <= i < j < |l| :: l[i] != l[j] }

  ghost predicate Within(s: Links, l: seq<nat>) { forall i | 0 <= i < |l| :: l[i] < |s| }

  /** l is the cycle that the up and down links run through. */
  ghost predicate VRing(s: Links, l: seq<nat>)
  {
    Within(s, l) && forall i {:trigger Next(l, i)} | 0 <= i < |l| ::
      s[l[i]].down == Next(l, i) && s[Next(l, i)].up == l[i]
  }

  /** l is the cycle that the left and right links run through. */
  ghost predicate HRing(s: Links, l: seq<nat>)
  {
    Within(s, l) && forall i {:trigger Next(l, i)} | 0 <= i < |l| ::
      s[l[i]].right == Next(l, i) && s[Next(l, i)].left == l[i]
  }

  ghost predicate InRange(s: Links)
  {
    forall k | 0 <= k < |s| ::
      s[k].left < |s| && s[k].right < |s| && s[k].up < |s| && s[k].down < |s| && s[k].col < |s|
  }

  /** What every moment of the solver's life keeps, covered columns and stale links included. */
  ghost predicate Base(s: Links, m: Matrix)
  {
    && m.Valid()
    && |s| == |m.col|
    && InRange(s)
    && (forall k | 0 <= k < |s| :: NodeOk(s, m, k))
  }

  ghost predicate NodeOk(s: Links, m: Matrix, k: nat)
    requires m.Valid() && |s| == |m.col| && InRange(s) && k < |s|
  {
    && s[k].col == m.col[k] == m.col[s[k].up] == m.col[s[k].down]
    && (m.IsHeader(k) ==> m.IsHeader(s[k].left) && m.IsHeader(s[k].right))
    && (m.IsRow(k) ==> HRing(s, m.row[k]))
  }

  // ----- taking one node out of its column, and putting it back

  /** Node j is bridged in its column, its two neighbours being linked to each other, and the column counts one node
      less; j itself keeps its links. */
  function Unlink(s: Links, j: nat): (r: Links)
    requires InRange(s) && j < |s|
    ensures InRange(r) && |r| == |s|
  {
    seq(|s|, k requires 0 <= k < |s| => s[k].(
      up := if k == s[j].down then s[j].up else s[k].up,
      down := if k == s[j].up then s[j].down else s[k].down,
      size := if k == s[j].col then s[k].size - 1 else s[k].size))
  }

  /** The neighbours that node j still remembers are linked to it again, and its column counts one node more. */
  function Relink(s: Links, j: nat): (r: Links)
    requires InRange(s) && j < |s|
    ensures InRange(r) && |r| == |s|
  {
    var above := if s[j].down == j then j else s[j].up;
    seq(|s|, k requires 0 <= k < |s| => s[k].(
      up := if k == s[j].down then j else s[k].up,
      down := if k == above then j else s[k].down,
      size := if k == s[j].col then s[k].size + 1 else s[k].size))
  }

  ghost predicate Linked(s: Links, j: nat)
    requires InRange(s) && j < |s|
  {
    s[s[j].down].up == j && s[s[j].up].down == j
  }

  lemma RelinkUnlink(s: Links, j: nat)
    requires InRange(s) && j < |s| && Linked(s, j)
    ensures Relink(Unlink(s, j), j) == s
  {
  }

  ghost predicate SameAcross(s: Links, t: Links)
  {
    |s| == |t| && forall k | 0 <= k < |s| ::
      s[k].left == t[k].left && s[k].right == t[k].right && s[k].col == t[k].col && s[k].name == t[k].name
  }

  /** s and t agree on every node of column d. */
  ghost predicate SameColumn(s: Links, t: Links, m: Matrix, d: nat)
  {
    |s| == |t| == |m.col| && forall k | 0 <= k < |s| && m.col[k] == d :: s[k] == t[k]
  }

  lemma BaseAcross(s: Links, t: Links, m: Matrix)
    requires Base(s, m) && SameAcross(s, t) && InRange(t)
    requires forall k | 0 <= k < |t| :: m.col[t[k].up] == m.col[t[k].down] == m.col[k]
    ensures Base(t, m)
  {
    forall k | 0 <= k < |t| ensures NodeOk(t, m, k) {
      assert NodeOk(s, m, k);
    }
  }

  lemma UnlinkKeeps(s: Links, m: Matrix, j: nat)
    requires Base(s, m) && j < |s|
    ensures Base(Unlink(s, j), m) && SameAcross(s, Unlink(s, j))
    ensures forall d | d != m.col[j] :: SameColumn(s, Unlink(s, j), m, d)
  {
    var t := Unlink(s, j);
    assert NodeOk(s, m, j) && NodeOk(s, m, s[j].up) && NodeOk(s, m, s[j].down);
    assert m.col[m.col[j]] == m.col[j];
    forall k | 0 <= k < |t| ensures m.col[t[k].up] == m.col[t[k].down] == m.col[k] {
      assert NodeOk(s, m, k);
    }
    BaseAcross(s, t, m);
  }

  lemma RelinkKeeps(s: Links, m: Matrix, j: nat)
    requires Base(s, m) && j < |s|
    ensures Base(Relink(s, j), m) && SameAcross(s, Relink(s, j))
    ensures forall d | d != m.col[j] :: SameColumn(s, Relink(s, j), m, d)
  {
    var t := Relink(s, j);
    assert NodeOk(s, m, j) && NodeOk(s, m, s[j].up) && NodeOk(s, m, s[j].down);
    assert m.col[m.col[j]] == m.col[j];
    forall k | 0 <= k < |t| ensures m.col[t[k].up] == m.col[t[k].down] == m.col[k] {
      assert NodeOk(s, m, k);
    }
    BaseAcross(s, t, m);
  }

  // ----- a whole run of them

  function UnlinkAll(s: Links, t: seq<nat>): (r: Links)
    requires InRange(s) && Within(s, t)
    ensures InRange(r) && |r| == |s|
  {
    if t == [] then s else Unlink(UnlinkAll(s, t[..|t| - 1]), t[|t| - 1])
  }

  function RelinkAll(s: Links, t: seq<nat>): (r: Links)
    requires InRange(s) && Within(s, t)
    ensures InRange(r) && |r| == |s|
    decreases |t|
  {
    if t == [] then s else RelinkAll(Relink(s, t[|t| - 1]), t[..|t| - 1])
  }

  // ----- columns

  /** l is a column read downwards from its header, and the header counts the rest of it. */
  ghost predicate ColumnOk(s: Links, m: Matrix, l: seq<nat>)
    requires |s| == |m.col| == |m.row|
  {
    && l != [] && VRing(s, l) && NoDup(l)
    && m.IsHeader(l[0])
    && (forall i | 1 <= i < |l| :: m.IsRow(l[i]))
    && (forall i | 0 <= i < |l| :: m.col[l[i]] == l[0])
    && s[l[0]].size == |l| - 1
  }

  ghost predicate Columns(s: Links, m: Matrix, lst: map<nat, seq<nat>>)
    requires |s| == |m.col| == |m.row|
  {
    forall d | d in lst :: ColumnOk(s, m, lst[d]) && lst[d][0] == d
  }

  ghost function Drop<T>(l: seq<T>, j: T): seq<T>
  {
    if l == [] then [] else if l[0] == j then l[1..] else [l[0]] + Drop(l[1..], j)
  }

  lemma {:induction false} DropAt<T(!new)>(l: seq<T>, i: nat)
    requires i < |l| && NoDup(l)
    ensures Drop(l, l[i]) == l[..i] + l[i + 1..]
  {
    if i == 0 {
    } else {
      assert l[1..][i - 1] == l[i];
      DropAt(l[1..], i - 1);
      assert l[..i] == [l[0]] + l[1..][..i - 1];
    }
  }

  lemma DropMembers<T(!new)>(l: seq<T>, j: T)
    requires NoDup(l) && j in l
    ensures NoDup(Drop(l, j)) && |Drop(l, j)| == |l| - 1
    ensures forall x :: x in Drop(l, j) <==> x in l && x != j
    ensures l[0] != j ==> Drop(l, j) != [] && Drop(l, j)[0] == l[0]
  {
    var i :| 0 <= i < |l| && l[i] == j;
    DropAt(l, i);
    var r := l[..i] + l[i + 1..];
    forall x | x in l && x != j ensures x in r {
      var k :| 0 <= k < |l| && l[k] == x;
      assert r[if k < i then k else k - 1] == x;
    }
    assert forall k | 0 <= k < |r| :: r[k] == l[if k < i then k else k + 1];
  }

  lemma VRingDrop(s: Links, l: seq<nat>, i: nat)
    requires InRange(s) && VRing(s, l) && NoDup(l) && 1 <= i < |l|
    ensures Linked(s, l[i]) && VRing(Unlink(s, l[i]), l[..i] + l[i + 1..])
  {
    var j, r, t := l[i], l[..i] + l[i + 1..], Unlink(s, l[i]);
    assert s[j].down == Next(l, i) && Next(l, i - 1) == j && s[j].up == l[i - 1];
    forall k | 0 <= k < |r|
      ensures r[k] < |t| && t[r[k]].down == Next(r, k) && t[Next(r, k)].up == r[k]
    {
      var k' := if k < i then k else k + 1;
      assert r[k] == l[k'] && s[l[k']].down == Next(l, k');
    }
  }

  lemma ColumnOkSame(s: Links, t: Links, m: Matrix, l: seq<nat>)
    requires |s| == |m.col| == |m.row| && l != [] && SameColumn(s, t, m, l[0]) && ColumnOk(s, m, l)
    ensures ColumnOk(t, m, l)
  {
    assert forall i | 0 <= i < |l| :: t[l[i]] == s[l[i]];
    forall i | 0 <= i < |l| ensures t[l[i]].down == Next(l, i) && t[Next(l, i)].up == l[i] {
      assert t[l[i]] == s[l[i]];
      assert t[Next(l, i)] == s[Next(l, i)];
    }
  }

  ghost function DropNode(lst: map<nat, seq<nat>>, m: Matrix, j: nat): map<nat, seq<nat>>
    requires j < |m.col| && m.col[j] in lst
  {
    lst[m.col[j] := Drop(lst[m.col[j]], j)]
  }

  lemma ColumnOkDrop(s: Links, t: Links, m: Matrix, l: seq<nat>, i: nat, r: seq<nat>)
    requires |s| == |t| == |m.col| == |m.row| && ColumnOk(s, m, l) && 1 <= i < |l|
    requires r == l[..i] + l[i + 1..] && VRing(t, r) && t[l[0]].size == s[l[0]].size - 1
    ensures ColumnOk(t, m, r)
  {
    assert forall k | 0 <= k < |r| :: r[k] == l[if k < i then k else k + 1];
  }

  lemma UnlinkOwn(s: Links, m: Matrix, l: seq<nat>, i: nat)
    requires Base(s, m) && ColumnOk(s, m, l) && 1 <= i < |l|
    ensures Linked(s, l[i]) && ColumnOk(Unlink(s, l[i]), m, Drop(l, l[i]))
  {
    var r, t := l[..i] + l[i + 1..], Unlink(s, l[i]);
    DropAt(l, i);
    VRingDrop(s, l, i);
    assert NodeOk(s, m, l[i]);
    assert t[l[0]].size == s[l[0]].size - 1;
    ColumnOkDrop(s, t, m, l, i, r);
  }

  lemma UnlinkColumns(s: Links, m: Matrix, lst: map<nat, seq<nat>>, j: nat)
    requires Base(s, m) && Columns(s, m, lst) && m.IsRow(j) && m.col[j] in lst && j in lst[m.col[j]]
    ensures Linked(s, j) && Columns(Unlink(s, j), m, DropNode(lst, m, j))
  {
    var d, q := m.col[j], DropNode(lst, m, j);
    assert ColumnOk(s, m, lst[d]);
    var i :| 0 <= i < |lst[d]| && lst[d][i] == j;
    UnlinkOwn(s, m, lst[d], i);
    DropMembers(lst[d], j);
    UnlinkKeeps(s, m, j);
    forall e | e in q ensures ColumnOk(Unlink(s, j), m, q[e]) && q[e][0] == e {
      if e != d {
        assert ColumnOk(s, m, lst[e]);
        ColumnOkSame(s, Unlink(s, j), m, lst[e]);
      }
    }
  }

  ghost function DropAll(lst: map<nat, seq<nat>>, m: Matrix, t: seq<nat>): (r: map<nat, seq<nat>>)
    requires forall i | 0 <= i < |t| :: t[i] < |m.col| && m.col[t[i]] in lst
    ensures r.Keys == lst.Keys
  {
    if t == [] then lst else DropNode(DropAll(lst, m, t[..|t| - 1]), m, t[|t| - 1])
  }

  /** The nodes of t are distinct and each still stands in its column's list. */
  ghost predicate InLists(m: Matrix, lst: map<nat, seq<nat>>, t: seq<nat>)
    requires |m.col| == |m.row|
  {
    NoDup(t) && forall i | 0 <= i < |t| :: m.IsRow(t[i]) && m.col[t[i]] in lst && t[i] in lst[m.col[t[i]]]
  }

  lemma DropNodeMembers(s: Links, m: Matrix, lst: map<nat, seq<nat>>, j: nat)
    requires |s| == |m.col| == |m.row| && Columns(s, m, lst)
    requires m.IsRow(j) && m.col[j] in lst && j in lst[m.col[j]]
    ensures Less(lst, DropNode(lst, m, j), [j])
  {
    assert ColumnOk(s, m, lst[m.col[j]]);
    DropMembers(lst[m.col[j]], j);
    forall d | d in lst && d != m.col[j] ensures j !in lst[d] {
      assert ColumnOk(s, m, lst[d]);
    }
  }

  /** r has the elements of l that are not in t. */
  ghost predicate SeqLess(l: seq<nat>, r: seq<nat>, t: seq<nat>)
  {
    && (forall x | x in r :: x in l && x !in t)
    && (forall x | x in l :: x in t || x in r)
  }

  /** r holds, column for column, what lst holds less the nodes of t. */
  ghost predicate Less(lst: map<nat, seq<nat>>, r: map<nat, seq<nat>>, t: seq<nat>)
  {
    r.Keys == lst.Keys && forall d | d in lst :: SeqLess(lst[d], r[d], t)
  }

  lemma LessStep(lst: map<nat, seq<nat>>, q: map<nat, seq<nat>>, r: map<nat, seq<nat>>, t: seq<nat>)
    requires t != [] && Less(lst, q, t[..|t| - 1]) && Less(q, r, [t[|t| - 1]])
    ensures Less(lst, r, t)
  {
    var p, j := t[..|t| - 1], t[|t| - 1];
    forall d | d in lst ensures SeqLess(lst[d], r[d], t) {
      assert d in q.Keys && SeqLess(lst[d], q[d], p) && SeqLess(q[d], r[d], [j]);
      forall x | x in r[d] ensures x in lst[d] && x !in t {
        assert x in q[d];
        assert x !in [j];
      }
      forall x | x in lst[d] ensures x in t || x in r[d] {
        assert x in q[d] || x in p;
      }
    }
  }

  /** Unlinking a run of nodes takes exactly them out of their columns. */
  lemma {:induction false} UnlinkAllColumns(s: Links, m: Matrix, lst: map<nat, seq<nat>>, t: seq<nat>)
    requires Base(s, m) && Columns(s, m, lst) && InLists(m, lst, t)
    ensures Base(UnlinkAll(s, t), m)
    ensures Columns(UnlinkAll(s, t), m, DropAll(lst, m, t))
    ensures Less(lst, DropAll(lst, m, t), t)
    decreases |t|
  {
    if t == [] {
    } else {
      var p, j := t[..|t| - 1], t[|t| - 1];
      UnlinkAllColumns(s, m, lst, p);
      var u, q := UnlinkAll(s, p), DropAll(lst, m, p);
      assert j !in p && j in q[m.col[j]];
      UnlinkColumns(u, m, q, j);
      UnlinkKeeps(u, m, j);
      DropNodeMembers(u, m, q, j);
      LessStep(lst, q, DropNode(q, m, j), t);
    }
  }

  /** Relinking a run of nodes backwards gives the very array back that it was unlinked from. */
  lemma {:induction false} RelinkUnlinkAll(s: Links, m: Matrix, lst: map<nat, seq<nat>>, t: seq<nat>)
    requires Base(s, m) && Columns(s, m, lst) && InLists(m, lst, t)
    ensures RelinkAll(UnlinkAll(s, t), t) == s
    decreases |t|
  {
    if t == [] {
    } else {
      var p, j := t[..|t| - 1], t[|t| - 1];
      UnlinkAllColumns(s, m, lst, p);
      var u, q := UnlinkAll(s, p), DropAll(lst, m, p);
      assert j !in p && j in q[m.col[j]];
      UnlinkColumns(u, m, q, j);
      RelinkUnlink(u, j);
      RelinkUnlinkAll(s, m, lst, p);
    }
  }

  ghost predicate Outside(m: Matrix, t: seq<nat>, d: nat)
  {
    forall i | 0 <= i < |t| :: t[i] < |m.col| && m.col[t[i]] != d
  }

  lemma {:induction false} UnlinkAllKeeps(s: Links, m: Matrix, t: seq<nat>)
    requires Base(s, m) && Within(s, t)
    ensures Base(UnlinkAll(s, t), m) && SameAcross(s, UnlinkAll(s, t))
    ensures forall d | Outside(m, t, d) :: SameColumn(s, UnlinkAll(s, t), m, d)
    decreases |t|
  {
    if t != [] {
      var p, u := t[..|t| - 1], UnlinkAll(s, t[..|t| - 1]);
      UnlinkAllKeeps(s, m, p);
      UnlinkKeeps(u, m, t[|t| - 1]);
      forall d | Outside(m, t, d) ensures SameColumn(s, UnlinkAll(s, t), m, d) {
        assert Outside(m, p, d) && SameColumn(u, UnlinkAll(s, t), m, d);
      }
    }
  }

  lemma {:induction false} RelinkAllKeeps(s: Links, m: Matrix, t: seq<nat>)
    requires Base(s, m) && Within(s, t)
    ensures Base(RelinkAll(s, t), m) && SameAcross(s, RelinkAll(s, t))
    ensures forall d | Outside(m, t, d) :: SameColumn(s, RelinkAll(s, t), m, d)
    decreases |t|
  {
    if t != [] {
      var p, u := t[..|t| - 1], Relink(s, t[|t| - 1]);
      RelinkKeeps(s, m, t[|t| - 1]);
      RelinkAllKeeps(u, m, p);
      forall d | Outside(m, t, d) ensures SameColumn(s, RelinkAll(s, t), m, d) {
        assert Outside(m, p, d) && SameColumn(s, u, m, d);
      }
    }
  }
}
