/** A vector used as a circle above its first eight bytes, with indices that are folded by the remainder of the
    capacity: what is read between two indices, and exactly when moving one of them loses bytes. */
module Circles {
  import opened Buffers
  import opened Bytes

  function Max(x: nat, y: nat): nat { if x < y then y else x }

  function Min(x: nat, y: nat): nat { if x < y then x else y }

  /** A sum of less than twice the capacity, less the capacity if it can be. */
  function Fold(sum: nat, capacity: nat): nat
  {
    if sum < capacity then sum else sum - capacity
  }

  lemma Folds(sum: nat, capacity: nat)
    requires 0 < capacity && sum < 2 * capacity
    ensures sum % capacity == Fold(sum, capacity)
  {
    if sum >= capacity {
      assert sum == capacity + (sum - capacity);
    }
  }

  /** Two folded indices into a vector; an index below eight is one that was folded to before the circle. */
  predicate Bounded(buffer: seq<byte>, r: nat, w: nat)
  {
    |buffer| > 2 * CHEAP_PREPEND && r < |buffer| - CHEAP_PREPEND && w < |buffer| - CHEAP_PREPEND
  }

  /** The bytes that are handed out from r to w. A write index that was folded to before the circle, or to its start,
      reads as the place that it was folded from. */
  function Between(buffer: seq<byte>, r: nat, w: nat): (c: seq<byte>)
    requires Bounded(buffer, r, w)
    ensures |c| == if w > r then w - r else |buffer| - CHEAP_PREPEND - (r - w)
  {
    if w > r then buffer[r..w]
    else if w <= CHEAP_PREPEND then buffer[r..|buffer| - CHEAP_PREPEND + w]
    else buffer[r..] + buffer[CHEAP_PREPEND..w]
  }

  lemma Stretch(buffer: seq<byte>, r: nat, w: nat)
    requires Bounded(buffer, r, w) && r < w
    ensures Between(buffer, r, w) == buffer[r..w]
  {
  }

  lemma ResizedKeeps(buffer: seq<byte>, r: nat, w: nat, n: nat)
    requires r <= w <= |buffer| && w <= n
    ensures Resized(buffer, n)[r..w] == buffer[r..w]
  {
  }

  // ----- taking bytes out

  /** The first len bytes are one stretch, or go on at the start of the circle. */
  lemma TakeFirst(buffer: seq<byte>, r: nat, w: nat, len: nat)
    requires Bounded(buffer, r, w) && len <= |Between(buffer, r, w)|
    ensures w > r || r + len <= |buffer| ==>
      r + len <= |buffer| && buffer[r..r + len] == Between(buffer, r, w)[..len]
    ensures w <= r && r + len > |buffer| ==>
      var n := CHEAP_PREPEND + r + len - |buffer|;
      n <= |buffer| && buffer[r..] + buffer[CHEAP_PREPEND..n] == Between(buffer, r, w)[..len]
  {
    var c := Between(buffer, r, w);
    if w <= r && r + len > |buffer| {
      var n := CHEAP_PREPEND + r + len - |buffer|;
      assert c[..len] == buffer[r..] + buffer[CHEAP_PREPEND..w][..n - CHEAP_PREPEND];
    } else {
      assert c[..len] == buffer[r..r + len];
    }
  }

  /** The read index moved on by len is folded to before the circle, and the bytes found there, up to the write index or
      the circle's start, are not those at the end of the vector. */
  predicate DropLoses(buffer: seq<byte>, r: nat, w: nat, len: nat)
    requires Bounded(buffer, r, w)
  {
    var capacity := |buffer| - CHEAP_PREPEND;
    capacity <= r + len < |buffer| &&
    var k, m := r + len - capacity, Min(w, CHEAP_PREPEND);
    k < m && buffer[k..m] != buffer[capacity + k..capacity + m]
  }

  /** A read index that is not folded to before the circle loses nothing. */
  lemma DropKeeps(buffer: seq<byte>, r: nat, w: nat, len: nat)
    requires Bounded(buffer, r, w) && !(|buffer| - 8 <= r + len < |buffer|)
    ensures !DropLoses(buffer, r, w, len)
  {
  }

  lemma DropExact(buffer: seq<byte>, r: nat, w: nat, len: nat)
    requires Bounded(buffer, r, w) && len < |Between(buffer, r, w)|
    ensures Bounded(buffer, Fold(r + len, |buffer| - CHEAP_PREPEND), w)
    ensures Between(buffer, Fold(r + len, |buffer| - CHEAP_PREPEND), w) == Between(buffer, r, w)[len..]
            <==> !DropLoses(buffer, r, w, len)
  {
    var capacity := |buffer| - CHEAP_PREPEND;
    var c := Between(buffer, r, w);
    var k := Fold(r + len, capacity);
    if w > r || r + len < capacity {
      assert Between(buffer, k, w) == c[len..];
    } else if r + len >= |buffer| {
      assert c[len..] == buffer[CHEAP_PREPEND..w][r + len - |buffer|..];
      assert Between(buffer, k, w) == c[len..];
    } else {
      DropFolded(buffer, r, w, len, k);
    }
  }

  lemma DropFolded(buffer: seq<byte>, r: nat, w: nat, len: nat, k: nat)
    requires Bounded(buffer, r, w) && w <= r && len < |Between(buffer, r, w)|
    requires |buffer| - CHEAP_PREPEND <= r + len < |buffer| && k == r + len - (|buffer| - CHEAP_PREPEND)
    ensures k < w && (Between(buffer, k, w) == Between(buffer, r, w)[len..] <==> !DropLoses(buffer, r, w, len))
  {
    hide Between;
    var capacity := |buffer| - CHEAP_PREPEND;
    var m := Min(w, CHEAP_PREPEND);
    Stretch(buffer, k, w);
    SliceSplit(buffer, k, m, w);
    DropLeft(buffer, r, w, len, k, m);
    SameFront(buffer[k..m], buffer[capacity + k..capacity + m], buffer[m..w]);
  }

  lemma SliceSplit(s: seq<byte>, a: nat, b: nat, c: nat)
    requires a <= b <= c <= |s|
    ensures s[a..c] == s[a..b] + s[b..c]
  {
  }

  /** What is left are the bytes at the end of the vector and those from the start of the circle on. */
  lemma DropLeft(buffer: seq<byte>, r: nat, w: nat, len: nat, k: nat, m: nat)
    requires Bounded(buffer, r, w) && w <= r && len < |Between(buffer, r, w)| && m == Min(w, CHEAP_PREPEND)
    requires |buffer| - CHEAP_PREPEND <= r + len < |buffer| && k == r + len - (|buffer| - CHEAP_PREPEND)
    ensures k < w
    ensures var capacity := |buffer| - CHEAP_PREPEND;
            Between(buffer, r, w)[len..] == buffer[capacity + k..capacity + m] + buffer[m..w]
  {
    if w > CHEAP_PREPEND {
      assert Between(buffer, r, w)[len..] == buffer[r..][len..] + buffer[CHEAP_PREPEND..w];
    }
  }

  lemma SameFront(a: seq<byte>, b: seq<byte>, tail: seq<byte>)
    requires |a| == |b|
    ensures a + tail == b + tail <==> a == b
  {
    assert (a + tail)[..|a|] == a && (b + tail)[..|b|] == b;
  }

  // ----- putting bytes in

  /** Data may be copied from w up to the end of the vector and on from its start, or into the gap before r. */
  predicate HasRoom(buffer: seq<byte>, hasData: bool, r: nat, w: nat, n: nat)
  {
    && Bounded(buffer, r, w)
    && (!hasData ==> r == w == CHEAP_PREPEND && w + n <= |buffer|)
    && (hasData && w > r ==> w + n <= |buffer| || w + n - |buffer| + 2 * CHEAP_PREPEND <= r)
    && (hasData && w <= r ==> n == 0 || w + n + CHEAP_PREPEND <= r)
  }

  /** The vector with the data copied in, in two pieces if they overlap its end. */
  function Written(buffer: seq<byte>, hasData: bool, r: nat, w: nat, data: seq<byte>): (b: seq<byte>)
    requires HasRoom(buffer, hasData, r, w, |data|)
    ensures |b| == |buffer|
    ensures CHEAP_PREPEND <= w ==> b[..CHEAP_PREPEND] == buffer[..CHEAP_PREPEND]
  {
    if w > r && w + |data| > |buffer| then
      var first := |buffer| - w;
      Copied(Copied(buffer, w, data[..first]), CHEAP_PREPEND, data[first..])
    else Copied(buffer, w, data)
  }

  function Held(buffer: seq<byte>, hasData: bool, r: nat, w: nat): seq<byte>
    requires Bounded(buffer, r, w)
  {
    if hasData then Between(buffer, r, w) else []
  }

  /** In the ring state, a write index before the circle: data are copied there, but read behind the place that the
      index was folded from, so that up to the end of the vector they must happen to be there already. Otherwise, the
      index after the copy is folded past the read index. */
  predicate WriteLoses(buffer: seq<byte>, hasData: bool, r: nat, w: nat, data: seq<byte>)
    requires HasRoom(buffer, hasData, r, w, |data|)
  {
    var capacity := |buffer| - CHEAP_PREPEND;
    if hasData && w <= r then
      w < CHEAP_PREPEND &&
      var m := Min(|data|, CHEAP_PREPEND - w);
      buffer[capacity + w..capacity + w + m] != data[..m]
    else w + |data| > capacity + r
  }

  ghost predicate WriteKeeps(buffer: seq<byte>, hasData: bool, r: nat, w: nat, data: seq<byte>)
    requires HasRoom(buffer, hasData, r, w, |data|)
  {
    var after, v := Written(buffer, hasData, r, w, data), Fold(w + |data|, |buffer| - CHEAP_PREPEND);
    Bounded(after, r, v) && Held(after, hasData || data != [], r, v) == Held(buffer, hasData, r, w) + data
  }

  lemma WriteExact(buffer: seq<byte>, hasData: bool, r: nat, w: nat, data: seq<byte>)
    requires HasRoom(buffer, hasData, r, w, |data|)
    ensures Bounded(Written(buffer, hasData, r, w, data), r, Fold(w + |data|, |buffer| - CHEAP_PREPEND))
    ensures WriteKeeps(buffer, hasData, r, w, data) <==> !WriteLoses(buffer, hasData, r, w, data)
  {
    if data == [] {
      assert Written(buffer, hasData, r, w, data) == buffer;
      assert Held(buffer, hasData, r, w) + [] == Held(buffer, hasData, r, w);
      assert w + |data| <= |buffer| - CHEAP_PREPEND + r;
    } else if hasData && w <= r {
      if w < CHEAP_PREPEND {
        WriteBefore(buffer, r, w, data);
      } else {
        WriteGap(buffer, r, w, data);
      }
    } else if w + |data| > |buffer| {
      WriteSplit(buffer, r, w, data, |buffer| - w);
    } else {
      WriteOn(buffer, hasData, r, w, data);
    }
  }

  /** Copying up to the end of the vector at most. */
  lemma WriteOn(buffer: seq<byte>, hasData: bool, r: nat, w: nat, data: seq<byte>)
    requires HasRoom(buffer, hasData, r, w, |data|) && (hasData ==> w > r) && data != [] && w + |data| <= |buffer|
    ensures WriteKeeps(buffer, hasData, r, w, data) <==> !WriteLoses(buffer, hasData, r, w, data)
  {
    var capacity := |buffer| - CHEAP_PREPEND;
    var sum := w + |data|;
    CopiedFollows(buffer, r, w, data);
    assert Held(buffer, hasData, r, w) == buffer[r..w];
    var after, v := Copied(buffer, w, data), Fold(sum, capacity);
    if sum < capacity || sum - capacity <= r {
      assert Between(after, r, v) == after[r..sum];
    } else {
      assert |Between(after, r, v)| == v - r;
    }
  }

  /** Data that overlap the end of the vector go on at the start of the circle. */
  lemma WriteSplit(buffer: seq<byte>, r: nat, w: nat, data: seq<byte>, first: nat)
    requires HasRoom(buffer, true, r, w, |data|) && r < w && first == |buffer| - w < |data|
    ensures WriteKeeps(buffer, true, r, w, data) && !WriteLoses(buffer, true, r, w, data)
  {
    var b := Copied(buffer, w, data[..first]);
    var d := Copied(b, CHEAP_PREPEND, data[first..]);
    var n := CHEAP_PREPEND + |data| - first;
    CopiedFollows(buffer, r, w, data[..first]);
    assert d[r..] == b[r..] == buffer[r..w] + data[..first];
    assert d[CHEAP_PREPEND..n] == data[first..];
    assert data == data[..first] + data[first..];
  }

  /** In the ring state data are copied into the gap. */
  lemma WriteGap(buffer: seq<byte>, r: nat, w: nat, data: seq<byte>)
    requires HasRoom(buffer, true, r, w, |data|) && CHEAP_PREPEND <= w <= r && data != []
    ensures WriteKeeps(buffer, true, r, w, data)
  {
    hide Copied;
    var b := Copied(buffer, w, data);
    assert b[r..] == buffer[r..];
    assert b[CHEAP_PREPEND..w] == buffer[CHEAP_PREPEND..w];
    assert b[CHEAP_PREPEND..w + |data|] == b[CHEAP_PREPEND..w] + b[w..w + |data|];
    if w == CHEAP_PREPEND {
      assert buffer[r..] + [] == buffer[r..];
    }
  }

  /** Data copied to before the circle. */
  lemma WriteBefore(buffer: seq<byte>, r: nat, w: nat, data: seq<byte>)
    requires HasRoom(buffer, true, r, w, |data|) && w < CHEAP_PREPEND && w <= r && data != []
    ensures WriteKeeps(buffer, true, r, w, data) <==> !WriteLoses(buffer, true, r, w, data)
  {
    hide Copied, Between;
    var capacity := |buffer| - CHEAP_PREPEND;
    var m := Min(|data|, CHEAP_PREPEND - w);
    var c := Between(buffer, r, w);
    var stale := buffer[capacity + w..capacity + w + m];
    ReadBehind(buffer, r, w, data, m);
    assert data == data[..m] + data[m..];
    SameBack(c, stale + data[m..], data);
    SameFront(stale, data[..m], data[m..]);
  }

  /** What is read after data were copied to before the circle. */
  lemma ReadBehind(buffer: seq<byte>, r: nat, w: nat, data: seq<byte>, m: nat)
    requires HasRoom(buffer, true, r, w, |data|) && w < CHEAP_PREPEND && w <= r && data != []
    requires m == Min(|data|, CHEAP_PREPEND - w)
    ensures var at := |buffer| - CHEAP_PREPEND + w;
            Between(Copied(buffer, w, data), r, w + |data|) == Between(buffer, r, w) + (buffer[at..at + m] + data[m..])
  {
    hide Copied;
    var at := |buffer| - CHEAP_PREPEND + w;
    var b := Copied(buffer, w, data);
    SliceSplit(buffer, r, at, at + m);
    assert b[r..at + m] == buffer[r..at + m];
    if m < |data| {
      assert b[CHEAP_PREPEND..w + |data|] == b[w..w + |data|][m..];
      Regroup(buffer[r..at], buffer[at..at + m], data[m..]);
    } else {
      assert data[m..] == [] && buffer[at..at + m] + [] == buffer[at..at + m];
    }
  }

  lemma Regroup(a: seq<byte>, b: seq<byte>, c: seq<byte>)
    ensures a + b + c == a + (b + c)
  {
  }

  lemma SameBack(c: seq<byte>, a: seq<byte>, b: seq<byte>)
    ensures c + a == c + b <==> a == b
  {
    assert (c + a)[|c|..] == a && (c + b)[|c|..] == b;
  }

  // ----- indices in the circle

  /** As long as no index is before the circle, no append loses a byte. */
  lemma InCircleWrites(buffer: seq<byte>, hasData: bool, r: nat, w: nat, data: seq<byte>)
    requires HasRoom(buffer, hasData, r, w, |data|) && r >= CHEAP_PREPEND && w >= CHEAP_PREPEND
    ensures !WriteLoses(buffer, hasData, r, w, data)
  {
  }
}
