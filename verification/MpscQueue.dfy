/** The lock-free queue of many producers and one consumer, as interleaved atomic steps. A node is an
    address; address 0 is the null pointer; a freed address may be handed out again. */
module MpscQueue {
  import opened Options

  datatype Cell<+T> = Cell(next: nat, data: Option<T>)

  /** Where a producer stands inside enqueue: it has made its node, or it has also exchanged the head
      and not yet stored the link. A producer outside enqueue has no entry. */
  datatype Producer = Made(node: nat) | Exchanged(prev: nat, node: nat)

  /** Where the consumer stands inside dequeue: before it, with tail and next loaded, with the value
      moved out, or with the tail stored and the old one still to be deleted. */
  datatype Consumer = Ready | Loaded(was: nat, next: nat) | Taken(was: nat, next: nat) | Advanced(was: nat)

  /** The shared memory and the threads' registers, and three histories that no step reads: the nodes in
      exchange order from the tail on, and the values enqueued (by exchange) and dequeued so far. */
  datatype State<+T> = State(
    heap: map<nat, Cell<T>>, head: nat, tail: nat,
    producers: map<nat, Producer>, consumer: Consumer,
    chain: seq<nat>, enqueued: seq<T>, dequeued: seq<T>)

  /** One atomic step: of producer p, or of the consumer. A new node's address is the allocator's choice. */
  datatype Action<+T> = Make(p: nat, value: T, node: nat) | Exchange(p: nat) | Store(p: nat)
                      | Load | Take | Advance | Free

  function Init<T>(dummy: nat): State<T>
    requires dummy != 0
  {
    State(map[dummy := Cell(0, None)], dummy, dummy, map[], Ready, [dummy], [], [])
  }

  /** The thread stands where this step comes next. */
  predicate Due<T>(s: State<T>, a: Action<T>)
  {
    match a
    case Make(p, v, n) => p !in s.producers && n != 0 && n !in s.heap
    case Exchange(p) => p in s.producers && s.producers[p].Made?
    case Store(p) => p in s.producers && s.producers[p].Exchanged?
    case Load => s.consumer.Ready?
    case Take => s.consumer.Loaded?
    case Advance => s.consumer.Taken?
    case Free => s.consumer.Advanced?
  }

  /** The node that a step dereferences or deletes, if any. */
  function Touched<T>(s: State<T>, a: Action<T>): Option<nat>
    requires Due(s, a)
  {
    match a
    case Make(_, _, _) => None
    case Exchange(_) => None
    case Store(p) => Some(s.producers[p].prev)
    case Load => Some(s.tail)
    case Take => Some(s.consumer.next)
    case Advance => None
    case Free => Some(s.consumer.was)
  }

  /** The step touches no node that is not allocated, and moves no value out twice. */
  predicate Safe<T>(s: State<T>, a: Action<T>)
    requires Due(s, a)
  {
    && (Touched(s, a).Some? ==> Touched(s, a).value in s.heap)
    && (a.Exchange? ==> s.producers[a.p].node in s.heap && s.heap[s.producers[a.p].node].data.Some?)
    && (a.Take? ==> s.consumer.next in s.heap && s.heap[s.consumer.next].data.Some?)
  }

  function Step<T>(s: State<T>, a: Action<T>): State<T>
    requires Due(s, a) && Safe(s, a)
  {
    match a
    case Make(p, v, n) => s.(heap := s.heap[n := Cell(0, Some(v))], producers := s.producers[p := Made(n)])
    case Exchange(p) =>
      var n := s.producers[p].node;
      s.(head := n, producers := s.producers[p := Exchanged(s.head, n)],
      chain := s.chain + [n], enqueued := s.enqueued + [s.heap[n].data.value])
    case Store(p) =>
      var prev := s.producers[p].prev;
      s.(heap := s.heap[prev := s.heap[prev].(next := s.producers[p].node)], producers := s.producers - {p})
    case Load =>
      var next := s.heap[s.tail].next;
      if next == 0 then s else s.(consumer := Loaded(s.tail, next))
    case Take =>
      var n := s.consumer.next;
      s.(heap := s.heap[n := s.heap[n].(data := None)], consumer := Taken(s.consumer.was, n),
      dequeued := s.dequeued + [s.heap[n].data.value])
    case Advance =>
      s.(tail := s.consumer.next, consumer := Advanced(s.consumer.was),
      chain := if s.chain == [] then [] else s.chain[1..])
    case Free => s.(heap := s.heap - {s.consumer.was}, consumer := Ready)
  }

  // ----- the invariant

  /** Where the values still queued begin in the chain: after the dummy, or after the one just taken. */
  function FirstQueued<T>(s: State<T>): nat { if s.consumer.Taken? then 2 else 1 }

  ghost function ValuesOf<T>(heap: map<nat, Cell<T>>, ns: seq<nat>): (vs: seq<T>)
    requires forall i | 0 <= i < |ns| :: ns[i] in heap && heap[ns[i]].data.Some?
    ensures |vs| == |ns| && forall i | 0 <= i < |ns| :: vs[i] == heap[ns[i]].data.value
  {
    seq(|ns|, i requires 0 <= i < |ns| => heap[ns[i]].data.value)
  }

  ghost predicate Apart(ns: seq<nat>) { forall i, j | 0 <= i < j < |ns| :: ns[i] != ns[j] }

  ghost predicate ChainOk<T>(s: State<T>)
  {
    && s.chain != [] && s.chain[|s.chain| - 1] == s.head && s.chain[0] == s.tail
    && (forall i | 0 <= i < |s.chain| :: s.chain[i] in s.heap && s.chain[i] != 0)
    && Apart(s.chain)
    && s.heap[s.head].next == 0
  }

  /** Producer p is between its exchange and its store, and its link is the one missing after chain[i]. */
  ghost predicate Owes<T>(s: State<T>, p: nat, i: nat)
  {
    && i + 1 < |s.chain| && p in s.producers && s.producers[p] == Exchanged(s.chain[i], s.chain[i + 1])
    && s.chain[i] in s.heap && s.heap[s.chain[i]].next == 0
  }

  ghost predicate LinkOk<T>(s: State<T>, i: nat)
    requires i + 1 < |s.chain| && s.chain[i] in s.heap
  {
    s.heap[s.chain[i]].next == s.chain[i + 1] || exists p :: Owes(s, p, i)
  }

  ghost predicate LinksOk<T>(s: State<T>)
    requires ChainOk(s)
  {
    && (forall i | 0 <= i < |s.chain| - 1 :: LinkOk(s, i))
    && (forall p | p in s.producers && s.producers[p].Exchanged? :: exists i: nat :: Owes(s, p, i))
    && PrevsApart(s.producers)
  }

  ghost predicate PrevsApart(producers: map<nat, Producer>)
  {
    forall p, q | p in producers && q in producers && p != q && producers[p].Exchanged? && producers[q].Exchanged? ::
      producers[p].prev != producers[q].prev
  }

  ghost predicate NodesApart(producers: map<nat, Producer>)
  {
    forall p, q | p in producers && q in producers && p != q && producers[p].Made? && producers[q].Made? ::
      producers[p].node != producers[q].node
  }

  ghost predicate MadeOk<T>(s: State<T>)
  {
    && (forall p | p in s.producers && s.producers[p].Made? ::
          var n := s.producers[p].node;
          n in s.heap && n != 0 && n !in s.chain && s.heap[n].next == 0 && s.heap[n].data.Some?
          && s.consumer != Advanced(n))
    && NodesApart(s.producers)
  }

  ghost predicate ConsumerOk<T>(s: State<T>)
    requires ChainOk(s)
  {
    match s.consumer
    case Ready => true
    case Loaded(was, next) => |s.chain| >= 2 && was == s.tail && next == s.chain[1] == s.heap[was].next
    case Taken(was, next) => |s.chain| >= 2 && was == s.tail && next == s.chain[1] == s.heap[was].next
    case Advanced(was) => was in s.heap && was != 0 && was !in s.chain
  }

  /** Nothing is allocated but the chain, the nodes producers have made, and the tail about to be deleted. */
  ghost predicate NoLeak<T>(s: State<T>)
  {
    forall n | n in s.heap :: n in s.chain || s.consumer == Advanced(n) || IsMade(s, n)
  }

  ghost predicate IsMade<T>(s: State<T>, n: nat)
  {
    exists p :: p in s.producers && s.producers[p] == Made(n)
  }

  ghost predicate ValuesOk<T>(s: State<T>)
  {
    && FirstQueued(s) <= |s.chain|
    && (forall i | FirstQueued(s) <= i < |s.chain| :: s.chain[i] in s.heap && s.heap[s.chain[i]].data.Some?)
    && s.enqueued == s.dequeued + ValuesOf(s.heap, s.chain[FirstQueued(s)..])
  }

  ghost predicate Inv<T>(s: State<T>)
  {
    ChainOk(s) && LinksOk(s) && MadeOk(s) && ConsumerOk(s) && NoLeak(s) && ValuesOk(s)
  }

  lemma InitInv<T>(dummy: nat)
    requires dummy != 0
    ensures Inv(Init<T>(dummy))
  {
  }

  /** In a reachable state every step that a thread can take next touches only allocated nodes. */
  lemma InvSafe<T>(s: State<T>, a: Action<T>)
    requires Inv(s) && Due(s, a)
    ensures Safe(s, a)
  {
    match a
    case Store(p) =>
      var i: nat :| Owes(s, p, i);
    case _ =>
  }

  // ----- every step keeps the invariant

  lemma ValuesSame<T>(h: map<nat, Cell<T>>, k: map<nat, Cell<T>>, ns: seq<nat>)
    requires forall i | 0 <= i < |ns| :: ns[i] in h && h[ns[i]].data.Some?
    requires forall i | 0 <= i < |ns| :: ns[i] in k && k[ns[i]].data == h[ns[i]].data
    ensures ValuesOf(k, ns) == ValuesOf(h, ns)
  {
  }

  /** The values are unaffected by a step that leaves the chain and its data alone. */
  lemma ValuesKept<T>(s: State<T>, t: State<T>)
    requires ValuesOk(s) && t.chain == s.chain && FirstQueued(t) == FirstQueued(s)
    requires t.enqueued == s.enqueued && t.dequeued == s.dequeued
    requires forall i | 0 <= i < |s.chain| ::
               s.chain[i] in s.heap && s.chain[i] in t.heap && t.heap[s.chain[i]].data == s.heap[s.chain[i]].data
    ensures ValuesOk(t)
  {
    var ns := s.chain[FirstQueued(s)..];
    assert forall i | 0 <= i < |ns| :: ns[i] == s.chain[i + FirstQueued(s)];
    ValuesSame(s.heap, t.heap, ns);
  }

  /** The links are unaffected by a step that leaves the chain and its next fields alone. */
  lemma LinksKept<T>(s: State<T>, t: State<T>)
    requires ChainOk(s) && LinksOk(s) && ChainOk(t) && t.chain == s.chain
    requires forall i | 0 <= i < |s.chain| :: t.heap[s.chain[i]].next == s.heap[s.chain[i]].next
    requires forall p | p in s.producers && s.producers[p].Exchanged? ::
               p in t.producers && t.producers[p] == s.producers[p]
    requires forall p | p in t.producers && t.producers[p].Exchanged? ::
               p in s.producers && t.producers[p] == s.producers[p]
    ensures LinksOk(t)
  {
    forall i | 0 <= i < |t.chain| - 1 ensures LinkOk(t, i) {
      assert LinkOk(s, i);
      if q :| Owes(s, q, i) {
        assert Owes(t, q, i);
      }
    }
    forall q | q in t.producers && t.producers[q].Exchanged? ensures exists i: nat :: Owes(t, q, i) {
      var i: nat :| Owes(s, q, i);
      assert Owes(t, q, i);
    }
  }

  /** The allocated nodes are accounted for as before. */
  lemma LeakKept<T>(s: State<T>, t: State<T>)
    requires NoLeak(s) && t.chain == s.chain && t.heap.Keys == s.heap.Keys
    requires forall p | p in s.producers && s.producers[p].Made? :: p in t.producers && t.producers[p] == s.producers[p]
    requires s.consumer.Advanced? ==> t.consumer == s.consumer
    ensures NoLeak(t)
  {
    forall k | k in t.heap ensures k in t.chain || t.consumer == Advanced(k) || IsMade(t, k) {
      assert k in s.heap.Keys;
      if IsMade(s, k) {
        var q :| q in s.producers && s.producers[q] == Made(k);
        assert t.producers[q] == Made(k);
      }
    }
  }

  lemma MakeLeak<T>(s: State<T>, p: nat, v: T, n: nat)
    requires NoLeak(s) && Due(s, Make(p, v, n))
    ensures NoLeak(Step(s, Make(p, v, n)))
  {
    var t := Step(s, Make(p, v, n));
    forall k | k in t.heap ensures k in t.chain || t.consumer == Advanced(k) || IsMade(t, k) {
      if k == n {
        assert t.producers[p] == Made(n);
      } else if IsMade(s, k) {
        var q :| q in s.producers && s.producers[q] == Made(k);
        assert t.producers[q] == Made(k);
      }
    }
  }

  lemma MakeMade<T>(s: State<T>, p: nat, v: T, n: nat)
    requires ChainOk(s) && ConsumerOk(s) && MadeOk(s) && Due(s, Make(p, v, n))
    ensures MadeOk(Step(s, Make(p, v, n)))
  {
    hide Apart;
  }

  lemma MakeInv<T>(s: State<T>, p: nat, v: T, n: nat)
    requires Inv(s) && Due(s, Make(p, v, n))
    ensures Inv(Step(s, Make(p, v, n)))
  {
    hide LinksOk, ValuesOk, Apart, NoLeak, MadeOk;
    var t := Step(s, Make(p, v, n));
    LinksKept(s, t);
    ValuesKept(s, t);
    MakeLeak(s, p, v, n);
    MakeMade(s, p, v, n);
  }

  lemma ExchangeLinks<T>(s: State<T>, p: nat)
    requires Inv(s) && Due(s, Action<T>.Exchange(p))
    ensures Safe(s, Action<T>.Exchange(p))
    ensures ChainOk(Step(s, Action<T>.Exchange(p))) && LinksOk(Step(s, Action<T>.Exchange(p)))
  {
    hide ValuesOk, ConsumerOk, NoLeak;
    var t := Step(s, Action<T>.Exchange(p));
    forall i | 0 <= i < |t.chain| - 1 ensures LinkOk(t, i) {
      if i == |s.chain| - 1 {
        assert Owes(t, p, i);
      } else {
        assert LinkOk(s, i);
        if q :| Owes(s, q, i) {
          assert Owes(t, q, i);
        }
      }
    }
    forall q | q in t.producers && t.producers[q].Exchanged? ensures exists i: nat :: Owes(t, q, i) {
      if q == p {
        assert Owes(t, p, |s.chain| - 1);
      } else {
        var i: nat :| Owes(s, q, i);
        assert Owes(t, q, i);
      }
    }
    forall q | q in t.producers && q != p && t.producers[q].Exchanged? ensures t.producers[q].prev != s.head {
      var i: nat :| Owes(s, q, i);
    }
  }

  lemma ExchangeInv<T>(s: State<T>, p: nat)
    requires Inv(s) && Due(s, Action<T>.Exchange(p))
    ensures Safe(s, Action<T>.Exchange(p)) && Inv(Step(s, Action<T>.Exchange(p)))
  {
    hide LinksOk, ValuesOk, Apart;
    ExchangeLinks(s, p);
    var t, n := Step(s, Action<T>.Exchange(p)), s.producers[p].node;
    forall k | k in t.heap ensures k in t.chain || t.consumer == Advanced(k) || IsMade(t, k) {
      if k in s.chain {
        assert k in t.chain;
      } else if k == n {
        assert t.chain[|s.chain|] == n;
      } else if IsMade(s, k) {
        var q :| q in s.producers && s.producers[q] == Made(k);
        assert t.producers[q] == Made(k);
      }
    }
    ExchangeValues(s, t, n);
  }

  lemma ExchangeValues<T>(s: State<T>, t: State<T>, n: nat)
    requires ValuesOk(s) && t.chain == s.chain + [n] && t.heap == s.heap
    requires n in s.heap && s.heap[n].data.Some? && t.consumer == s.consumer
    requires t.enqueued == s.enqueued + [s.heap[n].data.value] && t.dequeued == s.dequeued
    ensures ValuesOk(t)
  {
    var f := FirstQueued(s);
    DropSnoc(s.chain, n, f);
    var ns := s.chain[f..];
    forall i | 0 <= i < |ns| ensures ns[i] in s.heap && s.heap[ns[i]].data.Some? {
      assert ns[i] == s.chain[i + f];
    }
    assert ValuesOf(t.heap, ns + [n]) == ValuesOf(s.heap, ns) + [s.heap[n].data.value];
  }

  lemma DropSnoc<A>(xs: seq<A>, x: A, f: nat)
    requires f <= |xs|
    ensures (xs + [x])[f..] == xs[f..] + [x]
  {
  }

  lemma StoreInv<T>(s: State<T>, p: nat)
    requires Inv(s) && Due(s, Action<T>.Store(p))
    ensures Safe(s, Action<T>.Store(p)) && Inv(Step(s, Action<T>.Store(p)))
  {
    hide ValuesOk, LinkOk, NoLeak, Apart, NodesApart, PrevsApart, LinksOk;
    var at := StoreAt(s, p);
    var t := Step(s, Action<T>.Store(p));
    ApartMinus(s.producers, p);
    NotLast(s.chain, at);
    ValuesKept(s, t);
    StoreLinks(s, p, at);
    LeakKept(s, t);
  }

  /** Where the missing link is. */
  lemma StoreAt<T>(s: State<T>, p: nat) returns (at: nat)
    requires ChainOk(s) && LinksOk(s) && Due(s, Action<T>.Store(p))
    ensures Owes(s, p, at) && PrevsApart(s.producers)
  {
    at :| Owes(s, p, at);
  }

  lemma StoreLinks<T>(s: State<T>, p: nat, at: nat)
    requires ChainOk(s) && LinksOk(s) && Owes(s, p, at) && Due(s, Action<T>.Store(p)) && Safe(s, Action<T>.Store(p))
    requires ChainOk(Step(s, Action<T>.Store(p))) && PrevsApart(s.producers - {p})
    requires forall q | q in s.producers && q != p && s.producers[q].Exchanged? ::
               s.producers[q].prev != s.producers[p].prev
    ensures LinksOk(Step(s, Action<T>.Store(p)))
  {
    hide Apart, LinkOk, PrevsApart;
    var t := Step(s, Action<T>.Store(p));
    forall i | 0 <= i < |t.chain| - 1 ensures LinkOk(t, i) {
      StoreLink(s, p, at, i);
    }
    forall q | q in t.producers && t.producers[q].Exchanged? ensures exists i: nat :: Owes(t, q, i) {
      var i: nat :| Owes(s, q, i);
      assert Owes(t, q, i);
    }
  }

  lemma NotLast(ns: seq<nat>, i: nat)
    requires Apart(ns) && i + 1 < |ns|
    ensures ns[i] != ns[|ns| - 1]
  {
  }

  lemma ApartMinus(producers: map<nat, Producer>, p: nat)
    requires NodesApart(producers) && PrevsApart(producers)
    ensures NodesApart(producers - {p}) && PrevsApart(producers - {p})
    ensures forall q | q in producers && q != p && p in producers && producers[p].Exchanged?
              && producers[q].Exchanged? ::
              producers[q].prev != producers[p].prev
  {
  }

  lemma StoreLink<T>(s: State<T>, p: nat, at: nat, i: nat)
    requires ChainOk(s) && LinksOk(s) && Owes(s, p, at) && i < |s.chain| - 1
    ensures Due(s, Action<T>.Store(p)) && Safe(s, Action<T>.Store(p))
    ensures s.chain[i] in Step(s, Action<T>.Store(p)).heap && LinkOk(Step(s, Action<T>.Store(p)), i)
  {
    var t := Step(s, Action<T>.Store(p));
    assert LinkOk(s, i);
    if i != at && s.heap[s.chain[i]].next != s.chain[i + 1] {
      var q :| Owes(s, q, i);
      assert Owes(t, q, i);
    }
  }

  /** The consumer's load: with the link after the dummy missing, dequeue reports nothing. */
  lemma LoadInv<T>(s: State<T>)
    requires Inv(s) && Due(s, Action<T>.Load)
    ensures Safe(s, Action<T>.Load) && Inv(Step(s, Action<T>.Load))
  {
    hide ValuesOk, LinksOk, NoLeak, Apart, NodesApart;
    var t := Step(s, Action<T>.Load);
    LinksKept(s, t);
    ValuesKept(s, t);
    if s.heap[s.tail].next != 0 {
      LoadSecond(s);
    }
    LeakKept(s, t);
  }

  lemma LoadSecond<T>(s: State<T>)
    requires ChainOk(s) && LinksOk(s) && s.heap[s.tail].next != 0
    ensures |s.chain| >= 2 && s.heap[s.tail].next == s.chain[1]
  {
    assert |s.chain| >= 2;
    assert LinkOk(s, 0);
  }

  lemma TakeInv<T>(s: State<T>)
    requires Inv(s) && Due(s, Action<T>.Take)
    ensures Safe(s, Action<T>.Take) && Inv(Step(s, Action<T>.Take))
  {
    hide LinksOk, ValuesOk, NoLeak, NodesApart, Safe;
    InvSafe(s, Action<T>.Take);
    var t := Step(s, Action<T>.Take);
    LinksKept(s, t);
    TakeValues(s);
    LeakKept(s, t);
  }

  lemma TakeValues<T>(s: State<T>)
    requires ChainOk(s) && ConsumerOk(s) && ValuesOk(s) && Due(s, Action<T>.Take) && Safe(s, Action<T>.Take)
    ensures ValuesOk(Step(s, Action<T>.Take))
  {
    var t := Step(s, Action<T>.Take);
    ThirdOn(s.chain);
    TakenValues(s, t, s.chain[1], s.chain[2..]);
  }

  lemma ThirdOn(ns: seq<nat>)
    requires Apart(ns) && |ns| >= 2
    ensures ns[1..] == [ns[1]] + ns[2..]
    ensures forall i | 0 <= i < |ns[2..]| :: ns[2..][i] == ns[i + 2] && ns[2..][i] != ns[1]
  {
  }

  lemma TakenValues<T>(s: State<T>, t: State<T>, n: nat, ns: seq<nat>)
    requires ValuesOk(s) && FirstQueued(s) == 1 && s.chain[1..] == [n] + ns && s.chain[2..] == ns
    requires n in s.heap && s.heap[n].data.Some? && forall i | 0 <= i < |ns| :: ns[i] != n
    requires t.heap == s.heap[n := s.heap[n].(data := None)] && t.chain == s.chain && t.consumer.Taken?
    requires t.enqueued == s.enqueued && t.dequeued == s.dequeued + [s.heap[n].data.value]
    ensures ValuesOk(t)
  {
    hide ValuesOf;
    forall i | 0 <= i < |ns| ensures ns[i] in s.heap && s.heap[ns[i]].data.Some? && t.heap[ns[i]] == s.heap[ns[i]] {
      assert ns[i] == s.chain[2..][i];
    }
    TakeFirst(s.heap, n, ns);
    ValuesSame(s.heap, t.heap, ns);
    forall i | 2 <= i < |t.chain| ensures t.chain[i] in t.heap && t.heap[t.chain[i]].data.Some? {
      assert t.chain[i] == ns[i - 2];
    }
    MoveFirst(s.enqueued, s.dequeued, ValuesOf(s.heap, [n] + ns), s.heap[n].data.value, ValuesOf(s.heap, ns));
  }

  lemma MoveFirst<A>(e: seq<A>, d: seq<A>, w: seq<A>, v: A, vs: seq<A>)
    requires e == d + w && w == [v] + vs
    ensures e == d + [v] + vs
  {
  }

  lemma TakeFirst<T>(h: map<nat, Cell<T>>, n: nat, ns: seq<nat>)
    requires n in h && h[n].data.Some? && forall i | 0 <= i < |ns| :: ns[i] in h && h[ns[i]].data.Some?
    ensures ValuesOf(h, [n] + ns) == [h[n].data.value] + ValuesOf(h, ns)
  {
  }

  lemma AdvanceChain<T>(s: State<T>)
    requires Inv(s) && Due(s, Action<T>.Advance)
    ensures var t := Step(s, Action<T>.Advance); ChainOk(t) && ConsumerOk(t) && MadeOk(t)
  {
    hide LinksOk, ValuesOk, NoLeak, NodesApart, Apart;
    var t := Step(s, Action<T>.Advance);
    ApartRest(s.chain);
    assert forall i | 0 <= i < |t.chain| :: t.chain[i] == s.chain[i + 1];
  }

  lemma ApartRest(ns: seq<nat>)
    requires Apart(ns) && ns != []
    ensures Apart(ns[1..]) && ns[0] !in ns[1..]
  {
    assert forall i | 0 <= i < |ns| - 1 :: ns[1..][i] == ns[i + 1];
  }

  lemma AdvanceLinks<T>(s: State<T>)
    requires Inv(s) && Due(s, Action<T>.Advance) && ChainOk(Step(s, Action<T>.Advance))
    ensures LinksOk(Step(s, Action<T>.Advance))
  {
    hide LinkOk, ValuesOk, NoLeak, NodesApart, PrevsApart, Apart, MadeOk;
    var t := Step(s, Action<T>.Advance);
    forall i | 0 <= i < |t.chain| - 1 ensures LinkOk(t, i) {
      AdvanceLink(s, i);
    }
    forall q | q in t.producers && t.producers[q].Exchanged? ensures exists i: nat :: Owes(t, q, i) {
      var i: nat :| Owes(s, q, i);
      assert Owes(t, q, i - 1);
    }
  }

  lemma AdvanceInv<T>(s: State<T>)
    requires Inv(s) && Due(s, Action<T>.Advance)
    ensures Safe(s, Action<T>.Advance) && Inv(Step(s, Action<T>.Advance))
  {
    hide LinksOk, ValuesOk, MadeOk, Apart;
    var t := Step(s, Action<T>.Advance);
    AdvanceChain(s);
    AdvanceLinks(s);
    forall k | k in t.heap ensures k in t.chain || t.consumer == Advanced(k) || IsMade(t, k) {
      if IsMade(s, k) {
        var q :| q in s.producers && s.producers[q] == Made(k);
        assert t.producers[q] == Made(k);
      } else {
        var i :| 0 <= i < |s.chain| && s.chain[i] == k;
        if i > 0 {
          assert t.chain[i - 1] == k;
        }
      }
    }
    AdvanceValues(s, t);
  }

  lemma AdvanceLink<T>(s: State<T>, i: nat)
    requires Inv(s) && Due(s, Action<T>.Advance) && i < |s.chain| - 2
    ensures s.chain[1..][i] in s.heap && LinkOk(Step(s, Action<T>.Advance), i)
  {
    var t := Step(s, Action<T>.Advance);
    var j := i + 1;
    assert LinkOk(s, j);
    if q :| Owes(s, q, j) {
      assert Owes(t, q, i);
    }
  }

  lemma AdvanceValues<T>(s: State<T>, t: State<T>)
    requires ValuesOk(s) && s.consumer.Taken? && t.chain == s.chain[1..] && t.heap == s.heap
    requires t.consumer.Advanced? && t.enqueued == s.enqueued && t.dequeued == s.dequeued
    ensures ValuesOk(t)
  {
    assert s.chain[1..][1..] == s.chain[2..];
  }

  lemma FreeInv<T>(s: State<T>)
    requires Inv(s) && Due(s, Action<T>.Free)
    ensures Safe(s, Action<T>.Free) && Inv(Step(s, Action<T>.Free))
  {
    hide LinksOk, ValuesOk;
    var t := Step(s, Action<T>.Free);
    FreeLinks(s);
    ValuesKept(s, t);
    forall k | k in t.heap ensures k in t.chain || t.consumer == Advanced(k) || IsMade(t, k) {
      if IsMade(s, k) {
        var q :| q in s.producers && s.producers[q] == Made(k);
        assert t.producers[q] == Made(k);
      }
    }
  }

  lemma FreeLinks<T>(s: State<T>)
    requires Inv(s) && Due(s, Action<T>.Free)
    ensures Safe(s, Action<T>.Free) && ChainOk(Step(s, Action<T>.Free)) && LinksOk(Step(s, Action<T>.Free))
  {
    hide LinksOk, ValuesOk;
    LinksKept(s, Step(s, Action<T>.Free));
  }

  /** Every step of every thread keeps the invariant. */
  lemma StepInv<T>(s: State<T>, a: Action<T>)
    requires Inv(s) && Due(s, a)
    ensures Safe(s, a) && Inv(Step(s, a))
  {
    hide Inv, Step, Safe;
    match a
    case Make(p, v, n) =>
      InvSafe(s, a);
      MakeInv(s, p, v, n);
    case Exchange(p) => ExchangeInv(s, p);
    case Store(p) => StoreInv(s, p);
    case Load => LoadInv(s);
    case Take => TakeInv(s);
    case Advance => AdvanceInv(s);
    case Free => FreeInv(s);
  }

  // ----- every interleaving

  /** What a schedule of steps leads to: a crash if a step touches a node that is not allocated, nothing
      if the schedule asks a thread for a step it is not at, and otherwise a state. */
  datatype Outcome<+T> = Crash | NotASchedule | At(state: State<T>)

  function Exec<T>(s: State<T>, schedule: seq<Action<T>>): Outcome<T>
    decreases |schedule|
  {
    if schedule == [] then At(s)
    else if !Due(s, schedule[0]) then NotASchedule
    else if !Safe(s, schedule[0]) then Crash
    else Exec(Step(s, schedule[0]), schedule[1..])
  }

  /** The values enqueued and not yet dequeued, in the order of the nodes. */
  ghost function Queued<T>(s: State<T>): seq<T>
    requires ValuesOk(s)
  {
    ValuesOf(s.heap, s.chain[FirstQueued(s)..])
  }

  lemma {:induction false} ExecInv<T>(s: State<T>, schedule: seq<Action<T>>)
    requires Inv(s)
    ensures !Exec(s, schedule).Crash?
    ensures Exec(s, schedule).At? ==> Inv(Exec(s, schedule).state)
    decreases |schedule|
  {
    hide Inv, Safe, Step;
    if schedule != [] && Due(s, schedule[0]) {
      StepInv(s, schedule[0]);
      ExecInv(Step(s, schedule[0]), schedule[1..]);
    }
  }

  // ----- what was given to enqueue

  /** The value that each producer gave to the enqueue it is in. */
  function Giving<T>(giving: map<nat, T>, a: Action<T>): map<nat, T>
  {
    if a.Make? then giving[a.p := a.value] else giving
  }

  /** The values given to enqueue, in the order of the head exchanges, by the schedule alone. */
  function Given<T>(schedule: seq<Action<T>>, giving: map<nat, T>): seq<T>
    decreases |schedule|
  {
    if schedule == [] then []
    else
      var rest := Given(schedule[1..], Giving(giving, schedule[0]));
      if schedule[0].Exchange? && schedule[0].p in giving then [giving[schedule[0].p]] + rest else rest
  }

  /** A node that a producer has made holds what the producer gave. */
  ghost predicate Holds<T>(s: State<T>, giving: map<nat, T>)
  {
    forall p | p in s.producers && s.producers[p].Made? ::
      p in giving && s.producers[p].node in s.heap && s.heap[s.producers[p].node].data == Some(giving[p])
  }

  lemma StepHolds<T>(s: State<T>, a: Action<T>, giving: map<nat, T>)
    requires Inv(s) && Due(s, a) && Safe(s, a) && Holds(s, giving)
    ensures Holds(Step(s, a), Giving(giving, a))
    ensures a.Exchange? ==> a.p in giving && Step(s, a).enqueued == s.enqueued + [giving[a.p]]
    ensures !a.Exchange? ==> Step(s, a).enqueued == s.enqueued
  {
    hide LinksOk, ValuesOk, NoLeak, Apart;
    if a.Store? {
      StoreTouchesChain(s, a.p);
    }
  }

  /** The node that a store writes to is in the chain, and so no producer's. */
  lemma StoreTouchesChain<T>(s: State<T>, p: nat)
    requires Inv(s) && Due(s, Action<T>.Store(p))
    ensures s.producers[p].prev in s.chain
  {
    var i: nat :| Owes(s, p, i);
  }

  lemma {:induction false} ExecGiven<T>(s: State<T>, schedule: seq<Action<T>>, giving: map<nat, T>)
    requires Inv(s) && Holds(s, giving) && Exec(s, schedule).At?
    ensures Exec(s, schedule).state.enqueued == s.enqueued + Given(schedule, giving)
    decreases |schedule|
  {
    hide Inv, Safe, Step, Holds;
    if schedule == [] {
      assert s.enqueued + [] == s.enqueued;
    } else {
      var a, t := schedule[0], Step(s, schedule[0]);
      StepInv(s, a);
      StepHolds(s, a, giving);
      ExecGiven(t, schedule[1..], Giving(giving, a));
      var rest := Given(schedule[1..], Giving(giving, a));
      if a.Exchange? {
        assert t.enqueued + rest == s.enqueued + ([giving[a.p]] + rest);
      }
    }
  }

  /** Under every interleaving no step touches a deleted node, and the values dequeued so far followed by
      the values still queued are the values given to enqueue, in the order of the head exchanges. */
  lemma FifoUnderEveryInterleaving<T>(dummy: nat, schedule: seq<Action<T>>)
    requires dummy != 0
    ensures !Exec(Init<T>(dummy), schedule).Crash?
    ensures Exec(Init<T>(dummy), schedule).At? ==>
      var t := Exec(Init<T>(dummy), schedule).state;
      ValuesOk(t) && t.dequeued + Queued(t) == Given(schedule, map[]) == t.enqueued
  {
    InitInv<T>(dummy);
    ExecInv(Init<T>(dummy), schedule);
    if Exec(Init<T>(dummy), schedule).At? {
      ExecGiven(Init<T>(dummy), schedule, map[]);
    }
  }

  /** No thread is ever held up: a producer outside enqueue can go through it, and the consumer through dequeue,
      which gives the first value not dequeued yet, or reports an empty queue and changes nothing. */
  lemma ThreadsProceed<T>(s: State<T>, p: nat, v: T, n: nat)
    requires Inv(s)
    ensures p !in s.producers && n != 0 && n !in s.heap ==>
      var r := Exec(s, [Make(p, v, n), Exchange(p), Store(p)]);
      r.At? && r.state.enqueued == s.enqueued + [v] && r.state.producers == s.producers
    ensures s.consumer.Ready? && s.heap[s.tail].next == 0 ==> Exec(s, [Load]) == At(s)
    ensures s.consumer.Ready? && s.heap[s.tail].next != 0 ==>
      var r := Exec(s, [Load, Take, Advance, Free]);
      && r.At? && r.state.consumer.Ready? && |s.dequeued| < |s.enqueued|
      && r.state.dequeued == s.dequeued + [s.enqueued[|s.dequeued|]] && s.tail !in r.state.heap
  {
    if p !in s.producers && n != 0 && n !in s.heap {
      ProducerProceeds(s, p, v, n);
    }
    if s.consumer.Ready? {
      InvSafe(s, Action<T>.Load);
      assert [Action<T>.Load][1..] == [];
      if s.heap[s.tail].next != 0 {
        ConsumerProceeds(s);
      }
    }
  }

  lemma ProducerProceeds<T>(s: State<T>, p: nat, v: T, n: nat)
    requires Inv(s) && p !in s.producers && n != 0 && n !in s.heap
    ensures var r := Exec(s, [Make(p, v, n), Exchange(p), Store(p)]);
            r.At? && r.state.enqueued == s.enqueued + [v] && r.state.producers == s.producers
  {
    hide Inv;
    var a, b, c := Make(p, v, n), Action<T>.Exchange(p), Action<T>.Store(p);
    assert [a, b, c][1..] == [b, c] && [b, c][1..] == [c] && [c][1..] == [];
    StepInv(s, a);
    var s1 := Step(s, a);
    StepInv(s1, b);
    var s2 := Step(s1, b);
    StepInv(s2, c);
    assert s1.producers[p := Exchanged(s1.head, n)] - {p} == s.producers;
    assert Exec(s2, [c]) == At(Step(s2, c));
    assert Exec(s1, [b, c]) == Exec(s2, [c]);
  }

  lemma ConsumerProceeds<T>(s: State<T>)
    requires Inv(s) && s.consumer.Ready? && s.tail in s.heap && s.heap[s.tail].next != 0
    ensures var r := Exec(s, [Load, Take, Advance, Free]);
            && r.At? && r.state.consumer.Ready? && |s.dequeued| < |s.enqueued|
            && r.state.dequeued == s.dequeued + [s.enqueued[|s.dequeued|]] && s.tail !in r.state.heap
  {
    hide Inv;
    var l: seq<Action<T>> := [Load, Take, Advance, Free];
    assert l[1..][1..] == l[2..] && l[2..][1..] == l[3..] && l[3..][1..] == [];
    StepInv(s, Action<T>.Load);
    var s1 := Step(s, Action<T>.Load);
    TakesInOrder(s1);
    StepInv(s1, Action<T>.Take);
    var s2 := Step(s1, Action<T>.Take);
    StepInv(s2, Action<T>.Advance);
    var s3 := Step(s2, Action<T>.Advance);
    StepInv(s3, Action<T>.Free);
    assert Exec(s3, l[3..]) == At(Step(s3, Action<T>.Free));
    assert Exec(s2, l[2..]) == Exec(s3, l[3..]);
    assert Exec(s1, l[1..]) == Exec(s2, l[2..]);
  }

  /** No producer is between its exchange and its store. */
  predicate Linked<T>(s: State<T>)
  {
    forall p | p in s.producers :: !s.producers[p].Exchanged?
  }

  /** dequeue reports an empty queue exactly if the first queued value's link is missing; without producers
      in between, exactly if nothing is queued. */
  lemma LoadFindsFirst<T>(s: State<T>)
    requires Inv(s) && s.consumer.Ready?
    ensures s.heap[s.tail].next == 0 <==> (|s.chain| == 1 || exists p :: Owes(s, p, 0))
    ensures Linked(s) ==> (s.heap[s.tail].next == 0 <==> s.enqueued == s.dequeued)
  {
    if |s.chain| > 1 {
      assert LinkOk(s, 0);
    }
  }

  /** What the consumer takes is the value that was enqueued first of those not dequeued yet. */
  lemma TakesInOrder<T>(s: State<T>)
    requires Inv(s) && s.consumer.Loaded?
    ensures |s.dequeued| < |s.enqueued|
    ensures s.consumer.next in s.heap && s.heap[s.consumer.next].data == Some(s.enqueued[|s.dequeued|])
  {
    var ns := s.chain[1..];
    assert ns[0] == s.consumer.next;
  }

  /** Once no producer is inside enqueue and the consumer is outside dequeue, the chain is all there is. */
  lemma NothingElseAllocated<T>(s: State<T>)
    requires Inv(s) && s.producers == map[] && s.consumer.Ready?
    ensures forall n :: n in s.heap <==> n in s.chain
  {
    forall n | n in s.heap ensures n in s.chain {
      assert !IsMade(s, n);
    }
  }

  // ----- the queue used by one thread at a time, and its destructor

  class Queue<T> {
    var heap: map<nat, Cell<T>>
    var head: nat
    var tail: nat
    ghost var chain: seq<nat>
    ghost var enqueued: seq<T>
    ghost var dequeued: seq<T>

    /** The queue as a state in which no thread is inside an operation. */
    ghost function View(): State<T>
      reads this
    {
      State(heap, head, tail, map[], Ready, chain, enqueued, dequeued)
    }

    constructor (dummy: nat)
      requires dummy != 0
      ensures View() == Init(dummy) && Inv(View())
    {
      heap := map[dummy := Cell(0, None)];
      head, tail := dummy, dummy;
      chain, enqueued, dequeued := [dummy], [], [];
      InitInv<T>(dummy);
    }

    method Enqueue(value: T, node: nat)
      requires Inv(View()) && node != 0 && node !in heap
      modifies this
      ensures Inv(View()) && enqueued == old(enqueued) + [value] && dequeued == old(dequeued)
      ensures Queued(View()) == old(Queued(View())) + [value]
    {
      hide Inv, Safe, Due;
      ghost var p, s := 0, View();
      EnqueueSteps(s, value, node);
      heap := heap[node := Cell(0, Some(value))];
      var prevhead := head;
      head := node;
      heap := heap[prevhead := heap[prevhead].(next := node)];
      chain, enqueued := chain + [node], enqueued + [value];
    }

    method Dequeue() returns (output: Option<T>)
      requires Inv(View())
      modifies this
      ensures Inv(View()) && enqueued == old(enqueued)
      ensures output.None? ==> View() == old(View()) && enqueued == dequeued
      ensures output.Some? ==>
        dequeued == old(dequeued) + [output.value] && old(Queued(View())) == [output.value] + Queued(View()) &&
        |chain| == |old(chain)| - 1
    {
      hide Inv, Safe, Due;
      ghost var s := View();
      DequeueSteps(s);
      var t := tail;
      var next := heap[t].next;
      if next == 0 {
        return None;
      }
      output := heap[next].data;
      heap := heap[next := heap[next].(data := None)];
      tail := next;
      heap := heap - {t};
      chain, dequeued := chain[1..], dequeued + [output.value];
    }

    /** The destructor, once no other thread uses the queue: it empties the queue and deletes every node. */
    method Destroy()
      requires Inv(View())
      modifies this
      ensures heap == map[] && dequeued == old(enqueued)
    {
      var output := Some(());
      while output.Some?
        invariant Inv(View()) && enqueued == old(enqueued)
        invariant output.None? ==> enqueued == dequeued
        decreases |chain|, if output.Some? then 1 else 0
      {
        var value := Dequeue();
        output := if value.Some? then Some(()) else None;
      }
      var front := head;
      LastNode(View());
      assert front in heap;
      heap := heap - {front};
    }
  }

  /** enqueue run to its end without interruption, as its three steps. */
  lemma EnqueueSteps<T>(s: State<T>, v: T, n: nat)
    requires Inv(s) && s.producers == map[] && n != 0 && n !in s.heap
    ensures s.head in s.heap && s.head != n
    ensures
      var t := s.(heap := s.heap[n := Cell(0, Some(v))][s.head := s.heap[s.head].(next := n)], head := n,
                  chain := s.chain + [n], enqueued := s.enqueued + [v]);
      Inv(t) && Queued(t) == Queued(s) + [v]
  {
    hide Inv, ValuesOk, Queued;
    InvFacts(s);
    var s1 := Step(s, Make(0, v, n));
    MakeInv(s, 0, v, n);
    ExchangeInv(s1, 0);
    var s2 := Step(s1, Action<T>.Exchange(0));
    StoreInv(s2, 0);
    var s3 := Step(s2, Action<T>.Store(0));
    assert s3.producers == map[];
    InvFacts(s3);
    SuffixIs(s3.dequeued, Queued(s3), Queued(s) + [v]);
  }

  lemma InvFacts<T>(s: State<T>)
    requires Inv(s)
    ensures s.chain != [] && s.head in s.heap && s.tail in s.heap
    ensures ValuesOk(s) && s.enqueued == s.dequeued + Queued(s)
  {
  }

  lemma SuffixIs<A>(d: seq<A>, x: seq<A>, y: seq<A>)
    requires d + x == d + y
    ensures x == y
  {
    assert x == (d + x)[|d|..];
    assert y == (d + y)[|d|..];
  }

  /** dequeue run to its end without interruption, as its steps. */
  lemma DequeueSteps<T>(s: State<T>)
    requires Inv(s) && s.producers == map[] && s.consumer.Ready?
    ensures s.tail in s.heap
    ensures s.heap[s.tail].next == 0 ==> s.enqueued == s.dequeued
    ensures s.heap[s.tail].next != 0 ==>
      var n := s.heap[s.tail].next;
      && n in s.heap && s.heap[n].data.Some? && s.chain != []
      && var t := s.(heap := s.heap[n := s.heap[n].(data := None)] - {s.tail}, tail := n,
                     chain := s.chain[1..], dequeued := s.dequeued + [s.heap[n].data.value]);
         Inv(t) && Queued(s) == [s.heap[n].data.value] + Queued(t)
  {
    hide Inv, ValuesOk, Queued;
    InvFacts(s);
    LoadFindsFirst(s);
    var n := s.heap[s.tail].next;
    if n != 0 {
      LoadInv(s);
      var s1 := Step(s, Action<T>.Load);
      TakeInv(s1);
      var s2 := Step(s1, Action<T>.Take);
      AdvanceInv(s2);
      var s3 := Step(s2, Action<T>.Advance);
      FreeInv(s3);
      var s4 := Step(s3, Action<T>.Free);
      InvFacts(s4);
      SuffixIs(s.dequeued, Queued(s), [s.heap[n].data.value] + Queued(s4));
    }
  }

  /** A drained queue is its dummy node alone. */
  lemma LastNode<T>(s: State<T>)
    requires Inv(s) && s.producers == map[] && s.consumer.Ready? && s.enqueued == s.dequeued
    ensures s.heap.Keys == {s.head}
  {
    NothingElseAllocated(s);
    assert Queued(s) == [];
    assert |s.chain| == 1;
  }
}
