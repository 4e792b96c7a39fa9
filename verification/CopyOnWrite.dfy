/** The chat server's set of connections: broadcasters read a shared copy while members join and leave. */
module CopyOnWrite {

  type Conn = nat
  type Ref = nat
  type Thread = nat

  datatype Change = Join(conn: Conn) | Leave(conn: Conn)

  function Changed(members: set<Conn>, change: Change): set<Conn>
  {
    match change
    case Join(c) => members + {c}
    case Leave(c) => members - {c}
  }

  /** Where the holder of the mutex is: before the test of the reference count, before the copy, before the change, or
      after it. */
  datatype Phase = Testing | Copying | Changing | Leaving

  datatype Mutex = Free | Held(change: Change, phase: Phase)

  /** A broadcaster: the set it points to, the members when it took it, and the connections it has sent to. */
  datatype Reader = Reader(ref: Ref, taken: set<Conn>, seen: seq<Conn>)

  /** The sets there are and how many shared pointers each has, the server's pointer, the mutex and the broadcasters;
      members is what the joins and leaves so far amount to. Aborted: an assertion failed, or a set that is gone was
      touched. */
  datatype State = State(
    heap: map<Ref, set<Conn>>,
    count: map<Ref, nat>,
    current: Ref,
    mutex: Mutex,
    readers: map<Thread, Reader>,
    members: set<Conn>,
    finished: seq<Reader>,
    aborted: bool)

  const START: State := State(map[0 := {}], map[0 := 1], 0, Free, map[], {}, [], false)

  datatype Step =
    | Lock(change: Change)
    | Test
    | Copy(place: Ref)
    | Change
    | Unlock
    | Acquire(thread: Thread)
    | Visit(thread: Thread)
    | Release(thread: Thread)

  /** The connections that a broadcaster has not come to; it goes through the set in order. */
  function Ahead(s: State, r: Reader): set<Conn>
    requires r.ref in s.heap
  {
    set c | c in s.heap[r.ref] && forall d | d in r.seen :: d < c
  }

  predicate Enabled(s: State, step: Step)
  {
    match step
    case Lock(_) => s.mutex == Free
    case Test => s.mutex.Held? && s.mutex.phase == Testing
    case Copy(place) => s.mutex.Held? && s.mutex.phase == Copying && place !in s.heap
    case Change => s.mutex.Held? && s.mutex.phase == Changing
    case Unlock => s.mutex.Held? && s.mutex.phase == Leaving
    case Acquire(t) => s.mutex == Free && t !in s.readers
    case Visit(t) => t in s.readers && (s.readers[t].ref in s.heap ==> Ahead(s, s.readers[t]) != {})
    case Release(t) => t in s.readers && (s.readers[t].ref in s.heap ==> Ahead(s, s.readers[t]) == {})
  }

  /** One shared pointer to r less; the last one takes the set with it. */
  function Dropped(s: State, r: Ref): State
  {
    if r !in s.count || r !in s.heap || s.count[r] == 0 then s.(aborted := true)
    else if s.count[r] == 1 then s.(heap := s.heap - {r}, count := s.count - {r})
    else s.(count := s.count[r := s.count[r] - 1])
  }

  function Least(s: set<Conn>): (c: Conn)
    requires s != {}
    ensures c in s && forall d | d in s :: c <= d
  {
    LeastExists(s);
    var c :| IsLeast(s, c);
    c
  }

  predicate IsLeast(s: set<Conn>, c: Conn)
  {
    c in s && forall d | d in s :: c <= d
  }

  lemma {:induction false} LeastExists(s: set<Conn>)
    requires s != {}
    ensures exists c :: IsLeast(s, c)
    decreases |s|
  {
    hide IsLeast;
    var c :| c in s;
    var rest := s - {c};
    if rest == {} {
      LeastOfOne(s, c);
    } else {
      LeastExists(rest);
      var m :| IsLeast(rest, m);
      LeastOfBoth(s, c, m);
    }
  }

  lemma LeastOfOne(s: set<Conn>, c: Conn)
    requires c in s && s - {c} == {}
    ensures IsLeast(s, c)
  {
    forall d | d in s ensures c <= d {
      assert d == c || d in s - {c};
    }
  }

  lemma LeastOfBoth(s: set<Conn>, c: Conn, m: Conn)
    requires c in s && IsLeast(s - {c}, m)
    ensures IsLeast(s, if c < m then c else m)
  {
    var l := if c < m then c else m;
    forall d | d in s ensures l <= d {
      assert d == c || d in s - {c};
    }
  }

  function Next(s: State, step: Step): State
    requires Enabled(s, step)
  {
    match step
    case Lock(change) => s.(mutex := Held(change, Testing))
    case Test =>
      if s.current !in s.count then s.(aborted := true)
      else s.(mutex := s.mutex.(phase := if s.count[s.current] == 1 then Changing else Copying))
    case Copy(place) =>
      if s.current !in s.heap then s.(aborted := true)
      else
        Dropped(s.(heap := s.heap[place := s.heap[s.current]], count := s.count[place := 1], current := place,
                   mutex := s.mutex.(phase := Changing)),
                s.current)
    case Change =>
      if s.current !in s.count || s.count[s.current] != 1 || s.current !in s.heap then s.(aborted := true)
      else
        s.(heap := s.heap[s.current := Changed(s.heap[s.current], s.mutex.change)],
           members := Changed(s.members, s.mutex.change), mutex := s.mutex.(phase := Leaving))
    case Unlock => s.(mutex := Free)
    case Acquire(t) =>
      if s.current !in s.count then s.(aborted := true)
      else
        s.(readers := s.readers[t := Reader(s.current, s.members, [])],
           count := s.count[s.current := s.count[s.current] + 1])
    case Visit(t) =>
      var r := s.readers[t];
      if r.ref !in s.heap then s.(aborted := true)
      else s.(readers := s.readers[t := r.(seen := r.seen + [Least(Ahead(s, r))])])
    case Release(t) =>
      var r := s.readers[t];
      Dropped(s.(readers := s.readers - {t}, finished := s.finished + [r]), r.ref)
  }

  predicate IsRun(states: seq<State>, steps: seq<Step>)
  {
    && |states| == |steps| + 1 && states[0] == START
    && forall i | 0 <= i < |steps| :: Enabled(states[i], steps[i]) && states[i + 1] == Next(states[i], steps[i])
  }

  // ----- what is kept

  /** The broadcasters that point to a set. */
  function Holders(readers: map<Thread, Reader>, r: Ref): set<Thread>
  {
    set t | t in readers && readers[t].ref == r
  }

  /** The count of a set is the number of pointers to it, and a set is there as long as there is one. */
  predicate CountsFit(s: State)
  {
    && s.heap.Keys == s.count.Keys && s.current in s.heap
    && (forall r | r in s.count :: s.count[r] == |Holders(s.readers, r)| + (if r == s.current then 1 else 0) > 0)
    && (forall t | t in s.readers :: s.readers[t].ref in s.heap)
  }

  /** Sent to, in order, are the members taken up to the last one. */
  predicate Part(r: Reader)
  {
    && (forall i, j | 0 <= i < j < |r.seen| :: r.seen[i] < r.seen[j])
    && (forall c | c in r.seen :: c in r.taken)
    && (forall c, d | c in r.taken && d in r.seen :: c <= d ==> c in r.seen)
  }

  /** And no member is missing. */
  predicate Whole(r: Reader)
  {
    Part(r) && forall c | c in r.taken :: c in r.seen
  }

  /** Nobody is changing a set that a broadcaster holds: while the mutex is held for a change, the server's pointer is
      the only one. */
  predicate Inv(s: State)
  {
    && !s.aborted && CountsFit(s)
    && s.heap[s.current] == s.members
    && (s.mutex.Held? && s.mutex.phase == Changing ==> s.count[s.current] == 1)
    && (forall t | t in s.readers :: s.heap[s.readers[t].ref] == s.readers[t].taken && Part(s.readers[t]))
    && (forall i | 0 <= i < |s.finished| :: Whole(s.finished[i]))
  }

  lemma AcquireHolders(readers: map<Thread, Reader>, t: Thread, r: Reader)
    requires t !in readers
    ensures Holders(readers[t := r], r.ref) == Holders(readers, r.ref) + {t}
    ensures t !in Holders(readers, r.ref)
    ensures forall q | q != r.ref :: Holders(readers[t := r], q) == Holders(readers, q)
  {
  }

  lemma ReleaseHolders(readers: map<Thread, Reader>, t: Thread)
    requires t in readers
    ensures Holders(readers - {t}, readers[t].ref) == Holders(readers, readers[t].ref) - {t}
    ensures t in Holders(readers, readers[t].ref)
    ensures forall q | q != readers[t].ref :: Holders(readers - {t}, q) == Holders(readers, q)
  {
  }

  lemma VisitHolders(readers: map<Thread, Reader>, t: Thread, seen: seq<Conn>)
    requires t in readers
    ensures forall q :: Holders(readers[t := readers[t].(seen := seen)], q) == Holders(readers, q)
  {
  }

  lemma NoHolders(readers: map<Thread, Reader>, r: Ref, t: Thread)
    requires Holders(readers, r) == {} && t in readers
    ensures readers[t].ref != r
  {
    assert readers[t].ref == r ==> t in Holders(readers, r);
  }

  lemma CopyKeeps(s: State, place: Ref)
    requires Inv(s) && Enabled(s, Copy(place))
    ensures Inv(Next(s, Copy(place)))
  {
    hide Part, Whole;
    assert Holders(s.readers, place) == {};
    if s.count[s.current] == 1 {
      assert Holders(s.readers, s.current) == {};
      forall t | t in s.readers ensures s.readers[t].ref != s.current {
        NoHolders(s.readers, s.current, t);
      }
    }
  }

  lemma ChangeKeeps(s: State)
    requires Inv(s) && Enabled(s, Change)
    ensures Inv(Next(s, Change))
  {
    hide Part, Whole;
    assert Holders(s.readers, s.current) == {};
    forall t | t in s.readers ensures s.readers[t].ref != s.current {
      NoHolders(s.readers, s.current, t);
    }
  }

  lemma AcquireKeeps(s: State, t: Thread)
    requires Inv(s) && Enabled(s, Acquire(t))
    ensures Inv(Next(s, Acquire(t)))
  {
    hide Whole, Holders;
    var n := Reader(s.current, s.members, []);
    AcquireHolders(s.readers, t, n);
    AddOne(Holders(s.readers, s.current), t);
    assert Part(n);
  }

  lemma AddOne<T>(s: set<T>, x: T)
    requires x !in s
    ensures |s + {x}| == |s| + 1
  {
  }

  lemma TakeOne<T>(s: set<T>, x: T)
    requires x in s
    ensures |s - {x}| == |s| - 1
  {
  }

  lemma VisitKeeps(s: State, t: Thread)
    requires Inv(s) && Enabled(s, Visit(t))
    ensures Inv(Next(s, Visit(t)))
  {
    hide Whole, Holders, Part, Ahead;
    var r := s.readers[t];
    VisitHolders(s.readers, t, r.seen + [Least(Ahead(s, r))]);
    VisitPart(s, r);
  }

  /** The next one in order. */
  lemma VisitPart(s: State, r: Reader)
    requires r.ref in s.heap && s.heap[r.ref] == r.taken && Part(r) && Ahead(s, r) != {}
    ensures Part(r.(seen := r.seen + [Least(Ahead(s, r))]))
  {
    var c := Least(Ahead(s, r));
    var q := r.(seen := r.seen + [c]);
    assert forall d :: d in q.seen <==> d in r.seen || d == c;
    forall i, j | 0 <= i < j < |q.seen| ensures q.seen[i] < q.seen[j] {
      assert q.seen[i] in r.seen;
    }
    forall b, d | b in q.taken && d in q.seen && b <= d ensures b in q.seen {
      if b !in q.seen {
        NotSeenIsAhead(s, r, b);
      }
    }
  }

  lemma NotSeenIsAhead(s: State, r: Reader, b: Conn)
    requires r.ref in s.heap && s.heap[r.ref] == r.taken && Part(r) && b in r.taken && b !in r.seen
    ensures b in Ahead(s, r)
  {
    forall e | e in r.seen ensures e < b {
      assert b <= e ==> b in r.seen;
    }
  }

  lemma ReleaseKeeps(s: State, t: Thread)
    requires Inv(s) && Enabled(s, Release(t))
    ensures Inv(Next(s, Release(t)))
  {
    hide Holders, Part, Ahead, Changed;
    var r := s.readers[t];
    var rest := s.readers - {t};
    ReleaseHolders(s.readers, t);
    TakeOne(Holders(s.readers, r.ref), t);
    forall c | c in r.taken ensures c in r.seen {
      if c !in r.seen {
        NotSeenIsAhead(s, r, c);
      }
    }
    assert Whole(r);
    if s.count[r.ref] == 1 {
      assert Holders(rest, r.ref) == {};
      forall u | u in rest ensures rest[u].ref != r.ref {
        NoHolders(rest, r.ref, u);
      }
    }
    hide Whole;
    assert Next(s, Release(t)).finished == s.finished + [r];
  }

  lemma StepKeeps(s: State, step: Step)
    requires Inv(s) && Enabled(s, step)
    ensures Inv(Next(s, step))
  {
    match step
    case Copy(place) => CopyKeeps(s, place);
    case Change => ChangeKeeps(s);
    case Acquire(t) => AcquireKeeps(s, t);
    case Visit(t) => VisitKeeps(s, t);
    case Release(t) => ReleaseKeeps(s, t);
    case _ =>
  }

  lemma {:induction false} RunKeeps(states: seq<State>, steps: seq<Step>, i: nat)
    requires IsRun(states, steps) && i < |states|
    ensures Inv(states[i])
  {
    if i > 0 {
      RunKeeps(states, steps, i - 1);
      StepKeeps(states[i - 1], steps[i - 1]);
    } else {
      assert Holders(START.readers, 0) == {};
    }
  }

  /** Under every interleaving: a broadcaster that has finished has sent, in order and once each, to exactly the members
      there were when it took the set, and no assertion fails and no freed set is touched. */
  lemma SnapshotsIsolated(states: seq<State>, steps: seq<Step>, i: nat)
    requires IsRun(states, steps) && i < |states|
    ensures !states[i].aborted
    ensures forall r | r in states[i].finished ::
              && (forall c :: c in r.seen <==> c in r.taken)
              && (forall j, k | 0 <= j < k < |r.seen| :: r.seen[j] < r.seen[k])
  {
    RunKeeps(states, steps, i);
  }

  lemma HeldIsThere(s: State, t: Thread)
    requires Inv(s) && t in s.readers
    ensures var r := s.readers[t]; r.ref in s.heap && s.heap[r.ref] == r.taken
  {
  }

  lemma StepLeavesHeld(s: State, step: Step, t: Thread)
    requires Enabled(s, step) && t in s.readers && t in Next(s, step).readers
    ensures Next(s, step).readers[t].ref == s.readers[t].ref && Next(s, step).readers[t].taken == s.readers[t].taken
  {
    hide Ahead, Changed;
  }

  /** A set that a broadcaster holds is not changed by any step. */
  lemma HeldNeverChanges(states: seq<State>, steps: seq<Step>, i: nat, t: Thread)
    requires IsRun(states, steps) && i < |steps| && t in states[i].readers && t in states[i + 1].readers
    ensures var r := states[i].readers[t].ref;
            && states[i + 1].readers[t].ref == r && states[i + 1].readers[t].taken == states[i].readers[t].taken
            && r in states[i].heap && r in states[i + 1].heap && states[i + 1].heap[r] == states[i].heap[r]
  {
    hide Inv, Next;
    RunKeeps(states, steps, i);
    RunKeeps(states, steps, i + 1);
    HeldIsThere(states[i], t);
    HeldIsThere(states[i + 1], t);
    StepLeavesHeld(states[i], steps[i], t);
  }

  // ----- the members, by the steps alone

  /** The change that a thread holds the mutex for, and the connections that have joined and not left. */
  datatype Book = Book(pending: seq<Change>, members: set<Conn>)

  /** A change takes effect at its Change step: a connection that joins is a member from then on, and one that leaves is
      not. */
  function Entered(b: Book, step: Step): Book
  {
    match step
    case Lock(change) => b.(pending := [change])
    case Change =>
      if b.pending == [] then b
      else if b.pending[0].Join? then b.(members := b.members + {b.pending[0].conn})
      else b.(members := set m | m in b.members && m != b.pending[0].conn)
    case _ => b
  }

  function BookAfter(steps: seq<Step>): Book
  {
    if steps == [] then Book([], {}) else Entered(BookAfter(steps[..|steps| - 1]), steps[|steps| - 1])
  }

  predicate BookFits(s: State, b: Book)
  {
    s.members == b.members && (s.mutex.Held? ==> b.pending == [s.mutex.change])
  }

  lemma StepEnters(s: State, step: Step, b: Book)
    requires Inv(s) && Enabled(s, step) && BookFits(s, b)
    ensures BookFits(Next(s, step), Entered(b, step))
  {
    hide Ahead, Part, Whole;
    if step.Change? && s.mutex.change.Leave? {
      var c := s.mutex.change.conn;
      assert s.members - {c} == set m | m in b.members && m != c;
    }
  }

  /** The members, and, but while a change is being made, the set that a broadcaster would get, are what the joins and
      leaves of the steps so far amount to. */
  lemma {:induction false} MembersFollow(states: seq<State>, steps: seq<Step>, i: nat)
    requires IsRun(states, steps) && i < |states|
    ensures BookFits(states[i], BookAfter(steps[..i]))
    ensures states[i].current in states[i].heap && states[i].heap[states[i].current] == BookAfter(steps[..i]).members
  {
    hide BookFits, Next, Inv, Entered;
    RunKeeps(states, steps, i);
    if i > 0 {
      MembersFollow(states, steps, i - 1);
      RunKeeps(states, steps, i - 1);
      StepEnters(states[i - 1], steps[i - 1], BookAfter(steps[..i - 1]));
      assert steps[..i][..i - 1] == steps[..i - 1];
    } else {
      StartFits();
    }
    CurrentIsMembers(states[i], BookAfter(steps[..i]));
  }

  lemma StartFits()
    ensures BookFits(START, Book([], {}))
  {
  }

  lemma CurrentIsMembers(s: State, b: Book)
    requires Inv(s) && BookFits(s, b)
    ensures s.current in s.heap && s.heap[s.current] == b.members
  {
  }

  /** A broadcaster takes exactly the connections that have joined and not left by the time of its call. */
  lemma TakesCurrent(states: seq<State>, steps: seq<Step>, i: nat)
    requires IsRun(states, steps) && i < |steps| && steps[i].Acquire?
    ensures steps[i].thread in states[i + 1].readers
    ensures states[i + 1].readers[steps[i].thread].taken == BookAfter(steps[..i]).members
  {
    hide Inv;
    MembersFollow(states, steps, i);
    RunKeeps(states, steps, i);
    RunKeeps(states, steps, i + 1);
    HasCount(states[i]);
  }

  lemma HasCount(s: State)
    requires Inv(s)
    ensures s.current in s.count
  {
  }

  // ----- one broadcast and one change

  lemma StaysReader(s: State, step: Step, t: Thread)
    requires Inv(s) && Enabled(s, step) && t in s.readers && step != Release(t)
    ensures t in Next(s, step).readers
  {
    hide Ahead, Changed, Holders, Part, Whole;
  }

  /** A broadcaster leaves when it has come to the end of its set. */
  lemma LeavesAtEnd(s: State, t: Thread)
    requires Inv(s) && Enabled(s, Release(t))
    ensures Next(s, Release(t)).finished == s.finished + [s.readers[t]] && t !in Next(s, Release(t)).readers
    ensures Whole(s.readers[t])
  {
    ReleaseKeeps(s, t);
    hide Part, Whole, Ahead, Holders;
    var n := Next(s, Release(t));
    assert n.finished[|s.finished|] == s.readers[t];
  }

  lemma {:induction false} HoldsTaken(states: seq<State>, steps: seq<Step>, i: nat, k: nat, t: Thread)
    requires IsRun(states, steps) && i < k < |states| && steps[i] == Acquire(t)
    requires forall j | i < j < k :: steps[j] != Release(t)
    ensures t in states[k].readers && states[k].readers[t].taken == BookAfter(steps[..i]).members
    decreases k
  {
    hide Inv, Next, Enabled;
    if k == i + 1 {
      TakesCurrent(states, steps, i);
    } else {
      HoldsTaken(states, steps, i, k - 1, t);
      RunKeeps(states, steps, k - 1);
      StaysReader(states[k - 1], steps[k - 1], t);
      StepLeavesHeld(states[k - 1], steps[k - 1], t);
    }
  }

  /** Whatever the other threads do meanwhile, a broadcast goes, in order and once each, to exactly the connections that
      had joined and not left when it began. */
  lemma BroadcastReaches(states: seq<State>, steps: seq<Step>, i: nat, k: nat, t: Thread)
    requires IsRun(states, steps) && i < k < |steps| && steps[i] == Acquire(t) && steps[k] == Release(t)
    requires forall j | i < j < k :: steps[j] != Release(t)
    ensures t in states[k].readers && states[k + 1].finished == states[k].finished + [states[k].readers[t]]
    ensures var seen := states[k].readers[t].seen;
            && (forall c :: c in seen <==> c in BookAfter(steps[..i]).members)
            && (forall m, n | 0 <= m < n < |seen| :: seen[m] < seen[n])
  {
    hide Inv, Next;
    HoldsTaken(states, steps, i, k, t);
    RunKeeps(states, steps, k);
    LeavesAtEnd(states[k], t);
  }

  /** A change copies the set exactly if a broadcaster has it, and the copy has the same members. */
  lemma CopiesIfShared(s: State)
    requires Inv(s)
    ensures Enabled(s, Test) ==>
      Next(s, Test).mutex ==
        Held(s.mutex.change,
             if exists t :: t in s.readers && s.readers[t].ref == s.current then Copying else Changing)
    ensures forall place | Enabled(s, Copy(place)) ::
              Next(s, Copy(place)).current == place && place in Next(s, Copy(place)).heap
              && Next(s, Copy(place)).heap[place] == s.heap[s.current]
  {
    hide Ahead, Part, Whole, Changed;
    if t :| t in s.readers && s.readers[t].ref == s.current {
      assert t in Holders(s.readers, s.current);
    } else {
      assert Holders(s.readers, s.current) == {};
    }
  }

  // ----- the program

  /** A set of connections with the count of the shared pointers to it. */
  class ConnectionSet {
    var members: set<Conn>
    var useCount: nat

    constructor (members: set<Conn>)
      ensures this.members == members && useCount == 1
    {
      this.members, useCount := members, 1;
    }
  }

  /** The server: what a thread does while it holds the mutex is one call. */
  class ChatServer {
    var connSetPtr: ConnectionSet
    /** The pointers that broadcasters have. */
    ghost var held: multiset<ConnectionSet>

    ghost predicate Valid()
      reads this, connSetPtr, set p | p in held
    {
      && connSetPtr.useCount == held[connSetPtr] + 1
      && forall p | p in held && p != connSetPtr :: p.useCount == held[p]
    }

    constructor ()
      ensures Valid() && connSetPtr.members == {} && held == multiset{}
    {
      connSetPtr := new ConnectionSet({});
      held := multiset{};
    }

    /** A connection joins or leaves; the sets that broadcasters hold stay as they are. */
    method ChangeMembers(change: Change)
      requires Valid()
      modifies this`connSetPtr, connSetPtr
      ensures Valid() && connSetPtr !in held && connSetPtr.members == Changed(old(connSetPtr.members), change)
      ensures forall c ::
                c in connSetPtr.members <==>
                (c in old(connSetPtr.members) && change != Leave(c)) || change == Join(c)
      ensures forall p | p in held :: p.members == old(p.members)
      ensures if old(connSetPtr) in held then fresh(connSetPtr) else connSetPtr == old(connSetPtr)
    {
      if connSetPtr.useCount != 1 {
        var copy := new ConnectionSet(connSetPtr.members);
        connSetPtr.useCount := connSetPtr.useCount - 1;
        connSetPtr := copy;
      }
      assert connSetPtr.useCount == 1;
      match change
      case Join(conn) => connSetPtr.members := connSetPtr.members + {conn};
      case Leave(conn) => connSetPtr.members := connSetPtr.members - {conn};
    }

    method GetConnSetPtr() returns (p: ConnectionSet)
      requires Valid()
      modifies `held, connSetPtr`useCount
      ensures Valid() && p == connSetPtr == old(connSetPtr) && held == old(held) + multiset{p}
    {
      p := connSetPtr;
      p.useCount := p.useCount + 1;
      held := held + multiset{p};
    }

    /** A broadcaster's pointer goes out of scope. */
    method ReleasePtr(p: ConnectionSet)
      requires Valid() && p in held
      modifies `held, p`useCount
      ensures Valid() && held == old(held) - multiset{p}
    {
      p.useCount := p.useCount - 1;
      held := held - multiset{p};
    }
  }
}
