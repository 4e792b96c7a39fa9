/** The event loop's wakeup protocol: foreign threads queue a function and then write the eventfd; the
    loop thread waits, reads the eventfd, and drains the queue. All steps interleave freely. */
module EventLoop {
  import Q = MpscQueue

  /** The eventfd counter never exceeds this; a write that would is refused. */
  const COUNTER_MAX: nat := 0xffff_ffff_ffff_fffe

  /** The loop thread as a producer of its own queue. */
  const LOOP_THREAD: nat := 0

  /** Where the loop thread stands: before loop(), about to block, running event handlers (saw tells
      whether the wakeup channel is active and still unread), at the drain's empty() test, inside the
      drain's dequeue, or inside a function it has dequeued. */
  datatype Pc = NotStarted | Waiting | Handling(saw: bool) | Checking | Dequeuing | Calling

  /** owing holds the foreign threads between the exchange and the eventfd write of queueInLoop; executed
      is the history of the functions the loop has called. */
  datatype State<+F> = State(q: Q.State<F>, counter: nat, pc: Pc, owing: set<nat>, executed: seq<F>)

  datatype Action<+F> =
    | Produce(step: Q.Action<F>)   // one step of enqueue, by its thread
    | WriteWakeup(p: nat)          // the eventfd write that ends a foreign queueInLoop
    | Poke                         // any other eventfd write, such as quit()'s
    | Start                        // loop() begins
    | WaitReturns(saw: bool)       // epoll_wait returns
    | ReadWakeup                   // handleWakeupFd
    | EndHandling
    | Check                        // the drain's empty()
    | Consume(part: Q.Action<F>)   // one step of dequeue
    | Return                       // the called function returns

  function Init<F>(dummy: nat): State<F>
    requires dummy != 0
  {
    State(Q.Init(dummy), 0, NotStarted, {}, [])
  }

  /** The loop thread is running user code, which may queue functions. */
  predicate RunsUserCode<F>(s: State<F>) { s.pc.NotStarted? || s.pc.Handling? || s.pc.Calling? }

  predicate Due<F>(s: State<F>, a: Action<F>)
  {
    match a
    case Produce(step) =>
      && (step.Make? || step.Exchange? || step.Store?) && Q.Due(s.q, step)
      && (step.p == LOOP_THREAD ==> RunsUserCode(s))
      && (step.Make? ==> step.p !in s.owing)
    case WriteWakeup(p) => p in s.owing && p !in s.q.producers
    case Poke => true
    case Start => s.pc.NotStarted? && LOOP_THREAD !in s.q.producers
    case WaitReturns(saw) => s.pc.Waiting? && (saw ==> s.counter > 0)
    case ReadWakeup => s.pc == Handling(true)
    case EndHandling => s.pc == Handling(false) && LOOP_THREAD !in s.q.producers
    case Check => s.pc.Checking?
    case Consume(part) =>
      && s.pc.Dequeuing? && (part.Load? || part.Take? || part.Advance? || part.Free?) && Q.Due(s.q, part)
    case Return => s.pc.Calling? && LOOP_THREAD !in s.q.producers
  }

  predicate Safe<F>(s: State<F>, a: Action<F>)
    requires Due(s, a)
  {
    match a
    case Produce(step) => Q.Safe(s.q, step)
    case Consume(part) => Q.Safe(s.q, part)
    case Check => s.q.tail in s.q.heap
    case _ => true
  }

  function Bump(counter: nat): nat { if counter < COUNTER_MAX then counter + 1 else counter }

  function Step<F>(s: State<F>, a: Action<F>): State<F>
    requires Due(s, a) && Safe(s, a)
  {
    match a
    case Produce(step) =>
      s.(q := Q.Step(s.q, step),
         owing := if step.Exchange? && step.p != LOOP_THREAD then s.owing + {step.p} else s.owing)
    case WriteWakeup(p) => s.(counter := Bump(s.counter), owing := s.owing - {p})
    case Poke => s.(counter := Bump(s.counter))
    case Start => s.(pc := Waiting)
    case WaitReturns(saw) => s.(pc := Handling(saw))
    case ReadWakeup => s.(pc := Handling(false), counter := 0)
    case EndHandling => s.(pc := Checking)
    case Check => s.(pc := if s.q.heap[s.q.tail].next == 0 then Waiting else Dequeuing)
    case Consume(part) =>
      var t := Q.Step(s.q, part);
      if part.Load? && t.consumer.Ready? then s.(q := t, pc := Checking)
      else if part.Free? && t.dequeued != [] then
        s.(q := t, pc := Calling, executed := s.executed + [t.dequeued[|t.dequeued| - 1]])
      else s.(q := t)
    case Return => s.(pc := Dequeuing)
  }

  datatype Outcome<+F> = Crash | NotASchedule | At(state: State<F>)

  function Exec<F>(s: State<F>, schedule: seq<Action<F>>): Outcome<F>
    decreases |schedule|
  {
    if schedule == [] then At(s)
    else if !Due(s, schedule[0]) then NotASchedule
    else if !Safe(s, schedule[0]) then Crash
    else Exec(Step(s, schedule[0]), schedule[1..])
  }

  // ----- the invariant

  /** Something is queued that the loop has not taken. */
  predicate Pending<F(==)>(s: State<F>) { |s.q.dequeued| < |s.q.enqueued| }

  /** The wakeup that a waiting loop needs is there or on its way. */
  predicate WillWake<F>(s: State<F>) { s.counter > 0 || s.owing != {} }

  ghost predicate ThreadsOk<F>(s: State<F>)
  {
    && LOOP_THREAD !in s.owing
    && (forall p | p in s.q.producers && p != LOOP_THREAD && s.q.producers[p].Exchanged? :: p in s.owing)
    && (LOOP_THREAD in s.q.producers ==> RunsUserCode(s))
    && (!s.q.consumer.Ready? ==> s.pc.Dequeuing?)
  }

  /** What has been called is what has been dequeued, but for the one being dequeued. */
  ghost predicate ExecutedOk<F>(s: State<F>)
  {
    s.q.dequeued == s.executed
    || ((s.q.consumer.Taken? || s.q.consumer.Advanced?)
        && |s.q.dequeued| == |s.executed| + 1 && s.q.dequeued[..|s.executed|] == s.executed)
  }

  ghost predicate TakenOk<F>(s: State<F>)
  {
    s.q.consumer.Taken? || s.q.consumer.Advanced? ==> |s.q.dequeued| == |s.executed| + 1
  }

  ghost predicate Inv<F>(s: State<F>)
  {
    Q.Inv(s.q) && ThreadsOk(s) && ExecutedOk(s) && TakenOk(s)
  }

  /** Whenever the loop thread is not sure to look into the queue before it blocks, a pending function
      has its wakeup. */
  ghost predicate Wakes<F>(s: State<F>)
  {
    (s.pc.Waiting? || s.pc.NotStarted?) && Pending(s) ==> WillWake(s)
  }

  lemma ProduceInv<F>(s: State<F>, step: Q.Action<F>)
    requires Inv(s) && Due(s, Produce(step))
    ensures Safe(s, Produce(step)) && Inv(Step(s, Produce(step)))
    ensures Wakes(s) && !(s.pc.NotStarted? && step.p == LOOP_THREAD) ==> Wakes(Step(s, Produce(step)))
  {
    hide Q.Inv, Q.Safe;
    Q.StepInv(s.q, step);
  }

  lemma ConsumeInv<F>(s: State<F>, part: Q.Action<F>)
    requires Inv(s) && Due(s, Consume(part))
    ensures Safe(s, Consume(part)) && Inv(Step(s, Consume(part))) && Wakes(Step(s, Consume(part)))
  {
    hide Q.Inv, Q.Safe;
    Q.StepInv(s.q, part);
    var t := Step(s, Consume(part));
    if part.Take? {
      assert t.q.dequeued[..|s.executed|] == s.executed;
    }
    if part.Free? {
      assert t.executed == t.q.dequeued;
    }
  }

  /** The drain ends only with nothing left to take but what some foreign thread is still linking in. */
  lemma DrainEnd<F>(s: State<F>)
    requires Inv(s) && s.pc.Checking? && Pending(s) && s.q.tail in s.q.heap && s.q.heap[s.q.tail].next == 0
    ensures s.owing != {}
  {
    Q.LoadFindsFirst(s.q);
    var p :| Q.Owes(s.q, p, 0);
    assert p in s.owing;
  }

  lemma CheckInv<F>(s: State<F>)
    requires Inv(s) && s.pc.Checking?
    ensures Safe(s, Action<F>.Check) && Inv(Step(s, Action<F>.Check)) && Wakes(Step(s, Action<F>.Check))
  {
    hide Q.Inv;
    Q.InvFacts(s.q);
    if s.q.heap[s.q.tail].next == 0 && Pending(s) {
      DrainEnd(s);
    }
  }

  /** The step is one of the loop thread's own enqueue. */
  predicate IsOwn<F>(a: Action<F>)
  {
    a.Produce? && (a.step.Make? || a.step.Exchange? || a.step.Store?) && a.step.p == LOOP_THREAD
  }

  /** Every step keeps the invariant; every step but an early one of the loop thread keeps the wakeup. */
  lemma StepInv<F>(s: State<F>, a: Action<F>)
    requires Inv(s) && Due(s, a)
    ensures Safe(s, a) && Inv(Step(s, a))
    ensures Wakes(s) && !(s.pc.NotStarted? && IsOwn(a)) ==> Wakes(Step(s, a))
  {
    hide Q.Inv;
    match a
    case Produce(step) => ProduceInv(s, step);
    case Consume(part) => ConsumeInv(s, part);
    case Check => CheckInv(s);
    case _ =>
  }

  // ----- every schedule

  /** The loop thread queues functions only once loop() has begun. */
  predicate QueuesAfterStart<F>(schedule: seq<Action<F>>)
  {
    schedule == [] || schedule[0].Start?
    || (!IsOwn(schedule[0]) && QueuesAfterStart(schedule[1..]))
  }

  lemma {:induction false} ExecInv<F>(s: State<F>, schedule: seq<Action<F>>)
    requires Inv(s)
    ensures !Exec(s, schedule).Crash?
    ensures Exec(s, schedule).At? ==> Inv(Exec(s, schedule).state)
    ensures Exec(s, schedule).At? && Wakes(s) && (s.pc.NotStarted? ==> QueuesAfterStart(schedule)) ==>
              Wakes(Exec(s, schedule).state)
    decreases |schedule|
  {
    hide Inv, Wakes, Safe;
    if schedule != [] && Due(s, schedule[0]) {
      StepInv(s, schedule[0]);
      StaysStarted(s, schedule[0]);
      ExecInv(Step(s, schedule[0]), schedule[1..]);
    }
  }

  lemma StaysStarted<F>(s: State<F>, a: Action<F>)
    requires Due(s, a) && Safe(s, a)
    ensures Step(s, a).pc.NotStarted? <==> s.pc.NotStarted? && !a.Start?
  {
  }

  /** No wakeup is lost: on every schedule in which the loop thread queues nothing before loop(), whenever
      the loop is about to block with a function pending, the eventfd is readable or some foreign thread
      is still between its exchange and its eventfd write. */
  lemma NoLostWakeup<F>(dummy: nat, schedule: seq<Action<F>>)
    requires dummy != 0 && QueuesAfterStart(schedule)
    ensures !Exec(Init<F>(dummy), schedule).Crash?
    ensures Exec(Init<F>(dummy), schedule).At? ==>
      var t := Exec(Init<F>(dummy), schedule).state;
      t.pc.Waiting? && Pending(t) ==> WillWake(t)
  {
    Q.InitInv<F>(dummy);
    ExecInv(Init<F>(dummy), schedule);
  }

  /** The steps of a schedule that are the queue's. */
  function QueueSteps<F>(schedule: seq<Action<F>>): seq<Q.Action<F>>
    decreases |schedule|
  {
    if schedule == [] then []
    else
      match schedule[0]
      case Produce(step) => [step] + QueueSteps(schedule[1..])
      case Consume(part) => [part] + QueueSteps(schedule[1..])
      case _ => QueueSteps(schedule[1..])
  }

  lemma {:induction false} ExecQueue<F>(s: State<F>, schedule: seq<Action<F>>)
    requires Exec(s, schedule).At?
    ensures Q.Exec(s.q, QueueSteps(schedule)) == Q.At(Exec(s, schedule).state.q)
    decreases |schedule|
  {
    hide Q.Safe, Q.Step, Q.Due;
    if schedule != [] {
      ExecQueue(Step(s, schedule[0]), schedule[1..]);
      var rest := QueueSteps(schedule[1..]);
      match schedule[0]
      case Produce(step) => assert ([step] + rest)[1..] == rest;
      case Consume(part) => assert ([part] + rest)[1..] == rest;
      case _ =>
    }
  }

  /** The functions given to queueInLoop in a schedule, in the order of the head exchanges. */
  function Given<F>(schedule: seq<Action<F>>): seq<F>
  {
    Q.Given(QueueSteps(schedule), map[])
  }

  /** On every schedule the functions called are those given to queueInLoop, in exchange order, each once. */
  lemma CallsInOrder<F>(dummy: nat, schedule: seq<Action<F>>)
    requires dummy != 0
    ensures Exec(Init<F>(dummy), schedule).At? ==>
      var t := Exec(Init<F>(dummy), schedule).state;
      && t.executed <= t.q.dequeued <= t.q.enqueued && |t.q.dequeued| <= |t.executed| + 1
      && t.q.enqueued == Given(schedule)
  {
    Q.InitInv<F>(dummy);
    ExecInv(Init<F>(dummy), schedule);
    if Exec(Init<F>(dummy), schedule).At? {
      var t := Exec(Init<F>(dummy), schedule).state;
      Q.InvFacts(t.q);
      ExecutedPrefix(t);
      ExecQueue(Init<F>(dummy), schedule);
      Q.ExecGiven(Q.Init<F>(dummy), QueueSteps(schedule), map[]);
    }
  }

  /** When the loop blocks with no wakeup there or to come, every function given to queueInLoop has been called. */
  lemma SleepsOnlyWhenDone<F>(dummy: nat, schedule: seq<Action<F>>)
    requires dummy != 0 && QueuesAfterStart(schedule) && Exec(Init<F>(dummy), schedule).At?
    requires Exec(Init<F>(dummy), schedule).state.pc.Waiting? && !WillWake(Exec(Init<F>(dummy), schedule).state)
    ensures Exec(Init<F>(dummy), schedule).state.executed == Given(schedule)
  {
    var t := Exec(Init<F>(dummy), schedule).state;
    NoLostWakeup(dummy, schedule);
    CallsInOrder(dummy, schedule);
    Q.InitInv<F>(dummy);
    ExecInv(Init<F>(dummy), schedule);
    WaitingExecuted(t);
  }

  lemma WaitingExecuted<F>(t: State<F>)
    requires Inv(t) && t.pc.Waiting?
    ensures t.q.consumer.Ready? && t.executed == t.q.dequeued
  {
  }

  /** Writing the eventfd makes it readable, and reading it takes the counter back to zero. */
  lemma WakeupCounter<F>(s: State<F>, a: Action<F>)
    requires Due(s, a) && Safe(s, a)
    ensures a.WriteWakeup? || a.Poke? ==> Step(s, a).counter > 0 && Step(s, a).counter >= s.counter
    ensures a.ReadWakeup? ==> Step(s, a).counter == 0
    ensures !a.WriteWakeup? && !a.Poke? && !a.ReadWakeup? ==> Step(s, a).counter == s.counter
    ensures Step(s, a).owing ==
            if a.WriteWakeup? then s.owing - {a.p}
            else if a.Produce? && a.step.Exchange? && a.step.p != LOOP_THREAD then s.owing + {a.step.p}
            else s.owing
  {
  }

  lemma ExecutedPrefix<F>(t: State<F>)
    requires Inv(t)
    ensures t.executed <= t.q.dequeued && |t.q.dequeued| <= |t.executed| + 1
  {
  }

  /** When the loop goes back to waiting and no foreign thread is inside queueInLoop, everything queued
      has been called. */
  lemma DrainsAll<F>(s: State<F>)
    requires Inv(s) && s.pc.Checking? && s.owing == {} && Safe(s, Action<F>.Check)
    requires Step(s, Action<F>.Check).pc.Waiting?
    ensures s.executed == s.q.enqueued
  {
    if Pending(s) {
      DrainEnd(s);
    }
    Q.InvFacts(s.q);
  }

  // ----- the loop's own steps

  /** The loop thread's steps while it takes one function off the queue and calls it. */
  function OneCall<F>(): seq<Action<F>>
  {
    [Consume(Q.Load), Consume(Q.Take), Consume(Q.Advance), Consume(Q.Free), Return]
  }

  /** Its steps while it drains a queue of n functions. */
  function Drain<F>(n: nat): seq<Action<F>>
  {
    if n == 0 then [Consume(Q.Load), Check] else OneCall() + Drain(n - 1)
  }

  /** Its steps from a wakeup to the next wait, with n functions queued. */
  function Round<F>(n: nat): seq<Action<F>>
  {
    [WaitReturns(true), ReadWakeup, EndHandling, Check] + if n == 0 then [] else Drain(n)
  }

  predicate Undisturbed<F>(s: State<F>)
  {
    s.q.producers == map[] && s.owing == {}
  }

  lemma CallsOne<F>(s: State<F>)
    requires Inv(s) && s.pc.Dequeuing? && s.q.consumer.Ready? && Undisturbed(s) && Pending(s)
    ensures var r := Exec(s, OneCall());
            && r.At? && Inv(r.state) && r.state.pc.Dequeuing? && r.state.q.consumer.Ready? && Undisturbed(r.state)
            && r.state.q.enqueued == s.q.enqueued && |r.state.q.dequeued| == |s.q.dequeued| + 1
            && r.state.counter == s.counter
  {
    hide Inv, Safe;
    var l := OneCall<F>();
    LinkedThere(s);
    StepInv(s, l[0]);
    var s1 := Step(s, l[0]);
    StepInv(s1, l[1]);
    var s2 := Step(s1, l[1]);
    StepInv(s2, l[2]);
    var s3 := Step(s2, l[2]);
    StepInv(s3, l[3]);
    var s4 := Step(s3, l[3]);
    StepInv(s4, l[4]);
    assert l[1..][1..] == l[2..] && l[2..][1..] == l[3..] && l[3..][1..] == l[4..] && l[4..][1..] == [];
    assert Exec(s4, l[4..]) == At(Step(s4, l[4]));
    assert Exec(s3, l[3..]) == Exec(s4, l[4..]);
    assert Exec(s2, l[2..]) == Exec(s3, l[3..]);
    assert Exec(s1, l[1..]) == Exec(s2, l[2..]);
  }

  /** With no other thread in queueInLoop, the first link is there exactly if something is pending. */
  lemma LinkedThere<F>(s: State<F>)
    requires Inv(s) && s.q.producers == map[] && s.q.consumer.Ready?
    ensures s.q.tail in s.q.heap && (s.q.heap[s.q.tail].next != 0 <==> Pending(s))
    ensures |s.q.dequeued| <= |s.q.enqueued| && (!Pending(s) ==> s.executed == s.q.enqueued)
  {
    Q.LoadFindsFirst(s.q);
    Q.InvFacts(s.q);
  }

  lemma {:induction false} DrainRuns<F>(s: State<F>, n: nat)
    requires Inv(s) && s.pc.Dequeuing? && s.q.consumer.Ready? && Undisturbed(s)
    requires |s.q.enqueued| == |s.q.dequeued| + n
    ensures var r := Exec(s, Drain(n));
            r.At? && r.state.pc.Waiting? && r.state.executed == s.q.enqueued && r.state.counter == s.counter
    decreases n
  {
    hide Inv, Safe, OneCall, Exec, Pending;
    MorePending(s);
    if n == 0 {
      DrainEnds(s);
    } else {
      CallsOne(s);
      ExecJoin(s, OneCall(), Drain(n - 1));
      DrainRuns(Exec(s, OneCall()).state, n - 1);
    }
  }

  lemma MorePending<F>(s: State<F>)
    ensures Pending(s) <==> |s.q.enqueued| > |s.q.dequeued|
  {
  }

  lemma DrainEnds<F>(s: State<F>)
    requires Inv(s) && s.pc.Dequeuing? && s.q.consumer.Ready? && Undisturbed(s) && !Pending(s)
    ensures var r := Exec(s, Drain(0));
            r.At? && r.state.pc.Waiting? && r.state.executed == s.q.enqueued && r.state.counter == s.counter
  {
    hide Inv, Safe;
    LinkedThere(s);
    var l := Drain<F>(0);
    StepInv(s, l[0]);
    var s1 := Step(s, l[0]);
    StepInv(s1, l[1]);
    assert l[1..][1..] == [];
    assert Exec(s1, l[1..]) == At(Step(s1, l[1]));
  }

  /** Once the loop is woken and no other thread is inside queueInLoop, the loop's own steps call everything that was
      queued, in order, and lead it back to waiting with the wakeup used up. */
  lemma WokenCallsAll<F>(s: State<F>)
    requires Inv(s) && s.pc.Waiting? && s.counter > 0 && Undisturbed(s)
    ensures |s.executed| <= |s.q.enqueued|
    ensures var r := Exec(s, Round(|s.q.enqueued| - |s.executed|));
            r.At? && r.state.pc.Waiting? && r.state.executed == s.q.enqueued && r.state.counter == 0
  {
    hide Inv, Safe;
    WaitingExecuted(s);
    LinkedThere(s);
    var n := |s.q.enqueued| - |s.executed|;
    var l: seq<Action<F>> := [WaitReturns(true), ReadWakeup, EndHandling, Check];
    StepInv(s, l[0]);
    var s1 := Step(s, l[0]);
    StepInv(s1, l[1]);
    var s2 := Step(s1, l[1]);
    StepInv(s2, l[2]);
    var s3 := Step(s2, l[2]);
    StepInv(s3, l[3]);
    var s4 := Step(s3, l[3]);
    assert l[1..][1..] == l[2..] && l[2..][1..] == l[3..] && l[3..][1..] == [];
    assert Exec(s3, l[3..]) == At(s4);
    assert Exec(s2, l[2..]) == Exec(s3, l[3..]);
    assert Exec(s1, l[1..]) == Exec(s2, l[2..]);
    ExecJoin(s, l, if n == 0 then [] else Drain(n));
    if n > 0 {
      DrainRuns(s4, n);
    }
  }

  // ----- queueing before loop()

  predicate OwnExchange<F>(a: Action<F>) { a.Produce? && a.step.Exchange? && a.step.p == LOOP_THREAD }

  /** A foreign thread queues a function, or the eventfd is written for another reason. */
  predicate IsSignal<F>(a: Action<F>) { a.Poke? || (a.Produce? && a.step.Exchange? && a.step.p != LOOP_THREAD) }

  predicate AnyExchange<F>(a: Action<F>) { a.Produce? && a.step.Exchange? }

  predicate Has<F>(p: Action<F> -> bool, schedule: seq<Action<F>>)
  {
    exists i :: 0 <= i < |schedule| && p(schedule[i])
  }

  lemma HasFirst<F>(p: Action<F> -> bool, schedule: seq<Action<F>>)
    requires schedule != []
    ensures Has(p, schedule) <==> p(schedule[0]) || Has(p, schedule[1..])
  {
    if Has(p, schedule[1..]) {
      var i :| 0 <= i < |schedule| - 1 && p(schedule[1..][i]);
      assert schedule[i + 1] == schedule[1..][i];
    }
    if i :| 0 <= i < |schedule| && p(schedule[i]) {
      if i > 0 {
        assert schedule[1..][i - 1] == schedule[i];
      }
    }
  }

  /** Before loop() a function becomes pending by an exchange only, and a wakeup by a signal only. */
  lemma {:induction false} BeforeStart<F>(s: State<F>, schedule: seq<Action<F>>)
    requires Inv(s) && s.pc.NotStarted? && !Has((a: Action<F>) => a.Start?, schedule) && Exec(s, schedule).At?
    ensures var t := Exec(s, schedule).state;
      && t.pc.NotStarted?
      && (Pending(t) <==> Pending(s) || Has((a: Action<F>) => AnyExchange(a), schedule))
      && (WillWake(t) <==> WillWake(s) || Has((a: Action<F>) => IsSignal(a), schedule))
    decreases |schedule|
  {
    if schedule != [] {
      var a := schedule[0];
      HasFirst((a: Action<F>) => a.Start?, schedule);
      HasFirst((a: Action<F>) => AnyExchange(a), schedule);
      HasFirst((a: Action<F>) => IsSignal(a), schedule);
      StepInv(s, a);
      StepBeforeStart(s, a);
      BeforeStart(Step(s, a), schedule[1..]);
    }
  }

  lemma StepBeforeStart<F>(s: State<F>, a: Action<F>)
    requires Inv(s) && s.pc.NotStarted? && Due(s, a) && Safe(s, a) && !a.Start?
    ensures var t := Step(s, a);
      && t.pc.NotStarted?
      && (Pending(t) <==> Pending(s) || AnyExchange(a))
      && (WillWake(t) <==> WillWake(s) || IsSignal(a))
  {
    Q.InvFacts(s.q);
    hide Q.Inv;
    if a.Produce? {
      assert |s.q.dequeued| <= |s.q.enqueued|;
    }
  }

  /** loop() begins by blocking with a function pending and no wakeup to come exactly if the loop thread
      queued a function before it and no other thread has queued one or written the eventfd. */
  lemma LostAtStart<F>(dummy: nat, before: seq<Action<F>>)
    requires dummy != 0 && !Has((a: Action<F>) => a.Start?, before) && Exec(Init<F>(dummy), before).At?
    requires Due(Exec(Init<F>(dummy), before).state, Action<F>.Start)
    ensures
      var t := Step(Exec(Init<F>(dummy), before).state, Action<F>.Start);
      t.pc.Waiting? && (Pending(t) && !WillWake(t) <==>
        Has((a: Action<F>) => OwnExchange(a), before) && !Has((a: Action<F>) => IsSignal(a), before))
  {
    Q.InitInv<F>(dummy);
    BeforeStart(Init<F>(dummy), before);
    if i :| 0 <= i < |before| && AnyExchange(before[i]) {
      assert OwnExchange(before[i]) || IsSignal(before[i]);
    }
    if i :| 0 <= i < |before| && OwnExchange(before[i]) {
      assert AnyExchange(before[i]);
    }
  }

  lemma {:induction false} ExecJoin<F>(s: State<F>, a: seq<Action<F>>, b: seq<Action<F>>)
    ensures Exec(s, a + b).At? ==> Exec(s, a).At?
    ensures Exec(s, a).At? ==> Exec(s, a + b) == Exec(Exec(s, a).state, b)
    decreases |a|
  {
    if a == [] {
      assert a + b == b;
    } else {
      assert (a + b)[1..] == a[1..] + b;
      if Due(s, a[0]) && Safe(s, a[0]) {
        ExecJoin(Step(s, a[0]), a[1..], b);
      }
    }
  }

  /** After these steps the loop is about to block with a function pending and no wakeup to come. */
  predicate Stuck<F(==)>(dummy: nat, schedule: seq<Action<F>>)
    requires dummy != 0
  {
    Exec(Init<F>(dummy), schedule).At? &&
    var t := Exec(Init<F>(dummy), schedule).state;
    t.pc.Waiting? && Pending(t) && !WillWake(t)
  }

  /** A wakeup is lost at some moment of a run exactly if, before loop() began, the loop thread queued a function and no
      other thread queued one or wrote the eventfd. */
  lemma LostWakeupIff<F>(dummy: nat, schedule: seq<Action<F>>, start: nat)
    requires dummy != 0 && Exec(Init<F>(dummy), schedule).At?
    requires start < |schedule| && schedule[start].Start? && !Has((a: Action<F>) => a.Start?, schedule[..start])
    ensures (exists i: nat :: i <= |schedule| && Stuck(dummy, schedule[..i])) <==>
            Has((a: Action<F>) => OwnExchange(a), schedule[..start])
            && !Has((a: Action<F>) => IsSignal(a), schedule[..start])
  {
    StartReached(dummy, schedule, start);
    LostAtStart(dummy, schedule[..start]);
    var lost := Has((a: Action<F>) => OwnExchange(a), schedule[..start])
                && !Has((a: Action<F>) => IsSignal(a), schedule[..start]);
    if lost {
      assert Stuck(dummy, schedule[..start + 1]);
    } else {
      forall i: nat | i <= |schedule| ensures !Stuck(dummy, schedule[..i]) {
        if i <= start {
          NotYetStuck(dummy, schedule, start, i);
        } else {
          NeverStuck(dummy, schedule, start, i);
        }
      }
    }
  }

  lemma StartReached<F>(dummy: nat, schedule: seq<Action<F>>, start: nat)
    requires dummy != 0 && Exec(Init<F>(dummy), schedule).At? && start < |schedule| && schedule[start].Start?
    ensures Exec(Init<F>(dummy), schedule[..start]).At?
    ensures var s := Exec(Init<F>(dummy), schedule[..start]).state;
            Due(s, Action<F>.Start) && Exec(Init<F>(dummy), schedule[..start + 1]) == At(Step(s, Action<F>.Start))
  {
    hide Due, Step, Safe;
    var n := start + 1;
    assert schedule == schedule[..n] + schedule[n..] && schedule[..n] == schedule[..start] + [schedule[start]];
    ExecJoin(Init<F>(dummy), schedule[..n], schedule[n..]);
    ExecJoin(Init<F>(dummy), schedule[..start], [schedule[start]]);
    assert [schedule[start]][1..] == [];
    ExecOne(Exec(Init<F>(dummy), schedule[..start]).state);
  }

  lemma ExecOne<F>(s: State<F>)
    requires Exec(s, [Action<F>.Start]).At?
    ensures Due(s, Action<F>.Start) && Exec(s, [Action<F>.Start]) == At(Step(s, Action<F>.Start))
  {
    assert [Action<F>.Start][1..] == [];
  }

  lemma HasLonger<F>(p: Action<F> -> bool, schedule: seq<Action<F>>, i: nat, j: nat)
    requires i <= j <= |schedule|
    ensures Has(p, schedule[..i]) ==> Has(p, schedule[..j])
  {
    if k :| 0 <= k < i && p(schedule[..i][k]) {
      assert schedule[..j][k] == schedule[..i][k];
    }
  }

  lemma NotYetStuck<F>(dummy: nat, schedule: seq<Action<F>>, start: nat, i: nat)
    requires dummy != 0 && Exec(Init<F>(dummy), schedule).At? && i <= start < |schedule|
    requires !Has((a: Action<F>) => a.Start?, schedule[..start])
    ensures !Stuck(dummy, schedule[..i])
  {
    hide Exec, Inv, Pending, WillWake;
    assert schedule == schedule[..i] + schedule[i..];
    ExecJoin(Init<F>(dummy), schedule[..i], schedule[i..]);
    HasLonger((a: Action<F>) => a.Start?, schedule, i, start);
    InitLoopInv<F>(dummy);
    BeforeStart(Init<F>(dummy), schedule[..i]);
  }

  lemma InitLoopInv<F>(dummy: nat)
    requires dummy != 0
    ensures Inv(Init<F>(dummy))
  {
    Q.InitInv<F>(dummy);
  }

  lemma NeverStuck<F>(dummy: nat, schedule: seq<Action<F>>, start: nat, i: nat)
    requires dummy != 0 && Exec(Init<F>(dummy), schedule).At? && start < i <= |schedule|
    requires Exec(Init<F>(dummy), schedule[..start + 1]).At? && !Stuck(dummy, schedule[..start + 1])
    requires Exec(Init<F>(dummy), schedule[..start + 1]).state.pc.Waiting?
    ensures !Stuck(dummy, schedule[..i])
  {
    hide Exec, Inv;
    var a, b := schedule[..start + 1], schedule[start + 1..i];
    assert schedule == schedule[..i] + schedule[i..] && schedule[..i] == a + b;
    ExecJoin(Init<F>(dummy), schedule[..i], schedule[i..]);
    ExecJoin(Init<F>(dummy), a, b);
    InitLoopInv<F>(dummy);
    ExecInv(Init<F>(dummy), a);
    ExecInv(Exec(Init<F>(dummy), a).state, b);
  }

  /** One schedule that does it: the loop thread queues a function and then enters loop(). */
  lemma LostWakeupExample<F>(f: F)
    ensures
      var s := Exec(Init<F>(1), [Produce(Q.Make(LOOP_THREAD, f, 2)), Produce(Q.Exchange(LOOP_THREAD)),
                                 Produce(Q.Store(LOOP_THREAD)), Start]);
      s.At? && s.state.pc.Waiting? && Pending(s.state) && !WillWake(s.state)
  {
    var a: seq<Action<F>> := [Produce(Q.Make(LOOP_THREAD, f, 2)), Produce(Q.Exchange(LOOP_THREAD)),
                              Produce(Q.Store(LOOP_THREAD)), Start];
    var s0 := Init<F>(1);
    var s1 := Step(s0, a[0]);
    var s2 := Step(s1, a[1]);
    var s3 := Step(s2, a[2]);
    assert a[1..][1..] == a[2..] && a[2..][1..] == a[3..] && a[3..][1..] == [];
    assert Exec(s3, a[3..]) == Exec(Step(s3, a[3]), []);
    assert Exec(s2, a[2..]) == Exec(s3, a[3..]);
    assert Exec(s1, a[1..]) == Exec(s2, a[2..]);
  }
}
