/** What adding and cancelling a timer do to the queue, and that no run brings a cancelled timer back, told from the
    steps of the run alone. */
module TimerEffects {
  import opened Timers
  import opened TimerFacts

  /** The interval in whole microseconds: a second has a million of them, and a part of one is cut off. */
  lemma MicrosMeans(interval: real)
    requires interval > 0.0
    ensures Micros(interval) as real <= interval * 1000000.0 < (Micros(interval) + 1) as real
    ensures Micros(1.0) == 1000000
  {
  }

  /** An added timer waits at its time and the others as they did; the descriptor is set for it if it is the
      earliest. */
  lemma AddMeans(q: Queue, timer: Address, when: nat, interval: real)
    requires WellFormed(q) && timer !in q.objects
    ensures var d := DoCall(q, Add(timer, when, interval));
            && d.objects == q.objects[timer := Timer(when, interval)] && WellFormed(d)
            && (forall e :: e in d.entries <==> e in q.entries || e == Entry(when, timer))
            && Waiting(d, timer) && (forall a | a != timer :: Waiting(d, a) <==> Waiting(q, a))
            && d.armed == (if forall e | e in q.entries :: when < e.time then when else q.armed)
            && d.canceling == q.canceling && d.batch == q.batch
  {
    var e := Entry(when, timer);
    InsertedSet(q.entries, e);
    var d := DoAdd(q, timer, when, interval);
    if q.entries != [] {
      assert q.entries[0] in q.entries;
      assert forall i | 0 < i < |q.entries| :: Before(q.entries[0], q.entries[i]);
    }
  }

  /** A cancelled timer waits no more, and the others as they did; a timer that is not waiting is remembered. */
  lemma CancelMeans(q: Queue, timer: Address)
    requires WellFormed(q) && timer in q.objects
    ensures var d := DoCall(q, Cancel(timer));
            && d.objects == q.objects && WellFormed(d) && d.armed == q.armed && d.batch == q.batch
            && (forall e :: e in d.entries <==> e in q.entries && e.timer != timer)
            && !Waiting(d, timer) && (forall a | a != timer :: Waiting(d, a) <==> Waiting(q, a))
            && d.canceling == if Waiting(q, timer) then q.canceling else q.canceling + {timer}
  {
    ErasedSet(q.entries, Entry(q.objects[timer].expiration, timer));
  }

  // ----- cancellation over whole runs

  /** The timers that there are after some calls. */
  function KnownAfter(known: set<Address>, calls: seq<Call>): set<Address>
  {
    if calls == [] then known
    else
      var n := |calls| - 1;
      KnownAfter(known, calls[..n]) + if calls[n].Add? then {calls[n].timer} else {}
  }

  /** One of the calls cancels the timer, which there is by then. */
  predicate Cancels(known: set<Address>, calls: seq<Call>, timer: Address)
  {
    exists i :: 0 <= i < |calls| && calls[i] == Cancel(timer) && timer in KnownAfter(known, calls[..i])
  }

  /** The calls of the callbacks of a batch, in order. */
  function AllCalls(scripts: seq<seq<Call>>): seq<Call>
  {
    if scripts == [] then [] else AllCalls(scripts[..|scripts| - 1]) + scripts[|scripts| - 1]
  }

  /** The step, or a callback in its batch, cancels the timer. */
  predicate StepCancels(q: Queue, s: Step, timer: Address)
  {
    match s
    case Calls(call) => call == Cancel(timer) && timer in q.objects
    case Read(_, scripts) => Cancels(q.objects.Keys, AllCalls(scripts), timer)
  }

  ghost predicate Logged(q: Queue, timer: Address)
  {
    exists b :: Cancelled(timer, b) in q.log
  }

  lemma {:induction false} KnownJoin(known: set<Address>, a: seq<Call>, b: seq<Call>)
    ensures KnownAfter(known, a + b) == KnownAfter(KnownAfter(known, a), b)
    decreases |b|
  {
    if b == [] {
      assert a + b == a;
    } else {
      assert (a + b)[..|a + b| - 1] == a + b[..|b| - 1];
      KnownJoin(known, a, b[..|b| - 1]);
    }
  }

  /** The timer was cancelled in the current batch, or since it. */
  predicate LoggedNow(q: Queue, timer: Address)
  {
    Cancelled(timer, q.batch) in q.log
  }

  /** A cancellation in two lists of calls is in the first or the second. */
  lemma CancelsJoin(known: set<Address>, a: seq<Call>, b: seq<Call>, timer: Address)
    ensures Cancels(known, a + b, timer) <==> Cancels(known, a, timer) || Cancels(KnownAfter(known, a), b, timer)
  {
    if i :| 0 <= i < |a + b| && (a + b)[i] == Cancel(timer) && timer in KnownAfter(known, (a + b)[..i]) {
      if i < |a| {
        assert (a + b)[..i] == a[..i] && a[i] == Cancel(timer);
      } else {
        assert (a + b)[..i] == a + b[..i - |a|];
        KnownJoin(known, a, b[..i - |a|]);
        assert b[i - |a|] == Cancel(timer);
      }
    }
    if i :| 0 <= i < |a| && a[i] == Cancel(timer) && timer in KnownAfter(known, a[..i]) {
      assert (a + b)[..i] == a[..i] && (a + b)[i] == Cancel(timer);
    }
    if i :| 0 <= i < |b| && b[i] == Cancel(timer) && timer in KnownAfter(KnownAfter(known, a), b[..i]) {
      assert (a + b)[..|a| + i] == a + b[..i];
      KnownJoin(known, a, b[..i]);
      assert (a + b)[|a| + i] == Cancel(timer);
    }
  }

  lemma CancelsOne(known: set<Address>, call: Call, timer: Address)
    ensures Cancels(known, [call], timer) <==> call == Cancel(timer) && timer in known
  {
    assert [call][..0] == [] && KnownAfter(known, []) == known;
    if call == Cancel(timer) && timer in known {
      assert [call][0] == Cancel(timer) && timer in KnownAfter(known, [call][..0]);
    }
  }

  lemma CallLogs(q: Queue, call: Call, timer: Address)
    ensures var d := DoCall(q, call);
            && d.objects.Keys == q.objects.Keys + (if call.Add? then {call.timer} else {})
            && q.log <= d.log && d.batch == q.batch
            && (LoggedNow(d, timer) <==> LoggedNow(q, timer) || (call == Cancel(timer) && timer in q.objects))
  {
    var d := DoCall(q, call);
    if Callable(q, call) {
      var x := if call.Add? then Added(call.timer) else Cancelled(call.timer, q.batch);
      assert d.log == q.log + [x];
      assert forall y :: y in d.log <==> y in q.log || y == x;
    }
  }

  lemma LoggedStays(q: Queue, d: Queue, timer: Address)
    requires Logged(q, timer) && q.log <= d.log
    ensures Logged(d, timer)
  {
    var b :| Cancelled(timer, b) in q.log;
    assert Cancelled(timer, b) in d.log;
  }

  lemma {:induction false} CallsLog(q: Queue, calls: seq<Call>, timer: Address)
    ensures var d := DoCalls(q, calls);
            && d.objects.Keys == KnownAfter(q.objects.Keys, calls) && q.log <= d.log && d.batch == q.batch
            && (LoggedNow(d, timer) <==> LoggedNow(q, timer) || Cancels(q.objects.Keys, calls, timer))
    decreases |calls|
  {
    hide DoCall, LoggedNow, Cancels;
    if calls == [] {
      NothingCancels(q.objects.Keys, timer);
    } else {
      var n := |calls| - 1;
      CallsLog(q, calls[..n], timer);
      CallLogs(DoCalls(q, calls[..n]), calls[n], timer);
      assert calls == calls[..n] + [calls[n]];
      CancelsJoin(q.objects.Keys, calls[..n], [calls[n]], timer);
      CancelsOne(KnownAfter(q.objects.Keys, calls[..n]), calls[n], timer);
    }
  }

  lemma {:induction false} BatchLogs(q: Queue, expired: seq<Entry>, now: nat, scripts: seq<seq<Call>>, timer: Address)
    requires |scripts| == |expired|
    ensures var d := RunBatch(q, expired, now, scripts);
            && d.objects.Keys == KnownAfter(q.objects.Keys, AllCalls(scripts)) && q.log <= d.log && d.batch == q.batch
            && (LoggedNow(d, timer) <==> LoggedNow(q, timer) || Cancels(q.objects.Keys, AllCalls(scripts), timer))
    decreases |expired|
  {
    hide DoCalls, LoggedNow, Cancels;
    if expired == [] {
      NothingCancels(q.objects.Keys, timer);
    } else {
      var n := |expired| - 1;
      BatchLogs(q, expired[..n], now, scripts[..n], timer);
      var p := RunBatch(q, expired[..n], now, scripts[..n]);
      var r := p.(log := p.log + [Ran(expired[n], now, p.batch)]);
      RunLogs(p, r, timer);
      CallsLog(r, scripts[n], timer);
      KnownJoin(q.objects.Keys, AllCalls(scripts[..n]), scripts[n]);
      CancelsJoin(q.objects.Keys, AllCalls(scripts[..n]), scripts[n], timer);
    }
  }

  lemma RunLogs(p: Queue, r: Queue, timer: Address)
    requires r.batch == p.batch && |r.log| == |p.log| + 1 && p.log <= r.log && r.log[|p.log|].Ran?
    ensures LoggedNow(r, timer) <==> LoggedNow(p, timer)
  {
    assert r.log == p.log + [r.log[|p.log|]];
  }

  lemma NothingCancels(known: set<Address>, timer: Address)
    ensures !Cancels(known, [], timer)
  {
  }

  lemma {:induction false} RestartLogs(q: Queue, expired: seq<Entry>, now: nat)
    ensures RestartAll(q, expired, now).log == q.log
    decreases |expired|
  {
    if expired != [] {
      RestartLogs(q, expired[..|expired| - 1], now);
    }
  }

  lemma StepLogs(q: Queue, s: Step, timer: Address)
    requires Enabled(q, s)
    ensures q.log <= Next(q, s).log
    ensures StepCancels(q, s, timer) ==> Logged(Next(q, s), timer)
  {
    hide LoggedNow, Cancels, DoCall;
    match s
    case Calls(call) =>
      CallLogs(q, call, timer);
      NowIsLogged(DoCall(q, call), timer);
    case Read(now, scripts) =>
      var expired := Expired(q.entries, now);
      BatchLogs(Begin(q, now), expired, now, scripts, timer);
      RestartLogs(RunBatch(Begin(q, now), expired, now, scripts), expired, now);
      NowIsLogged(RunBatch(Begin(q, now), expired, now, scripts), timer);
      if Logged(RunBatch(Begin(q, now), expired, now, scripts), timer) {
        LoggedStays(RunBatch(Begin(q, now), expired, now, scripts), Next(q, s), timer);
      }
  }

  lemma NowIsLogged(q: Queue, timer: Address)
    ensures LoggedNow(q, timer) ==> Logged(q, timer)
  {
  }

  /** Between steps, a timer that was cancelled is not in the set. */
  lemma LoggedGone(q: Queue, timer: Address)
    requires Inv(q, {}, {}) && Logged(q, timer)
    ensures !Waiting(q, timer)
  {
  }

  lemma {:induction false} StaysLogged(states: seq<Queue>, steps: seq<Step>, i: nat, j: nat, timer: Address)
    requires IsRun(states, steps) && i < j < |states| && StepCancels(states[i], steps[i], timer)
    ensures Logged(states[j], timer)
    decreases j
  {
    hide Logged, Next, StepCancels, Enabled;
    StepLogs(states[j - 1], steps[j - 1], timer);
    if j > i + 1 {
      StaysLogged(states, steps, i, j - 1, timer);
      LoggedStays(states[j - 1], states[j], timer);
    }
  }

  /** Once a step, or a callback in its batch, has cancelled a timer that there is, the timer is not in the set any
      more, and no later batch runs it. */
  lemma CancelledStaysOut(states: seq<Queue>, steps: seq<Step>, i: nat, j: nat, timer: Address)
    requires IsRun(states, steps) && i < j < |states| && StepCancels(states[i], steps[i], timer)
    ensures forall e | e in states[j].entries :: e.timer != timer
    ensures j < |steps| && steps[j].Read? ==>
      forall e | e in Expired(states[j].entries, steps[j].now) :: e.timer != timer
  {
    hide Logged, StepCancels, Next;
    StaysLogged(states, steps, i, j, timer);
    RunKeeps(states, steps, j);
    LoggedGone(states[j], timer);
    NotWaitingNotIn(states[j], timer);
  }

  lemma NotWaitingNotIn(q: Queue, timer: Address)
    requires Inv(q, {}, {}) && !Waiting(q, timer)
    ensures forall e | e in q.entries :: e.timer != timer
  {
  }

  lemma StepRuns(q: Queue, s: Step)
    requires Inv(q, {}, {}) && Enabled(q, s)
    ensures RanOf(Next(q, s).log) == RanOf(q.log) + if s.Read? then Expired(q.entries, s.now) else []
  {
    hide Inv;
    match s
    case Calls(call) =>
      CallsRunNothing(q, [call]);
      assert [call][..0] == [];
      assert DoCalls(q, [call]) == DoCall(q, call);
      assert RanOf(q.log) + [] == RanOf(q.log);
    case Read(now, scripts) => BatchExactly(q, now, scripts);
  }

  /** And so no later run of it is ever recorded. */
  lemma {:induction false} CancelledNeverRuns(states: seq<Queue>, steps: seq<Step>, i: nat, j: nat, timer: Address)
    requires IsRun(states, steps) && i < j < |states| && StepCancels(states[i], steps[i], timer)
    ensures RanOf(states[i + 1].log) <= RanOf(states[j].log)
    ensures forall e | e in RanOf(states[j].log)[|RanOf(states[i + 1].log)|..] :: e.timer != timer
    decreases j
  {
    hide RanOf, Next, StepCancels, Inv, Expired, Enabled;
    if j > i + 1 {
      CancelledNeverRuns(states, steps, i, j - 1, timer);
      CancelledStaysOut(states, steps, i, j - 1, timer);
      RunKeeps(states, steps, j - 1);
      StepRuns(states[j - 1], steps[j - 1]);
    }
  }

  // ----- restarting, by the calls of the batch

  /** A timer that a batch runs waits again after it exactly if it repeats and no callback of the batch cancels it; then
      it waits for an interval after the batch. */
  lemma RestartsUnlessCancelled(q: Queue, now: nat, scripts: seq<seq<Call>>, e: Entry)
    requires Inv(q, {}, {}) && |scripts| == |Expired(q.entries, now)| && e in q.entries && e.time < now
    ensures e.timer in q.objects
    ensures var r := HandleRead(q, now, scripts);
            var t := q.objects[e.timer];
            && (Waiting(r, e.timer) <==> t.interval > 0.0 && !Cancels(q.objects.Keys, AllCalls(scripts), e.timer))
            && (Waiting(r, e.timer) ==> Entry(now + Micros(t.interval), e.timer) in r.entries)
  {
    hide Cancels, Inv, Waiting, HandleRead;
    InvOrdered(q);
    ExpiredIff(q.entries, now);
    RestartedIff(q, now, scripts, e);
    LoggedInBatch(q, now, scripts, e.timer);
    WaitingMeans(HandleRead(q, now, scripts), e.timer);
  }

  lemma LoggedInBatch(q: Queue, now: nat, scripts: seq<seq<Call>>, timer: Address)
    requires Inv(q, {}, {}) && |scripts| == |Expired(q.entries, now)|
    ensures Cancelled(timer, q.batch + 1) in HandleRead(q, now, scripts).log <==>
            Cancels(q.objects.Keys, AllCalls(scripts), timer)
  {
    hide Cancels, Inv, RunBatch;
    var expired := Expired(q.entries, now);
    BatchLogs(Begin(q, now), expired, now, scripts, timer);
    RestartLogs(RunBatch(Begin(q, now), expired, now, scripts), expired, now);
    NotYetLogged(q, now, timer);
  }

  lemma NotYetLogged(q: Queue, now: nat, timer: Address)
    requires Inv(q, {}, {})
    ensures !LoggedNow(Begin(q, now), timer)
  {
  }

  lemma WaitingMeans(q: Queue, timer: Address)
    ensures Waiting(q, timer) ==> timer in q.objects && Entry(q.objects[timer].expiration, timer) in q.entries
  {
  }
}
