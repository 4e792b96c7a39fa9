/** What every run of the timer queue keeps. */
module TimerFacts {
  import opened Timers

  // ----- the ordered set

  predicate WaitsIn(objects: map<Address, Timer>, entries: seq<Entry>, a: Address)
  {
    a in objects && Entry(objects[a].expiration, a) in entries
  }

  /** The timer is in the set. */
  predicate Waiting(q: Queue, a: Address)
  {
    WaitsIn(q.objects, q.entries, a)
  }

  /** The set is ordered, and every entry stands at the time at which its timer expires, so that no timer is in it
      twice. */
  predicate WellFormed(q: Queue)
  {
    Ordered(q.entries) && forall e | e in q.entries :: e.timer in q.objects && q.objects[e.timer].expiration == e.time
  }

  lemma NotTwice(q: Queue, i: nat, j: nat)
    requires WellFormed(q) && i < j < |q.entries|
    ensures q.entries[i].timer != q.entries[j].timer
  {
    assert q.entries[i] in q.entries && q.entries[j] in q.entries;
    assert Before(q.entries[i], q.entries[j]);
  }

  /** Everything from the lower bound on comes after an entry that is not in the set. */
  lemma AfterBound(entries: seq<Entry>, e: Entry, i: nat)
    requires Ordered(entries) && e !in entries && LowerBound(entries, e) <= i < |entries|
    ensures Before(e, entries[i])
  {
    var n := LowerBound(entries, e);
    assert entries[n] in entries;
    assert i == n || Before(entries[n], entries[i]);
  }

  lemma InsertedSet(entries: seq<Entry>, e: Entry)
    requires Ordered(entries) && e !in entries
    ensures Ordered(Inserted(entries, e))
    ensures forall d :: d in Inserted(entries, e) <==> d in entries || d == e
  {
    var n := LowerBound(entries, e);
    var s := Inserted(entries, e);
    forall i, j | 0 <= i < j < |s| ensures Before(s[i], s[j]) {
      if i == n {
        AfterBound(entries, e, j - 1);
      } else if i < n < j {
        assert Before(entries[i], entries[j - 1]);
      } else if n < i {
        assert Before(entries[i - 1], entries[j - 1]);
      }
    }
    InsertedMembers(entries, e, n);
  }

  lemma InsertedMembers(entries: seq<Entry>, e: Entry, n: nat)
    requires n <= |entries|
    ensures forall d :: d in entries[..n] + [e] + entries[n..] <==> d in entries || d == e
  {
    assert entries == entries[..n] + entries[n..];
  }

  lemma {:induction false} ErasedSet(entries: seq<Entry>, e: Entry)
    requires Ordered(entries)
    ensures Ordered(Erased(entries, e))
    ensures forall d :: d in Erased(entries, e) <==> d in entries && d != e
  {
    if entries != [] {
      var rest := entries[1..];
      assert entries == [entries[0]] + rest;
      assert forall d | d in rest :: Before(entries[0], d);
      ErasedSet(rest, e);
      if entries[0] != e {
        var s := Erased(rest, e);
        assert forall i | 0 <= i < |s| :: s[i] in s;
      }
    }
  }

  lemma FromBound(entries: seq<Entry>, now: nat, i: nat)
    requires Ordered(entries) && LowerBound(entries, Entry(now, 0)) <= i < |entries|
    ensures entries[i].time >= now
  {
    var n := LowerBound(entries, Entry(now, 0));
    assert i == n || Before(entries[n], entries[i]);
  }

  /** What is taken out for a batch are the entries strictly before now. */
  lemma ExpiredIff(entries: seq<Entry>, now: nat)
    requires Ordered(entries)
    ensures var n := LowerBound(entries, Entry(now, 0));
            && Ordered(entries[..n]) && Ordered(entries[n..])
            && (forall e :: e in entries[..n] <==> e in entries && e.time < now)
            && (forall e :: e in entries[n..] <==> e in entries && e.time >= now)
  {
    var n := LowerBound(entries, Entry(now, 0));
    SplitOrdered(entries, n);
    forall i: nat | n <= i < |entries| ensures entries[i].time >= now {
      FromBound(entries, now, i);
    }
    SplitMembers(entries, n, now);
  }

  lemma SplitOrdered(entries: seq<Entry>, n: nat)
    requires Ordered(entries) && n <= |entries|
    ensures Ordered(entries[..n]) && Ordered(entries[n..])
  {
  }

  lemma SplitMembers(entries: seq<Entry>, n: nat, now: nat)
    requires n <= |entries|
    requires forall i | 0 <= i < n :: entries[i].time < now
    requires forall i: nat | n <= i < |entries| :: entries[i].time >= now
    ensures forall e :: e in entries[..n] <==> e in entries && e.time < now
    ensures forall e :: e in entries[n..] <==> e in entries && e.time >= now
  {
    assert entries == entries[..n] + entries[n..];
  }

  // ----- the history

  /** A timer runs only when its time is strictly past. */
  predicate RanInTime(log: seq<Effect>)
  {
    forall x | x in log && x.Ran? :: x.entry.time < x.now
  }

  /** A timer that runs again is a repeating one, and it is in a later batch. */
  predicate RanAgain(log: seq<Effect>, objects: map<Address, Timer>)
  {
    forall i, j | 0 <= i < j < |log| && log[i].Ran? && log[j].Ran? && log[i].entry.timer == log[j].entry.timer ::
      && log[i].entry.timer in objects && IsRepeat(objects[log[i].entry.timer])
      && log[i].batch < log[j].batch
  }

  /** A timer that runs although it was cancelled was cancelled in its own batch. */
  predicate CancelledStays(log: seq<Effect>)
  {
    forall i, j | 0 <= i < j < |log| && log[i].Cancelled? && log[j].Ran? && log[i].timer == log[j].entry.timer ::
      log[i].batch == log[j].batch
  }

  ghost predicate History(q: Queue)
  {
    RanInTime(q.log) && RanAgain(q.log, q.objects) && CancelledStays(q.log)
  }

  /** What is known of each timer in the log, while the timers out are taken out for a batch of which those due are
      still to run. */
  ghost predicate Known(q: Queue, out: set<Address>, due: set<Address>)
  {
    && due <= out <= q.objects.Keys
    && (forall a | a in out :: !Waiting(q, a))
    && (forall x | x in q.log && x.Added? :: x.timer in q.objects)
    && (forall a | a in q.canceling :: Cancelled(a, q.batch) in q.log)
    && (forall x | x in q.log && x.Cancelled? ::
          && x.timer in q.objects && !Waiting(q, x.timer) && x.batch <= q.batch
          && (x.timer in out ==> x.batch == q.batch && x.timer in q.canceling))
    && (forall x | x in q.log && x.Ran? ::
          && x.entry.timer in q.objects && x.batch <= q.batch && (x.entry.timer in due ==> x.batch < q.batch)
          && (!IsRepeat(q.objects[x.entry.timer]) ==> !Waiting(q, x.entry.timer) && x.entry.timer !in due))
  }

  ghost predicate Inv(q: Queue, out: set<Address>, due: set<Address>)
  {
    WellFormed(q) && History(q) && Known(q, out, due)
  }

  /** Only runs of timers matter to the history. */
  lemma QuietHistory(q: Queue, p: Queue, x: Effect)
    requires History(q) && p.log == q.log + [x] && !x.Ran?
    requires forall a | a in q.objects :: a in p.objects && p.objects[a] == q.objects[a]
    ensures History(p)
  {
    assert forall y :: y in p.log <==> y in q.log || y == x;
  }

  lemma AddKeeps(q: Queue, out: set<Address>, due: set<Address>, timer: Address, when: nat, interval: real)
    requires Inv(q, out, due) && timer !in q.objects
    ensures Inv(DoAdd(q, timer, when, interval), out, due)
  {
    hide History;
    var e := Entry(when, timer);
    InsertedSet(q.entries, e);
    QuietHistory(q, DoAdd(q, timer, when, interval), Added(timer));
    var p := DoAdd(q, timer, when, interval);
    assert forall a :: a != timer ==> (Waiting(p, a) <==> Waiting(q, a));
    assert forall x :: x in p.log <==> x in q.log || x == Added(timer);
  }

  lemma CancelKeeps(q: Queue, out: set<Address>, due: set<Address>, timer: Address)
    requires Inv(q, out, due) && timer in q.objects
    ensures Inv(DoCancel(q, timer), out, due)
  {
    hide History;
    var e := Entry(q.objects[timer].expiration, timer);
    ErasedSet(q.entries, e);
    var p := DoCancel(q, timer);
    QuietHistory(q, p, Cancelled(timer, q.batch));
    assert !Waiting(p, timer);
    assert forall a :: a != timer ==> (Waiting(p, a) <==> Waiting(q, a));
    assert p.log[|q.log|] == Cancelled(timer, q.batch);
    assert forall x :: x in p.log <==> x in q.log || x == Cancelled(timer, q.batch);
  }

  lemma RanKeeps(q: Queue, out: set<Address>, due: set<Address>, e: Entry, now: nat)
    requires Inv(q, out, due) && e.timer in due && e.time < now
    ensures Inv(q.(log := q.log + [Ran(e, now, q.batch)]), out, due - {e.timer})
  {
    hide History;
    var p := q.(log := q.log + [Ran(e, now, q.batch)]);
    assert forall x :: x in p.log <==> x in q.log || x == Ran(e, now, q.batch);
    assert forall a :: Waiting(p, a) <==> Waiting(q, a);
    RanHistory(q, e, now, out, due);
  }

  lemma RanHistory(q: Queue, e: Entry, now: nat, out: set<Address>, due: set<Address>)
    requires Inv(q, out, due) && e.timer in due && e.time < now
    ensures History(q.(log := q.log + [Ran(e, now, q.batch)]))
  {
    hide WellFormed;
    var log := q.log + [Ran(e, now, q.batch)];
    assert forall x :: x in log <==> x in q.log || x == Ran(e, now, q.batch);
    assert forall i | 0 <= i < |q.log| :: q.log[i] in q.log;
  }

  lemma CallKeeps(q: Queue, out: set<Address>, due: set<Address>, call: Call)
    requires Inv(q, out, due)
    ensures Inv(DoCall(q, call), out, due)
  {
    if Callable(q, call) {
      match call
      case Add(timer, when, interval) => AddKeeps(q, out, due, timer, when, interval);
      case Cancel(timer) => CancelKeeps(q, out, due, timer);
    }
  }

  lemma {:induction false} CallsKeep(q: Queue, out: set<Address>, due: set<Address>, calls: seq<Call>)
    requires Inv(q, out, due)
    ensures Inv(DoCalls(q, calls), out, due)
    decreases |calls|
  {
    if calls != [] {
      CallsKeep(q, out, due, calls[..|calls| - 1]);
      CallKeeps(DoCalls(q, calls[..|calls| - 1]), out, due, calls[|calls| - 1]);
    }
  }

  // ----- a batch

  function TimersOf(entries: seq<Entry>): set<Address>
  {
    set e | e in entries :: e.timer
  }

  /** The entries of different timers, all before now. */
  predicate IsBatch(expired: seq<Entry>, now: nat)
  {
    && (forall i, j | 0 <= i < j < |expired| :: expired[i].timer != expired[j].timer)
    && (forall e | e in expired :: e.time < now)
  }

  lemma BeginKeeps(q: Queue, now: nat)
    requires Inv(q, {}, {})
    ensures var expired := Expired(q.entries, now);
            IsBatch(expired, now) && Inv(Begin(q, now), TimersOf(expired), TimersOf(expired))
  {
    var expired := Expired(q.entries, now);
    var p := Begin(q, now);
    var out := TimersOf(expired);
    ExpiredIff(q.entries, now);
    forall i, j | 0 <= i < j < |expired| ensures expired[i].timer != expired[j].timer {
      NotTwice(q, i, j);
    }
    forall a | a in out ensures Waiting(q, a) && !Waiting(p, a) {
    }
    forall a | Waiting(p, a) ensures Waiting(q, a) {
    }
  }

  /** The batch minus its last entry. */
  lemma BatchButLast(expired: seq<Entry>, now: nat)
    requires expired != [] && IsBatch(expired, now)
    ensures var n := |expired| - 1;
            && IsBatch(expired[..n], now) && expired[n].time < now
            && expired[n].timer !in TimersOf(expired[..n])
            && TimersOf(expired) == TimersOf(expired[..n]) + {expired[n].timer}
  {
    var n := |expired| - 1;
    assert expired == expired[..n] + [expired[n]];
  }

  lemma {:induction false} RunBatchKeeps(q: Queue, expired: seq<Entry>, now: nat, scripts: seq<seq<Call>>,
                                         out: set<Address>, due: set<Address>)
    requires Inv(q, out, due) && IsBatch(expired, now) && TimersOf(expired) <= due && |scripts| == |expired|
    ensures Inv(RunBatch(q, expired, now, scripts), out, due - TimersOf(expired))
    decreases |expired|
  {
    hide History, WellFormed, Known;
    if expired == [] {
      assert due - TimersOf(expired) == due;
    } else {
      var n := |expired| - 1;
      BatchButLast(expired, now);
      var p := RunBatch(q, expired[..n], now, scripts[..n]);
      RunBatchKeeps(q, expired[..n], now, scripts[..n], out, due);
      var left := due - TimersOf(expired[..n]);
      assert expired[n] in expired && expired[n].timer in left;
      RanKeeps(p, out, left, expired[n], now);
      CallsKeep(p.(log := p.log + [Ran(expired[n], now, p.batch)]), out, left - {expired[n].timer}, scripts[n]);
      assert left - {expired[n].timer} == due - TimersOf(expired);
    }
  }

  lemma RestartKeeps(q: Queue, out: set<Address>, timer: Address, now: nat)
    requires Inv(q, out, {}) && timer in out
    ensures Inv(if Restarts(q, timer) then Restart(q, timer, now) else q, out - {timer}, {})
  {
    if Restarts(q, timer) {
      var p := Restart(q, timer, now);
      var e := Entry(p.objects[timer].expiration, timer);
      assert !Waiting(q, timer);
      InsertedSet(q.entries, e);
      assert forall a :: a != timer ==> (Waiting(p, a) <==> Waiting(q, a));
    }
  }

  lemma {:induction false} RestartAllKeeps(q: Queue, expired: seq<Entry>, now: nat, out: set<Address>)
    requires Inv(q, out, {}) && IsBatch(expired, now) && TimersOf(expired) <= out
    ensures Inv(RestartAll(q, expired, now), out - TimersOf(expired), {})
    decreases |expired|
  {
    hide History, WellFormed, Known;
    if expired == [] {
      assert out - TimersOf(expired) == out;
    } else {
      var n := |expired| - 1;
      BatchButLast(expired, now);
      RestartAllKeeps(q, expired[..n], now, out);
      RestartKeeps(RestartAll(q, expired[..n], now), out - TimersOf(expired[..n]), expired[n].timer, now);
      assert out - TimersOf(expired[..n]) - {expired[n].timer} == out - TimersOf(expired);
    }
  }

  lemma HandleReadKeeps(q: Queue, now: nat, scripts: seq<seq<Call>>)
    requires Inv(q, {}, {}) && |scripts| == |Expired(q.entries, now)|
    ensures Inv(HandleRead(q, now, scripts), {}, {})
  {
    hide History, WellFormed, Known, Inv;
    var expired := Expired(q.entries, now);
    var out := TimersOf(expired);
    BeginKeeps(q, now);
    RunBatchKeeps(Begin(q, now), expired, now, scripts, out, out);
    assert out - out == {};
    var p := RunBatch(Begin(q, now), expired, now, scripts);
    RestartAllKeeps(p, expired, now, out);
    RearmKeeps(RestartAll(p, expired, now));
  }

  lemma RearmKeeps(q: Queue)
    requires Inv(q, {}, {})
    ensures Inv(Rearm(q), {}, {})
  {
    assert forall a :: Waiting(Rearm(q), a) <==> Waiting(q, a);
  }

  lemma EmptyInv()
    ensures Inv(EMPTY, {}, {})
  {
  }

  lemma StepKeeps(q: Queue, s: Step)
    requires Inv(q, {}, {}) && Enabled(q, s)
    ensures Inv(Next(q, s), {}, {})
  {
    match s
    case Calls(call) => CallKeeps(q, {}, {}, call);
    case Read(now, scripts) => HandleReadKeeps(q, now, scripts);
  }

  lemma {:induction false} RunKeeps(states: seq<Queue>, steps: seq<Step>, i: nat)
    requires IsRun(states, steps) && i < |states|
    ensures Inv(states[i], {}, {})
  {
    hide Next, Inv;
    if i == 0 {
      EmptyInv();
    } else {
      RunKeeps(states, steps, i - 1);
      StepKeeps(states[i - 1], steps[i - 1]);
    }
  }

  /** On every run: no timer is in the set twice and each stands at its time; a timer runs only when its time is
      strictly past, runs again only if it repeats, and once a batch; and a timer that was cancelled is run, if at all,
      in the batch it was cancelled in, and never again. */
  lemma TimersHoldGood(states: seq<Queue>, steps: seq<Step>, i: nat)
    requires IsRun(states, steps) && i < |states|
    ensures var q := states[i];
            WellFormed(q) && RanInTime(q.log) && RanAgain(q.log, q.objects) && CancelledStays(q.log)
  {
    RunKeeps(states, steps, i);
  }

  /** A cancelled timer is not in the set, whenever no batch is being run. */
  lemma CancelledGone(states: seq<Queue>, steps: seq<Step>, i: nat, timer: Address, batch: nat)
    requires IsRun(states, steps) && i < |states| && Cancelled(timer, batch) in states[i].log
    ensures !Waiting(states[i], timer)
  {
    RunKeeps(states, steps, i);
  }

  // ----- what a batch does

  /** The entries run so far, in order. */
  function RanOf(log: seq<Effect>): seq<Entry>
  {
    if log == [] then []
    else
      var last := log[|log| - 1];
      RanOf(log[..|log| - 1]) + if last.Ran? then [last.entry] else []
  }

  lemma RanOfAppend(log: seq<Effect>, x: Effect)
    ensures RanOf(log + [x]) == if x.Ran? then RanOf(log) + [x.entry] else RanOf(log)
  {
    assert (log + [x])[..|log|] == log;
  }

  lemma {:induction false} CallsRunNothing(q: Queue, calls: seq<Call>)
    ensures RanOf(DoCalls(q, calls).log) == RanOf(q.log) && DoCalls(q, calls).batch == q.batch
    decreases |calls|
  {
    if calls != [] {
      var p := DoCalls(q, calls[..|calls| - 1]);
      CallsRunNothing(q, calls[..|calls| - 1]);
      match calls[|calls| - 1]
      case Add(timer, _, _) => RanOfAppend(p.log, Added(timer));
      case Cancel(timer) => RanOfAppend(p.log, Cancelled(timer, p.batch));
    }
  }

  lemma {:induction false} RunBatchRuns(q: Queue, expired: seq<Entry>, now: nat, scripts: seq<seq<Call>>)
    requires |scripts| == |expired|
    ensures RanOf(RunBatch(q, expired, now, scripts).log) == RanOf(q.log) + expired
    ensures RunBatch(q, expired, now, scripts).batch == q.batch
    decreases |expired|
  {
    hide RanOf, DoCalls;
    if expired == [] {
      assert RanOf(q.log) + [] == RanOf(q.log);
    } else {
      var n := |expired| - 1;
      RunBatchRuns(q, expired[..n], now, scripts[..n]);
      var p := RunBatch(q, expired[..n], now, scripts[..n]);
      var x := Ran(expired[n], now, p.batch);
      RanOfAppend(p.log, x);
      CallsRunNothing(p.(log := p.log + [x]), scripts[n]);
      assert RanOf(q.log) + expired == RanOf(q.log) + expired[..n] + [expired[n]];
    }
  }

  lemma RestartSets(q: Queue, out: set<Address>, timer: Address, now: nat)
    requires Inv(q, out, {}) && timer in out
    ensures var r := if Restarts(q, timer) then Restart(q, timer, now) else q;
            && r.log == q.log && r.canceling == q.canceling && r.batch == q.batch && r.objects.Keys == q.objects.Keys
            && (forall a | a in q.objects && a != timer ::
                  r.objects[a] == q.objects[a] && (Waiting(r, a) <==> Waiting(q, a)))
            && (Waiting(r, timer) <==> Restarts(q, timer))
            && (Restarts(q, timer) ==> r.objects[timer].expiration == now + Micros(q.objects[timer].interval))
  {
    if Restarts(q, timer) {
      InsertedSet(q.entries, Entry(now + Micros(q.objects[timer].interval), timer));
    }
  }

  lemma {:induction false} RestartAllSets(q: Queue, expired: seq<Entry>, now: nat, out: set<Address>)
    requires Inv(q, out, {}) && IsBatch(expired, now) && TimersOf(expired) <= out
    ensures var r := RestartAll(q, expired, now);
            && r.log == q.log && r.canceling == q.canceling && r.batch == q.batch && r.objects.Keys == q.objects.Keys
            && (forall a | a in q.objects && a !in TimersOf(expired) ::
                  r.objects[a] == q.objects[a] && (Waiting(r, a) <==> Waiting(q, a)))
            && (forall a | a in TimersOf(expired) ::
                  && (Waiting(r, a) <==> Restarts(q, a))
                  && (Restarts(q, a) ==> r.objects[a].expiration == now + Micros(q.objects[a].interval)))
    decreases |expired|
  {
    hide History, WellFormed;
    if expired != [] {
      var n := |expired| - 1;
      BatchButLast(expired, now);
      RestartAllKeeps(q, expired[..n], now, out);
      RestartAllSets(q, expired[..n], now, out);
      assert expired[n] in expired && expired[n].timer in TimersOf(expired);
      RestartSets(RestartAll(q, expired[..n], now), out - TimersOf(expired[..n]), expired[n].timer, now);
    }
  }

  lemma {:induction false} IntervalsStay(q: Queue, expired: seq<Entry>, now: nat, scripts: seq<seq<Call>>, a: Address)
    requires |scripts| == |expired| && a in q.objects
    ensures var p := RunBatch(q, expired, now, scripts); a in p.objects && p.objects[a] == q.objects[a]
    decreases |expired|
  {
    if expired != [] {
      var n := |expired| - 1;
      IntervalsStay(q, expired[..n], now, scripts[..n], a);
      var p := RunBatch(q, expired[..n], now, scripts[..n]);
      CallsLeaveObjects(p.(log := p.log + [Ran(expired[n], now, p.batch)]), scripts[n], a);
    }
  }

  lemma {:induction false} CallsLeaveObjects(q: Queue, calls: seq<Call>, a: Address)
    requires a in q.objects
    ensures a in DoCalls(q, calls).objects && DoCalls(q, calls).objects[a] == q.objects[a]
    decreases |calls|
  {
    if calls != [] {
      CallsLeaveObjects(q, calls[..|calls| - 1], a);
    }
  }

  /** Whatever the callbacks do, a batch runs exactly the entries strictly before now, in the order of the set. */
  lemma BatchExactly(q: Queue, now: nat, scripts: seq<seq<Call>>)
    requires Inv(q, {}, {}) && |scripts| == |Expired(q.entries, now)|
    ensures RanOf(HandleRead(q, now, scripts).log) == RanOf(q.log) + Expired(q.entries, now)
    ensures forall e :: e in Expired(q.entries, now) <==> e in q.entries && e.time < now
  {
    hide Inv;
    var expired := Expired(q.entries, now);
    var out := TimersOf(expired);
    InvOrdered(q);
    ExpiredIff(q.entries, now);
    BeginKeeps(q, now);
    RunBatchRuns(Begin(q, now), expired, now, scripts);
    RunBatchKeeps(Begin(q, now), expired, now, scripts, out, out);
    assert out - out == {};
    RestartAllSets(RunBatch(Begin(q, now), expired, now, scripts), expired, now, out);
  }

  lemma InvOrdered(q: Queue)
    requires Inv(q, {}, {})
    ensures Ordered(q.entries)
  {
  }

  /** A timer of the batch is in the set afterwards exactly if it repeats and was not cancelled during the batch; then
      it expires an interval after now. */
  lemma RestartedIff(q: Queue, now: nat, scripts: seq<seq<Call>>, e: Entry)
    requires Inv(q, {}, {}) && |scripts| == |Expired(q.entries, now)| && e in Expired(q.entries, now)
    ensures e.timer in q.objects
    ensures var r := HandleRead(q, now, scripts);
            && (Waiting(r, e.timer) <==>
                  IsRepeat(q.objects[e.timer]) && Cancelled(e.timer, q.batch + 1) !in r.log)
            && (Waiting(r, e.timer) ==> r.objects[e.timer].expiration == now + Micros(q.objects[e.timer].interval))
  {
    hide History, WellFormed;
    var expired := Expired(q.entries, now);
    var out := TimersOf(expired);
    BeginKeeps(q, now);
    RunBatchKeeps(Begin(q, now), expired, now, scripts, out, out);
    assert out - out == {};
    RunBatchRuns(Begin(q, now), expired, now, scripts);
    assert e.timer in out;
    IntervalsStay(Begin(q, now), expired, now, scripts, e.timer);
    var p := RunBatch(Begin(q, now), expired, now, scripts);
    RestartAllSets(p, expired, now, out);
    var s := RestartAll(p, expired, now);
    assert Waiting(Rearm(s), e.timer) <==> Waiting(s, e.timer);
  }

  // ----- the timer descriptor

  predicate TimesValid(q: Queue)
  {
    forall e | e in q.entries :: e.time > 0
  }

  /** The descriptor is set for the first entry or earlier, so that no timer is missed. */
  predicate Armed(q: Queue)
  {
    q.entries != [] ==> 0 < q.armed <= q.entries[0].time
  }

  predicate ValidCalls(calls: seq<Call>)
  {
    forall i | 0 <= i < |calls| && calls[i].Add? :: calls[i].when > 0
  }

  /** The times that come from outside are valid, that is, not zero. */
  predicate ValidStep(s: Step)
  {
    match s
    case Calls(call) => ValidCalls([call])
    case Read(now, scripts) => now > 0 && forall i | 0 <= i < |scripts| :: ValidCalls(scripts[i])
  }

  lemma {:induction false} ErasedSubset(entries: seq<Entry>, e: Entry)
    ensures forall d | d in Erased(entries, e) :: d in entries
  {
    if entries != [] {
      ErasedSubset(entries[1..], e);
    }
  }

  lemma CallTimes(q: Queue, call: Call)
    requires TimesValid(q) && (call.Add? ==> call.when > 0)
    ensures TimesValid(DoCall(q, call))
  {
    if Callable(q, call) {
      match call
      case Add(timer, when, interval) =>
        var e := Entry(when, timer);
        InsertedMembers(q.entries, e, LowerBound(q.entries, e));
      case Cancel(timer) => ErasedSubset(q.entries, Entry(q.objects[timer].expiration, timer));
    }
  }

  lemma {:induction false} CallsTimes(q: Queue, calls: seq<Call>)
    requires TimesValid(q) && ValidCalls(calls)
    ensures TimesValid(DoCalls(q, calls))
    decreases |calls|
  {
    if calls != [] {
      CallsTimes(q, calls[..|calls| - 1]);
      CallTimes(DoCalls(q, calls[..|calls| - 1]), calls[|calls| - 1]);
    }
  }

  lemma {:induction false} BatchTimes(q: Queue, expired: seq<Entry>, now: nat, scripts: seq<seq<Call>>)
    requires TimesValid(q) && |scripts| == |expired| && forall i | 0 <= i < |scripts| :: ValidCalls(scripts[i])
    ensures TimesValid(RunBatch(q, expired, now, scripts))
    decreases |expired|
  {
    if expired != [] {
      var n := |expired| - 1;
      BatchTimes(q, expired[..n], now, scripts[..n]);
      var p := RunBatch(q, expired[..n], now, scripts[..n]);
      CallsTimes(p.(log := p.log + [Ran(expired[n], now, p.batch)]), scripts[n]);
    }
  }

  lemma {:induction false} RestartTimes(q: Queue, expired: seq<Entry>, now: nat)
    requires TimesValid(q) && now > 0
    ensures TimesValid(RestartAll(q, expired, now))
    decreases |expired|
  {
    if expired != [] {
      RestartTimes(q, expired[..|expired| - 1], now);
      var p := RestartAll(q, expired[..|expired| - 1], now);
      var timer := expired[|expired| - 1].timer;
      if Restarts(p, timer) {
        var e := Entry(now + Micros(p.objects[timer].interval), timer);
        InsertedMembers(p.entries, e, LowerBound(p.entries, e));
      }
    }
  }

  lemma HandleReadArms(q: Queue, now: nat, scripts: seq<seq<Call>>)
    requires TimesValid(q) && Enabled(q, Read(now, scripts)) && ValidStep(Read(now, scripts))
    ensures TimesValid(HandleRead(q, now, scripts)) && Armed(HandleRead(q, now, scripts))
    ensures var r := HandleRead(q, now, scripts); r.entries != [] ==> r.armed == r.entries[0].time
  {
    var expired := Expired(q.entries, now);
    assert forall e | e in Begin(q, now).entries :: e in q.entries;
    BatchTimes(Begin(q, now), expired, now, scripts);
    var p := RunBatch(Begin(q, now), expired, now, scripts);
    RestartTimes(p, expired, now);
    var r := RestartAll(p, expired, now);
    if r.entries != [] {
      assert r.entries[0] in r.entries;
    }
  }

  lemma CallArms(q: Queue, call: Call)
    requires Ordered(q.entries) && WellFormed(q) && TimesValid(q) && Armed(q) && (call.Add? ==> call.when > 0)
    ensures TimesValid(DoCall(q, call)) && Armed(DoCall(q, call))
  {
    if Callable(q, call) {
      var p := DoCall(q, call);
      match call
      case Add(timer, when, interval) =>
        InsertedSet(q.entries, Entry(when, timer));
        assert p.entries[0] in p.entries;
      case Cancel(timer) =>
        var e := Entry(q.objects[timer].expiration, timer);
        ErasedSet(q.entries, e);
        if p.entries != [] {
          assert p.entries[0] in p.entries && p.entries[0] in q.entries;
        }
    }
  }

  /** On every run whose times are valid, the descriptor is set for the first entry's time or an earlier one, whenever
      no batch is being run. */
  lemma {:induction false} AlwaysArmed(states: seq<Queue>, steps: seq<Step>, i: nat)
    requires IsRun(states, steps) && i < |states|
    requires forall k | 0 <= k < |steps| :: ValidStep(steps[k])
    ensures TimesValid(states[i]) && Armed(states[i])
  {
    hide DoCall, HandleRead;
    if i > 0 {
      AlwaysArmed(states, steps, i - 1);
      RunKeeps(states, steps, i - 1);
      match steps[i - 1]
      case Calls(call) =>
        assert ValidCalls([call]) ==> call.Add? ==> [call][0].when > 0;
        CallArms(states[i - 1], call);
      case Read(now, scripts) => HandleReadArms(states[i - 1], now, scripts);
    }
  }
}
