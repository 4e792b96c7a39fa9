/** The timer queue of a loop, changed in place. */
module TimerQueues {
  import opened Timers
  import opened TimerFacts

  class TimerQueue {
    /** The timers there are, by address. */
    var objects: map<Address, Timer>
    var timers: seq<Entry>
    var cancelingTimers: set<Address>
    /** What the timer descriptor was last set for. */
    var armed: nat
    ghost var batch: nat
    ghost var log: seq<Effect>

    ghost function View(): Queue
      reads this
    {
      Queue(objects, timers, cancelingTimers, armed, batch, log)
    }

    /** No batch is being run. */
    ghost predicate Valid()
      reads this
    {
      Inv(View(), {}, {})
    }

    constructor ()
      ensures Valid() && View() == EMPTY
    {
      objects, timers, cancelingTimers, armed, batch, log := map[], [], {}, 0, 0, [];
      EmptyInv();
    }

    /** The program asserts that the timer was not in the set. */
    method Insert(timer: Address) returns (earliestChanged: bool)
      requires timer in objects && WellFormed(View()) && !Waiting(View(), timer)
      modifies `timers
      ensures timers == Inserted(old(timers), Entry(objects[timer].expiration, timer)) && WellFormed(View())
      ensures earliestChanged <==> timers[0] == Entry(objects[timer].expiration, timer)
                                   && forall e | e in old(timers) :: e.time > timers[0].time
      ensures earliestChanged <==> old(timers) == [] || objects[timer].expiration < old(timers)[0].time
    {
      earliestChanged := false;
      var when := objects[timer].expiration;
      if timers == [] || when < timers[0].time {
        earliestChanged := true;
      }
      assert Entry(when, timer) !in timers;
      InsertedSet(timers, Entry(when, timer));
      FirstIsLeast(timers);
      if timers != [] {
        assert timers[0] in timers;
      }
      timers := Inserted(timers, Entry(when, timer));
    }

    method AddTimerInLoop(timer: Address, when: nat, interval: real)
      requires WellFormed(View()) && timer !in objects
      modifies this
      ensures WellFormed(View()) && View() == DoAdd(old(View()), timer, when, interval)
    {
      objects := objects[timer := Timer(when, interval)];
      log := log + [Added(timer)];
      var earliestChanged := Insert(timer);
      if earliestChanged {
        armed := objects[timer].expiration;
      }
    }

    /** The program asserts that the entry it found is erased. */
    method CancelInLoop(timer: Address)
      requires WellFormed(View()) && timer in objects
      modifies `timers, `cancelingTimers, `log
      ensures WellFormed(View()) && View() == DoCancel(old(View()), timer)
    {
      var cancelTimer := Entry(objects[timer].expiration, timer);
      log := log + [Cancelled(timer, batch)];
      if cancelTimer in timers {
        ErasedSet(timers, cancelTimer);
        timers := Erased(timers, cancelTimer);
        assert cancelTimer !in timers;
      } else {
        cancelingTimers := cancelingTimers + {timer};
      }
    }

    /** A callback that makes these calls. */
    method RunCallback(calls: seq<Call>)
      requires WellFormed(View())
      modifies this
      ensures WellFormed(View()) && View() == DoCalls(old(View()), calls)
    {
      assert calls[..|calls|] == calls;
      var i := 0;
      while i < |calls|
        invariant 0 <= i <= |calls| && WellFormed(View())
        invariant View() == DoCalls(old(View()), calls[..i])
      {
        assert calls[..i + 1][..i] == calls[..i];
        match calls[i] {
          case Add(timer, when, interval) =>
            if timer !in objects {
              AddTimerInLoop(timer, when, interval);
            }
          case Cancel(timer) =>
            if timer in objects {
              CancelInLoop(timer);
            }
        }
        i := i + 1;
      }
    }

    /** Takes out the expired entries; held tells whether the assertion that none is due exactly now holds. */
    method GetExpiredList(now: nat) returns (expiredList: seq<Entry>, held: bool)
      requires WellFormed(View())
      modifies `timers
      ensures WellFormed(View())
      ensures expiredList == Expired(old(timers), now) && old(timers) == expiredList + timers
      ensures forall e :: e in expiredList <==> e in old(timers) && e.time < now
      ensures held <==> forall e | e in old(timers) :: e.time != now
    {
      var mid := LowerBound(timers, Entry(now, 0));
      ExpiredIff(timers, now);
      FirstIsLeast(timers[mid..]);
      held := mid == |timers| || now < timers[mid].time;
      if mid < |timers| {
        assert timers[mid..][0] in timers[mid..];
      }
      expiredList := timers[..mid];
      timers := timers[mid..];
    }

    method Reset(expiredList: seq<Entry>, now: nat)
      requires exists out :: Inv(View(), out, {}) && TimersOf(expiredList) <= out
      requires IsBatch(expiredList, now)
      modifies `objects, `timers, `armed
      ensures View() == Rearm(RestartAll(old(View()), expiredList, now))
    {
      hide History, Known, Ordered, RestartAll, LowerBound, Inserted, Waiting;
      ghost var out :| Inv(View(), out, {}) && TimersOf(expiredList) <= out;
      ghost var before := View();
      assert RestartAll(before, expiredList[..0], now) == before by { RestartNone(before, expiredList[..0], now); }
      assert expiredList[..|expiredList|] == expiredList;
      var i := 0;
      while i < |expiredList|
        invariant 0 <= i <= |expiredList|
        invariant View() == RestartAll(before, expiredList[..i], now)
      {
        ResetStep(before, expiredList, i, now, out);
        var timer := expiredList[i].timer;
        if IsRepeat(objects[timer]) && timer !in cancelingTimers {
          objects := objects[timer := objects[timer].(expiration := now + Micros(objects[timer].interval))];
          var _ := Insert(timer);
        }
        i := i + 1;
      }
      if timers != [] && timers[0].time > 0 {
        armed := timers[0].time;
      }
    }

    /** Runs a batch: the i-th callback makes the calls scripts[i]. */
    method HandleRead(now: nat, scripts: seq<seq<Call>>)
      requires Valid() && |scripts| == |Expired(timers, now)|
      modifies this
      ensures Valid() && View() == Timers.HandleRead(old(View()), now, scripts)
    {
      hide History, Known, Restarts, RestartAll, RunBatch, DoCalls, LowerBound;
      ghost var before := View();
      BeginKeeps(before, now);
      HandleReadKeeps(before, now, scripts);
      var expiredList, _ := GetExpiredList(now);
      batch := batch + 1;
      cancelingTimers := {};
      ghost var begun := View();
      assert begun == Begin(before, now);
      RunBatchEnds(begun, expiredList, now, scripts);
      var i := 0;
      while i < |expiredList|
        invariant 0 <= i <= |expiredList| && WellFormed(View())
        invariant View() == RunBatch(begun, expiredList[..i], now, scripts[..i])
      {
        RunBatchStep(begun, expiredList, i, now, scripts);
        log := log + [Ran(expiredList[i], now, batch)];
        RunCallback(scripts[i]);
        i := i + 1;
      }
      ghost var out := TimersOf(expiredList);
      RunBatchKeeps(begun, expiredList, now, scripts, out, out);
      assert out - out == {};
      Reset(expiredList, now);
    }
  }

  /** A timer due exactly at the time of the batch fails that assertion, and is not taken out. */
  method TieExample(interval: real) returns (expiredList: seq<Entry>, held: bool)
    ensures !held && expiredList == []
  {
    var q := new TimerQueue();
    q.AddTimerInLoop(1, 5, interval);
    assert q.timers == [Entry(5, 1)];
    assert q.timers[0] in q.timers;
    assert forall e | e in q.timers :: e.time == 5;
    expiredList, held := q.GetExpiredList(5);
    assert |expiredList| > 0 ==> exists e :: e in expiredList;
  }

  lemma FirstIsLeast(entries: seq<Entry>)
    requires Ordered(entries)
    ensures forall e | e in entries :: entries[0].time <= e.time
  {
  }

  lemma RunBatchStep(q: Queue, expired: seq<Entry>, i: nat, now: nat, scripts: seq<seq<Call>>)
    requires i < |expired| == |scripts|
    ensures var p := RunBatch(q, expired[..i], now, scripts[..i]);
            RunBatch(q, expired[..i + 1], now, scripts[..i + 1])
              == DoCalls(p.(log := p.log + [Ran(expired[i], now, p.batch)]), scripts[i])
  {
    assert expired[..i + 1][..i] == expired[..i] && scripts[..i + 1][..i] == scripts[..i];
  }

  lemma RunBatchEnds(q: Queue, expired: seq<Entry>, now: nat, scripts: seq<seq<Call>>)
    requires |expired| == |scripts|
    ensures RunBatch(q, expired[..0], now, scripts[..0]) == q
    ensures expired[..|expired|] == expired && scripts[..|scripts|] == scripts
  {
  }

  lemma RestartNone(q: Queue, none: seq<Entry>, now: nat)
    requires none == []
    ensures RestartAll(q, none, now) == q
  {
  }

  /** What the restart of one timer of a batch may rely on. */
  lemma ResetStep(q: Queue, expired: seq<Entry>, i: nat, now: nat, out: set<Address>)
    requires Inv(q, out, {}) && IsBatch(expired, now) && TimersOf(expired) <= out && i < |expired|
    ensures var p := RestartAll(q, expired[..i], now);
            && WellFormed(p) && expired[i].timer in p.objects && !Waiting(p, expired[i].timer)
            && RestartAll(q, expired[..i + 1], now) ==
                 (if Restarts(p, expired[i].timer) then Restart(p, expired[i].timer, now) else p)
            && (Restarts(p, expired[i].timer) ==>
                  var r := Restart(p, expired[i].timer, now).(entries := p.entries);
                  WellFormed(r) && !Waiting(r, expired[i].timer))
  {
    hide History;
    assert expired[..i + 1][..i] == expired[..i];
    assert expired == expired[..i] + expired[i..];
    RestartAllKeeps(q, expired[..i], now, out);
    assert expired[i] in expired;
    assert expired[i].timer !in TimersOf(expired[..i]);
  }
}
