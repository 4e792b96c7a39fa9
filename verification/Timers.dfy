/** The timer queue: entries ordered by time, timers cancelled from inside callbacks, repeating timers rearmed. */
module Timers {

  const MICRO_PER_SECOND: real := 1000000.0

  /** A timer, known by its address. */
  datatype Timer = Timer(expiration: nat, interval: real)

  type Address = nat

  datatype Entry = Entry(time: nat, timer: Address)

  /** What happens: a timer is added, is cancelled after so many batches have begun, or is run in a batch. */
  datatype Effect = Added(timer: Address) | Cancelled(timer: Address, batch: nat)
                  | Ran(entry: Entry, now: nat, batch: nat)

  /** Objects are the timers there are; entries is the ordered set; armed is the time the timer descriptor was last set
      for. */
  datatype Queue = Queue(
    objects: map<Address, Timer>,
    entries: seq<Entry>,
    canceling: set<Address>,
    armed: nat,
    batch: nat,
    log: seq<Effect>)

  const EMPTY: Queue := Queue(map[], [], {}, 0, 0, [])

  /** What a callback, or anybody else on the loop's thread, calls. A new timer has an address of its own. */
  datatype Call = Add(timer: Address, when: nat, interval: real) | Cancel(timer: Address)

  predicate IsRepeat(t: Timer) { t.interval > 0.0 }

  /** The interval in whole microseconds, cut off. */
  function Micros(interval: real): nat
    requires interval > 0.0
  {
    (interval * MICRO_PER_SECOND).Floor
  }

  // ----- the ordered set

  predicate Before(d: Entry, e: Entry)
  {
    d.time < e.time || (d.time == e.time && d.timer < e.timer)
  }

  predicate Ordered(entries: seq<Entry>)
  {
    forall i, j | 0 <= i < j < |entries| :: Before(entries[i], entries[j])
  }

  /** How many entries come before e. */
  function LowerBound(entries: seq<Entry>, e: Entry): (n: nat)
    ensures n <= |entries|
    ensures forall i | 0 <= i < n :: Before(entries[i], e)
    ensures n < |entries| ==> !Before(entries[n], e)
  {
    if entries != [] && Before(entries[0], e) then 1 + LowerBound(entries[1..], e) else 0
  }

  function Inserted(entries: seq<Entry>, e: Entry): seq<Entry>
  {
    var n := LowerBound(entries, e);
    entries[..n] + [e] + entries[n..]
  }

  function Erased(entries: seq<Entry>, e: Entry): seq<Entry>
  {
    if entries == [] then []
    else if entries[0] == e then entries[1..]
    else [entries[0]] + Erased(entries[1..], e)
  }

  // ----- calls

  function DoAdd(q: Queue, timer: Address, when: nat, interval: real): Queue
  {
    var e := Entry(when, timer);
    q.(objects := q.objects[timer := Timer(when, interval)],
       entries := Inserted(q.entries, e),
       armed := if q.entries == [] || when < q.entries[0].time then when else q.armed,
       log := q.log + [Added(timer)])
  }

  /** A timer that is not in the set may have been taken out to be run, and is remembered. */
  function DoCancel(q: Queue, timer: Address): Queue
    requires timer in q.objects
  {
    var e := Entry(q.objects[timer].expiration, timer);
    var l := q.(log := q.log + [Cancelled(timer, q.batch)]);
    if e in q.entries then l.(entries := Erased(q.entries, e))
    else l.(canceling := q.canceling + {timer})
  }

  /** A new address for a new timer, an old one to cancel. */
  predicate Callable(q: Queue, call: Call)
  {
    match call
    case Add(timer, _, _) => timer !in q.objects
    case Cancel(timer) => timer in q.objects
  }

  function DoCall(q: Queue, call: Call): Queue
  {
    if !Callable(q, call) then q
    else
      match call
      case Add(timer, when, interval) => DoAdd(q, timer, when, interval)
      case Cancel(timer) => DoCancel(q, timer)
  }

  function DoCalls(q: Queue, calls: seq<Call>): Queue
    decreases |calls|
  {
    if calls == [] then q else DoCall(DoCalls(q, calls[..|calls| - 1]), calls[|calls| - 1])
  }

  // ----- a batch

  /** The entries strictly before now. */
  function Expired(entries: seq<Entry>, now: nat): seq<Entry>
  {
    entries[..LowerBound(entries, Entry(now, 0))]
  }

  /** Takes the expired entries out and forgets the cancellations. */
  function Begin(q: Queue, now: nat): Queue
  {
    q.(entries := q.entries[LowerBound(q.entries, Entry(now, 0))..], canceling := {}, batch := q.batch + 1)
  }

  /** Runs the timers of the batch in turn; the i-th callback makes the calls scripts[i]. */
  function RunBatch(q: Queue, expired: seq<Entry>, now: nat, scripts: seq<seq<Call>>): Queue
    requires |scripts| == |expired|
    decreases |expired|
  {
    if expired == [] then q
    else
      var n := |expired| - 1;
      var p := RunBatch(q, expired[..n], now, scripts[..n]);
      DoCalls(p.(log := p.log + [Ran(expired[n], now, p.batch)]), scripts[n])
  }

  /** A repeating timer that was not cancelled is started again. */
  predicate Restarts(q: Queue, timer: Address)
  {
    timer in q.objects && IsRepeat(q.objects[timer]) && timer !in q.canceling
  }

  function Restart(q: Queue, timer: Address, now: nat): Queue
    requires timer in q.objects && IsRepeat(q.objects[timer])
  {
    var t := q.objects[timer].(expiration := now + Micros(q.objects[timer].interval));
    q.(objects := q.objects[timer := t], entries := Inserted(q.entries, Entry(t.expiration, timer)))
  }

  function RestartAll(q: Queue, expired: seq<Entry>, now: nat): Queue
    decreases |expired|
  {
    if expired == [] then q
    else
      var p := RestartAll(q, expired[..|expired| - 1], now);
      var timer := expired[|expired| - 1].timer;
      if Restarts(p, timer) then Restart(p, timer, now) else p
  }

  /** The descriptor is set for the first entry, if its time is valid. */
  function Rearm(q: Queue): Queue
  {
    if q.entries != [] && q.entries[0].time > 0 then q.(armed := q.entries[0].time) else q
  }

  function HandleRead(q: Queue, now: nat, scripts: seq<seq<Call>>): Queue
    requires |scripts| == |Expired(q.entries, now)|
  {
    var expired := Expired(q.entries, now);
    Rearm(RestartAll(RunBatch(Begin(q, now), expired, now, scripts), expired, now))
  }

  // ----- runs

  datatype Step = Calls(call: Call) | Read(now: nat, scripts: seq<seq<Call>>)

  predicate Enabled(q: Queue, s: Step)
  {
    s.Read? ==> |s.scripts| == |Expired(q.entries, s.now)|
  }

  function Next(q: Queue, s: Step): Queue
    requires Enabled(q, s)
  {
    match s
    case Calls(call) => DoCall(q, call)
    case Read(now, scripts) => HandleRead(q, now, scripts)
  }

  predicate IsRun(states: seq<Queue>, steps: seq<Step>)
  {
    && |states| == |steps| + 1 && states[0] == EMPTY
    && forall i | 0 <= i < |steps| :: Enabled(states[i], steps[i]) && states[i + 1] == Next(states[i], steps[i])
  }
}
