/** The service supervisor of kernel/src/services.ts as a state machine.

    An entry outlives its name: the exit and timer callbacks hold the entry itself, so they still
    reach it after `remove` took it out of the table.  An entry therefore carries, beside the
    program's own fields, the processes spawned for it that still live and the timers armed for it
    that are still pending.  Time is an integer number of milliseconds that never goes back, and a
    timer never fires early.
 */
module Services {
  import opened Wrappers

  const STABLE_MS := 10_000
  const BASE_BACKOFF := 500
  const MAX_BACKOFF := 5000

  datatype RestartPolicy = Always | OnFailure | Never

  datatype Status = Running | Restarting | Stopped | Failed

  datatype Entry = Entry(
    restart: RestartPolicy,
    maxRestarts: int,
    declared: bool,          // still in the table
    desired: bool,           // "running" is desired
    status: Status,
    restarts: int,
    child: Option<nat>,      // the process in e.child
    timer: Option<nat>,      // the handle in e.timer
    lastStart: int,
    live: set<nat>,          // processes spawned and not yet exited
    armed: map<nat, int>,    // timers armed, neither fired nor cleared, with when they are due
    spawned: nat,            // processes spawned so far; the next one gets this number
    timersSet: nat           // timers armed so far; the next one gets this number
  )

  datatype Event =
    | Start
    | Stop
    | Remove
    | Exit(child: nat, code: Option<int>)
    | Fire(timer: nat)

  datatype Timed = Timed(at: int, what: Event)

  function NewEntry(restart: RestartPolicy, maxRestarts: int): Entry {
    Entry(restart, maxRestarts, true, false, Stopped, 0, None, None, 0, {}, map[], 0, 0)
  }

  function Launch(e: Entry, now: int): Entry {
    e.(child := Some(e.spawned), live := e.live + {e.spawned}, spawned := e.spawned + 1,
       status := Running, lastStart := now)
  }

  function StartEntry(e: Entry, now: int): Entry {
    if e.status == Running || e.status == Restarting then e
    else Launch(e.(desired := true, restarts := 0), now)
  }

  function Disarm(e: Entry): map<nat, int> {
    if e.timer.Some? then e.armed - {e.timer.value} else e.armed
  }

  function StopEntry(e: Entry): Entry {
    var e1 := e.(desired := false, armed := Disarm(e), timer := None);
    if e.child.Some? && e.status == Running then e1 else e1.(status := Stopped)
  }

  /** `remove` clears the timer but keeps the handle in the entry. */
  function RemoveEntry(e: Entry): Entry {
    e.(declared := false, desired := false, armed := Disarm(e))
  }

  predicate ShouldRestart(e: Entry, code: Option<int>) {
    e.restart == Always || (e.restart == OnFailure && code != Some(0))
  }

  function Backoff(restarts: int): int {
    Min(BASE_BACKOFF * restarts, MAX_BACKOFF)
  }

  /** One more restart after its backoff, or none above the ceiling. */
  function RestartOrFail(e: Entry, now: int): Entry {
    var e1 := e.(restarts := e.restarts + 1);
    if e1.restarts > e.maxRestarts then e1.(status := Failed)
    else e1.(status := Restarting, timer := Some(e.timersSet),
             armed := e.armed[e.timersSet := now + Backoff(e1.restarts)], timersSet := e.timersSet + 1)
  }

  /** A long run forgives the crashes before it. */
  function OnExit(e: Entry, child: nat, code: Option<int>, now: int): Entry {
    var e1 := e.(child := None, live := e.live - {child});
    if !e.desired || !ShouldRestart(e, code) then e1.(status := Stopped)
    else if now - e.lastStart > STABLE_MS then RestartOrFail(e1.(restarts := 0), now)
    else RestartOrFail(e1, now)
  }

  function OnTimer(e: Entry, timer: nat, now: int): Entry {
    var e1 := e.(timer := None, armed := e.armed - {timer});
    if e.desired then Launch(e1, now) else e1
  }

  /** One event at one entry.  A name reaches an entry only while it is declared, a process exits
      once, and a timer fires once and not before it is due. */
  function Step(e: Entry, t: Timed): Entry {
    match t.what
    case Start => if e.declared then StartEntry(e, t.at) else e
    case Stop => if e.declared then StopEntry(e) else e
    case Remove => if e.declared then RemoveEntry(e) else e
    case Exit(child, code) => if child in e.live then OnExit(e, child, code, t.at) else e
    case Fire(timer) => if timer in e.armed && t.at >= e.armed[timer] then OnTimer(e, timer, t.at) else e
  }

  function Run(e: Entry, ts: seq<Timed>): Entry
    decreases |ts|
  {
    if ts == [] then e else Run(Step(e, ts[0]), ts[1..])
  }

  predicate Ordered(from: int, ts: seq<Timed>)
    decreases |ts|
  {
    ts == [] || (from <= ts[0].at && Ordered(ts[0].at, ts[1..]))
  }

  function EndTime(from: int, ts: seq<Timed>): int {
    if ts == [] then from else ts[|ts| - 1].at
  }

  // ----- the invariant -----

  /** Status, child and timer agree with each other and with what is really running and pending. */
  predicate Inv(e: Entry) {
    && (e.declared ==>
          && (e.child.Some? <==> e.status == Running)
          && (e.timer.Some? <==> e.status == Restarting)
          && (e.timer.Some? ==> e.armed.Keys == {e.timer.value}))
    && (!e.declared ==> !e.desired)
    && (!e.declared || e.timer.None? ==> e.armed == map[])
    && (e.child.Some? ==> e.live == {e.child.value} && e.child.value < e.spawned)
    && (e.child.None? ==> e.live == {})
    && (e.declared && e.status == Restarting ==> e.desired)
    && 0 <= e.restarts
  }

  lemma NewEntryInv(restart: RestartPolicy, maxRestarts: int)
    ensures Inv(NewEntry(restart, maxRestarts))
  {}

  lemma StepInv(e: Entry, t: Timed)
    requires Inv(e)
    ensures Inv(Step(e, t))
  {}

  lemma {:induction false} RunInv(e: Entry, ts: seq<Timed>)
    requires Inv(e)
    ensures Inv(Run(e, ts))
    decreases |ts|
  {
    if ts != [] {
      StepInv(e, ts[0]);
      RunInv(Step(e, ts[0]), ts[1..]);
    }
  }

  /** In every state an entry can reach, at most one process of it lives and at most one timer of it
      is pending; while it is declared it never has both, it has a process exactly when it is running
      and a timer exactly when it is restarting. */
  lemma OneProcessOrOneTimer(restart: RestartPolicy, maxRestarts: int, ts: seq<Timed>)
    ensures var e := Run(NewEntry(restart, maxRestarts), ts);
            && |e.live| <= 1 && |e.armed| <= 1 && (e.live == {} || e.armed == map[])
            && (e.declared ==> (e.live != {} <==> e.status == Running))
            && (e.declared ==> (e.armed != map[] <==> e.status == Restarting))
            && (!e.declared ==> e.armed == map[])
  {
    NewEntryInv(restart, maxRestarts);
    RunInv(NewEntry(restart, maxRestarts), ts);
    var e := Run(NewEntry(restart, maxRestarts), ts);
    if e.armed != map[] {
      assert e.armed.Keys == {e.timer.value};
      assert |e.armed| == |e.armed.Keys|;
    }
    if e.child.Some? {
      assert |{e.child.value}| == 1;
    }
  }

  // ----- what each event does -----

  /** The policy lets the service go: always under Never, and under OnFailure after code 0. */
  predicate LetsGo(restart: RestartPolicy, code: Option<int>) {
    restart == Never || (restart == OnFailure && code == Some(0))
  }

  /** How long the k-th restart in a row waits. */
  function WaitOf(k: int): int {
    if 500 * k < 5000 then 500 * k else 5000
  }

  /** Which restart in a row this is: a run of more than 10 seconds makes it the first. */
  function RestartNumber(e: Entry, now: int): int {
    if now - e.lastStart > 10_000 then 1 else e.restarts + 1
  }

  /** A process that exits leaves its entry stopped when the service is to be stopped or its policy lets
      it go. */
  lemma ExitStops(e: Entry, child: nat, code: Option<int>, now: int)
    requires Inv(e) && child in e.live && (!e.desired || LetsGo(e.restart, code))
    ensures var e' := Step(e, Timed(now, Exit(child, code)));
            && e'.status == Stopped && e'.live == {} && e'.child == None && e'.armed == map[]
            && e'.spawned == e.spawned && e'.restarts == e.restarts && e'.desired == e.desired
  {}

  /** Otherwise it is the next restart: above the ceiling the entry has failed, and up to it a timer is
      due after the wait of that restart. */
  lemma ExitRestarts(e: Entry, child: nat, code: Option<int>, now: int)
    requires Inv(e) && child in e.live && e.desired && !LetsGo(e.restart, code)
    ensures var e', k := Step(e, Timed(now, Exit(child, code))), RestartNumber(e, now);
            && e'.live == {} && e'.child == None && e'.spawned == e.spawned && e'.restarts == k && e'.desired
            && (k > e.maxRestarts ==> e'.status == Failed && e'.armed == map[])
            && (k <= e.maxRestarts ==>
                  e'.status == Restarting && e'.timer.Some? && e'.armed == map[e'.timer.value := now + WaitOf(k)])
  {}

  /** A restart timer that is due launches its entry. */
  lemma FireDoes(e: Entry, timer: nat, now: int)
    requires Inv(e) && timer in e.armed
    ensures var e' := Step(e, Timed(now, Fire(timer)));
            if now < e.armed[timer] then e' == e
            else
              && e'.status == Running && e'.spawned == e.spawned + 1 && e'.live == {e.spawned}
              && e'.lastStart == now && e'.restarts == e.restarts && e'.desired && e'.armed == map[]
  {}

  /** `start` launches a stopped or failed entry at once, with its crashes forgotten, and leaves a running
      or restarting one alone. */
  lemma StartDoes(e: Entry, now: int)
    requires Inv(e) && e.declared
    ensures var e' := Step(e, Timed(now, Start));
            if e.status == Running || e.status == Restarting then e' == e
            else
              && e'.status == Running && e'.spawned == e.spawned + 1 && e'.live == {e.spawned}
              && e'.lastStart == now && e'.restarts == 0 && e'.desired && e'.armed == map[]
  {}

  /** `stop` leaves no timer, and an entry without a process stopped; a process is left to exit, which
      then stops its entry whatever its policy and code (ExitStops). */
  lemma StopDoes(e: Entry, now: int)
    requires Inv(e) && e.declared
    ensures var e' := Step(e, Timed(now, Stop));
            && !e'.desired && e'.armed == map[] && e'.live == e.live && e'.declared && Inv(e')
            && (e.live == {} ==> e'.status == Stopped)
  {
    StepInv(e, Timed(now, Stop));
  }

  lemma RemoveDoes(e: Entry, now: int)
    requires Inv(e) && e.declared
    ensures var e' := Step(e, Timed(now, Remove));
            !e'.declared && !e'.desired && e'.armed == map[] && e'.live == e.live && e'.status == e.status
  {}

  /** How many starts of a run launch the entry. */
  function StartsIn(e: Entry, ts: seq<Timed>): nat
    decreases |ts|
  {
    if ts == [] then 0
    else
      (if ts[0].what.Start? && e.declared && (e.status == Stopped || e.status == Failed) then 1 else 0)
      + StartsIn(Step(e, ts[0]), ts[1..])
  }

  /** A service with restart policy Never is launched by hand only. */
  lemma {:induction false} NeverMeansByHand(e: Entry, ts: seq<Timed>)
    requires Inv(e) && e.restart == Never && e.armed == map[]
    ensures Run(e, ts).spawned == e.spawned + StartsIn(e, ts) && Run(e, ts).armed == map[]
    decreases |ts|
  {
    if ts != [] {
      StepInv(e, ts[0]);
      NeverMeansByHand(Step(e, ts[0]), ts[1..]);
    }
  }

  // ----- stopped means stopped -----

  /** A `start` that does something. */
  predicate Starts(e: Entry, t: Timed) {
    t.what.Start? && e.declared && e.status != Running && e.status != Restarting
  }

  predicate NoStarts(e: Entry, ts: seq<Timed>)
    decreases |ts|
  {
    ts == [] || (!Starts(e, ts[0]) && NoStarts(Step(e, ts[0]), ts[1..]))
  }

  lemma {:induction false} StoppedStaysStopped(e: Entry, ts: seq<Timed>)
    requires Inv(e) && !e.desired && NoStarts(e, ts)
    ensures Run(e, ts).spawned == e.spawned && !Run(e, ts).desired
    decreases |ts|
  {
    if ts != [] {
      StepInv(e, ts[0]);
      StoppedStaysStopped(Step(e, ts[0]), ts[1..]);
    }
  }

  lemma {:induction false} RemovedStaysRemoved(e: Entry, ts: seq<Timed>)
    requires Inv(e) && !e.declared
    ensures Run(e, ts).spawned == e.spawned && !Run(e, ts).declared
    decreases |ts|
  {
    if ts != [] {
      StepInv(e, ts[0]);
      RemovedStaysRemoved(Step(e, ts[0]), ts[1..]);
    }
  }

  /** After `stop`, whatever exits and timers come, nothing is launched until a `start` that finds the
      entry stopped or failed. */
  lemma NoLaunchAfterStop(e: Entry, now: int, ts: seq<Timed>)
    requires Inv(e) && e.declared
    requires NoStarts(Step(e, Timed(now, Stop)), ts)
    ensures Run(Step(e, Timed(now, Stop)), ts).spawned == e.spawned
  {
    StepInv(e, Timed(now, Stop));
    StoppedStaysStopped(Step(e, Timed(now, Stop)), ts);
  }

  /** After `remove`, nothing is launched for the entry any more, whatever is still running or pending
      and whatever is asked under its name. */
  lemma NoLaunchAfterRemove(e: Entry, now: int, ts: seq<Timed>)
    requires Inv(e) && e.declared
    ensures Run(Step(e, Timed(now, Remove)), ts).spawned == e.spawned
  {
    StepInv(e, Timed(now, Remove));
    RemovedStaysRemoved(Step(e, Timed(now, Remove)), ts);
  }
}
