/** One job of the scheduler in kernel/src/scheduler.ts as a state machine.

    A job is "wake" (it queues a prompt and re-arms at once) or "shell" (it runs a command and
    re-arms when the command ends).  As with services, the callbacks hold the job itself, so they
    reach it after `cancel` took it out of the table.  Every command ends once, by `exit` or by
    `error`; timers never fire early; and setTimeout turns a delay outside 1 .. 2^31 - 1 into 1.
 */
module Jobs {
  import opened Wrappers

  datatype Kind = Shell | Wake

  datatype Job = Job(
    kind: Kind,
    everyMs: Option<int>,    // None: one shot
    firstDelayMs: int,
    maxRuns: Option<int>,
    createdAt: int,
    listed: bool,            // still in the table
    enabled: bool,
    runs: nat,
    nextRunAt: Option<int>,
    lastRunAt: int,
    timer: Option<nat>,      // the handle in e.timer
    armed: map<nat, int>,    // timers armed, neither fired nor cleared, with when they are due
    inFlight: set<nat>,      // commands running
    timersSet: nat,
    commands: nat
  )

  datatype Event = Cancel | Fire(timer: nat) | Done(command: nat)

  datatype Timed = Timed(at: int, what: Event)

  const MAX_DELAY := 0x7fff_ffff

  /** What setTimeout makes of a delay. */
  function TimerDelay(delay: int): int {
    if 1 <= delay <= MAX_DELAY then delay else 1
  }

  function NewJob(kind: Kind, everyMs: Option<int>, firstDelayMs: int, maxRuns: Option<int>, now: int): Job {
    Job(kind, everyMs, firstDelayMs, maxRuns, now, true, true, 0, Some(now + firstDelayMs), now,
        Some(0), map[0 := now + TimerDelay(firstDelayMs)], {}, 1, 0)
  }

  predicate ReachedMax(e: Job) {
    e.maxRuns.Some? && e.runs >= e.maxRuns.value
  }

  function AfterFire(e: Job, now: int): Job {
    if e.everyMs.Some? && !ReachedMax(e) && e.enabled then
      e.(nextRunAt := Some(now + e.everyMs.value), timer := Some(e.timersSet),
         armed := e.armed[e.timersSet := now + TimerDelay(e.everyMs.value)], timersSet := e.timersSet + 1)
    else e.(nextRunAt := None, enabled := false)
  }

  function OnFire(e: Job, timer: nat, now: int): Job {
    var e1 := e.(timer := None, armed := e.armed - {timer}, runs := e.runs + 1, lastRunAt := now);
    if e.kind == Wake then AfterFire(e1, now)
    else e1.(inFlight := e.inFlight + {e.commands}, commands := e.commands + 1)
  }

  function OnDone(e: Job, command: nat, now: int): Job {
    AfterFire(e.(inFlight := e.inFlight - {command}), now)
  }

  /** `cancel` clears the timer and drops the job from the table; it leaves `enabled` as it is. */
  function CancelJob(e: Job): Job {
    e.(listed := false, armed := if e.timer.Some? then e.armed - {e.timer.value} else e.armed)
  }

  predicate Fires(e: Job, t: Timed) {
    t.what.Fire? && t.what.timer in e.armed && t.at >= e.armed[t.what.timer]
  }

  function Step(e: Job, t: Timed): Job {
    match t.what
    case Cancel => if e.listed then CancelJob(e) else e
    case Fire(timer) => if Fires(e, t) then OnFire(e, timer, t.at) else e
    case Done(command) => if command in e.inFlight then OnDone(e, command, t.at) else e
  }

  function Run(e: Job, ts: seq<Timed>): Job
    decreases |ts|
  {
    if ts == [] then e else Run(Step(e, ts[0]), ts[1..])
  }

  predicate Ordered(from: int, ts: seq<Timed>)
    decreases |ts|
  {
    ts == [] || (from <= ts[0].at && Ordered(ts[0].at, ts[1..]))
  }

  // ----- the invariant -----

  function RunLimit(e: Job): int {
    Max(1, if e.everyMs.None? then 1 else if e.maxRuns.Some? then e.maxRuns.value else e.runs)
  }

  predicate Inv(e: Job) {
    && (e.enabled <==> e.nextRunAt.Some?)
    && e.runs <= RunLimit(e)
    && (e.armed != map[] ==> e.inFlight == {} && e.timer.Some? && e.armed.Keys == {e.timer.value})
    && (e.armed != map[] ==> e.runs == 0 || (e.everyMs.Some? && !ReachedMax(e)))
    && (e.listed && e.timer.Some? ==> e.armed != map[])
    && (e.inFlight != {} ==> e.kind == Shell && e.enabled && e.runs > 0 && e.timer.None?)
    && (e.inFlight != {} ==> e.commands > 0 && e.inFlight == {e.commands - 1})
    && (e.listed ==> (e.enabled <==> e.armed != map[] || e.inFlight != {}))
    && (e.armed != map[] ==> e.enabled)
  }

  lemma NewJobInv(kind: Kind, everyMs: Option<int>, firstDelayMs: int, maxRuns: Option<int>, now: int)
    ensures Inv(NewJob(kind, everyMs, firstDelayMs, maxRuns, now))
  {
    assert 0 in NewJob(kind, everyMs, firstDelayMs, maxRuns, now).armed;
  }

  /** A job between two runs. */
  predicate Between(e: Job) {
    && e.armed == map[] && e.inFlight == {} && e.timer.None? && e.enabled && e.nextRunAt.Some?
    && 0 < e.runs <= RunLimit(e)
  }

  lemma AfterFireInv(e: Job, now: int)
    requires Between(e)
    ensures Inv(AfterFire(e, now))
  {
    var e' := AfterFire(e, now);
    if e'.enabled {
      assert e.timersSet in e'.armed && e'.armed.Keys == {e.timersSet};
    }
  }

  lemma FireInv(e: Job, timer: nat, now: int)
    requires Inv(e) && timer in e.armed
    ensures Inv(OnFire(e, timer, now))
  {
    assert e.armed - {timer} == map[];
    if e.kind == Wake {
      var e1 := e.(timer := None, armed := e.armed - {timer}, runs := e.runs + 1, lastRunAt := now);
      assert Between(e1);
      AfterFireInv(e1, now);
    }
  }

  lemma DoneInv(e: Job, command: nat, now: int)
    requires Inv(e) && command in e.inFlight
    ensures Inv(OnDone(e, command, now))
  {
    assert e.inFlight - {command} == {};
    AfterFireInv(e.(inFlight := e.inFlight - {command}), now);
  }

  lemma CancelInv(e: Job)
    requires Inv(e) && e.listed
    ensures Inv(CancelJob(e)) && CancelJob(e).armed == map[]
  {
    if e.armed != map[] {
      assert e.armed - {e.timer.value} == map[];
    }
  }

  lemma StepInv(e: Job, t: Timed)
    requires Inv(e)
    ensures Inv(Step(e, t))
  {
    match t.what
    case Cancel => if e.listed { CancelInv(e); }
    case Fire(timer) => if Fires(e, t) { FireInv(e, timer, t.at); }
    case Done(command) => if command in e.inFlight { DoneInv(e, command, t.at); }
  }

  lemma {:induction false} RunInv(e: Job, ts: seq<Timed>)
    requires Inv(e)
    ensures Inv(Run(e, ts))
    decreases |ts|
  {
    if ts != [] {
      StepInv(e, ts[0]);
      RunInv(Step(e, ts[0]), ts[1..]);
    }
  }

  /** In every reachable state a job has at most one timer armed or command running, never both; it is
      enabled exactly when it has a next run, and while it is listed exactly when it has one of the
      two; and it has run at most max(1, maxRuns) times, or once if it is a one-shot. */
  lemma SerialAndBounded(kind: Kind, everyMs: Option<int>, firstDelayMs: int, maxRuns: Option<int>,
                         now: int, ts: seq<Timed>)
    ensures var e := Run(NewJob(kind, everyMs, firstDelayMs, maxRuns, now), ts);
            && |e.armed| + |e.inFlight| <= 1
            && (e.enabled <==> e.nextRunAt.Some?)
            && (e.listed ==> (e.enabled <==> |e.armed| + |e.inFlight| == 1))
            && (maxRuns.Some? ==> e.runs <= Max(1, maxRuns.value))
            && (everyMs.None? ==> e.runs <= 1)
            && (kind == Wake ==> e.inFlight == {})
  {
    var e0 := NewJob(kind, everyMs, firstDelayMs, maxRuns, now);
    NewJobInv(kind, everyMs, firstDelayMs, maxRuns, now);
    RunInv(e0, ts);
    RunKeepsSettings(e0, ts);
    var e := Run(e0, ts);
    if e.armed != map[] {
      assert |e.armed| == |e.armed.Keys| == |{e.timer.value}|;
    }
    if e.inFlight != {} {
      assert |{e.commands - 1}| == 1;
    }
  }

  lemma {:induction false} RunKeepsSettings(e: Job, ts: seq<Timed>)
    ensures var e' := Run(e, ts);
            && e'.kind == e.kind && e'.everyMs == e.everyMs && e'.firstDelayMs == e.firstDelayMs
            && e'.maxRuns == e.maxRuns && e'.createdAt == e.createdAt && e'.runs >= e.runs
    decreases |ts|
  {
    if ts != [] {
      RunKeepsSettings(Step(e, ts[0]), ts[1..]);
    }
  }

  // ----- jobs go on -----

  /** The job recurs and has runs left. */
  predicate RunsLeft(e: Job) {
    e.everyMs.Some? && (e.maxRuns.None? || e.runs < e.maxRuns.value)
  }

  /** A listed job is enabled exactly before its first run, while its command runs, and as long as it
      recurs and has runs left. */
  predicate GoesOn(e: Job) {
    e.listed ==> (e.enabled <==> e.runs == 0 || e.inFlight != {} || RunsLeft(e))
  }

  lemma StepGoesOn(e: Job, t: Timed)
    requires Inv(e) && GoesOn(e)
    ensures GoesOn(Step(e, t))
  {
    StepInv(e, t);
  }

  lemma {:induction false} RunGoesOn(e: Job, ts: seq<Timed>)
    requires Inv(e) && GoesOn(e)
    ensures GoesOn(Run(e, ts))
    decreases |ts|
  {
    if ts != [] {
      StepInv(e, ts[0]);
      StepGoesOn(e, ts[0]);
      RunGoesOn(Step(e, ts[0]), ts[1..]);
    }
  }

  /** In every reachable state, a listed job that has not run yet, or recurs and has runs left, has a
      timer armed or its command running. */
  lemma RecurringGoesOn(kind: Kind, everyMs: Option<int>, firstDelayMs: int, maxRuns: Option<int>,
                        now: int, ts: seq<Timed>)
    ensures var e := Run(NewJob(kind, everyMs, firstDelayMs, maxRuns, now), ts);
            && GoesOn(e)
            && (e.listed && (e.runs == 0 || RunsLeft(e)) ==> e.enabled && (e.armed != map[] || e.inFlight != {}))
  {
    var e0 := NewJob(kind, everyMs, firstDelayMs, maxRuns, now);
    NewJobInv(kind, everyMs, firstDelayMs, maxRuns, now);
    RunInv(e0, ts);
    RunGoesOn(e0, ts);
  }

  /** The wait that setTimeout makes of a delay. */
  function Wait(delay: int): int {
    if 1 <= delay <= 2_147_483_647 then delay else 1
  }

  /** A new job waits for its first delay. */
  lemma NewJobWaits(kind: Kind, everyMs: Option<int>, firstDelayMs: int, maxRuns: Option<int>, now: int)
    ensures var e := NewJob(kind, everyMs, firstDelayMs, maxRuns, now);
            && e.kind == kind && e.everyMs == everyMs && e.maxRuns == maxRuns && e.createdAt == now
            && e.listed && e.enabled && e.runs == 0 && e.inFlight == {}
            && e.timer.Some? && e.armed == map[e.timer.value := now + Wait(firstDelayMs)]
            && e.nextRunAt == Some(now + firstDelayMs)
  {}

  /** The job is armed again for one interval later when it recurs and has runs left, and ends otherwise. */
  predicate Rearmed(e: Job, now: int) {
    && e.inFlight == {}
    && if RunsLeft(e) then
         && e.enabled && e.timer.Some? && e.armed == map[e.timer.value := now + Wait(e.everyMs.value)]
         && e.nextRunAt == Some(now + e.everyMs.value)
       else !e.enabled && e.armed == map[] && e.nextRunAt == None
  }

  /** A timer that is due counts one run; a wake job is then armed again or ends, a shell job starts its
      command. */
  lemma FireDoes(e: Job, timer: nat, now: int)
    requires Inv(e) && timer in e.armed
    ensures var e' := Step(e, Timed(now, Fire(timer)));
            if now < e.armed[timer] then e' == e
            else
              && e'.runs == e.runs + 1 && e'.lastRunAt == now && e'.listed == e.listed
              && e'.maxRuns == e.maxRuns && e'.everyMs == e.everyMs
              && if e.kind == Wake then Rearmed(e', now)
                 else e'.enabled && e'.armed == map[] && e'.inFlight == {e.commands} && e'.nextRunAt == e.nextRunAt
  {
    assert e.armed - {timer} == map[];
  }

  /** The end of its command arms a shell job again or ends it. */
  lemma DoneDoes(e: Job, command: nat, now: int)
    requires Inv(e) && command in e.inFlight
    ensures var e' := Step(e, Timed(now, Done(command)));
            Rearmed(e', now) && e'.runs == e.runs && e'.listed == e.listed
            && e'.maxRuns == e.maxRuns && e'.everyMs == e.everyMs
  {
    assert e.inFlight - {command} == {};
  }

  lemma CancelDoes(e: Job, now: int)
    requires Inv(e) && e.listed
    ensures var e' := Step(e, Timed(now, Cancel));
            !e'.listed && e'.armed == map[] && e'.inFlight == e.inFlight && e'.enabled == e.enabled && e'.runs == e.runs
  {
    CancelInv(e);
  }

  /** One more run of a job whose timer is armed; a command ends at once. */
  lemma RunOnce(e: Job, at: int) returns (ts: seq<Timed>, end: int)
    requires Inv(e) && e.listed && e.armed != map[] && at <= e.armed[e.timer.value]
    ensures Ordered(at, ts) && end >= at && (ts != [] ==> ts[|ts| - 1].at == end) && ts != []
    ensures var e' := Run(e, ts);
            && Inv(e') && e'.listed && e'.runs == e.runs + 1 && e'.maxRuns == e.maxRuns && e'.everyMs == e.everyMs
            && Rearmed(e', end)
  {
    end := e.armed[e.timer.value];
    var fire := Timed(end, Fire(e.timer.value));
    var e1 := Step(e, fire);
    FireDoes(e, e.timer.value, end);
    StepInv(e, fire);
    assert Ordered(end, []) && Run(e1, []) == e1;
    if e.kind == Wake {
      ts := [fire];
      assert ts[1..] == [];
    } else {
      var done := Timed(end, Done(e.commands));
      DoneDoes(e1, e.commands, end);
      StepInv(e1, done);
      ts := [fire, done];
      assert ts[1..] == [done] && [done][1..] == [];
      assert Run(Step(e1, done), []) == Step(e1, done);
    }
  }

  lemma {:induction false} RunConcat(e: Job, a: seq<Timed>, b: seq<Timed>, from: int)
    requires a != [] && Ordered(from, a) && Ordered(a[|a| - 1].at, b)
    ensures Run(e, a + b) == Run(Run(e, a), b) && Ordered(from, a + b)
    decreases |a|
  {
    assert (a + b)[1..] == a[1..] + b;
    if |a| == 1 {
      assert a[1..] + b == b && a[1..] == [];
    } else {
      assert a[1..][|a| - 2] == a[|a| - 1];
      RunConcat(Step(e, a[0]), a[1..], b, a[0].at);
    }
  }

  /** k more runs, as many as there are left. */
  lemma {:induction false} RunMore(e: Job, at: int, k: nat) returns (ts: seq<Timed>)
    requires Inv(e) && e.listed && e.armed != map[] && at <= e.armed[e.timer.value] && k > 0
    requires k > 1 ==> e.everyMs.Some? && (e.maxRuns.None? || e.runs + k <= e.maxRuns.value)
    ensures Ordered(at, ts) && Run(e, ts).runs == e.runs + k
    decreases k
  {
    var first, end := RunOnce(e, at);
    if k == 1 {
      ts := first;
    } else {
      var rest := RunMore(Run(e, first), end, k - 1);
      RunConcat(e, first, rest, at);
      ts := first + rest;
    }
  }

  /** A job can run as often as its limit says: once for a one-shot or a limit below 2, up to the limit
      otherwise, and any number of times without one. */
  lemma EveryRunIsReached(kind: Kind, everyMs: Option<int>, firstDelayMs: int, maxRuns: Option<int>, now: int, k: nat)
    requires k <= 1 || (everyMs.Some? && (maxRuns.None? || k <= maxRuns.value))
    ensures exists ts :: Ordered(now, ts) && Run(NewJob(kind, everyMs, firstDelayMs, maxRuns, now), ts).runs == k
  {
    var e := NewJob(kind, everyMs, firstDelayMs, maxRuns, now);
    NewJobInv(kind, everyMs, firstDelayMs, maxRuns, now);
    if k == 0 {
      assert Ordered(now, []) && Run(e, []) == e;
    } else {
      assert 0 in e.armed;
      var ts := RunMore(e, now, k);
      assert Ordered(now, ts);
    }
  }

  /** `nextRunAt` tells when the timer is due, for delays setTimeout can hold. */
  predicate NextIsDue(e: Job) {
    forall timer :: timer in e.armed ==> e.nextRunAt == Some(e.armed[timer])
  }

  lemma StepIsDue(e: Job, t: Timed)
    requires Inv(e) && NextIsDue(e) && (e.everyMs.Some? ==> 1 <= e.everyMs.value <= MAX_DELAY)
    ensures NextIsDue(Step(e, t)) && Step(e, t).everyMs == e.everyMs
  {
    match t.what
    case Cancel => if e.listed { CancelDoes(e, t.at); }
    case Fire(timer) => if timer in e.armed { FireDoes(e, timer, t.at); }
    case Done(command) => if command in e.inFlight { DoneDoes(e, command, t.at); }
  }

  lemma {:induction false} NextRunIsDue(e: Job, ts: seq<Timed>)
    requires Inv(e) && NextIsDue(e) && (e.everyMs.Some? ==> 1 <= e.everyMs.value <= MAX_DELAY)
    ensures NextIsDue(Run(e, ts))
    decreases |ts|
  {
    if ts != [] {
      StepInv(e, ts[0]);
      StepIsDue(e, ts[0]);
      NextRunIsDue(Step(e, ts[0]), ts[1..]);
    }
  }

  lemma NextRunIsAnnounced(kind: Kind, everyMs: Option<int>, firstDelayMs: int, maxRuns: Option<int>,
                           now: int, ts: seq<Timed>)
    requires 1 <= firstDelayMs <= MAX_DELAY && (everyMs.Some? ==> 1 <= everyMs.value <= MAX_DELAY)
    ensures NextIsDue(Run(NewJob(kind, everyMs, firstDelayMs, maxRuns, now), ts))
  {
    NewJobInv(kind, everyMs, firstDelayMs, maxRuns, now);
    NextRunIsDue(NewJob(kind, everyMs, firstDelayMs, maxRuns, now), ts);
  }

  // ----- cancelled jobs -----

  /** A cancelled job that is running a command it would re-arm after. */
  predicate WillRearm(e: Job) {
    e.inFlight != {} && e.everyMs.Some? && !ReachedMax(e)
  }

  lemma {:induction false} QuietJobStaysQuiet(e: Job, ts: seq<Timed>)
    requires Inv(e) && e.armed == map[] && !WillRearm(e)
    ensures Run(e, ts).runs == e.runs
    decreases |ts|
  {
    if ts != [] {
      StepInv(e, ts[0]);
      QuietJobStaysQuiet(Step(e, ts[0]), ts[1..]);
    }
  }

  /** Exactly when a cancelled job can fire again: when its command was running at the time, it
      recurs, and its runs are not used up.  `cancel` meant to end it in that case too. */
  lemma CancelledJobFiresAgainIff(e: Job, now: int)
    requires Inv(e) && e.listed
    ensures var e1 := Step(e, Timed(now, Cancel));
            (exists ts :: Ordered(now, ts) && Run(e1, ts).runs > e.runs) <==> WillRearm(e)
  {
    var e1 := Step(e, Timed(now, Cancel));
    CancelInv(e);
    if WillRearm(e) {
      var done := Timed(now, Done(e.commands - 1));
      var e2 := Step(e1, done);
      var fire := Timed(now + TimerDelay(e.everyMs.value), Fire(e2.timer.value));
      var ts := [done] + [fire];
      assert ts[1..] == [fire] && [fire][1..] == [];
      assert Run(e2, [fire]) == Step(e2, fire);
      assert Run(e1, ts) == Step(e2, fire);
      assert Ordered(now, [fire]);
      assert Ordered(now, ts) && Run(e1, ts).runs > e.runs;
    } else {
      forall ts ensures Run(e1, ts).runs == e.runs {
        QuietJobStaysQuiet(e1, ts);
      }
    }
  }

  /** It happens: a recurring shell job whose command is running is such a job. */
  lemma RecurringShellJobRearms(everyMs: int, firstDelayMs: int, now: int)
    ensures var at := now + TimerDelay(firstDelayMs);
            var e := Run(NewJob(Shell, Some(everyMs), firstDelayMs, None, now), [Timed(at, Fire(0))]);
            Inv(e) && e.listed && WillRearm(e)
  {
    var e0, fire := NewJob(Shell, Some(everyMs), firstDelayMs, None, now), Timed(now + TimerDelay(firstDelayMs), Fire(0));
    NewJobInv(Shell, Some(everyMs), firstDelayMs, None, now);
    StepInv(e0, fire);
    assert [fire][1..] == [] && Run(Step(e0, fire), []) == Step(e0, fire);
    assert 0 in Step(e0, fire).inFlight;
  }

  // ----- never early -----

  function Interval(e: Job): int {
    if e.everyMs.Some? then e.everyMs.value else 0
  }

  /** The earliest the run number k may come. */
  function Earliest(e: Job, k: int): int {
    e.createdAt + e.firstDelayMs + (k - 1) * Interval(e)
  }

  /** The latest run came when it was due or later. */
  predicate OnTime(e: Job) {
    e.runs > 0 ==> e.lastRunAt >= Earliest(e, e.runs)
  }

  predicate LegalDelays(e: Job) {
    e.firstDelayMs <= MAX_DELAY && Interval(e) <= MAX_DELAY
  }

  predicate Due(e: Job, now: int) {
    && OnTime(e) && (e.runs > 0 ==> e.lastRunAt <= now)
    && (forall timer :: timer in e.armed ==> e.armed[timer] >= Earliest(e, e.runs + 1))
  }

  lemma EarliestGrows(e: Job)
    ensures Earliest(e, e.runs + 1) == e.createdAt + e.firstDelayMs + e.runs * Interval(e)
    ensures Earliest(e, e.runs + 2) == Earliest(e, e.runs + 1) + Interval(e)
    ensures Earliest(e, e.runs) == Earliest(e, e.runs + 1) - Interval(e)
  {}

  lemma AfterFireDue(e: Job, now: int)
    requires LegalDelays(e) && e.runs > 0 && OnTime(e) && e.lastRunAt <= now && e.armed == map[]
    ensures Due(AfterFire(e, now), now)
  {
    EarliestGrows(e);
  }

  lemma StepDue(e: Job, t: Timed, now: int)
    requires Inv(e) && LegalDelays(e) && Due(e, now) && now <= t.at
    ensures Due(Step(e, t), t.at)
  {
    match t.what
    case Cancel =>
    case Fire(timer) =>
      if Fires(e, t) {
        var e1 := e.(timer := None, armed := e.armed - {timer}, runs := e.runs + 1, lastRunAt := t.at);
        assert e1.armed == map[];
        assert Earliest(e1, e1.runs) == Earliest(e, e.runs + 1);
        if e.kind == Wake { AfterFireDue(e1, t.at); }
      }
    case Done(command) =>
      if command in e.inFlight {
        AfterFireDue(e.(inFlight := e.inFlight - {command}), t.at);
      }
  }

  lemma {:induction false} RunDue(e: Job, ts: seq<Timed>, now: int)
    requires Inv(e) && LegalDelays(e) && Due(e, now) && Ordered(now, ts)
    ensures OnTime(Run(e, ts))
    decreases |ts|
  {
    if ts != [] {
      StepInv(e, ts[0]);
      StepDue(e, ts[0], now);
      RunDue(Step(e, ts[0]), ts[1..], ts[0].at);
    }
  }

  /** The k-th run never comes before creation + firstDelay + (k - 1) * every. */
  lemma NeverEarly(kind: Kind, everyMs: Option<int>, firstDelayMs: int, maxRuns: Option<int>,
                   now: int, ts: seq<Timed>)
    requires firstDelayMs <= MAX_DELAY && (everyMs.Some? ==> everyMs.value <= MAX_DELAY)
    requires Ordered(now, ts)
    ensures OnTime(Run(NewJob(kind, everyMs, firstDelayMs, maxRuns, now), ts))
  {
    NewJobInv(kind, everyMs, firstDelayMs, maxRuns, now);
    RunDue(NewJob(kind, everyMs, firstDelayMs, maxRuns, now), ts, now);
  }

  ghost predicate AlwaysOnTime(e: Job, now: int) {
    forall ts :: Ordered(now, ts) ==> OnTime(Run(e, ts))
  }

  /** With the arguments `cron.schedule` passes, where a recurring job starts after one interval, jobs
      are never early exactly when the delay is one setTimeout can hold; a longer one fires after a
      millisecond. */
  lemma NeverEarlyIff(kind: Kind, everyMs: Option<int>, firstDelayMs: int, maxRuns: Option<int>, now: int)
    requires everyMs.None? || everyMs == Some(firstDelayMs)
    ensures AlwaysOnTime(NewJob(kind, everyMs, firstDelayMs, maxRuns, now), now)
       <==> firstDelayMs <= MAX_DELAY
  {
    var e := NewJob(kind, everyMs, firstDelayMs, maxRuns, now);
    if firstDelayMs <= MAX_DELAY {
      forall ts | Ordered(now, ts) ensures OnTime(Run(e, ts)) {
        NeverEarly(kind, everyMs, firstDelayMs, maxRuns, now, ts);
      }
    } else {
      var fire := Timed(now + 1, Fire(0));
      var ts := [fire];
      assert ts[1..] == [];
      assert Fires(e, fire);
      assert Run(e, ts) == Step(e, fire);
      assert Step(e, fire).runs == 1 && Step(e, fire).lastRunAt == now + 1;
      assert Step(e, fire).createdAt == now && Step(e, fire).firstDelayMs == firstDelayMs;
      assert Earliest(Step(e, fire), 1) == now + firstDelayMs;
      assert !OnTime(Step(e, fire));
      assert Ordered(now + 1, []);
      assert Ordered(now, ts);
    }
  }
}
