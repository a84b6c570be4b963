/** The scheduler of kernel/src/scheduler.ts: the table of jobs, the callbacks that reach jobs
    directly, and the queue of wakeups the mind drains.

    `Sched` is the scheduler as a value; the class at the end is the program's object, and each of
    its methods takes one step of the machine over such values.
 */
module Scheduler {
  import opened Wrappers
  import opened Jobs

  /** A queued wakeup.  `id` is the number in the program's "w<number>". */
  datatype Wakeup = Wakeup(id: nat, job: string, prompt: string, firedAt: int)

  datatype Entry = Entry(name: string, prompt: string, state: Job)

  datatype Sched = Sched(names: map<string, nat>, jobs: seq<Entry>, queue: seq<Wakeup>, count: nat)

  datatype Request =
    | Schedule(name: string, cmd: Option<string>, prompt: Option<string>, everyMs: Option<int>,
               firstDelayMs: int, maxRuns: Option<int>)
    | CancelNamed(name: string)
    | Callback(job: nat, what: Event)
    | Drain

  datatype TimedRequest = TimedRequest(at: int, request: Request)

  function KindOf(cmd: Option<string>): Kind {
    if cmd.Some? then Shell else Wake
  }

  function Update(s: Sched, i: nat, t: Timed): Sched {
    if i < |s.jobs| then s.(jobs := s.jobs[i := s.jobs[i].(state := Jobs.Step(s.jobs[i].state, t))]) else s
  }

  /** The wakeup that a request queues: one, or nothing. */
  function Queued(s: Sched, r: TimedRequest): seq<Wakeup> {
    if r.request.Callback? && r.request.job < |s.jobs|
       && Fires(s.jobs[r.request.job].state, Timed(r.at, r.request.what))
       && s.jobs[r.request.job].state.kind == Wake
    then [Wakeup(s.count + 1, s.jobs[r.request.job].name, s.jobs[r.request.job].prompt, r.at)]
    else []
  }

  function SchedStep(s: Sched, r: TimedRequest): Sched {
    match r.request
    case Schedule(name, cmd, prompt, everyMs, firstDelayMs, maxRuns) =>
      if name in s.names then s
      else
        var job := NewJob(KindOf(cmd), everyMs, firstDelayMs, maxRuns, r.at);
        s.(names := s.names[name := |s.jobs|],
           jobs := s.jobs + [Entry(name, if prompt.Some? then prompt.value else "", job)])
    case CancelNamed(name) =>
      if name !in s.names then s
      else Update(s, s.names[name], Timed(r.at, Cancel)).(names := s.names - {name})
    case Callback(i, what) =>
      if what.Cancel? then s
      else
        var q := Queued(s, r);
        Update(s, i, Timed(r.at, what)).(queue := s.queue + q, count := s.count + |q|)
    case Drain => s.(queue := [])
  }

  function SchedRun(s: Sched, rs: seq<TimedRequest>): Sched
    decreases |rs|
  {
    if rs == [] then s else SchedRun(SchedStep(s, rs[0]), rs[1..])
  }

  // ----- wakeups are delivered once, in order -----

  /** All wakeups queued during a run. */
  function AllQueued(s: Sched, rs: seq<TimedRequest>): seq<Wakeup>
    decreases |rs|
  {
    if rs == [] then [] else Queued(s, rs[0]) + AllQueued(SchedStep(s, rs[0]), rs[1..])
  }

  /** All wakeups handed out by the drains of a run, in order. */
  function AllDrained(s: Sched, rs: seq<TimedRequest>): seq<Wakeup>
    decreases |rs|
  {
    if rs == [] then []
    else (if rs[0].request.Drain? then s.queue else []) + AllDrained(SchedStep(s, rs[0]), rs[1..])
  }

  lemma QueueOfStep(s: Sched, r: TimedRequest)
    ensures (if r.request.Drain? then s.queue else []) + SchedStep(s, r).queue == s.queue + Queued(s, r)
  {}

  lemma Regroup<T>(now: seq<T>, after: seq<T>, kept: seq<T>, before: seq<T>, queued: seq<T>,
                   between: seq<T>, later: seq<T>)
    requires now + between == before + queued && after + kept == between + later
    ensures (now + after) + kept == before + (queued + later)
  {
    assert (now + after) + kept == now + (after + kept);
    assert now + (between + later) == (now + between) + later;
    assert (before + queued) + later == before + (queued + later);
  }

  /** What was drained, followed by what is still queued, is what was queued: nothing is lost,
      repeated or reordered. */
  lemma {:induction false} DeliveredOnceInOrder(s: Sched, rs: seq<TimedRequest>)
    ensures AllDrained(s, rs) + SchedRun(s, rs).queue == s.queue + AllQueued(s, rs)
    decreases |rs|
  {
    if rs == [] {
      assert [] + s.queue == s.queue + [];
    } else {
      var s1, rest := SchedStep(s, rs[0]), rs[1..];
      DeliveredOnceInOrder(s1, rest);
      QueueOfStep(s, rs[0]);
      Regroup(if rs[0].request.Drain? then s.queue else [], AllDrained(s1, rest), SchedRun(s1, rest).queue,
              s.queue, Queued(s, rs[0]), s1.queue, AllQueued(s1, rest));
    }
  }

  /** The wakeups of a run carry the numbers after those given out before, without gap or repeat. */
  lemma {:induction false} NumberedInOrder(s: Sched, rs: seq<TimedRequest>)
    ensures SchedRun(s, rs).count == s.count + |AllQueued(s, rs)|
    ensures forall k :: 0 <= k < |AllQueued(s, rs)| ==> AllQueued(s, rs)[k].id == s.count + k + 1
    decreases |rs|
  {
    if rs != [] {
      var s1: Sched, q: seq<Wakeup> := SchedStep(s, rs[0]), Queued(s, rs[0]);
      NumberedInOrder(s1, rs[1..]);
      var later: seq<Wakeup> := AllQueued(s1, rs[1..]);
      forall k | 0 <= k < |q + later| ensures (q + later)[k].id == s.count + k + 1 {
        if k >= |q| {
          assert (q + later)[k] == later[k - |q|];
        }
      }
    }
  }

  // ----- what each request does -----

  /** `schedule` adds a job under a free name, a shell job exactly when it has a command, and does nothing
      to a name that is taken. */
  lemma ScheduleDoes(s: Sched, r: TimedRequest)
    requires r.request.Schedule?
    ensures var s', q, n := SchedStep(s, r), r.request, |s.jobs|;
            if q.name in s.names then s' == s
            else
              && s'.names == s.names[q.name := n] && s'.queue == s.queue && s'.count == s.count
              && |s'.jobs| == n + 1 && s'.jobs[..n] == s.jobs && s'.jobs[n].name == q.name
              && (q.prompt.Some? ==> s'.jobs[n].prompt == q.prompt.value)
              && (q.prompt.None? ==> s'.jobs[n].prompt == "")
              && s'.jobs[n].state == NewJob(if q.cmd.Some? then Shell else Wake, q.everyMs, q.firstDelayMs, q.maxRuns, r.at)
  {}

  /** `cancel` cancels the job of that name and takes the name away; an unknown name changes nothing. */
  lemma CancelNamedDoes(s: Sched, r: TimedRequest)
    requires r.request.CancelNamed? && forall name :: name in s.names ==> s.names[name] < |s.jobs|
    ensures var s', name := SchedStep(s, r), r.request.name;
            if name !in s.names then s' == s
            else
              var job := s.jobs[s.names[name]];
              s' == s.(names := s.names - {name},
                       jobs := s.jobs[s.names[name] := job.(state := Jobs.Step(job.state, Timed(r.at, Cancel)))])
  {}

  /** A due timer of a wake job puts one wakeup at the end of the queue, with the next number, the job's
      name and prompt, and the time; no other callback does. */
  lemma CallbackDoes(s: Sched, r: TimedRequest)
    requires r.request.Callback? && r.request.job < |s.jobs| && !r.request.what.Cancel?
    ensures var s', i, what := SchedStep(s, r), r.request.job, r.request.what;
            var job := s.jobs[i];
            && s'.names == s.names
            && s'.jobs == s.jobs[i := job.(state := Jobs.Step(job.state, Timed(r.at, what)))]
            && if what.Fire? && what.timer in job.state.armed && job.state.armed[what.timer] <= r.at
                  && job.state.kind == Wake
               then
                 && s'.queue == s.queue + [Wakeup(s.count + 1, job.name, job.prompt, r.at)]
                 && s'.count == s.count + 1
               else s'.queue == s.queue && s'.count == s.count
  {}

  // ----- every job runs on its own -----

  function EventFor(s: Sched, r: TimedRequest, i: nat): seq<Timed> {
    match r.request
    case Schedule(_, _, _, _, _, _) => []
    case CancelNamed(name) => if name in s.names && s.names[name] == i then [Timed(r.at, Cancel)] else []
    case Callback(j, what) => if j == i && !what.Cancel? then [Timed(r.at, what)] else []
    case Drain => []
  }

  function EventsOf(s: Sched, rs: seq<TimedRequest>, i: nat): seq<Timed>
    decreases |rs|
  {
    if rs == [] then [] else EventFor(s, rs[0], i) + EventsOf(SchedStep(s, rs[0]), rs[1..], i)
  }

  lemma StepOfJob(s: Sched, r: TimedRequest, i: nat)
    requires i < |s.jobs|
    ensures i < |SchedStep(s, r).jobs|
    ensures SchedStep(s, r).jobs[i] == s.jobs[i].(state := Run(s.jobs[i].state, EventFor(s, r, i)))
  {
    var mine := EventFor(s, r, i);
    if mine != [] {
      assert mine[1..] == [];
    }
  }

  lemma RunOfAtMostOne(e: Job, a: seq<Timed>, b: seq<Timed>)
    requires |a| <= 1
    ensures Run(e, a + b) == Run(Run(e, a), b)
  {
    if a == [] {
      assert a + b == b;
    } else {
      assert (a + b)[1..] == b && a[1..] == [];
    }
  }

  /** What a job does depends on its own events alone, so everything shown for one job holds for each
      job of the scheduler, cancelled or not. */
  lemma {:induction false} JobsAreIndependent(s: Sched, rs: seq<TimedRequest>, i: nat)
    requires i < |s.jobs|
    ensures i < |SchedRun(s, rs).jobs|
    ensures SchedRun(s, rs).jobs[i] == s.jobs[i].(state := Run(s.jobs[i].state, EventsOf(s, rs, i)))
    decreases |rs|
  {
    if rs != [] {
      var s1 := SchedStep(s, rs[0]);
      StepOfJob(s, rs[0], i);
      JobsAreIndependent(s1, rs[1..], i);
      RunOfAtMostOne(s.jobs[i].state, EventFor(s, rs[0], i), EventsOf(s1, rs[1..], i));
    }
  }

  predicate OrderedRequests(from: int, rs: seq<TimedRequest>)
    decreases |rs|
  {
    rs == [] || (from <= rs[0].at && OrderedRequests(rs[0].at, rs[1..]))
  }

  /** A job meets its events in order when the scheduler meets its requests in order. */
  lemma {:induction false} EventsAreOrdered(s: Sched, rs: seq<TimedRequest>, i: nat, from: int)
    requires OrderedRequests(from, rs)
    ensures Ordered(from, EventsOf(s, rs, i))
    decreases |rs|
  {
    if rs != [] {
      var s1 := SchedStep(s, rs[0]);
      var mine, later := EventFor(s, rs[0], i), EventsOf(s1, rs[1..], i);
      EventsAreOrdered(s1, rs[1..], i, rs[0].at);
      if mine == [] {
        assert mine + later == later;
      } else {
        assert (mine + later)[1..] == later;
      }
    }
  }

  /** In every run of the scheduler, whatever other jobs do, the k-th run of a job comes no earlier than
      its creation + firstDelay + (k - 1) * every. */
  lemma NeverEarlyInTable(s: Sched, r: TimedRequest, rs: seq<TimedRequest>)
    requires r.request.Schedule? && r.request.name !in s.names && OrderedRequests(r.at, rs)
    requires r.request.firstDelayMs <= MAX_DELAY
    requires r.request.everyMs.Some? ==> r.request.everyMs.value <= MAX_DELAY
    ensures var s', i := SchedRun(SchedStep(s, r), rs), |s.jobs|;
            && i < |s'.jobs| && OnTime(s'.jobs[i].state)
            && s'.jobs[i].state.createdAt == r.at && s'.jobs[i].state.firstDelayMs == r.request.firstDelayMs
            && s'.jobs[i].state.everyMs == r.request.everyMs
  {
    var s1, i, q := SchedStep(s, r), |s.jobs|, r.request;
    var ts := EventsOf(s1, rs, i);
    JobsAreIndependent(s1, rs, i);
    EventsAreOrdered(s1, rs, i, r.at);
    NeverEarly(KindOf(q.cmd), q.everyMs, q.firstDelayMs, q.maxRuns, r.at, ts);
    RunKeepsSettings(NewJob(KindOf(q.cmd), q.everyMs, q.firstDelayMs, q.maxRuns, r.at), ts);
  }

  /** How many of the wakeups of a run job i queued.  Names can be reused, so jobs are told apart by
      their position. */
  function WakeupsOf(s: Sched, rs: seq<TimedRequest>, i: nat): nat
    decreases |rs|
  {
    if rs == [] then 0
    else
      (if rs[0].request.Callback? && rs[0].request.job == i then |Queued(s, rs[0])| else 0)
      + WakeupsOf(SchedStep(s, rs[0]), rs[1..], i)
  }

  /** A wake job queues one wakeup for each of its runs. */
  lemma {:induction false} OneWakeupPerRun(s: Sched, rs: seq<TimedRequest>, i: nat)
    requires i < |s.jobs| && s.jobs[i].state.kind == Wake
    ensures i < |SchedRun(s, rs).jobs|
    ensures SchedRun(s, rs).jobs[i].state.runs == s.jobs[i].state.runs + WakeupsOf(s, rs, i)
    decreases |rs|
  {
    if rs != [] {
      var s1 := SchedStep(s, rs[0]);
      StepOfJob(s, rs[0], i);
      var mine := EventFor(s, rs[0], i);
      if mine != [] {
        assert mine[1..] == [];
        assert s1.jobs[i].state == Jobs.Step(s.jobs[i].state, mine[0]);
      }
      OneWakeupPerRun(s1, rs[1..], i);
    }
  }

  // ----- the objects -----

  class JobEntry {
    ghost const index: nat
    const name: string
    const kind: Kind
    const prompt: string
    const everyMs: Option<int>
    const firstDelayMs: int
    const maxRuns: Option<int>
    const createdAt: int
    ghost var listed: bool
    var enabled: bool
    var runs: nat
    var nextRunAt: Option<int>
    var lastRunAt: int
    var timer: Option<nat>
    // the event loop's and the operating system's side of it
    var armed: map<nat, int>
    var inFlight: set<nat>
    var timersSet: nat
    var commands: nat

    constructor (ghost index: nat, name: string, kind: Kind, prompt: string, everyMs: Option<int>,
                 firstDelayMs: int, maxRuns: Option<int>, now: int)
      ensures this.index == index
      ensures State() == Entry(name, prompt, NewJob(kind, everyMs, firstDelayMs, maxRuns, now))
    {
      this.index, this.name, this.kind, this.prompt := index, name, kind, prompt;
      this.everyMs, this.firstDelayMs, this.maxRuns, createdAt := everyMs, firstDelayMs, maxRuns, now;
      listed, enabled, runs := true, true, 0;
      nextRunAt, lastRunAt := Some(now + firstDelayMs), now;
      armed, timer := map[0 := now + TimerDelay(firstDelayMs)], Some(0);
      inFlight, timersSet, commands := {}, 1, 0;
    }

    ghost function State(): Entry
      reads this
    {
      Entry(name, prompt, Job(kind, everyMs, firstDelayMs, maxRuns, createdAt, listed, enabled, runs,
                              nextRunAt, lastRunAt, timer, armed, inFlight, timersSet, commands))
    }

    /** `afterFire` */
    method AfterFire(now: int)
      modifies this
      ensures State() == old(State()).(state := Jobs.AfterFire(old(State()).state, now))
    {
      var reachedMax := maxRuns.Some? && runs >= maxRuns.value;
      if everyMs.Some? && !reachedMax && enabled {
        nextRunAt := Some(now + everyMs.value);
        armed := armed[timersSet := now + TimerDelay(everyMs.value)];
        timer, timersSet := Some(timersSet), timersSet + 1;
      } else {
        nextRunAt := None;
        enabled := false;
      }
    }

    /** The part of `fire` that both kinds share. */
    method BeginRun(fired: nat, now: int)
      modifies this
      ensures State() == old(State()).(state := old(State()).state.(
        timer := None, armed := old(armed) - {fired}, runs := old(runs) + 1, lastRunAt := now))
    {
      armed := armed - {fired};
      timer := None;
      runs := runs + 1;
      lastRunAt := now;
    }

    method Spawn()
      modifies this
      ensures State() == old(State()).(state := old(State()).state.(
        inFlight := old(inFlight) + {old(commands)}, commands := old(commands) + 1))
    {
      inFlight, commands := inFlight + {commands}, commands + 1;
    }

    /** `fire`, apart from the queue. */
    method FireOnce(fired: nat, now: int)
      modifies this
      ensures State() == old(State()).(state := OnFire(old(State()).state, fired, now))
    {
      BeginRun(fired, now);
      if kind == Wake {
        AfterFire(now);
      } else {
        Spawn();
      }
    }

    method Unlist()
      modifies this
      ensures State() == old(State()).(state := CancelJob(old(State()).state))
    {
      if timer.Some? {
        armed := armed - {timer.value};
      }
      listed := false;
    }

    method EndCommand(command: nat, now: int)
      modifies this
      ensures State() == old(State()).(state := OnDone(old(State()).state, command, now))
    {
      inFlight := inFlight - {command};
      AfterFire(now);
    }
  }

  class SchedulerObject {
    var jobs: map<string, JobEntry>
    var wakeQueue: seq<Wakeup>
    var count: nat
    ghost var all: seq<JobEntry>
    ghost var names: map<string, nat>  // the position in `all` of each listed job

    ghost predicate Valid()
      reads this, all
    {
      && (forall i :: 0 <= i < |all| ==> all[i].index == i)
      && jobs.Keys == names.Keys
      && (forall name :: name in names ==>
            names[name] < |all| && jobs[name] == all[names[name]] && jobs[name].listed)
      && (forall a, b :: a in names && b in names && names[a] == names[b] ==> a == b)
    }

    ghost function Model(): Sched
      requires Valid()
      reads this, all
    {
      Sched(names, seq(|all|, i requires 0 <= i < |all| reads this, all => all[i].State()), wakeQueue, count)
    }

    constructor ()
      ensures Valid() && Model() == Sched(map[], [], [], 0)
    {
      jobs, wakeQueue, count := map[], [], 0;
      all, names := [], map[];
    }

    /** `schedule`; false is the error of a name that is taken. */
    method ScheduleJob(name: string, cmd: Option<string>, prompt: Option<string>, everyMs: Option<int>,
                       firstDelayMs: int, maxRuns: Option<int>, now: int) returns (ok: bool)
      requires Valid()
      modifies this
      ensures Valid()
      ensures Model() == SchedStep(old(Model()), TimedRequest(now,
        Schedule(name, cmd, prompt, everyMs, firstDelayMs, maxRuns)))
      ensures ok <==> name !in old(jobs)
    {
      if name in jobs {
        return false;
      }
      var kind := if cmd.Some? then Shell else Wake;
      var e := new JobEntry(|all|, name, kind, if prompt.Some? then prompt.value else "",
                            everyMs, firstDelayMs, maxRuns, now);
      Insert(name, e);
      return true;
    }

    method Insert(name: string, e: JobEntry)
      requires Valid() && name !in jobs && e !in all && e.listed && e.index == |all|
      modifies this
      ensures Valid() && jobs == old(jobs)[name := e]
      ensures Model() == old(Model()).(names := old(names)[name := |old(all)|],
                                       jobs := old(Model()).jobs + [e.State()])
    {
      jobs, names := jobs[name := e], names[name := |all|];
      all := all + [e];
      assert all[..|old(all)|] == old(all);
    }

    /** `cancel`; false is the error of an unknown name. */
    method CancelJob(name: string, now: int) returns (ok: bool)
      requires Valid()
      modifies this, all
      ensures Valid()
      ensures Model() == SchedStep(old(Model()), TimedRequest(now, CancelNamed(name)))
      ensures ok <==> name in old(jobs)
    {
      if name !in jobs {
        return false;
      }
      ghost var was, i := Model(), names[name];
      var e := jobs[name];
      e.Unlist();
      jobs := jobs - {name};
      names := names - {name};
      assert Model().jobs == was.jobs[i := e.State()];
      return true;
    }

    method DrainWakeups(now: int) returns (out: seq<Wakeup>)
      requires Valid()
      modifies this
      ensures Valid()
      ensures out == old(Model()).queue
      ensures Model() == SchedStep(old(Model()), TimedRequest(now, Drain))
    {
      out := wakeQueue;
      wakeQueue := [];
    }

    /** The callback of a timer of e. */
    method FireJob(e: JobEntry, timer: nat, now: int)
      requires Valid() && e in all && timer in e.armed && now >= e.armed[timer]
      modifies this, e
      ensures Valid()
      ensures Model() == SchedStep(old(Model()), TimedRequest(now, Callback(e.index, Fire(timer))))
    {
      if e.kind == Wake {
        count := count + 1;
        wakeQueue := wakeQueue + [Wakeup(count, e.name, e.prompt, now)];
      }
      e.FireOnce(timer, now);
    }

    /** The `exit` or `error` callback of a command of e. */
    method CommandEnded(e: JobEntry, command: nat, now: int)
      requires Valid() && e in all && command in e.inFlight
      modifies e
      ensures Valid()
      ensures Model() == SchedStep(old(Model()), TimedRequest(now, Callback(e.index, Done(command))))
    {
      e.EndCommand(command, now);
    }
  }
}
