/** The class of kernel/src/services.ts: entries as objects, reached by name through a table and by
    reference from the callbacks of their processes and timers.

    `Model` reads the object graph as a value; every method below is proved to take one step of the
    state machine over such values, and the machine is then shown to be one independent run of
    Services.Step for each entry.
 */
module ServiceSupervisor {
  import opened Wrappers
  import opened Services
  import opened ServiceLimits

  // ----- the supervisor as a value -----

  /** The table maps a name to the number of its entry; entries are never forgotten. */
  datatype Sup = Sup(names: map<string, nat>, entries: seq<Entry>)

  datatype Request =
    | Define(name: string, restart: RestartPolicy, maxRestarts: int, autostart: bool)
    | Named(name: string, what: Event)
    | Callback(entry: nat, what: Event)

  datatype TimedRequest = TimedRequest(at: int, request: Request)

  function Update(s: Sup, i: nat, t: Timed): Sup {
    if i < |s.entries| then s.(entries := s.entries[i := Step(s.entries[i], t)]) else s
  }

  /** Start, stop and remove go by name; exits and timers go straight to their entry. */
  function SupStep(s: Sup, r: TimedRequest): Sup {
    match r.request
    case Define(name, restart, maxRestarts, autostart) =>
      if name in s.names then s
      else
        var s1 := Sup(s.names[name := |s.entries|], s.entries + [NewEntry(restart, maxRestarts)]);
        if autostart then Update(s1, |s.entries|, Timed(r.at, Start)) else s1
    case Named(name, what) =>
      if name !in s.names || what.Exit? || what.Fire? then s
      else
        var s1 := Update(s, s.names[name], Timed(r.at, what));
        if what.Remove? then s1.(names := s.names - {name}) else s1
    case Callback(i, what) => if what.Exit? || what.Fire? then Update(s, i, Timed(r.at, what)) else s
  }

  function SupRun(s: Sup, rs: seq<TimedRequest>): Sup
    decreases |rs|
  {
    if rs == [] then s else SupRun(SupStep(s, rs[0]), rs[1..])
  }

  ghost predicate SupInv(s: Sup) {
    && (forall i :: 0 <= i < |s.entries| ==> Inv(s.entries[i]))
    && (forall name :: name in s.names ==> s.names[name] < |s.entries| && s.entries[s.names[name]].declared)
    && (forall a, b :: a in s.names && b in s.names && s.names[a] == s.names[b] ==> a == b)
    && (forall i :: 0 <= i < |s.entries| && s.entries[i].declared ==> i in s.names.Values)
  }

  lemma UpdateKeepsDeclared(e: Entry, t: Timed)
    requires !t.what.Remove?
    ensures Step(e, t).declared == e.declared
  {}

  lemma AddedInv(s: Sup, name: string, e: Entry)
    requires SupInv(s) && name !in s.names && Inv(e) && e.declared
    ensures SupInv(Sup(s.names[name := |s.entries|], s.entries + [e]))
  {
    var names, entries := s.names[name := |s.entries|], s.entries + [e];
    assert names[name] == |s.entries|;
    forall i | 0 <= i < |entries| && entries[i].declared ensures i in names.Values {
      if i < |s.entries| {
        var a :| a in s.names && s.names[a] == i;
        assert names[a] == i;
      }
    }
  }

  lemma UpdateAdded(s: Sup, names: map<string, nat>, e: Entry, t: Timed)
    ensures Update(Sup(names, s.entries + [e]), |s.entries|, t) == Sup(names, s.entries + [Step(e, t)])
  {}

  lemma DefineInv(s: Sup, r: TimedRequest)
    requires SupInv(s) && r.request.Define?
    ensures SupInv(SupStep(s, r))
  {
    if r.request.name !in s.names {
      var e := NewEntry(r.request.restart, r.request.maxRestarts);
      StepInv(e, Timed(r.at, Start));
      UpdateAdded(s, s.names[r.request.name := |s.entries|], e, Timed(r.at, Start));
      AddedInv(s, r.request.name, if r.request.autostart then Step(e, Timed(r.at, Start)) else e);
    }
  }

  lemma UpdateInv(s: Sup, i: nat, t: Timed)
    requires SupInv(s) && !t.what.Remove?
    ensures SupInv(Update(s, i, t))
  {
    if i < |s.entries| {
      StepInv(s.entries[i], t);
      UpdateKeepsDeclared(s.entries[i], t);
    }
  }

  lemma RemoveInv(s: Sup, r: TimedRequest)
    requires SupInv(s) && r.request.Named? && r.request.what.Remove?
    ensures SupInv(SupStep(s, r))
  {
    var name := r.request.name;
    if name in s.names {
      var s', k := SupStep(s, r), s.names[name];
      StepInv(s.entries[k], Timed(r.at, Remove));
      forall i | 0 <= i < |s'.entries| && s'.entries[i].declared ensures i in s'.names.Values {
        assert i != k && s.entries[i].declared;
        var a :| a in s.names && s.names[a] == i;
        assert a in s'.names && s'.names[a] == i;
      }
    }
  }

  lemma SupStepInv(s: Sup, r: TimedRequest)
    requires SupInv(s)
    ensures SupInv(SupStep(s, r))
  {
    match r.request
    case Define(_, _, _, _) => DefineInv(s, r);
    case Named(name, what) =>
      if what.Remove? {
        RemoveInv(s, r);
      } else if name in s.names {
        UpdateInv(s, s.names[name], Timed(r.at, what));
      }
    case Callback(i, what) =>
      if !what.Remove? {
        UpdateInv(s, i, Timed(r.at, what));
      }
  }

  lemma {:induction false} SupRunInv(s: Sup, rs: seq<TimedRequest>)
    requires SupInv(s)
    ensures SupInv(SupRun(s, rs))
    decreases |rs|
  {
    if rs != [] {
      SupStepInv(s, rs[0]);
      SupRunInv(SupStep(s, rs[0]), rs[1..]);
    }
  }

  /** Whatever is requested, exits or fires, in any order: every named service is declared under that
      one name, it has one process exactly while running and one timer exactly while restarting, and
      what is not named any more has no timer. */
  lemma EveryReachableStateIsSound(rs: seq<TimedRequest>)
    ensures var s := SupRun(Sup(map[], []), rs);
            && SupInv(s)
            && (forall name :: name in s.names ==>
                  var e := s.entries[s.names[name]];
                  && |e.live| == (if e.status == Running then 1 else 0)
                  && |e.armed| == (if e.status == Restarting then 1 else 0))
            && (forall i :: 0 <= i < |s.entries| && i !in s.names.Values ==> s.entries[i].armed == map[])
  {
    SupRunInv(Sup(map[], []), rs);
    var s := SupRun(Sup(map[], []), rs);
    forall name | name in s.names
      ensures var e := s.entries[s.names[name]];
              && |e.live| == (if e.status == Running then 1 else 0)
              && |e.armed| == (if e.status == Restarting then 1 else 0)
    {
      var e := s.entries[s.names[name]];
      if e.child.Some? { assert |{e.child.value}| == 1; }
      if e.timer.Some? { assert |e.armed.Keys| == |{e.timer.value}| == 1; }
    }
    forall i | 0 <= i < |s.entries| && i !in s.names.Values ensures s.entries[i].armed == map[] {
      assert !s.entries[i].declared;
    }
  }

  // ----- every entry runs on its own -----

  /** What a request means to entry i: one event, or nothing. */
  function EventFor(s: Sup, r: TimedRequest, i: nat): seq<Timed> {
    match r.request
    case Define(_, _, _, _) => []
    case Named(name, what) =>
      if name in s.names && s.names[name] == i && !what.Exit? && !what.Fire? then [Timed(r.at, what)] else []
    case Callback(j, what) =>
      if j == i && (what.Exit? || what.Fire?) then [Timed(r.at, what)] else []
  }

  function EventsOf(s: Sup, rs: seq<TimedRequest>, i: nat): seq<Timed>
    decreases |rs|
  {
    if rs == [] then [] else EventFor(s, rs[0], i) + EventsOf(SupStep(s, rs[0]), rs[1..], i)
  }

  lemma StepOfEntry(s: Sup, r: TimedRequest, i: nat)
    requires i < |s.entries|
    ensures i < |SupStep(s, r).entries|
    ensures SupStep(s, r).entries[i] == Run(s.entries[i], EventFor(s, r, i))
  {
    var mine := EventFor(s, r, i);
    if mine != [] {
      assert mine[1..] == [];
    }
  }

  lemma RunOfAtMostOne(e: Entry, a: seq<Timed>, b: seq<Timed>)
    requires |a| <= 1
    ensures Run(e, a + b) == Run(Run(e, a), b)
  {
    if a == [] {
      assert a + b == b;
    } else {
      assert (a + b)[1..] == b && a[1..] == [];
    }
  }

  /** Nothing that happens to other entries matters to entry i. */
  lemma {:induction false} EntriesAreIndependent(s: Sup, rs: seq<TimedRequest>, i: nat)
    requires i < |s.entries|
    ensures i < |SupRun(s, rs).entries|
    ensures SupRun(s, rs).entries[i] == Run(s.entries[i], EventsOf(s, rs, i))
    decreases |rs|
  {
    if rs != [] {
      var s1 := SupStep(s, rs[0]);
      StepOfEntry(s, rs[0], i);
      EntriesAreIndependent(s1, rs[1..], i);
      RunOfAtMostOne(s.entries[i], EventFor(s, rs[0], i), EventsOf(s1, rs[1..], i));
    }
  }

  /** Once a service was removed, no run of the supervisor launches its entry again, even when a new
      service takes its name. */
  lemma RemovedIsNeverLaunched(s: Sup, rs: seq<TimedRequest>, i: nat)
    requires SupInv(s) && i < |s.entries| && i !in s.names.Values
    ensures i < |SupRun(s, rs).entries| && SupRun(s, rs).entries[i].spawned == s.entries[i].spawned
  {
    EntriesAreIndependent(s, rs, i);
    assert !s.entries[i].declared;
    RemovedStaysRemoved(s.entries[i], EventsOf(s, rs, i));
  }

  // ----- what each request does -----

  /** `define` adds an entry under a free name, running at once with autostart and stopped without, and
      does nothing to a name that is taken. */
  lemma DefineDoes(s: Sup, r: TimedRequest)
    requires r.request.Define?
    ensures var s', n := SupStep(s, r), |s.entries|;
            if r.request.name in s.names then s' == s
            else
              && s'.names == s.names[r.request.name := n]
              && |s'.entries| == n + 1 && s'.entries[..n] == s.entries
              && s'.entries[n].restart == r.request.restart && s'.entries[n].maxRestarts == r.request.maxRestarts
              && s'.entries[n].declared && s'.entries[n].armed == map[] && s'.entries[n].restarts == 0
              && if r.request.autostart
                 then s'.entries[n].status == Running && s'.entries[n].spawned == 1 && s'.entries[n].live == {0}
                      && s'.entries[n].lastStart == r.at
                 else s'.entries[n].status == Stopped && s'.entries[n].spawned == 0 && s'.entries[n].live == {}
  {}

  /** A request by name changes the entry of that name only, and takes the name away exactly when it
      removes it; a name nobody has changes nothing. */
  lemma NamedDoes(s: Sup, r: TimedRequest)
    requires SupInv(s) && r.request.Named? && r.request.what in {Start, Stop, Remove}
    ensures var s', name := SupStep(s, r), r.request.name;
            if name !in s.names then s' == s
            else
              && s'.entries == s.entries[s.names[name] := Step(s.entries[s.names[name]], Timed(r.at, r.request.what))]
              && s'.names == if r.request.what == Remove then s.names - {name} else s.names
  {}

  /** An exit or a timer reaches its entry, named or not, and no other. */
  lemma CallbackDoes(s: Sup, r: TimedRequest)
    requires r.request.Callback? && r.request.entry < |s.entries| && (r.request.what.Exit? || r.request.what.Fire?)
    ensures var s', i := SupStep(s, r), r.request.entry;
            s'.names == s.names && s'.entries == s.entries[i := Step(s.entries[i], Timed(r.at, r.request.what))]
  {}

  // ----- rates and backoffs, in the table -----

  predicate OrderedRequests(from: int, rs: seq<TimedRequest>)
    decreases |rs|
  {
    rs == [] || (from <= rs[0].at && OrderedRequests(rs[0].at, rs[1..]))
  }

  function LastAt(from: int, rs: seq<TimedRequest>): int
    decreases |rs|
  {
    if rs == [] then from else LastAt(rs[0].at, rs[1..])
  }

  lemma OrderedFrom(a: int, b: int, mine: seq<Timed>, later: seq<Timed>)
    requires a <= b && |mine| <= 1 && (forall t :: t in mine ==> t.at == b) && Ordered(b, later)
    ensures Ordered(a, mine + later) && EndTime(a, mine + later) <= Max(b, EndTime(b, later))
  {
    if mine == [] {
      assert mine + later == later;
    } else {
      assert mine[0] in mine && (mine + later)[1..] == later;
    }
  }

  /** An entry meets its events in order when the supervisor meets its requests in order. */
  lemma {:induction false} EventsAreOrdered(s: Sup, rs: seq<TimedRequest>, i: nat, from: int)
    requires OrderedRequests(from, rs)
    ensures Ordered(from, EventsOf(s, rs, i))
    ensures from <= LastAt(from, rs) && EndTime(from, EventsOf(s, rs, i)) <= LastAt(from, rs)
    decreases |rs|
  {
    if rs != [] {
      var s1 := SupStep(s, rs[0]);
      EventsAreOrdered(s1, rs[1..], i, rs[0].at);
      OrderedFrom(from, rs[0].at, EventFor(s, rs[0], i), EventsOf(s1, rs[1..], i));
    }
  }

  /** The request starts entry i by hand: `start` finds it stopped or failed, or `define` adds it with
      autostart. */
  predicate StartsEntry(s: Sup, r: TimedRequest, i: nat) {
    match r.request
    case Define(name, _, _, autostart) => name !in s.names && autostart && i == |s.entries|
    case Named(name, what) =>
      what == Start && name in s.names && s.names[name] == i && i < |s.entries|
      && Starts(s.entries[i], Timed(r.at, Start))
    case Callback(_, _) => false
  }

  /** Entry i before such a request. */
  function EntryBefore(s: Sup, r: TimedRequest, i: nat): Entry
    requires StartsEntry(s, r, i)
  {
    if r.request.Define? then NewEntry(r.request.restart, r.request.maxRestarts) else s.entries[i]
  }

  lemma StartedEntry(s: Sup, r: TimedRequest, i: nat)
    requires SupInv(s) && StartsEntry(s, r, i)
    ensures var e, s1 := EntryBefore(s, r, i), SupStep(s, r);
            && Inv(e) && Starts(e, Timed(r.at, Start))
            && i < |s1.entries| && s1.entries[i] == Step(e, Timed(r.at, Start))
  {}

  /** In every run of the supervisor, whatever happens to other services, an entry is launched at most
      1 + M(1 + T/10001) times within T milliseconds of a start by hand, up to the next one. */
  lemma LaunchRateInTable(s: Sup, r: TimedRequest, rs: seq<TimedRequest>, i: nat)
    requires SupInv(s) && StartsEntry(s, r, i) && OrderedRequests(r.at, rs)
    requires var s1 := SupStep(s, r); i < |s1.entries| && NoStarts(s1.entries[i], EventsOf(s1, rs, i))
    ensures var e, s', elapsed := EntryBefore(s, r, i), SupRun(SupStep(s, r), rs), LastAt(r.at, rs) - r.at;
            && elapsed >= 0 && i < |s'.entries|
            && s'.entries[i].spawned - e.spawned <= 1 + Ceiling(e) * (1 + elapsed / (STABLE_MS + 1))
  {
    var e, s1 := EntryBefore(s, r, i), SupStep(s, r);
    var ts := EventsOf(s1, rs, i);
    StartedEntry(s, r, i);
    EventsAreOrdered(s1, rs, i, r.at);
    EntriesAreIndependent(s1, rs, i);
    LaunchRateUntil(e, r.at, ts, LastAt(r.at, rs));
  }

  /** And while no run was stable, its launch after n restarts comes at least n backoffs after the start. */
  lemma LaunchesSpacedInTable(s: Sup, r: TimedRequest, rs: seq<TimedRequest>, i: nat)
    requires SupInv(s) && StartsEntry(s, r, i) && OrderedRequests(r.at, rs)
    requires var s1 := SupStep(s, r);
             i < |s1.entries| && NoStarts(s1.entries[i], EventsOf(s1, rs, i))
             && StableExits(s1.entries[i], EventsOf(s1, rs, i)) == 0
    ensures var s' := SupRun(SupStep(s, r), rs);
            i < |s'.entries| && s'.entries[i].spawned > EntryBefore(s, r, i).spawned
            && s'.entries[i].lastStart - r.at
            >= TotalBackoff(s'.entries[i].spawned - EntryBefore(s, r, i).spawned - 1)
  {
    var s1 := SupStep(s, r);
    StartedEntry(s, r, i);
    EventsAreOrdered(s1, rs, i, r.at);
    EntriesAreIndependent(s1, rs, i);
    LaunchesBackOff(EntryBefore(s, r, i), r.at, EventsOf(s1, rs, i));
  }

  // ----- the objects -----

  class ServiceEntry {
    ghost const index: nat
    const restart: RestartPolicy
    const maxRestarts: int
    ghost var declared: bool
    var desired: bool
    var status: Status
    var restarts: int
    var child: Option<nat>
    var timer: Option<nat>
    var lastStartMs: int
    // the operating system's and the event loop's side of it
    var live: set<nat>
    var armed: map<nat, int>
    var spawned: nat
    var timersSet: nat

    constructor (ghost index: nat, restart: RestartPolicy, maxRestarts: int)
      ensures this.index == index && State() == NewEntry(restart, maxRestarts)
    {
      this.index, this.restart, this.maxRestarts := index, restart, maxRestarts;
      declared := true;
      desired, status, restarts := false, Stopped, 0;
      child, timer, lastStartMs := None, None, 0;
      live, armed, spawned, timersSet := {}, map[], 0, 0;
    }

    ghost function State(): Entry
      reads this
    {
      Entry(restart, maxRestarts, declared, desired, status, restarts, child, timer, lastStartMs,
            live, armed, spawned, timersSet)
    }
  }

  class Supervisor {
    var services: map<string, ServiceEntry>
    ghost var all: seq<ServiceEntry>
    ghost var names: map<string, nat>  // the position in `all` of each declared service

    ghost predicate Valid()
      reads this, all
    {
      && (forall i :: 0 <= i < |all| ==> all[i].index == i)
      && services.Keys == names.Keys
      && (forall name :: name in names ==>
            names[name] < |all| && services[name] == all[names[name]] && services[name].declared)
      && (forall a, b :: a in names && b in names && names[a] == names[b] ==> a == b)
    }

    ghost function Model(): Sup
      requires Valid()
      reads this, all
    {
      Sup(names, seq(|all|, i requires 0 <= i < |all| reads this, all => all[i].State()))
    }

    constructor ()
      ensures Valid() && Model() == Sup(map[], [])
    {
      services, all, names := map[], [], map[];
    }

    method Launch(e: ServiceEntry, now: int)
      modifies e
      ensures e.State() == Services.Launch(old(e.State()), now)
    {
      var child := e.spawned;
      e.live, e.spawned := e.live + {child}, child + 1;
      e.child := Some(child);
      e.status := Running;
      e.lastStartMs := now;
    }

    method StartEntry(e: ServiceEntry, now: int)
      modifies e
      ensures e.State() == Services.StartEntry(old(e.State()), now)
    {
      if e.status == Running || e.status == Restarting {
        return;
      }
      e.desired := true;
      e.restarts := 0;
      Launch(e, now);
    }

    method StopEntry(e: ServiceEntry)
      modifies e
      ensures e.State() == Services.StopEntry(old(e.State()))
    {
      e.desired := false;
      if e.timer.Some? {
        e.armed := e.armed - {e.timer.value};
        e.timer := None;
      }
      if e.child.Some? && e.status == Running {
        // SIGTERM: the exit comes later, if at all
      } else {
        e.status := Stopped;
      }
    }

    method RemoveEntry(e: ServiceEntry)
      modifies e
      ensures e.State() == Services.RemoveEntry(old(e.State()))
    {
      e.desired := false;
      if e.timer.Some? {
        e.armed := e.armed - {e.timer.value};
      }
      // SIGKILL, if there is a child: the exit comes later
      e.declared := false;
    }

    method OnExitEntry(e: ServiceEntry, child: nat, code: Option<int>, now: int)
      modifies e
      ensures e.State() == Services.OnExit(old(e.State()), child, code, now)
    {
      e.live := e.live - {child};
      e.child := None;
      var ranMs := now - e.lastStartMs;
      if !e.desired {
        e.status := Stopped;
        return;
      }
      var shouldRestart := if e.restart == Always then true
                           else if e.restart == OnFailure then code != Some(0) else false;
      if !shouldRestart {
        e.status := Stopped;
        return;
      }
      if ranMs > STABLE_MS {
        e.restarts := 0;
      }
      ArmRestart(e, now);
    }

    /** The last part of the exit callback: one more restart, or giving up. */
    method ArmRestart(e: ServiceEntry, now: int)
      modifies e
      ensures e.State() == RestartOrFail(old(e.State()), now)
    {
      e.restarts := e.restarts + 1;
      if e.restarts > e.maxRestarts {
        e.status := Failed;
        return;
      }
      var backoff := Min(BASE_BACKOFF * e.restarts, MAX_BACKOFF);
      e.status := Restarting;
      var timer := e.timersSet;
      e.armed, e.timersSet := e.armed[timer := now + backoff], timer + 1;
      e.timer := Some(timer);
    }

    method OnTimerEntry(e: ServiceEntry, timer: nat, now: int)
      modifies e
      ensures e.State() == Services.OnTimer(old(e.State()), timer, now)
    {
      e.armed := e.armed - {timer};
      e.timer := None;
      if e.desired {
        Launch(e, now);
      }
    }

    /** `start`; false is the error of an unknown name. */
    method Start(name: string, now: int) returns (ok: bool)
      requires Valid()
      modifies all
      ensures Valid() && Model() == SupStep(old(Model()), TimedRequest(now, Named(name, Event.Start)))
      ensures ok <==> name in services
      ensures services == old(services) && all == old(all)
    {
      if name !in services {
        return false;
      }
      StartEntry(services[name], now);
      return true;
    }

    method Stop(name: string, now: int) returns (ok: bool)
      requires Valid()
      modifies all
      ensures Valid() && Model() == SupStep(old(Model()), TimedRequest(now, Named(name, Event.Stop)))
      ensures ok <==> name in services
    {
      if name !in services {
        return false;
      }
      StopEntry(services[name]);
      return true;
    }

    method Remove(name: string, now: int) returns (ok: bool)
      requires Valid()
      modifies this, all
      ensures Valid() && Model() == SupStep(old(Model()), TimedRequest(now, Named(name, Event.Remove)))
      ensures ok <==> name in old(services)
    {
      if name !in services {
        return false;
      }
      ghost var was, i := Model(), names[name];
      var e := services[name];
      RemoveEntry(e);
      services := services - {name};
      names := names - {name};
      assert forall j :: 0 <= j < |all| && j != i ==> all[j] != e;
      assert Model().entries == was.entries[i := e.State()];
      return true;
    }

    /** The first half of `define`. */
    method Insert(name: string, restart: RestartPolicy, maxRestarts: int)
      requires Valid() && name !in services
      modifies this
      ensures Valid() && |all| == |old(all)| + 1 && all[..|old(all)|] == old(all) && fresh(all[|old(all)|])
      ensures services == old(services)[name := all[|old(all)|]]
      ensures Model() == Sup(old(Model()).names[name := |old(all)|],
                             old(Model()).entries + [NewEntry(restart, maxRestarts)])
    {
      var e := new ServiceEntry(|all|, restart, maxRestarts);
      services, names := services[name := e], names[name := |all|];
      all := all + [e];
      assert all[..|old(all)|] == old(all);
    }

    /** `define`; false is the error of a name that is taken. */
    method Define(name: string, restart: Option<RestartPolicy>, maxRestarts: Option<int>,
                  autostart: Option<bool>, now: int) returns (ok: bool)
      requires Valid()
      modifies this, all
      ensures Valid()
      ensures Model() == SupStep(old(Model()), TimedRequest(now, Request.Define(
        name, if restart.Some? then restart.value else Always,
        if maxRestarts.Some? then maxRestarts.value else 5,
        autostart.None? || autostart.value)))
      ensures ok <==> name !in old(services)
    {
      if name in services {
        return false;
      }
      Insert(name, if restart.Some? then restart.value else Always,
             if maxRestarts.Some? then maxRestarts.value else 5);
      if autostart.None? || autostart.value {
        var _ := Start(name, now);
      }
      return true;
    }

    /** The exit callback of a process of e. */
    method OnExit(e: ServiceEntry, child: nat, code: Option<int>, now: int)
      requires Valid() && e in all && child in e.live
      modifies e
      ensures Valid()
      ensures Model() == SupStep(old(Model()), TimedRequest(now, Callback(e.index, Exit(child, code))))
    {
      OnExitEntry(e, child, code, now);
    }

    /** The callback of a restart timer of e. */
    method OnTimer(e: ServiceEntry, timer: nat, now: int)
      requires Valid() && e in all && timer in e.armed && now >= e.armed[timer]
      modifies e
      ensures Valid()
      ensures Model() == SupStep(old(Model()), TimedRequest(now, Callback(e.index, Fire(timer))))
    {
      OnTimerEntry(e, timer, now);
    }
  }
}
