/** How often and how fast the supervisor of kernel/src/services.ts restarts a service: the ceiling on
    restarts in a row, which stable runs forgive, and the backoff before each. */
module ServiceLimits {
  import opened Wrappers
  import opened Services

  // ----- the crash-loop guard -----

  function Ceiling(e: Entry): nat {
    Max(0, e.maxRestarts)
  }

  /** The exit of a run long enough to forgive earlier crashes. */
  predicate StableExit(e: Entry, t: Timed) {
    t.what.Exit? && t.what.child in e.live && t.at - e.lastStart > STABLE_MS
  }

  function StableExits(e: Entry, ts: seq<Timed>): nat
    decreases |ts|
  {
    if ts == [] then 0 else (if StableExit(e, ts[0]) then 1 else 0) + StableExits(Step(e, ts[0]), ts[1..])
  }

  /** After `launches` launches and `stable` stable exits since the last start. */
  predicate WithinCeiling(e: Entry, launches: int, stable: nat) {
    var m := Ceiling(e);
    && (e.status == Running ==> e.restarts <= m && launches <= 1 + m * stable + e.restarts)
    && (e.status == Restarting ==> e.restarts <= m && launches <= m * stable + e.restarts)
    && launches <= 1 + m * stable + m
  }

  lemma StepWithinCeiling(e: Entry, t: Timed, launches: int, stable: nat)
    requires Inv(e) && WithinCeiling(e, launches, stable) && !Starts(e, t)
    ensures var e' := Step(e, t);
            e'.maxRestarts == e.maxRestarts
            && WithinCeiling(e', launches + e'.spawned - e.spawned, stable + if StableExit(e, t) then 1 else 0)
  {
    var m := Ceiling(e);
    assert m * (stable + 1) == m * stable + m;
  }

  lemma {:induction false} RunWithinCeiling(e: Entry, ts: seq<Timed>, launches: int, stable: nat)
    requires Inv(e) && WithinCeiling(e, launches, stable) && NoStarts(e, ts)
    ensures var e' := Run(e, ts);
            e'.maxRestarts == e.maxRestarts
            && WithinCeiling(e', launches + e'.spawned - e.spawned, stable + StableExits(e, ts))
    decreases |ts|
  {
    if ts != [] {
      var e1 := Step(e, ts[0]);
      StepWithinCeiling(e, ts[0], launches, stable);
      StepInv(e, ts[0]);
      RunWithinCeiling(e1, ts[1..], launches + e1.spawned - e.spawned,
                       stable + if StableExit(e, ts[0]) then 1 else 0);
    }
  }

  /** From one manual start to the next, an entry is launched at most once plus its ceiling of
      restarts for the start and for every stable run since. */
  lemma LaunchBound(e: Entry, t0: int, ts: seq<Timed>)
    requires Inv(e) && Starts(e, Timed(t0, Start)) && NoStarts(Step(e, Timed(t0, Start)), ts)
    ensures var e1 := Step(e, Timed(t0, Start));
            Run(e1, ts).spawned - e.spawned <= 1 + Ceiling(e) * (1 + StableExits(e1, ts))
  {
    var e1 := Step(e, Timed(t0, Start));
    StepInv(e, Timed(t0, Start));
    RunWithinCeiling(e1, ts, 1, 0);
    var m, s := Ceiling(e), StableExits(e1, ts);
    assert m * (1 + s) == m * s + m;
  }

  /** Stable runs do not overlap, so there is at most one for each STABLE_MS + 1 ms. */
  predicate StableTime(e: Entry, t0: int, stable: nat, now: int) {
    && t0 + (STABLE_MS + 1) * stable <= now
    && (e.live != {} ==> t0 + (STABLE_MS + 1) * stable <= e.lastStart <= now)
  }

  lemma {:induction false} RunStableTime(e: Entry, ts: seq<Timed>, t0: int, stable: nat, now: int)
    requires Inv(e) && Ordered(now, ts) && StableTime(e, t0, stable, now)
    ensures StableTime(Run(e, ts), t0, stable + StableExits(e, ts), EndTime(now, ts))
    decreases |ts|
  {
    if ts != [] {
      StepInv(e, ts[0]);
      RunStableTime(Step(e, ts[0]), ts[1..], t0,
                    stable + if StableExit(e, ts[0]) then 1 else 0, ts[0].at);
      if |ts| > 1 { assert ts[1..][|ts| - 2] == ts[|ts| - 1]; }
    }
  }

  /** The launch bound over time: at most 1 + M(1 + T/10001) launches in T milliseconds. */
  lemma LaunchRate(e: Entry, t0: int, ts: seq<Timed>)
    requires Inv(e) && Starts(e, Timed(t0, Start)) && NoStarts(Step(e, Timed(t0, Start)), ts)
    requires Ordered(t0, ts)
    ensures var elapsed := EndTime(t0, ts) - t0;
            && elapsed >= 0
            && Run(Step(e, Timed(t0, Start)), ts).spawned - e.spawned
            <= 1 + Ceiling(e) * (1 + elapsed / (STABLE_MS + 1))
  {
    var e1 := Step(e, Timed(t0, Start));
    StepInv(e, Timed(t0, Start));
    LaunchBound(e, t0, ts);
    RunStableTime(e1, ts, t0, 0, t0);
    var s, elapsed := StableExits(e1, ts), EndTime(t0, ts) - t0;
    assert s <= elapsed / (STABLE_MS + 1);
    TimesMonotone(Ceiling(e), 1 + s, 1 + elapsed / (STABLE_MS + 1));
  }

  /** The same up to any later time. */
  lemma LaunchRateUntil(e: Entry, t0: int, ts: seq<Timed>, until: int)
    requires Inv(e) && Starts(e, Timed(t0, Start)) && NoStarts(Step(e, Timed(t0, Start)), ts)
    requires Ordered(t0, ts) && EndTime(t0, ts) <= until
    ensures Run(Step(e, Timed(t0, Start)), ts).spawned - e.spawned
         <= 1 + Ceiling(e) * (1 + (until - t0) / (STABLE_MS + 1))
  {
    LaunchRate(e, t0, ts);
    TimesMonotone(Ceiling(e), 1 + (EndTime(t0, ts) - t0) / (STABLE_MS + 1), 1 + (until - t0) / (STABLE_MS + 1));
  }

  // ----- the backoff -----

  /** What n restarts in a row wait for, all together. */
  function TotalBackoff(n: nat): int {
    if n == 0 then 0 else TotalBackoff(n - 1) + Backoff(n)
  }

  lemma Triangle(n: int)
    ensures 250 * n * (n + 1) == 250 * (n - 1) * n + 500 * n
  {}

  lemma {:induction false} TotalBackoffClosedForm(n: nat)
    ensures TotalBackoff(n) == if n <= 10 then 250 * n * (n + 1) else 27_500 + 5000 * (n - 10)
  {
    if n > 0 {
      TotalBackoffClosedForm(n - 1);
      Triangle(n);
    }
  }

  /** After `launches` launches since a start at t0, without a stable exit. */
  predicate BackedOff(e: Entry, t0: int, launches: int) {
    && launches >= 1 && e.lastStart >= t0 + TotalBackoff(launches - 1)
    && (e.status == Running ==> e.restarts == launches - 1)
    && (e.declared && e.status == Restarting ==>
          && e.timer.Some? && e.timer.value in e.armed && e.restarts == launches
          && e.armed[e.timer.value] >= t0 + TotalBackoff(launches))
  }

  lemma StepBackedOff(e: Entry, t: Timed, t0: int, launches: int)
    requires Inv(e) && BackedOff(e, t0, launches) && !Starts(e, t) && !StableExit(e, t)
    requires e.live != {} ==> e.lastStart <= t.at
    ensures var e' := Step(e, t);
            BackedOff(e', t0, launches + e'.spawned - e.spawned)
            && (e'.live != {} ==> e'.lastStart <= t.at)
  {
    if t.what.Exit? && t.what.child in e.live && e.declared && e.desired {
      assert e.restarts == launches - 1;
      assert TotalBackoff(launches) == TotalBackoff(launches - 1) + Backoff(launches);
    }
  }

  lemma {:induction false} RunBackedOff(e: Entry, ts: seq<Timed>, t0: int, launches: int, now: int)
    requires Inv(e) && BackedOff(e, t0, launches) && NoStarts(e, ts) && StableExits(e, ts) == 0
    requires Ordered(now, ts) && (e.live != {} ==> e.lastStart <= now)
    ensures BackedOff(Run(e, ts), t0, launches + Run(e, ts).spawned - e.spawned)
    decreases |ts|
  {
    if ts != [] {
      var e1 := Step(e, ts[0]);
      StepBackedOff(e, ts[0], t0, launches);
      StepInv(e, ts[0]);
      RunBackedOff(e1, ts[1..], t0, launches + e1.spawned - e.spawned, ts[0].at);
    }
  }

  lemma LaunchesBackOff(e: Entry, t0: int, ts: seq<Timed>)
    requires Inv(e) && Starts(e, Timed(t0, Start)) && Ordered(t0, ts)
    requires var e1 := Step(e, Timed(t0, Start)); NoStarts(e1, ts) && StableExits(e1, ts) == 0
    ensures var e' := Run(Step(e, Timed(t0, Start)), ts);
            e'.spawned > e.spawned && e'.lastStart - t0 >= TotalBackoff(e'.spawned - e.spawned - 1)
  {
    var e1 := Step(e, Timed(t0, Start));
    StepInv(e, Timed(t0, Start));
    RunBackedOff(e1, ts, t0, 1, t0);
  }

  /** While no run was stable, the launch after n restarts comes at least the sum of the n backoffs
      after the start. */
  lemma LaunchesAreSpacedOut(e: Entry, t0: int, ts: seq<Timed>)
    requires Inv(e) && Starts(e, Timed(t0, Start)) && Ordered(t0, ts)
    requires var e1 := Step(e, Timed(t0, Start)); NoStarts(e1, ts) && StableExits(e1, ts) == 0
    ensures var e' := Run(Step(e, Timed(t0, Start)), ts);
            var n := e'.spawned - e.spawned - 1;
            n >= 0 && e'.lastStart - t0 >= if n <= 10 then 250 * n * (n + 1) else 27_500 + 5000 * (n - 10)
  {
    LaunchesBackOff(e, t0, ts);
    TotalBackoffClosedForm(Run(Step(e, Timed(t0, Start)), ts).spawned - e.spawned - 1);
  }

  // ----- the bound is met -----

  /** Fails now if restarts are left, and otherwise after a stable run. */
  function FailAt(now: int, k: nat): int {
    if k == 0 then now + STABLE_MS + 1 else now
  }

  /** A failure with a restart to come, and that restart. */
  lemma CrashOnce(e: Entry, now: int, k: nat) returns (crash: Timed, fire: Timed)
    requires Inv(e) && e.declared && e.desired && e.status == Running && e.restart != Never
    requires e.lastStart == now && e.restarts + k == Ceiling(e) && Ceiling(e) > 0
    ensures now <= crash.at <= fire.at && !Starts(e, crash) && !Starts(Step(e, crash), fire)
    ensures (StableExit(e, crash) <==> k == 0) && !StableExit(Step(e, crash), fire)
    ensures var e2 := Step(Step(e, crash), fire);
            && Inv(e2) && e2.declared && e2.desired && e2.status == Running && e2.restart == e.restart
            && e2.maxRestarts == e.maxRestarts && e2.lastStart == fire.at && e2.spawned == e.spawned + 1
            && e2.restarts == if k == 0 then 1 else e.restarts + 1
  {
    crash := Timed(FailAt(now, k), Exit(e.child.value, Some(1)));
    var e1 := Step(e, crash);
    StepInv(e, crash);
    fire := Timed(crash.at + Backoff(e1.restarts), Fire(e1.timer.value));
    StepInv(e1, fire);
  }

  /** The last failure, when no restart is left. */
  lemma CrashForGood(e: Entry, now: int) returns (ts: seq<Timed>)
    requires Inv(e) && e.declared && e.desired && e.status == Running && e.restart != Never
    requires e.lastStart == now && e.restarts == Ceiling(e)
    ensures Ordered(now, ts) && NoStarts(e, ts) && StableExits(e, ts) == 0
    ensures Run(e, ts).status == Failed && Run(e, ts).spawned == e.spawned
  {
    var crash := Timed(now, Exit(e.child.value, Some(1)));
    ts := [crash];
    assert ts[1..] == [] && Run(Step(e, crash), ts[1..]) == Step(e, crash);
  }

  /** A service that fails at once with k restarts to go, or, when none is left, runs stably for once
      and fails then, `stable` times. */
  lemma {:induction false} CrashFrom(e: Entry, now: int, k: nat, stable: nat) returns (ts: seq<Timed>)
    requires Inv(e) && e.declared && e.desired && e.status == Running && e.restart != Never
    requires e.lastStart == now && e.restarts + k == Ceiling(e) && (stable > 0 ==> Ceiling(e) > 0)
    ensures Ordered(now, ts) && NoStarts(e, ts) && StableExits(e, ts) == stable
    ensures Run(e, ts).status == Failed && Run(e, ts).spawned == e.spawned + k + Ceiling(e) * stable
    decreases stable, k
  {
    if k == 0 && stable == 0 {
      ts := CrashForGood(e, now);
    } else {
      var crash, fire := CrashOnce(e, now, k);
      var e2 := Step(Step(e, crash), fire);
      var k', stable' := if k == 0 then Ceiling(e) - 1 else k - 1, if k == 0 then stable - 1 else stable;
      var rest := CrashFrom(e2, fire.at, k', stable');
      ts := [crash] + ([fire] + rest);
      RunOfTwo(e, crash, fire, rest, now);
      OneLess(Ceiling(e), stable);
    }
  }

  lemma OneLess(m: nat, n: nat)
    ensures m * n == m * (n - 1) + m
  {}

  lemma RunOfTwo(e: Entry, a: Timed, b: Timed, rest: seq<Timed>, now: int)
    ensures var ts, e1 := [a] + ([b] + rest), Step(e, a);
            var e2 := Step(e1, b);
            && Run(e, ts) == Run(e2, rest)
            && (Ordered(now, ts) <==> now <= a.at <= b.at && Ordered(b.at, rest))
            && (NoStarts(e, ts) <==> !Starts(e, a) && !Starts(e1, b) && NoStarts(e2, rest))
            && StableExits(e, ts)
            == (if StableExit(e, a) then 1 else 0) + (if StableExit(e1, b) then 1 else 0) + StableExits(e2, rest)
  {
    var ts := [a] + ([b] + rest);
    assert ts[1..] == [b] + rest && ts[1..][1..] == rest;
  }

  /** The launch bound is met for every number of stable exits: a service that fails at once on every
      launch, except that it runs stably whenever no restart is left, ends as failed after exactly that
      many launches.  Only with a ceiling of 0 there is no second run that could be stable. */
  lemma CeilingIsReached(e: Entry, t0: int, stable: nat)
    requires Inv(e) && Starts(e, Timed(t0, Start)) && e.restart != Never
    requires stable > 0 ==> Ceiling(e) > 0
    ensures var e1 := Step(e, Timed(t0, Start));
            exists ts :: Ordered(t0, ts) && NoStarts(e1, ts) && StableExits(e1, ts) == stable
              && Run(e1, ts).status == Failed
              && Run(e1, ts).spawned - e.spawned == 1 + Ceiling(e) * (1 + stable)
  {
    var e1 := Step(e, Timed(t0, Start));
    StepInv(e, Timed(t0, Start));
    var ts := CrashFrom(e1, t0, Ceiling(e), stable);
    assert Ceiling(e) * (1 + stable) == Ceiling(e) + Ceiling(e) * stable;
  }
}
