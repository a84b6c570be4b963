/** The permission ledger of kernel/src/policy.ts.

    A grant is kept under a capability name, a risk class or "all", and a guarded call spends the
    most specific grant that covers it.  The class below is the store as the program updates it;
    the rest of the module compares the way it spends grants with every other way there is.
 */
module Grants {
  import opened Wrappers

  /** Remaining uses; `Inf` is the program's Infinity. */
  datatype Uses = Fin(n: nat) | Inf

  datatype Risk = Read | Write | Exec

  datatype Mode = Permissive | Guarded | Paranoid

  /** A capability: its dotted name and its one risk class. */
  datatype Cap = Cap(name: string, risk: Risk)

  type Table = map<string, Uses>

  function RiskKey(risk: Risk): string {
    match risk
    case Read => "read"
    case Write => "write"
    case Exec => "exec"
  }

  function Left(t: Table, key: string): Uses {
    if key in t then t[key] else Fin(0)
  }

  predicate Positive(u: Uses) {
    u == Inf || u.n > 0
  }

  function Plus(a: Uses, b: Uses): Uses {
    if a == Inf || b == Inf then Inf else Fin(a.n + b.n)
  }

  /** a with n uses taken off, as far as there are that many. */
  function Minus(a: Uses, n: nat): Uses {
    if a == Inf then Inf else Fin(Excess(a.n, Fin(n)))
  }

  /** What remains of a demand of n when u uses are there. */
  function Excess(n: nat, u: Uses): nat {
    if u == Inf || n <= u.n then 0 else n - u.n
  }

  function Spend(t: Table, key: string): Table {
    if key !in t || t[key] == Inf then t
    else if t[key].n <= 1 then t - {key}
    else t[key := Fin(t[key].n - 1)]
  }

  /** The first of the keys with uses left. */
  function FirstPositive(t: Table, keys: seq<string>): Option<string> {
    if keys == [] then None
    else if Positive(Left(t, keys[0])) then Some(keys[0])
    else FirstPositive(t, keys[1..])
  }

  function CoveringKeys(c: Cap): seq<string> {
    [c.name, RiskKey(c.risk), "all"]
  }

  function PermitKey(t: Table, c: Cap): Option<string> {
    FirstPositive(t, CoveringKeys(c))
  }

  class GrantStore {
    var grants: map<string, Uses>

    constructor ()
      ensures grants == map[]
    {
      grants := map[];
    }

    method Grant(target: string, uses: Uses)
      modifies this
      ensures grants == old(grants)[target := Plus(Left(old(grants), target), uses)]
    {
      var prev := if target in grants then grants[target] else Fin(0);
      var next := if prev == Inf || uses == Inf then Inf else Fin(prev.n + uses.n);
      grants := grants[target := next];
    }

    /** The most specific key that permits the call. */
    method PermitKeyOf(c: Cap) returns (key: Option<string>)
      ensures key == PermitKey(grants, c)
    {
      var keys := [c.name, RiskKey(c.risk), "all"];
      var i := 0;
      while i < |keys|
        invariant 0 <= i <= |keys|
        invariant FirstPositive(grants, keys) == FirstPositive(grants, keys[i..])
      {
        if keys[i] in grants && Positive(grants[keys[i]]) {
          return Some(keys[i]);
        }
        assert keys[i..][1..] == keys[i + 1..];
        i := i + 1;
      }
      return None;
    }

    method Consume(key: string)
      modifies this
      ensures grants == Spend(old(grants), key)
    {
      if key !in grants || grants[key] == Inf {
        return;
      }
      if grants[key].n <= 1 {
        grants := grants - {key};
      } else {
        grants := grants[key := Fin(grants[key].n - 1)];
      }
    }

    /** Without a target, or with an empty one, everything goes. */
    method Revoke(target: Option<string>)
      modifies this
      ensures grants == Revoked(old(grants), target)
    {
      if target.Some? && target.value != "" {
        grants := grants - {target.value};
      } else {
        grants := map[];
      }
    }
  }

  predicate Covers(target: Option<string>, key: string) {
    target.None? || target.value == "" || target.value == key
  }

  function Revoked(t: Table, target: Option<string>): Table {
    map key | key in t && !Covers(target, key) :: t[key]
  }

  datatype Decision = Allow(grantKey: Option<string>) | Deny

  function Decide(mode: Mode, c: Cap, t: Table): Decision {
    if c.risk == Read || mode == Permissive then Allow(None)
    else if mode == Paranoid then Deny
    else if PermitKey(t, c).Some? then Allow(PermitKey(t, c))
    else Deny
  }

  /** Spending a key with uses left takes one use off that key and touches no other. */
  lemma SpendTakesOne(t: Table, key: string, other: string)
    requires Positive(Left(t, key))
    ensures Left(Spend(t, key), other) == if other == key then Minus(Left(t, key), 1) else Left(t, other)
  {}

  /** A revocation takes everything, or one key and no other. */
  lemma RevokeTakes(t: Table, which: Option<string>)
    ensures which.None? || which.value == "" ==> Revoked(t, which) == map[]
    ensures which.Some? && which.value != "" ==> Revoked(t, which) == t - {which.value}
  {}

  /** A grant adds its uses to its key and touches no other; an unlimited one makes the key unlimited,
      and an unlimited key stays so. */
  lemma GrantAdds(t: Table, target: string, uses: Uses)
    ensures var t' := t[target := Plus(Left(t, target), uses)];
            && (forall k :: k != target ==> (k in t' <==> k in t) && (k in t ==> t'[k] == t[k]))
            && (uses == Inf || (target in t && t[target] == Inf) ==> t'[target] == Inf)
            && (uses.Fin? && target !in t ==> t'[target] == uses)
            && (uses.Fin? && target in t && t[target].Fin? ==> t'[target] == Fin(t[target].n + uses.n))
  {}

  // ----- how many calls are denied -----

  /** The registry: one entry a name, and no name that is also a risk class or "all". */
  predicate ValidRegistry(reg: seq<Cap>) {
    && (forall i, j :: 0 <= i < j < |reg| ==> reg[i].name != reg[j].name)
    && (forall c :: c in reg ==> c.name !in {"read", "write", "exec", "all"})
  }

  predicate RiskyCalls(reg: seq<Cap>, calls: seq<Cap>) {
    forall c :: c in calls ==> c in reg && c.risk != Read
  }

  /** What the calls are charged to, one by one, when each spends its most specific grant. */
  function Greedy(t: Table, calls: seq<Cap>): (a: seq<Option<string>>)
    ensures |a| == |calls|
  {
    if calls == [] then []
    else
      var key := PermitKey(t, calls[0]);
      [key] + Greedy(if key.Some? then Spend(t, key.value) else t, calls[1..])
  }

  /** The table after those calls. */
  function After(t: Table, calls: seq<Cap>): Table {
    if calls == [] then t
    else
      var key := PermitKey(t, calls[0]);
      After(if key.Some? then Spend(t, key.value) else t, calls[1..])
  }

  function Denials(a: seq<Option<string>>): nat {
    if a == [] then 0 else (if a[0].None? then 1 else 0) + Denials(a[1..])
  }

  /** What the capabilities of one risk class still need after their own grants. */
  function RiskDemand(reg: seq<Cap>, t: Table, calls: multiset<Cap>, risk: Risk): nat {
    if reg == [] then 0
    else
      (if reg[0].risk == risk then Excess(calls[reg[0]], Left(t, reg[0].name)) else 0)
      + RiskDemand(reg[1..], t, calls, risk)
  }

  /** What is still needed after the grants by name and by risk class. */
  function AllDemand(reg: seq<Cap>, t: Table, calls: multiset<Cap>): nat {
    Excess(RiskDemand(reg, t, calls, Write), Left(t, "write"))
    + Excess(RiskDemand(reg, t, calls, Exec), Left(t, "exec"))
  }

  function Shortfall(reg: seq<Cap>, t: Table, calls: multiset<Cap>): nat {
    Excess(AllDemand(reg, t, calls), Left(t, "all"))
  }

  /** The demand of a risk class moves by what changes at the one capability that changes. */
  lemma {:induction false} DemandMoves(reg: seq<Cap>, t: Table, m: multiset<Cap>,
                                       t': Table, m': multiset<Cap>, c: Cap, risk: Risk)
    requires ValidRegistry(reg)
    requires forall d :: d in reg && d != c ==> Left(t', d.name) == Left(t, d.name) && m'[d] == m[d]
    ensures RiskDemand(reg, t', m', risk)
         == RiskDemand(reg, t, m, risk)
            + if c in reg && c.risk == risk
              then Excess(m'[c], Left(t', c.name)) - Excess(m[c], Left(t, c.name)) else 0
  {
    if reg != [] {
      assert ValidRegistry(reg[1..]) by {
        assert forall i :: 0 <= i < |reg[1..]| ==> reg[1..][i] == reg[i + 1];
      }
      DemandMoves(reg[1..], t, m, t', m', c, risk);
      assert c in reg <==> c == reg[0] || c in reg[1..];
      assert reg[0] !in reg[1..];
    }
  }

  /** The demand of c's own risk class contains what c itself needs. */
  lemma {:induction false} DemandContains(reg: seq<Cap>, t: Table, m: multiset<Cap>, c: Cap)
    requires c in reg
    ensures RiskDemand(reg, t, m, c.risk) >= Excess(m[c], Left(t, c.name))
  {
    if c != reg[0] {
      DemandContains(reg[1..], t, m, c);
    }
  }

  /** One call that spends a covering grant, or none. */
  function SpendOption(t: Table, key: Option<string>): Table {
    if key.Some? then Spend(t, key.value) else t
  }

  predicate MayCharge(t: Table, c: Cap, key: Option<string>) {
    key.Some? ==> key.value in CoveringKeys(c) && Positive(Left(t, key.value))
  }

  /** The demands before and after the first call, for any way to charge it. */
  lemma DemandsOfStep(reg: seq<Cap>, t: Table, m: multiset<Cap>, c: Cap, key: Option<string>)
    requires ValidRegistry(reg) && c in reg && c.risk != Read && MayCharge(t, c, key)
    ensures var t', m0 := SpendOption(t, key), m + multiset{c};
            && RiskDemand(reg, t', m, Write) == RiskDemand(reg, t, m0, Write)
               + (if c.risk == Write then Excess(m[c], Left(t', c.name)) - Excess(m[c] + 1, Left(t, c.name)) else 0)
            && RiskDemand(reg, t', m, Exec) == RiskDemand(reg, t, m0, Exec)
               + (if c.risk == Exec then Excess(m[c], Left(t', c.name)) - Excess(m[c] + 1, Left(t, c.name)) else 0)
            && RiskDemand(reg, t, m0, c.risk) >= Excess(m[c] + 1, Left(t, c.name))
            && (forall k :: Left(t', k) == if key == Some(k) then Minus(Left(t, k), 1) else Left(t, k))
  {
    var t', m0 := SpendOption(t, key), m + multiset{c};
    assert forall k :: Left(t', k) == if key == Some(k) then Minus(Left(t, k), 1) else Left(t, k);
    forall d | d in reg && d != c ensures Left(t', d.name) == Left(t, d.name) && m[d] == m0[d] {
      NamesDiffer(reg, c, d);
    }
    assert m0[c] == m[c] + 1;
    DemandMoves(reg, t, m0, t', m, c, Write);
    DemandMoves(reg, t, m0, t', m, c, Exec);
    DemandContains(reg, t, m0, c);
  }

  lemma NamesDiffer(reg: seq<Cap>, c: Cap, d: Cap)
    requires ValidRegistry(reg) && c in reg && d in reg && c != d
    ensures c.name != d.name && d.name !in {"read", "write", "exec", "all"}
  {
    var i :| 0 <= i < |reg| && reg[i] == c;
    var j :| 0 <= j < |reg| && reg[j] == d;
    assert i < j || j < i;
  }

  /** One level of the ledger, when the demand on it drops by at most one. */
  lemma LevelKept(n: nat, n': nat, u: Uses)
    requires n' <= n <= n' + 1
    ensures Excess(n', u) <= Excess(n, u) <= Excess(n', u) + 1
    ensures !Positive(u) ==> Excess(n, u) - Excess(n', u) == n - n'
  {}

  /** The same, when a use of this level was spent. */
  lemma LevelSpent(n: nat, n': nat, u: Uses)
    requires n' <= n <= n' + 1 && Positive(u)
    ensures Excess(n', Minus(u, 1)) >= Excess(n, u)
    ensures n == n' + 1 ==> Excess(n', Minus(u, 1)) == Excess(n, u)
  {}

  /** The other of the two guarded risk classes. */
  function Other(risk: Risk): Risk {
    if risk == Write then Exec else Write
  }

  /** What one class still needs after its grants. */
  function ClassExcess(reg: seq<Cap>, t: Table, m: multiset<Cap>, risk: Risk): nat {
    Excess(RiskDemand(reg, t, m, risk), Left(t, RiskKey(risk)))
  }

  lemma AllIsBothClasses(reg: seq<Cap>, t: Table, m: multiset<Cap>, risk: Risk)
    requires risk != Read
    ensures AllDemand(reg, t, m) == ClassExcess(reg, t, m, risk) + ClassExcess(reg, t, m, Other(risk))
  {}

  /** The first call does not matter to the other class. */
  lemma OtherClassKept(reg: seq<Cap>, t: Table, m: multiset<Cap>, c: Cap, key: Option<string>)
    requires ValidRegistry(reg) && c in reg && c.risk != Read && MayCharge(t, c, key)
    ensures ClassExcess(reg, SpendOption(t, key), m, Other(c.risk))
         == ClassExcess(reg, t, m + multiset{c}, Other(c.risk))
  {
    DemandsOfStep(reg, t, m, c, key);
    assert c.name !in {"read", "write", "exec", "all"};
    assert RiskKey(Other(c.risk)) !in CoveringKeys(c);
  }

  /** What it does to its own class. */
  lemma OwnClassMoves(reg: seq<Cap>, t: Table, m: multiset<Cap>, c: Cap, key: Option<string>)
    requires ValidRegistry(reg) && c in reg && c.risk != Read && MayCharge(t, c, key)
    ensures var a, a' := ClassExcess(reg, t, m + multiset{c}, c.risk), ClassExcess(reg, SpendOption(t, key), m, c.risk);
            var ownSpent, classSpent := !Positive(Left(t, c.name)), !Positive(Left(t, RiskKey(c.risk)));
            && (key == Some(c.name) ==> a' == a)
            && (key == Some(RiskKey(c.risk)) ==> a' >= a && (ownSpent ==> a' == a))
            && (key.None? || key.value == "all" ==>
                  a' <= a <= a' + 1 && (ownSpent && classSpent ==> a == a' + 1))
  {
    var t', m0, k := SpendOption(t, key), m + multiset{c}, RiskKey(c.risk);
    assert c.name !in {"read", "write", "exec", "all"};
    DemandsOfStep(reg, t, m, c, key);
    var d, d' := RiskDemand(reg, t, m0, c.risk), RiskDemand(reg, t', m, c.risk);
    if key == Some(c.name) {
      LevelSpent(m[c] + 1, m[c], Left(t, c.name));
      assert d' == d;
    } else {
      LevelKept(m[c] + 1, m[c], Left(t, c.name));
      assert d' <= d <= d' + 1;
      if key == Some(k) {
        LevelSpent(d, d', Left(t, k));
      } else {
        LevelKept(d, d', Left(t, k));
      }
    }
  }

  /** The demand that reaches the grants under "all", before and after the first call. */
  lemma DemandOnAll(reg: seq<Cap>, t: Table, m: multiset<Cap>, c: Cap, key: Option<string>)
    requires ValidRegistry(reg) && c in reg && c.risk != Read && MayCharge(t, c, key)
    ensures var a, a' := AllDemand(reg, t, m + multiset{c}), AllDemand(reg, SpendOption(t, key), m);
            var ownSpent, classSpent := !Positive(Left(t, c.name)), !Positive(Left(t, RiskKey(c.risk)));
            && (key == Some(c.name) ==> a' == a)
            && (key == Some(RiskKey(c.risk)) ==> a' >= a && (ownSpent ==> a' == a))
            && (key.None? || key.value == "all" ==>
                  a' <= a <= a' + 1 && (ownSpent && classSpent ==> a == a' + 1))
  {
    AllIsBothClasses(reg, t, m + multiset{c}, c.risk);
    AllIsBothClasses(reg, SpendOption(t, key), m, c.risk);
    OtherClassKept(reg, t, m, c, key);
    OwnClassMoves(reg, t, m, c, key);
  }

  /** However the first call is charged, the shortfall of the rest makes up for it. */
  lemma AnyStep(reg: seq<Cap>, t: Table, m: multiset<Cap>, c: Cap, key: Option<string>)
    requires ValidRegistry(reg) && c in reg && c.risk != Read && MayCharge(t, c, key)
    ensures Shortfall(reg, t, m + multiset{c})
         <= (if key.None? then 1 else 0) + Shortfall(reg, SpendOption(t, key), m)
  {
    DemandOnAll(reg, t, m, c, key);
    AllLevel(reg, t, m, c, key);
  }

  /** Charged most specific first, the first call keeps the shortfall exact. */
  lemma GreedyStep(reg: seq<Cap>, t: Table, m: multiset<Cap>, c: Cap)
    requires ValidRegistry(reg) && c in reg && c.risk != Read
    ensures var key := PermitKey(t, c);
            && MayCharge(t, c, key)
            && Shortfall(reg, t, m + multiset{c})
            == (if key.None? then 1 else 0) + Shortfall(reg, SpendOption(t, key), m)
  {
    GreedyKey(t, c);
    var key := PermitKey(t, c);
    DemandOnAll(reg, t, m, c, key);
    AllLevel(reg, t, m, c, key);
  }

  /** The last level, given what reaches it. */
  lemma AllLevel(reg: seq<Cap>, t: Table, m: multiset<Cap>, c: Cap, key: Option<string>)
    requires c.name != "all" && c.risk != Read && MayCharge(t, c, key)
    ensures var a, a' := AllDemand(reg, t, m + multiset{c}), AllDemand(reg, SpendOption(t, key), m);
            var f, f' := Shortfall(reg, t, m + multiset{c}), Shortfall(reg, SpendOption(t, key), m);
            && (a' >= a && key != Some("all") ==> f' >= f)
            && (a' == a && key != Some("all") ==> f' == f)
            && (a' <= a <= a' + 1 && key == Some("all") ==> f' >= f && (a == a' + 1 ==> f' == f))
            && (a' <= a <= a' + 1 && key.None? ==>
                  f <= f' + 1 && (a == a' + 1 && !Positive(Left(t, "all")) ==> f == f' + 1))
  {
    var a, a' := AllDemand(reg, t, m + multiset{c}), AllDemand(reg, SpendOption(t, key), m);
    if key.Some? {
      SpendTakesOne(t, key.value, "all");
    }
    if a' <= a <= a' + 1 {
      if key == Some("all") {
        LevelSpent(a, a', Left(t, "all"));
      } else {
        LevelKept(a, a', Left(t, "all"));
      }
    }
  }

  lemma GreedyKey(t: Table, c: Cap)
    ensures PermitKey(t, c) ==
            if Positive(Left(t, c.name)) then Some(c.name)
            else if Positive(Left(t, RiskKey(c.risk))) then Some(RiskKey(c.risk))
            else if Positive(Left(t, "all")) then Some("all")
            else None
  {
    var keys := CoveringKeys(c);
    assert keys[1..] == [RiskKey(c.risk), "all"] && keys[1..][1..] == ["all"];
    assert FirstPositive(t, ["all"]) == if Positive(Left(t, "all")) then Some("all") else None by {
      assert ["all"][1..] == [];
    }
    assert FirstPositive(t, [RiskKey(c.risk), "all"]) ==
      if Positive(Left(t, RiskKey(c.risk))) then Some(RiskKey(c.risk)) else FirstPositive(t, ["all"]);
  }

  /** The number of denials, in closed form. */
  lemma {:induction false} GreedyDenials(reg: seq<Cap>, t: Table, calls: seq<Cap>)
    requires ValidRegistry(reg) && RiskyCalls(reg, calls)
    ensures Denials(Greedy(t, calls)) == Shortfall(reg, t, multiset(calls))
  {
    if calls == [] {
      NoDemand(reg, t, Write);
      NoDemand(reg, t, Exec);
    } else {
      var key := PermitKey(t, calls[0]);
      GreedyStep(reg, t, multiset(calls[1..]), calls[0]);
      GreedyDenials(reg, SpendOption(t, key), calls[1..]);
      FirstOfCalls(calls);
    }
  }

  lemma {:induction false} NoDemand(reg: seq<Cap>, t: Table, risk: Risk)
    ensures RiskDemand(reg, t, multiset{}, risk) == 0
  {
    if reg != [] {
      NoDemand(reg[1..], t, risk);
    }
  }

  // ----- optimality -----

  function TimesCharged(a: seq<Option<string>>, key: string): nat {
    if a == [] then 0 else (if a[0] == Some(key) then 1 else 0) + TimesCharged(a[1..], key)
  }

  /** A way to charge the calls, chosen with all of them in view: every charge is to a key that
      covers its call, and no key is charged more often than it has uses. */
  ghost predicate Feasible(t: Table, calls: seq<Cap>, a: seq<Option<string>>) {
    && |a| == |calls|
    && (forall i :: 0 <= i < |a| && a[i].Some? ==> a[i].value in CoveringKeys(calls[i]))
    && (forall key :: Excess(TimesCharged(a, key), Left(t, key)) == 0)
  }

  lemma FeasibleRest(t: Table, calls: seq<Cap>, a: seq<Option<string>>)
    requires calls != [] && Feasible(t, calls, a)
    ensures MayCharge(t, calls[0], a[0])
    ensures Feasible(SpendOption(t, a[0]), calls[1..], a[1..])
  {
    var key, t' := a[0], SpendOption(t, a[0]);
    if key.Some? {
      assert Excess(TimesCharged(a, key.value), Left(t, key.value)) == 0;
    }
    forall k ensures Excess(TimesCharged(a[1..], k), Left(t', k)) == 0 {
      assert Excess(TimesCharged(a, k), Left(t, k)) == 0;
      if key.Some? {
        SpendTakesOne(t, key.value, k);
      }
    }
  }

  lemma FirstOfCalls(calls: seq<Cap>)
    requires calls != []
    ensures multiset(calls) == multiset(calls[1..]) + multiset{calls[0]}
  {
    assert calls == [calls[0]] + calls[1..];
  }

  /** No way to charge the calls denies fewer than the shortfall. */
  lemma {:induction false} ShortfallIsLeast(reg: seq<Cap>, t: Table, calls: seq<Cap>, a: seq<Option<string>>)
    requires ValidRegistry(reg) && RiskyCalls(reg, calls) && Feasible(t, calls, a)
    ensures Denials(a) >= Shortfall(reg, t, multiset(calls))
  {
    if calls == [] {
      NoDemand(reg, t, Write);
      NoDemand(reg, t, Exec);
    } else {
      FeasibleRest(t, calls, a);
      ShortfallIsLeast(reg, SpendOption(t, a[0]), calls[1..], a[1..]);
      assert calls[0] in calls;
      AnyStep(reg, t, multiset(calls[1..]), calls[0], a[0]);
      FirstOfCalls(calls);
    }
  }

  lemma {:induction false} GreedyIsFeasible(t: Table, calls: seq<Cap>)
    ensures Feasible(t, calls, Greedy(t, calls))
  {
    if calls != [] {
      var a, key := Greedy(t, calls), PermitKey(t, calls[0]);
      GreedyIsFeasible(SpendOption(t, key), calls[1..]);
      GreedyKey(t, calls[0]);
      assert a[1..] == Greedy(SpendOption(t, key), calls[1..]);
      forall k ensures Excess(TimesCharged(a, k), Left(t, k)) == 0 {
        assert Excess(TimesCharged(a[1..], k), Left(SpendOption(t, key), k)) == 0;
        if key.Some? {
          SpendTakesOne(t, key.value, k);
        }
      }
      forall i | 0 <= i < |a| && a[i].Some? ensures a[i].value in CoveringKeys(calls[i]) {
        if i > 0 {
          assert a[1..][i - 1] == a[i] && calls[1..][i - 1] == calls[i];
        }
      }
    }
  }

  /** Most specific first is optimal: it is a feasible way to charge the calls, and none denies
      fewer of them, even with all calls known in advance. */
  lemma GreedyIsOptimal(reg: seq<Cap>, t: Table, calls: seq<Cap>, a: seq<Option<string>>)
    requires ValidRegistry(reg) && RiskyCalls(reg, calls) && Feasible(t, calls, a)
    ensures Feasible(t, calls, Greedy(t, calls))
    ensures Denials(Greedy(t, calls)) <= Denials(a)
  {
    GreedyIsFeasible(t, calls);
    GreedyDenials(reg, t, calls);
    ShortfallIsLeast(reg, t, calls, a);
  }

  lemma MinusOnce(u: Uses, n: nat)
    ensures Positive(u) ==> Minus(u, n + 1) == Minus(Minus(u, 1), n)
    ensures !Positive(u) ==> Minus(u, n) == u
  {}

  /** The first call moves every key towards the same remainder. */
  lemma RemainderStep(reg: seq<Cap>, t: Table, m: multiset<Cap>, c: Cap)
    requires ValidRegistry(reg) && c in reg && c.risk != Read
    ensures var t', m0 := SpendOption(t, PermitKey(t, c)), m + multiset{c};
            && (forall d :: d in reg ==> Minus(Left(t', d.name), m[d]) == Minus(Left(t, d.name), m0[d]))
            && Minus(Left(t', "write"), RiskDemand(reg, t', m, Write))
            == Minus(Left(t, "write"), RiskDemand(reg, t, m0, Write))
            && Minus(Left(t', "exec"), RiskDemand(reg, t', m, Exec))
            == Minus(Left(t, "exec"), RiskDemand(reg, t, m0, Exec))
            && Minus(Left(t', "all"), AllDemand(reg, t', m)) == Minus(Left(t, "all"), AllDemand(reg, t, m0))
  {
    NameRemainder(reg, t, m, c);
    ClassRemainder(reg, t, m, c);
    OtherClassRemainder(reg, t, m, c, if c.risk == Write then Exec else Write);
    AllRemainder(reg, t, m, c);
  }

  lemma AllRemainder(reg: seq<Cap>, t: Table, m: multiset<Cap>, c: Cap)
    requires ValidRegistry(reg) && c in reg && c.risk != Read
    ensures var t', m0 := SpendOption(t, PermitKey(t, c)), m + multiset{c};
            Minus(Left(t', "all"), AllDemand(reg, t', m)) == Minus(Left(t, "all"), AllDemand(reg, t, m0))
  {
    var key := PermitKey(t, c);
    GreedyKey(t, c);
    DemandOnAll(reg, t, m, c, key);
    MinusOnce(Left(t, "all"), AllDemand(reg, SpendOption(t, key), m));
    MinusOnce(Left(t, "all"), AllDemand(reg, t, m + multiset{c}));
    if key.Some? {
      SpendTakesOne(t, key.value, "all");
    }
    assert c.name != "all";
  }

  lemma OtherClassRemainder(reg: seq<Cap>, t: Table, m: multiset<Cap>, c: Cap, risk: Risk)
    requires ValidRegistry(reg) && c in reg && c.risk != Read && risk != Read && risk != c.risk
    ensures var t', m0 := SpendOption(t, PermitKey(t, c)), m + multiset{c};
            Left(t', RiskKey(risk)) == Left(t, RiskKey(risk))
            && RiskDemand(reg, t', m, risk) == RiskDemand(reg, t, m0, risk)
  {
    GreedyKey(t, c);
    DemandsOfStep(reg, t, m, c, PermitKey(t, c));
    assert c.name !in {"read", "write", "exec", "all"};
  }

  lemma NameRemainder(reg: seq<Cap>, t: Table, m: multiset<Cap>, c: Cap)
    requires ValidRegistry(reg) && c in reg && c.risk != Read
    ensures var t', m0 := SpendOption(t, PermitKey(t, c)), m + multiset{c};
            forall d :: d in reg ==> Minus(Left(t', d.name), m[d]) == Minus(Left(t, d.name), m0[d])
  {
    var key := PermitKey(t, c);
    var t', m0 := SpendOption(t, key), m + multiset{c};
    GreedyKey(t, c);
    forall d | d in reg ensures Minus(Left(t', d.name), m[d]) == Minus(Left(t, d.name), m0[d]) {
      if key.Some? {
        SpendTakesOne(t, key.value, d.name);
      }
      if d == c {
        MinusOnce(Left(t, c.name), m[c]);
        MinusOnce(Left(t, c.name), m[c] + 1);
      } else {
        NamesDiffer(reg, c, d);
      }
    }
  }

  lemma ClassRemainder(reg: seq<Cap>, t: Table, m: multiset<Cap>, c: Cap)
    requires ValidRegistry(reg) && c in reg && c.risk != Read
    ensures var t', m0, k := SpendOption(t, PermitKey(t, c)), m + multiset{c}, RiskKey(c.risk);
            Minus(Left(t', k), RiskDemand(reg, t', m, c.risk)) == Minus(Left(t, k), RiskDemand(reg, t, m0, c.risk))
  {
    var key := PermitKey(t, c);
    var t', m0, k := SpendOption(t, key), m + multiset{c}, RiskKey(c.risk);
    GreedyKey(t, c);
    DemandsOfStep(reg, t, m, c, key);
    assert c.name !in {"read", "write", "exec", "all"};
    MinusOnce(Left(t, k), RiskDemand(reg, t', m, c.risk));
    MinusOnce(Left(t, k), RiskDemand(reg, t, m0, c.risk));
    if key == Some(c.name) {
      LevelSpent(m[c] + 1, m[c], Left(t, c.name));
    } else {
      LevelKept(m[c] + 1, m[c], Left(t, c.name));
    }
  }

  /** What every key has left afterwards. */
  lemma {:induction false} GreedyRemainder(reg: seq<Cap>, t: Table, calls: seq<Cap>)
    requires ValidRegistry(reg) && RiskyCalls(reg, calls)
    ensures forall c :: c in reg ==> Left(After(t, calls), c.name) == Minus(Left(t, c.name), multiset(calls)[c])
    ensures Left(After(t, calls), "write") == Minus(Left(t, "write"), RiskDemand(reg, t, multiset(calls), Write))
    ensures Left(After(t, calls), "exec") == Minus(Left(t, "exec"), RiskDemand(reg, t, multiset(calls), Exec))
    ensures Left(After(t, calls), "all") == Minus(Left(t, "all"), AllDemand(reg, t, multiset(calls)))
  {
    if calls == [] {
      NoDemand(reg, t, Write);
      NoDemand(reg, t, Exec);
    } else {
      assert calls[0] in calls;
      RemainderStep(reg, t, multiset(calls[1..]), calls[0]);
      GreedyRemainder(reg, SpendOption(t, PermitKey(t, calls[0])), calls[1..]);
      FirstOfCalls(calls);
    }
  }

  /** The order of the calls changes neither how many are denied nor what is left under any key. */
  lemma OrderDoesNotMatter(reg: seq<Cap>, t: Table, calls: seq<Cap>, calls': seq<Cap>)
    requires ValidRegistry(reg) && RiskyCalls(reg, calls) && RiskyCalls(reg, calls')
    requires multiset(calls) == multiset(calls')
    ensures Denials(Greedy(t, calls)) == Denials(Greedy(t, calls'))
    ensures forall c :: c in reg ==> Left(After(t, calls), c.name) == Left(After(t, calls'), c.name)
    ensures forall key :: key in {"write", "exec", "all"} ==>
      Left(After(t, calls), key) == Left(After(t, calls'), key)
  {
    GreedyDenials(reg, t, calls);
    GreedyDenials(reg, t, calls');
    GreedyRemainder(reg, t, calls);
    GreedyRemainder(reg, t, calls');
  }
}
