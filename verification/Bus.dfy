/** The syscall bus of kernel/src/bus.ts.

    `dispatch` decides, validates and spends in one go and then waits for the handler, so any number
    of handlers are in flight while other calls, grants and revocations happen.  The state machine
    below has one step for the synchronous half (Begin) and one for the end of a handler (Complete);
    a run is any sequence of these steps and of grants and revocations.
 */
module Bus {
  import opened Wrappers
  import opened Grants

  // ----- validation -----

  /** A JSON value, as far as validation looks at it. */
  datatype Json = JNull | JBool | JNumber(isInteger: bool) | JString(s: string) | JArray | JObject

  datatype Property = Property(key: string, kind: Option<string>, options: Option<seq<string>>)

  datatype Schema = Schema(required: seq<string>, properties: seq<Property>)

  type Args = map<string, Json>

  datatype Invalid = Missing(key: string) | WrongType(key: string) | NotAnOption(key: string)

  function JsonType(v: Json): string {
    match v
    case JNull => "null"
    case JBool => "boolean"
    case JNumber(_) => "number"
    case JString(_) => "string"
    case JArray => "array"
    case JObject => "object"
  }

  predicate Present(key: string, args: Args) {
    key in args && args[key] != JNull
  }

  predicate HasType(p: Property, args: Args) {
    p.key !in args || p.kind.None? || JsonType(args[p.key]) == p.kind.value
    || (p.kind.value == "integer" && args[p.key] == JNumber(true))
  }

  /** An enumeration is only looked at for a property that also has a type. */
  predicate IsOption(p: Property, args: Args) {
    p.key !in args || p.kind.None? || p.options.None?
    || (args[p.key].JString? && args[p.key].s in p.options.value)
  }

  predicate Conforms(schema: Schema, args: Args) {
    && (forall key :: key in schema.required ==> Present(key, args))
    && (forall p :: p in schema.properties ==> Fits(p, args))
  }

  ghost predicate IsFirstMissing(schema: Schema, args: Args, i: int) {
    && 0 <= i < |schema.required| && !Present(schema.required[i], args)
    && forall j :: 0 <= j < i ==> Present(schema.required[j], args)
  }

  predicate Fits(p: Property, args: Args) {
    HasType(p, args) && IsOption(p, args)
  }

  ghost predicate IsFirstUnfit(schema: Schema, args: Args, i: int) {
    && 0 <= i < |schema.properties| && !Fits(schema.properties[i], args)
    && forall j :: 0 <= j < i ==> Fits(schema.properties[j], args)
  }

  /** `validate`: no complaint exactly for conforming arguments, and otherwise the first one. */
  method Validate(schema: Schema, args: Args) returns (r: Option<Invalid>)
    ensures r.None? <==> Conforms(schema, args)
    ensures r.Some? && r.value.Missing? ==>
      exists i :: IsFirstMissing(schema, args, i) && schema.required[i] == r.value.key
    ensures r.Some? && !r.value.Missing? ==>
      && (forall key :: key in schema.required ==> Present(key, args))
      && exists i :: IsFirstUnfit(schema, args, i) && schema.properties[i].key == r.value.key
           && r.value.WrongType? == !HasType(schema.properties[i], args)
  {
    var i := 0;
    while i < |schema.required|
      invariant 0 <= i <= |schema.required|
      invariant forall j :: 0 <= j < i ==> Present(schema.required[j], args)
    {
      if !Present(schema.required[i], args) {
        assert IsFirstMissing(schema, args, i);
        return Some(Missing(schema.required[i]));
      }
      i := i + 1;
    }
    i := 0;
    while i < |schema.properties|
      invariant 0 <= i <= |schema.properties|
      invariant forall j :: 0 <= j < i ==> Fits(schema.properties[j], args)
    {
      var p := schema.properties[i];
      if p.key in args && p.kind.Some? {
        var v, t := args[p.key], p.kind.value;
        var ok := (t == "integer" && JsonType(v) == "number" && v.isInteger) || JsonType(v) == t;
        if !ok {
          assert IsFirstUnfit(schema, args, i);
          return Some(WrongType(p.key));
        }
        if p.options.Some? && !(v.JString? && v.s in p.options.value) {
          assert IsFirstUnfit(schema, args, i);
          return Some(NotAnOption(p.key));
        }
      }
      i := i + 1;
    }
    return None;
  }

  /** Which declared types each JSON value passes for. */
  lemma TypesAccepted(p: Property, args: Args)
    requires p.key in args && p.kind.Some?
    ensures HasType(p, args) <==>
      p.kind.value in (match args[p.key]
                       case JNull => {"null"}
                       case JBool => {"boolean"}
                       case JNumber(isInteger) => if isInteger then {"number", "integer"} else {"number"}
                       case JString(_) => {"string"}
                       case JArray => {"array"}
                       case JObject => {"object"})
  {}

  /** The complaints of a property: a value of another type, or, for a property with a type and options,
      anything but one of these strings; an absent value and a property without a type pass. */
  lemma PropertiesAccepted(p: Property, args: Args)
    ensures p.key !in args || p.kind.None? ==> Fits(p, args)
    ensures p.key in args && p.kind.Some? && p.options.None? ==> (Fits(p, args) <==> HasType(p, args))
    ensures p.key in args && p.kind.Some? && p.options.Some? ==>
      (Fits(p, args) <==> HasType(p, args) && exists o :: o in p.options.value && args[p.key] == JString(o))
    ensures forall key :: Present(key, args) <==> key in args && args[key] != JNull
  {}

  // ----- the state machine -----

  datatype Capability = Capability(cap: Cap, schema: Schema)

  type Registry = map<string, Capability>

  predicate Registered(caps: Registry) {
    forall name :: name in caps ==>
      caps[name].cap.name == name && name !in {"read", "write", "exec", "all"}
  }

  datatype Reason = Enosys | Eperm | Einval | Allowed(grantKey: Option<string>, ok: bool)

  /** `number` counts dispatches in the order they begin; it is not written to the log. */
  datatype AuditEntry = AuditEntry(number: nat, name: string, reason: Reason)

  /** A handler in flight. */
  datatype Pending = Pending(cap: Cap, grantKey: Option<string>)

  /** `inFlight` is indexed by the number of the dispatch, `next` is the number of the next one. */
  datatype State = State(mode: Mode, caps: Registry, table: Table,
                         inFlight: map<nat, Pending>, audit: seq<AuditEntry>, next: nat)

  datatype Event =
    | Begin(name: string, args: Args)
    | Complete(id: nat, ok: bool)
    | Issue(target: string, uses: Uses)
    | Revoke(which: Option<string>)

  datatype Outcome = Rejected(why: Reason) | Started(pending: Pending)

  /** What becomes of a dispatch. */
  function OutcomeOf(s: State, name: string, args: Args): Outcome {
    if name !in s.caps then Rejected(Enosys)
    else
      var c := s.caps[name];
      var d := Decide(s.mode, c.cap, s.table);
      if d.Deny? then Rejected(Eperm)
      else if !Conforms(c.schema, args) then Rejected(Einval)
      else Started(Pending(c.cap, d.grantKey))
  }

  function Step(s: State, e: Event): State {
    match e
    case Begin(name, args) =>
      (match OutcomeOf(s, name, args)
       case Rejected(why) => s.(audit := s.audit + [AuditEntry(s.next, name, why)], next := s.next + 1)
       case Started(p) => s.(table := SpendOption(s.table, p.grantKey),
                             inFlight := s.inFlight[s.next := p], next := s.next + 1))
    case Complete(id, ok) =>
      if id !in s.inFlight then s
      else
        var p := s.inFlight[id];
        s.(inFlight := s.inFlight - {id},
           audit := s.audit + [AuditEntry(id, p.cap.name, Allowed(p.grantKey, ok))])
    case Issue(target, uses) => s.(table := s.table[target := Plus(Left(s.table, target), uses)])
    case Revoke(which) => s.(table := Revoked(s.table, which))
  }

  function Run(s: State, es: seq<Event>): State
    decreases |es|
  {
    if es == [] then s else Run(Step(s, es[0]), es[1..])
  }

  /** The bus as an object.  The handler itself is not modelled; `Finish` is its end. */
  class BusObject {
    var mode: Mode
    var caps: map<string, Capability>
    const operatorToken: string
    var grants: GrantStore
    var inFlight: map<nat, Pending>
    var audit: seq<AuditEntry>
    var next: nat

    constructor (mode: Mode, caps: map<string, Capability>, operatorToken: string)
      ensures fresh(grants) && Model() == State(mode, caps, map[], map[], [], 0)
      ensures this.operatorToken == operatorToken
    {
      this.mode, this.caps, this.operatorToken := mode, caps, operatorToken;
      grants := new GrantStore();
      inFlight, audit, next := map[], [], 0;
    }

    function Model(): State
      reads this, grants
    {
      State(mode, caps, grants.grants, inFlight, audit, next)
    }

    /** `dispatch` up to the point where it awaits the handler. */
    method Dispatch(name: string, args: Args) returns (r: Outcome)
      modifies this, grants
      ensures grants == old(grants)
      ensures r == OutcomeOf(old(Model()), name, args)
      ensures Model() == Step(old(Model()), Begin(name, args))
    {
      var number := next;
      next := next + 1;
      if name !in caps {
        audit := audit + [AuditEntry(number, name, Enosys)];
        return Rejected(Enosys);
      }
      var c := caps[name];
      var key := None;
      if c.cap.risk != Read && mode != Permissive {
        if mode != Paranoid {
          key := grants.PermitKeyOf(c.cap);
        }
        if key.None? {
          audit := audit + [AuditEntry(number, name, Eperm)];
          return Rejected(Eperm);
        }
      }
      var invalid := Validate(c.schema, args);
      if invalid.Some? {
        audit := audit + [AuditEntry(number, name, Einval)];
        return Rejected(Einval);
      }
      if key.Some? {
        grants.Consume(key.value);
      }
      inFlight := inFlight[number := Pending(c.cap, key)];
      return Started(Pending(c.cap, key));
    }

    /** The rest of `dispatch`, once the handler returned or threw. */
    method Finish(id: nat, ok: bool)
      requires id in inFlight
      modifies this
      ensures grants == old(grants)
      ensures Model() == Step(old(Model()), Complete(id, ok))
    {
      var p := inFlight[id];
      audit := audit + [AuditEntry(id, p.cap.name, Allowed(p.grantKey, ok))];
      inFlight := inFlight - {id};
    }

    /** `sys.grant`: one use unless told otherwise, an unlimited grant for a negative number of uses;
        false is the error of a wrong token. */
    method IssueGrant(token: string, target: string, uses: Option<int>) returns (ok: bool)
      modifies grants
      ensures ok <==> token == operatorToken
      ensures Model() == if ok then Step(old(Model()), Issue(target, UsesAsked(uses))) else old(Model())
    {
      if token != operatorToken {
        return false;
      }
      var n := if uses.Some? then uses.value else 1;
      grants.Grant(target, if n < 0 then Inf else Fin(n));
      return true;
    }

    /** `sys.revoke`; false is the error of a wrong token. */
    method RevokeGrant(token: string, which: Option<string>) returns (ok: bool)
      modifies grants
      ensures ok <==> token == operatorToken
      ensures Model() == if ok then Step(old(Model()), Revoke(which)) else old(Model())
    {
      if token != operatorToken {
        return false;
      }
      grants.Revoke(which);
      return true;
    }
  }

  function UsesAsked(uses: Option<int>): (r: Uses)
    ensures r == Inf <==> uses.Some? && uses.value < 0
    ensures r.Fin? ==> r.n == if uses.Some? then uses.value else 1
  {
    match uses
    case None => Fin(1)
    case Some(n) => if n < 0 then Inf else Fin(n)
  }

  // ----- which calls are let through -----

  predicate HasUses(t: Table, key: string) {
    key in t && t[key] != Fin(0)
  }

  /** The class under which a write or exec call can be granted. */
  function ClassOf(c: Cap): string {
    if c.risk == Write then "write" else "exec"
  }

  /** Reads always, anything in permissive mode, and in guarded mode what a grant covers. */
  predicate LetThrough(s: State, c: Cap) {
    c.risk == Read || s.mode == Permissive
    || (s.mode == Guarded && (HasUses(s.table, c.name) || HasUses(s.table, ClassOf(c)) || HasUses(s.table, "all")))
  }

  /** What becomes of every call: ENOSYS exactly for unknown names, EPERM exactly for calls that are not
      let through, EINVAL exactly for malformed ones among the rest, and all others start. */
  lemma EveryCallIsDecided(s: State, name: string, args: Args)
    ensures var o := OutcomeOf(s, name, args);
            && (o == Rejected(Enosys) <==> name !in s.caps)
            && (name in s.caps ==>
                  var c := s.caps[name];
                  && (o == Rejected(Eperm) <==> !LetThrough(s, c.cap))
                  && (o == Rejected(Einval) <==> LetThrough(s, c.cap) && !Conforms(c.schema, args))
                  && (o.Started? <==> LetThrough(s, c.cap) && Conforms(c.schema, args))
                  && (o.Started? ==> o.pending.cap == c.cap))
  {
    if name in s.caps {
      GreedyKey(s.table, s.caps[name].cap);
    }
  }

  /** What a start costs: nothing for a read or in permissive mode, and otherwise one use of the most
      specific grant that has any. */
  lemma EveryStartIsPaid(s: State, name: string, args: Args)
    requires OutcomeOf(s, name, args).Started?
    ensures name in s.caps
    ensures var c, p := s.caps[name].cap, OutcomeOf(s, name, args).pending;
            var t, t' := s.table, Step(s, Begin(name, args)).table;
            if c.risk == Read || s.mode == Permissive then p.grantKey == None && t' == t
            else
              var key := if HasUses(t, c.name) then c.name else if HasUses(t, ClassOf(c)) then ClassOf(c) else "all";
              && p.grantKey == Some(key) && HasUses(t, key)
              && t' == if t[key] == Inf then t
                       else if t[key] == Fin(1) then t - {key} else t[key := Fin(t[key].n - 1)]
  {
    GreedyKey(s.table, s.caps[name].cap);
  }

  // ----- unlimited grants -----

  predicate Unlimited(t: Table, key: string) {
    key in t && t[key] == Inf
  }

  lemma UnlimitedIsIssued(s: State, key: string)
    ensures Unlimited(Step(s, Issue(key, Inf)).table, key)
  {}

  predicate RevokesKey(e: Event, key: string) {
    e.Revoke? && (e.which == None || e.which == Some("") || e.which == Some(key))
  }

  /** A well-formed call that a grant under the key covers. */
  predicate CoveredCall(caps: Registry, e: Event, key: string) {
    e.Begin? && e.name in caps && Conforms(caps[e.name].schema, e.args)
    && key in {caps[e.name].cap.name, ClassOf(caps[e.name].cap), "all"}
  }

  /** Every such call of the run is started. */
  predicate AllStarted(s: State, es: seq<Event>, key: string)
    decreases |es|
  {
    es == []
    || ((CoveredCall(s.caps, es[0], key) ==> OutcomeOf(s, es[0].name, es[0].args).Started?)
        && AllStarted(Step(s, es[0]), es[1..], key))
  }

  lemma UnlimitedStep(s: State, e: Event, key: string)
    requires Unlimited(s.table, key) && !RevokesKey(e, key)
    ensures Unlimited(Step(s, e).table, key)
    ensures s.mode != Paranoid && CoveredCall(s.caps, e, key) ==> OutcomeOf(s, e.name, e.args).Started?
  {
    match e
    case Begin(name, args) =>
      EveryCallIsDecided(s, name, args);
      if OutcomeOf(s, name, args).Started? {
        EveryStartIsPaid(s, name, args);
      }
    case Complete(_, _) =>
    case Issue(target, uses) => GrantAdds(s.table, target, uses);
    case Revoke(which) => RevokeTakes(s.table, which);
  }

  /** An unlimited grant stays unlimited whatever is called, completed or issued, until a revocation
      takes it; and until then every well-formed call it covers is started. */
  lemma {:induction false} UnlimitedUntilRevoked(s: State, es: seq<Event>, key: string)
    requires Unlimited(s.table, key) && forall e :: e in es ==> !RevokesKey(e, key)
    ensures Unlimited(Run(s, es).table, key)
    ensures s.mode != Paranoid ==> AllStarted(s, es, key)
    decreases |es|
  {
    if es != [] {
      assert es[0] in es;
      UnlimitedStep(s, es[0], key);
      UnlimitedUntilRevoked(Step(s, es[0]), es[1..], key);
    }
  }

  // ----- nothing is lost -----

  /** A rejected call, for whatever reason, leaves one audit entry and nothing else; an accepted one
      leaves no entry yet, and spends one use of the grant that covers it, if it needs one. */
  lemma RejectedSpendsNothing(s: State, name: string, args: Args)
    ensures var s', o := Step(s, Begin(name, args)), OutcomeOf(s, name, args);
            && (o.Rejected? ==> s' == s.(audit := s.audit + [AuditEntry(s.next, name, o.why)], next := s.next + 1))
            && (o.Started? ==> s'.audit == s.audit && name in s.caps && Conforms(s.caps[name].schema, args))
            && (o.Started? && o.pending.grantKey.Some? ==> Positive(Left(s.table, o.pending.grantKey.value)))
            && (o.Started? && s.mode == Guarded && s.caps[name].cap.risk != Read ==>
                  o.pending.grantKey.Some? && o.pending.grantKey.value in CoveringKeys(s.caps[name].cap))
            && (o.Started? && o.pending.grantKey.None? ==> s'.table == s.table)
  {
    if name in s.caps {
      GreedyKey(s.table, s.caps[name].cap);
    }
  }

  /** The names dispatched in a run, in order. */
  function Dispatched(es: seq<Event>): seq<string> {
    if es == [] then [] else NameOf(es[0]) + Dispatched(es[1..])
  }

  function Numbers(audit: seq<AuditEntry>): (r: seq<nat>)
    ensures |r| == |audit|
  {
    seq(|audit|, k requires 0 <= k < |audit| => audit[k].number)
  }

  predicate EntriesNamed(audit: seq<AuditEntry>, names: seq<string>) {
    forall k :: 0 <= k < |audit| ==> audit[k].number < |names| && audit[k].name == names[audit[k].number]
  }

  predicate HandlersNamed(inFlight: map<nat, Pending>, names: seq<string>) {
    forall n :: n in inFlight ==> n < |names| && inFlight[n].cap.name == names[n]
  }

  /** Each of the dispatches so far, of these names, is either in flight or has its one audit entry. */
  predicate Accounted(s: State, names: seq<string>) {
    && s.next == |names| && |s.audit| + |s.inFlight| == |names|
    && EntriesNamed(s.audit, names) && Distinct(Numbers(s.audit)) && HandlersNamed(s.inFlight, names)
    && forall n :: 0 <= n < |names| ==> (n in s.inFlight <==> n !in Numbers(s.audit))
  }

  lemma EntryAdded(audit: seq<AuditEntry>, a: AuditEntry, names: seq<string>)
    requires EntriesNamed(audit, names) && Distinct(Numbers(audit))
    requires a.number < |names| && a.name == names[a.number] && a.number !in Numbers(audit)
    ensures EntriesNamed(audit + [a], names)
    ensures Numbers(audit + [a]) == Numbers(audit) + [a.number] && Distinct(Numbers(audit + [a]))
  {
    assert Numbers(audit + [a]) == Numbers(audit) + [a.number];
    DistinctSnoc(Numbers(audit), a.number);
  }

  lemma NumbersAreSmall(s: State, names: seq<string>)
    requires EntriesNamed(s.audit, names)
    ensures |names| !in Numbers(s.audit)
  {}

  lemma NamesGrow(s: State, names: seq<string>, name: string)
    requires EntriesNamed(s.audit, names) && HandlersNamed(s.inFlight, names)
    ensures EntriesNamed(s.audit, names + [name]) && HandlersNamed(s.inFlight, names + [name])
  {
    assert forall n :: 0 <= n < |names| ==> (names + [name])[n] == names[n];
  }

  lemma RejectAccounts(s: State, names: seq<string>, name: string, why: Reason)
    requires Accounted(s, names)
    ensures Accounted(s.(audit := s.audit + [AuditEntry(s.next, name, why)], next := s.next + 1), names + [name])
  {
    NumbersAreSmall(s, names);
    NamesGrow(s, names, name);
    EntryAdded(s.audit, AuditEntry(s.next, name, why), names + [name]);
  }

  lemma HandlerAdded(inFlight: map<nat, Pending>, number: nat, p: Pending, names: seq<string>)
    requires number !in inFlight && HandlersNamed(inFlight, names)
    requires number < |names| && names[number] == p.cap.name
    ensures HandlersNamed(inFlight[number := p], names) && |inFlight[number := p]| == |inFlight| + 1
  {
    var now := inFlight[number := p];
    assert now.Keys == inFlight.Keys + {number};
    assert |now| == |now.Keys| && |inFlight| == |inFlight.Keys|;
  }

  lemma StartAccounts(s: State, names: seq<string>, p: Pending, table: Table)
    requires Accounted(s, names)
    ensures Accounted(s.(table := table, inFlight := s.inFlight[s.next := p], next := s.next + 1),
                      names + [p.cap.name])
  {
    NumbersAreSmall(s, names);
    NamesGrow(s, names, p.cap.name);
    HandlerAdded(s.inFlight, s.next, p, names + [p.cap.name]);
  }

  lemma CompleteAccounts(s: State, names: seq<string>, id: nat, ok: bool)
    requires Accounted(s, names) && id in s.inFlight
    ensures Accounted(Step(s, Complete(id, ok)), names)
  {
    var p, rest := s.inFlight[id], s.inFlight - {id};
    EntryAdded(s.audit, AuditEntry(id, p.cap.name, Allowed(p.grantKey, ok)), names);
    assert |rest| == |s.inFlight| - 1 by {
      assert rest.Keys == s.inFlight.Keys - {id};
      assert |rest| == |rest.Keys|;
    }
  }

  function NameOf(e: Event): seq<string> {
    if e.Begin? then [e.name] else []
  }

  lemma StepAccounts(s: State, names: seq<string>, e: Event)
    requires Accounted(s, names) && Registered(s.caps)
    ensures Accounted(Step(s, e), names + NameOf(e))
  {
    assert names + [] == names;
    if e.Begin? {
      match OutcomeOf(s, e.name, e.args)
      case Rejected(why) => RejectAccounts(s, names, e.name, why);
      case Started(p) => StartAccounts(s, names, p, SpendOption(s.table, p.grantKey));
    } else if e.Complete? && e.id in s.inFlight {
      CompleteAccounts(s, names, e.id, e.ok);
    }
  }

  /** Under any interleaving, every dispatch is either in flight or has exactly one audit entry, under
      its name: never both, never neither, never twice. */
  lemma {:induction false} EveryDispatchIsAccountedFor(s: State, names: seq<string>, es: seq<Event>)
    requires Accounted(s, names) && Registered(s.caps)
    ensures Accounted(Run(s, es), names + Dispatched(es))
    decreases |es|
  {
    if es == [] {
      assert names + [] == names;
    } else {
      StepAccounts(s, names, es[0]);
      EveryDispatchIsAccountedFor(Step(s, es[0]), names + NameOf(es[0]), es[1..]);
      Associative(names, NameOf(es[0]), Dispatched(es[1..]));
    }
  }

  /** What the entry says happened: a handler ended like this, or such a call was made. */
  ghost predicate Truthful(es: seq<Event>, a: AuditEntry) {
    match a.reason
    case Allowed(_, ok) => Complete(a.number, ok) in es
    case _ => exists args :: Begin(a.name, args) in es
  }

  lemma TruthfulLonger(e: Event, es: seq<Event>, a: AuditEntry)
    requires Truthful(es, a)
    ensures Truthful([e] + es, a)
  {
    if !a.reason.Allowed? {
      var args :| Begin(a.name, args) in es;
      assert Begin(a.name, args) in [e] + es;
    }
  }

  /** What one event adds to the log: for the end of a handler its name, the grant it was started on and
      whether it succeeded, for a rejected call the reason, and nothing otherwise. */
  lemma OneEntryAtMost(s: State, e: Event)
    ensures Step(s, e).audit ==
      match e
      case Complete(id, ok) =>
        if id in s.inFlight
        then s.audit + [AuditEntry(id, s.inFlight[id].cap.name, Allowed(s.inFlight[id].grantKey, ok))] else s.audit
      case Begin(name, args) =>
        if name !in s.caps then s.audit + [AuditEntry(s.next, name, Enosys)]
        else if !LetThrough(s, s.caps[name].cap) then s.audit + [AuditEntry(s.next, name, Eperm)]
        else if !Conforms(s.caps[name].schema, args) then s.audit + [AuditEntry(s.next, name, Einval)]
        else s.audit
      case _ => s.audit
  {
    if e.Begin? {
      EveryCallIsDecided(s, e.name, e.args);
    }
  }

  /** Entries are only ever added, and each of them tells of something that happened in the run. */
  lemma {:induction false} AuditIsTruthful(s: State, es: seq<Event>)
    ensures s.audit <= Run(s, es).audit
    ensures forall k :: |s.audit| <= k < |Run(s, es).audit| ==> Truthful(es, Run(s, es).audit[k])
    decreases |es|
  {
    if es != [] {
      var e, rest, s1, log := es[0], es[1..], Step(s, es[0]), Run(s, es).audit;
      assert es == [e] + rest;
      OneEntryAtMost(s, e);
      AuditIsTruthful(s1, rest);
      forall k | |s.audit| <= k < |log| ensures Truthful(es, log[k]) {
        if k < |s1.audit| {
          assert log[k] == s1.audit[k] && e in es;
        } else {
          TruthfulLonger(e, rest, log[k]);
        }
      }
    }
  }

  // ----- conservation -----

  /** The key an event spends a use of. */
  function SpentKey(s: State, e: Event): Option<string> {
    if e.Begin? && OutcomeOf(s, e.name, e.args).Started? then OutcomeOf(s, e.name, e.args).pending.grantKey
    else None
  }

  function IssuedTo(es: seq<Event>, key: string): nat {
    if es == [] then 0
    else
      (if es[0].Issue? && es[0].target == key && es[0].uses.Fin? then es[0].uses.n else 0)
      + IssuedTo(es[1..], key)
  }

  function SpentOn(s: State, es: seq<Event>, key: string): nat
    decreases |es|
  {
    if es == [] then 0
    else (if SpentKey(s, es[0]) == Some(key) then 1 else 0) + SpentOn(Step(s, es[0]), es[1..], key)
  }

  function RevokedFrom(s: State, es: seq<Event>, key: string): nat
    decreases |es|
  {
    if es == [] then 0
    else
      (if es[0].Revoke? && Covers(es[0].which, key) && Left(s.table, key).Fin? then Left(s.table, key).n else 0)
      + RevokedFrom(Step(s, es[0]), es[1..], key)
  }

  /** No unlimited grant is ever issued under the key. */
  predicate FinitelyIssued(es: seq<Event>, key: string) {
    forall e :: e in es && e.Issue? && e.target == key ==> e.uses.Fin?
  }

  /** One event moves uses of a key from one account to another. */
  lemma ConservedByStep(s: State, e: Event, key: string)
    requires Left(s.table, key).Fin? && FinitelyIssued([e], key)
    ensures var left, left' := Left(s.table, key), Left(Step(s, e).table, key);
            && left'.Fin?
            && left.n + IssuedTo([e], key) == SpentOn(s, [e], key) + left'.n + RevokedFrom(s, [e], key)
  {
    assert e in [e] && [e][1..] == [];
    if e.Begin? {
      RejectedSpendsNothing(s, e.name, e.args);
      var spent := SpentKey(s, e);
      if spent.Some? {
        SpendTakesOne(s.table, spent.value, key);
      }
    }
  }

  lemma HeadOfRun(s: State, e: Event, rest: seq<Event>, key: string)
    ensures IssuedTo([e] + rest, key) == IssuedTo([e], key) + IssuedTo(rest, key)
    ensures SpentOn(s, [e] + rest, key) == SpentOn(s, [e], key) + SpentOn(Step(s, e), rest, key)
    ensures RevokedFrom(s, [e] + rest, key) == RevokedFrom(s, [e], key) + RevokedFrom(Step(s, e), rest, key)
    ensures Run(s, [e] + rest) == Run(Step(s, e), rest)
  {
    assert ([e] + rest)[1..] == rest && [e][1..] == [];
  }

  /** Under any interleaving, what was there and what was issued under a key is what was spent,
      what is left and what was revoked. */
  lemma {:induction false} Conservation(s: State, es: seq<Event>, key: string)
    requires Left(s.table, key).Fin? && FinitelyIssued(es, key)
    ensures var s' := Run(s, es);
            && Left(s'.table, key).Fin?
            && Left(s.table, key).n + IssuedTo(es, key)
            == SpentOn(s, es, key) + Left(s'.table, key).n + RevokedFrom(s, es, key)
    decreases |es|
  {
    if es != [] {
      var e, rest := es[0], es[1..];
      assert e in es && es == [e] + rest;
      ConservedByStep(s, e, key);
      HeadOfRun(s, e, rest, key);
      Conservation(Step(s, e), rest, key);
    }
  }

  /** A write or exec handler of one of these capabilities is started. */
  predicate StartsRisky(s: State, e: Event, names: set<string>) {
    e.Begin? && e.name in names && e.name in s.caps && s.caps[e.name].cap.risk != Read
    && OutcomeOf(s, e.name, e.args).Started?
  }

  function RiskyStarts(s: State, es: seq<Event>, names: set<string>): nat
    decreases |es|
  {
    if es == [] then 0
    else (if StartsRisky(s, es[0], names) then 1 else 0) + RiskyStarts(Step(s, es[0]), es[1..], names)
  }

  /** Every key that covers a call to a write or exec capability with one of these names. */
  predicate CoversNames(caps: Registry, names: set<string>, keys: seq<string>) {
    forall name :: name in names && name in caps && caps[name].cap.risk != Read ==>
      name in keys && RiskKey(caps[name].cap.risk) in keys && "all" in keys
  }

  function SumSpent(s: State, es: seq<Event>, keys: seq<string>): nat {
    if keys == [] then 0 else SpentOn(s, es, keys[0]) + SumSpent(s, es, keys[1..])
  }

  /** How often a spent key is among the keys. */
  function Occurrences(spent: Option<string>, keys: seq<string>): nat {
    if keys == [] then 0 else (if spent == Some(keys[0]) then 1 else 0) + Occurrences(spent, keys[1..])
  }

  lemma {:induction false} SumSpentStep(s: State, es: seq<Event>, keys: seq<string>)
    requires es != []
    ensures SumSpent(s, es, keys)
         == Occurrences(SpentKey(s, es[0]), keys) + SumSpent(Step(s, es[0]), es[1..], keys)
  {
    if keys != [] {
      SumSpentStep(s, es, keys[1..]);
    }
  }

  lemma {:induction false} NothingSpent(s: State, keys: seq<string>)
    ensures SumSpent(s, [], keys) == 0
  {
    if keys != [] {
      NothingSpent(s, keys[1..]);
    }
  }

  lemma {:induction false} OccurrencesOf(spent: Option<string>, keys: seq<string>)
    requires Distinct(keys)
    ensures Occurrences(spent, keys) == if spent.Some? && spent.value in keys then 1 else 0
  {
    if keys != [] {
      DistinctTail(keys);
      OccurrencesOf(spent, keys[1..]);
      assert forall k :: k in keys <==> k == keys[0] || k in keys[1..];
    }
  }

  /** In guarded mode a key is spent exactly by a start of a write or exec handler. */
  lemma StartSpends(s: State, e: Event, names: set<string>, keys: seq<string>)
    requires s.mode == Guarded && Registered(s.caps) && CoversNames(s.caps, names, keys)
    ensures StartsRisky(s, e, names) ==> SpentKey(s, e).Some? && SpentKey(s, e).value in keys
    ensures s.caps.Keys <= names && SpentKey(s, e).Some? ==> StartsRisky(s, e, names)
  {
    if e.Begin? {
      RejectedSpendsNothing(s, e.name, e.args);
    }
  }

  /** Every start of a write or exec handler spent a use of one of the keys that cover it; and when all
      the capabilities are counted, nothing else spends them. */
  lemma {:induction false} StartsAreSpent(s: State, es: seq<Event>, names: set<string>, keys: seq<string>)
    requires s.mode == Guarded && Registered(s.caps)
    requires CoversNames(s.caps, names, keys) && Distinct(keys)
    ensures RiskyStarts(s, es, names) <= SumSpent(s, es, keys)
    ensures s.caps.Keys <= names ==> RiskyStarts(s, es, names) == SumSpent(s, es, keys)
    decreases |es|
  {
    if es == [] {
      NothingSpent(s, keys);
    } else {
      StartsAreSpent(Step(s, es[0]), es[1..], names, keys);
      SumSpentStep(s, es, keys);
      OccurrencesOf(SpentKey(s, es[0]), keys);
      StartSpends(s, es[0], names, keys);
    }
  }

  predicate AllFinite(t: Table, es: seq<Event>, keys: seq<string>) {
    forall key :: key in keys ==> Left(t, key).Fin? && FinitelyIssued(es, key)
  }

  /** What was there and what was issued under the keys, all together. */
  function SumGranted(t: Table, es: seq<Event>, keys: seq<string>): nat
    requires AllFinite(t, es, keys)
  {
    if keys == [] then 0
    else
      assert keys[0] in keys;
      Left(t, keys[0]).n + IssuedTo(es, keys[0]) + SumGranted(t, es, keys[1..])
  }

  function SumLeft(t: Table, keys: seq<string>): nat
    requires forall key :: key in keys ==> Left(t, key).Fin?
  {
    if keys == [] then 0 else Left(t, keys[0]).n + SumLeft(t, keys[1..])
  }

  function SumRevoked(s: State, es: seq<Event>, keys: seq<string>): nat {
    if keys == [] then 0 else RevokedFrom(s, es, keys[0]) + SumRevoked(s, es, keys[1..])
  }

  /** Conservation over all the keys at once. */
  lemma {:induction false} TotalConservation(s: State, es: seq<Event>, keys: seq<string>)
    requires AllFinite(s.table, es, keys)
    ensures forall key :: key in keys ==> Left(Run(s, es).table, key).Fin?
    ensures SumGranted(s.table, es, keys)
         == SumSpent(s, es, keys) + SumLeft(Run(s, es).table, keys) + SumRevoked(s, es, keys)
  {
    if keys != [] {
      assert keys[0] in keys;
      Conservation(s, es, keys[0]);
      TotalConservation(s, es, keys[1..]);
    }
  }

  /** In guarded mode the write and exec handlers of any set of capabilities, taken together, never
      start more often than uses were granted under the keys that cover them, however calls, grants
      and revocations interleave and however the capabilities share their grants.  When all
      capabilities are counted, the uses granted are the starts, what is left and what was revoked. */
  lemma StartsAreGranted(s: State, es: seq<Event>, names: set<string>, keys: seq<string>)
    requires s.mode == Guarded && Registered(s.caps)
    requires CoversNames(s.caps, names, keys) && Distinct(keys) && AllFinite(s.table, es, keys)
    ensures RiskyStarts(s, es, names) <= SumGranted(s.table, es, keys)
    ensures forall key :: key in keys ==> Left(Run(s, es).table, key).Fin?
    ensures s.caps.Keys <= names ==>
      SumGranted(s.table, es, keys)
      == RiskyStarts(s, es, names) + SumLeft(Run(s, es).table, keys) + SumRevoked(s, es, keys)
  {
    StartsAreSpent(s, es, names, keys);
    TotalConservation(s, es, keys);
  }

  /** In paranoid mode no write or exec handler starts at all. */
  lemma {:induction false} ParanoidStartsNothing(s: State, es: seq<Event>, names: set<string>)
    requires s.mode == Paranoid
    ensures RiskyStarts(s, es, names) == 0
    decreases |es|
  {
    if es != [] {
      ParanoidStartsNothing(Step(s, es[0]), es[1..], names);
    }
  }

  // ----- the bus spends optimally -----

  /** The well-formed write and exec calls of a run, in order. */
  function RiskyCallsOf(caps: Registry, es: seq<Event>): seq<Cap>
    decreases |es|
  {
    if es == [] then []
    else
      (if IsRiskyCall(caps, es[0]) then [caps[es[0].name].cap] else []) + RiskyCallsOf(caps, es[1..])
  }

  predicate IsRiskyCall(caps: Registry, e: Event) {
    e.Begin? && e.name in caps && caps[e.name].cap.risk != Read && Conforms(caps[e.name].schema, e.args)
  }

  /** How many of them were refused. */
  function Refusals(s: State, es: seq<Event>): nat
    decreases |es|
  {
    if es == [] then 0
    else
      (if IsRiskyCall(s.caps, es[0]) && OutcomeOf(s, es[0].name, es[0].args) == Rejected(Eperm) then 1 else 0)
      + Refusals(Step(s, es[0]), es[1..])
  }

  /** A step that is not such a call, and changes no grants, leaves the table alone. */
  lemma OtherStepsSpendNothing(s: State, e: Event)
    requires s.mode == Guarded && (e.Begin? || e.Complete?) && !IsRiskyCall(s.caps, e)
    ensures Step(s, e).table == s.table
  {}

  lemma RiskyStep(s: State, e: Event)
    requires s.mode == Guarded && IsRiskyCall(s.caps, e)
    ensures var key := PermitKey(s.table, s.caps[e.name].cap);
            && Step(s, e).table == SpendOption(s.table, key)
            && (OutcomeOf(s, e.name, e.args) == Rejected(Eperm) <==> key.None?)
  {}

  lemma GreedyCons(t: Table, c: Cap, rest: seq<Cap>)
    ensures Denials(Greedy(t, [c] + rest))
         == (if PermitKey(t, c).None? then 1 else 0) + Denials(Greedy(SpendOption(t, PermitKey(t, c)), rest))
  {
    assert ([c] + rest)[1..] == rest;
    var a := Greedy(t, [c] + rest);
    assert a[1..] == Greedy(SpendOption(t, PermitKey(t, c)), rest);
  }

  lemma {:induction false} RefusalsAreDenials(s: State, es: seq<Event>)
    requires s.mode == Guarded
    requires forall e :: e in es ==> e.Begin? || e.Complete?
    ensures Refusals(s, es) == Denials(Greedy(s.table, RiskyCallsOf(s.caps, es)))
    decreases |es|
  {
    if es != [] {
      var e, rest := es[0], RiskyCallsOf(s.caps, es[1..]);
      assert e in es;
      RefusalsAreDenials(Step(s, e), es[1..]);
      if IsRiskyCall(s.caps, e) {
        RiskyStep(s, e);
        GreedyCons(s.table, s.caps[e.name].cap, rest);
      } else {
        OtherStepsSpendNothing(s, e);
        assert RiskyCallsOf(s.caps, es) == rest;
      }
    }
  }

  /** While no grant changes hands, the bus refuses exactly the shortfall, whatever reads, malformed
      calls and completions come in between; so if the grants can cover the calls at all, none is
      refused. */
  lemma RefusalsAreTheShortfall(reg: seq<Cap>, s: State, es: seq<Event>)
    requires s.mode == Guarded && ValidRegistry(reg)
    requires forall name :: name in s.caps ==> s.caps[name].cap in reg
    requires forall e :: e in es ==> e.Begin? || e.Complete?
    ensures Refusals(s, es) == Shortfall(reg, s.table, multiset(RiskyCallsOf(s.caps, es)))
  {
    RiskyCallsAreRegistered(reg, s.caps, es);
    RefusalsAreDenials(s, es);
    GreedyDenials(reg, s.table, RiskyCallsOf(s.caps, es));
  }

  lemma {:induction false} RiskyCallsAreRegistered(reg: seq<Cap>, caps: Registry, es: seq<Event>)
    requires forall name :: name in caps ==> caps[name].cap in reg
    ensures RiskyCalls(reg, RiskyCallsOf(caps, es))
    decreases |es|
  {
    if es != [] {
      RiskyCallsAreRegistered(reg, caps, es[1..]);
    }
  }
}
