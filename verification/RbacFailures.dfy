/** Which manifests make an application fail, and with which error. */
module RbacFailures {
  import opened Base
  import opened Rbac
  import opened RbacApply
  import opened RbacTheorems
  import opened RbacGrants
  import opened RbacStored

  /** No role manifest has this name. */
  ghost predicate NoRole(ms: seq<Manifest>, name: string) {
    forall r :: 0 <= r < |ms| && IsRole(ms[r].kind) ==> ms[r].name != name
  }

  /** Manifest m is a reason for this error: a duration or an expiry that does not parse, or a
      binding whose role is defined nowhere in the list. */
  ghost predicate AtFault(ms: seq<Manifest>, m: nat, e: Error) {
    && m < |ms|
    && match e
       case BadDuration(name) =>
         ms[m].name == name && (ms[m].kind.IntermediateKind? || ms[m].kind.TokenPolicyKind?) && ms[m].maxTtl.Malformed?
       case BadExpiry(name) =>
         ms[m].name == name && ms[m].kind.TokenPolicyKind? && !ms[m].maxTtl.Malformed? && ms[m].expiresAt.Malformed?
       case MissingRole(name) => ms[m].name == name && IsBinding(ms[m].kind) && NoRole(ms, ms[m].roleRef)
       case WriteFailed(_) => false
  }

  lemma {:induction false} IndexedIffRole(ms: seq<Manifest>, name: string)
    ensures name in RoleIndex(map[], ms) <==> !NoRole(ms, name)
  {
    var last := LastRole(ms, name);
    if last.Some? {
      RoleIndexHoldsLast(map[], ms, name, last.value);
    } else {
      RoleIndexKeeps(map[], ms, name);
    }
  }

  // ---- From an error to its reason ------------------------------------------------------

  lemma {:induction false} StopInDefinitions(ms: seq<Manifest>, k: nat, a: Action) returns (m: nat)
    requires k <= |ms| && a in DefinePlan(ms[k..]) && a.Stop?
    ensures k <= m < |ms| && ms[m].kind.IntermediateKind? && ms[m].maxTtl.Malformed?
    ensures a == Stop(BadDuration(ms[m].name))
    decreases |ms| - k
  {
    assert ms[k..][1..] == ms[k + 1..];
    if a in DefineActions(ms[k]) {
      m := k;
    } else {
      m := StopInDefinitions(ms, k + 1, a);
    }
  }

  /** A manifest whose use stops the run with this error. */
  ghost predicate UseStops(roles: map<string, Manifest>, m: Manifest, e: Error) {
    match e
    case BadDuration(name) => m.name == name && m.kind.TokenPolicyKind? && m.maxTtl.Malformed?
    case BadExpiry(name) =>
      m.name == name && m.kind.TokenPolicyKind? && !m.maxTtl.Malformed? && m.expiresAt.Malformed?
    case MissingRole(name) => m.name == name && IsBinding(m.kind) && m.roleRef !in roles
    case WriteFailed(_) => false
  }

  lemma {:induction false} StopInUse(roles: map<string, Manifest>, m: Manifest, a: Action)
    requires a in UseActions(roles, m) && a.Stop?
    ensures UseStops(roles, m, a.error)
  {
    if IsBinding(m.kind) {
      BindingActionsAre(roles, m);
      if m.roleRef in roles && a in RuleActions(roles[m.roleRef], m, roles[m.roleRef].rules) {
        RulesGrantRoles(roles[m.roleRef], m, roles[m.roleRef].rules, a);
      }
    }
  }

  lemma {:induction false} StopInUses(roles: map<string, Manifest>, ms: seq<Manifest>, k: nat, a: Action)
    returns (m: nat)
    requires k <= |ms| && a in UsePlan(roles, ms[k..]) && a.Stop?
    ensures k <= m < |ms| && UseStops(roles, ms[m], a.error)
    decreases |ms| - k
  {
    assert ms[k..][1..] == ms[k + 1..];
    if a in UseActions(roles, ms[k]) {
      m := k;
      StopInUse(roles, ms[k], a);
    } else {
      m := StopInUses(roles, ms, k + 1, a);
    }
  }

  lemma {:induction false} StopHasReason(ms: seq<Manifest>, a: Action) returns (m: nat)
    requires a in Plan(ms) && a.Stop?
    ensures AtFault(ms, m, a.error)
  {
    assert ms[0..] == ms;
    if a in DefinePlan(ms) {
      m := StopInDefinitions(ms, 0, a);
    } else {
      m := StopInUses(RoleIndex(map[], ms), ms, 0, a);
      IndexedIffRole(ms, ms[m].roleRef);
    }
  }

  /** A run that fails for anything but a refused write names a manifest that is at fault. */
  lemma {:induction false} FailureHasReason(clock: nat -> Readings, db: Db, ms: seq<Manifest>) returns (m: nat)
    requires var error := Execute(clock, Initial(db), Plan(ms)).error; error.Some? && !error.value.WriteFailed?
    ensures AtFault(ms, m, Execute(clock, Initial(db), Plan(ms)).error.value)
  {
    var n := FailureKeepsPrefix(clock, Initial(db), Plan(ms));
    m := StopHasReason(ms, Plan(ms)[n]);
  }

  // ---- From a reason to an error --------------------------------------------------------

  lemma {:induction false} FaultyDefinitionStops(ms: seq<Manifest>, m: nat)
    requires m < |ms| && ms[m].kind.IntermediateKind? && ms[m].maxTtl.Malformed?
    ensures Stop(BadDuration(ms[m].name)) in Plan(ms)
  {
    IntermediateIsDefined(ms[m]);
    InDefinitions(ms, 0, m, Stop(BadDuration(ms[m].name)));
    assert ms[0..] == ms;
  }

  lemma {:induction false} FaultyPolicyStops(roles: map<string, Manifest>, m: Manifest, e: Error)
    requires UseStops(roles, m, e) && m.kind.TokenPolicyKind?
    ensures Stop(e) in UseActions(roles, m)
  {
    PolicyActionsAre(roles, m);
  }

  lemma {:induction false} FaultyBindingStops(roles: map<string, Manifest>, m: Manifest, e: Error)
    requires UseStops(roles, m, e) && IsBinding(m.kind)
    ensures Stop(e) in UseActions(roles, m)
  {
    BindingActionsAre(roles, m);
  }

  lemma {:induction false} FaultIsPlanned(ms: seq<Manifest>, m: nat, e: Error)
    requires AtFault(ms, m, e)
    ensures Stop(e) in Plan(ms)
  {
    var roles := RoleIndex(map[], ms);
    IndexedIffRole(ms, ms[m].roleRef);
    if ms[m].kind.IntermediateKind? {
      FaultyDefinitionStops(ms, m);
    } else {
      if IsBinding(ms[m].kind) {
        FaultyBindingStops(roles, ms[m], e);
      } else {
        FaultyPolicyStops(roles, ms[m], e);
      }
      InUses(roles, ms, 0, m, Stop(e));
      assert ms[0..] == ms;
    }
  }

  /** A run goes through exactly when no manifest is at fault and no write is refused. */
  lemma {:induction false} SucceedsIff(clock: nat -> Readings, db: Db, ms: seq<Manifest>)
    ensures var error := Execute(clock, Initial(db), Plan(ms)).error;
            error.None? <==>
            (forall m: nat, e :: !AtFault(ms, m, e)) && !(error.Some? && error.value.WriteFailed?)
  {
    var error := Execute(clock, Initial(db), Plan(ms)).error;
    if error.None? {
      forall m: nat, e ensures !AtFault(ms, m, e) {
        if AtFault(ms, m, e) {
          FaultIsPlanned(ms, m, e);
          NoStopIsPlanned(clock, db, Plan(ms), Stop(e));
        }
      }
    } else if !error.value.WriteFailed? {
      var m := FailureHasReason(clock, db, ms);
    }
  }
}
