/** `apply` of internal/rbac/loader.go as it runs, two loops of writes over a store,
    proved to execute a plan that can be read off the manifests beforehand. */
module RbacApply {
  import opened Base
  import opened Clock
  import opened Rbac

  // ---- Plans ------------------------------------------------------------------------

  datatype Counter =
    | Users | Groups | ServiceAccounts | RootCAs | IntermediateCAs
    | AllRoles | CARoles | RoleBindings | CARoleBindings | TokenPolicies

  datatype Error =
    | BadDuration(name: string)
    | BadExpiry(name: string)
    | MissingRole(binding: string)
    | WriteFailed(key: Key)

  /** One thing `apply` does: upsert a row, count, or give up. `expiry` is the time of expiry
      that a policy's manifest fixes; the other times come from the clock. */
  datatype Action =
    | Put(id: string, body: Body, expiry: Option<int>)
    | Count(counter: Counter)
    | Stop(error: Error)

  /** The clock readings taken while one row is made. */
  datatype Readings = Readings(first: nat, second: nat)

  /** The row that is handed to the store. */
  function Stamp(id: string, body: Body, expiry: Option<int>, now: Readings): Row {
    match TableOf(body)
    case Roots => Row(id, body, now.first, now.first, now.first + 10 * 365 * 24 * HOUR)
    case Intermediates => Row(id, body, now.first, now.first, now.first + 365 * 24 * HOUR)
    case Roles => Row(id, body, now.first, 0, 0)
    case Policies => Row(id, body, now.second, 0, if expiry.Some? then expiry.value else now.first + 24 * HOUR)
  }

  /** int64(d.Seconds()) of a duration in nanoseconds. */
  function WholeSeconds(p: Parsed): int {
    match p
    case Value(n) => if n >= 0 then n / SECOND else -(-n / SECOND)
    case _ => 0
  }

  function RootBody(m: Manifest): Body {
    RootCA(FirstNonEmpty([m.displayName, m.name]), FirstNonEmpty([m.environment, "development"]),
           m.fingerprint, FirstNonEmpty([m.status, "active"]), m.trustDomain)
  }

  function IntermediateBody(m: Manifest): Body {
    IntermediateCA(m.rootRef, FirstNonEmpty([m.displayName, m.name]), FirstNonEmpty([m.environment, "development"]),
                   m.owner, m.namespace, m.fingerprint, FirstNonEmpty([m.status, "active"]), WholeSeconds(m.maxTtl),
                   Join(m.allowedDns, ","), Join(m.allowedUsages, ","), m.requireApproval, m.issuanceLimit,
                   if m.renewalAllowed.Some? then m.renewalAllowed.value else true)
  }

  function PolicyBody(m: Manifest): Body {
    CATokenPolicy(FirstNonEmpty([m.displayName, m.name]), m.intermediateRef, Join(m.certificateTypes, ","),
                  Join(m.allowedDns, ","), WholeSeconds(m.maxTtl), m.issuanceLimit,
                  if m.renewalAllowed.Some? then m.renewalAllowed.value else false, m.requireApproval)
  }

  function PutRole(role: Manifest, binding: Manifest, rule: Rule, subject: Subject, target: string): Action {
    Put(binding.name + "-" + ToLower(subject.kind) + "-" + subject.name + "-" + target,
        CARole(role.name, ToLower(subject.kind) + ":" + subject.name, target, Join(rule.verbs, ",")), None)
  }

  function RuleTarget(role: Manifest, binding: Manifest, rule: Rule): string {
    FirstNonEmpty([rule.intermediateRef, role.intermediateRef, binding.intermediateRef])
  }

  function PutRoot(m: Manifest): Action {
    Put(m.name, RootBody(m), None)
  }

  function PutIntermediate(m: Manifest): Action {
    Put(m.name, IntermediateBody(m), None)
  }

  function PutPolicy(m: Manifest): Action {
    Put(m.name, PolicyBody(m), if m.expiresAt.Value? then Some(m.expiresAt.n) else None)
  }

  function RootActions(m: Manifest): seq<Action> {
    [PutRoot(m), Count(RootCAs)]
  }

  function IntermediateActions(m: Manifest): seq<Action> {
    if m.maxTtl.Malformed? then [Stop(BadDuration(m.name))]
    else [PutIntermediate(m), Count(IntermediateCAs)]
  }

  /** What the first pass does with one manifest. */
  function DefineActions(m: Manifest): seq<Action> {
    match m.kind
    case User => [Count(Users)]
    case Group => [Count(Groups)]
    case ServiceAccount => [Count(ServiceAccounts)]
    case RootKind => RootActions(m)
    case IntermediateKind => IntermediateActions(m)
    case RoleKind => [Count(AllRoles)]
    case GlobalRoleKind => [Count(AllRoles)]
    case CARoleKind => [Count(AllRoles), Count(CARoles)]
    case _ => []
  }

  function DefinePlan(ms: seq<Manifest>): seq<Action> {
    if ms == [] then [] else DefineActions(ms[0]) + DefinePlan(ms[1..])
  }

  /** The roles by name; of two with one name the later one counts. */
  function RoleIndex(known: map<string, Manifest>, ms: seq<Manifest>): map<string, Manifest>
    decreases ms
  {
    if ms == [] then known
    else RoleIndex(if IsRole(ms[0].kind) then known[ms[0].name := ms[0]] else known, ms[1..])
  }

  function SubjectActions(
    role: Manifest, binding: Manifest, rule: Rule, target: string, subjects: seq<Subject>): seq<Action> {
    if subjects == [] then []
    else
      [PutRole(role, binding, rule, subjects[0], target)] +
      SubjectActions(role, binding, rule, target, subjects[1..])
  }

  function RuleActions(role: Manifest, binding: Manifest, rules: seq<Rule>): seq<Action> {
    if rules == [] then []
    else
      var target := RuleTarget(role, binding, rules[0]);
      (if target == "" then [] else SubjectActions(role, binding, rules[0], target, binding.subjects)) +
      RuleActions(role, binding, rules[1..])
  }

  lemma {:induction false} RuleStep(role: Manifest, binding: Manifest, rules: seq<Rule>, i: nat)
    requires i < |rules|
    ensures var target := RuleTarget(role, binding, rules[i]);
            RuleActions(role, binding, rules[i..]) ==
            if target == "" then RuleActions(role, binding, rules[i + 1..])
            else
              SubjectActions(role, binding, rules[i], target, binding.subjects) +
              RuleActions(role, binding, rules[i + 1..])
  {
    assert rules[i..][1..] == rules[i + 1..];
  }

  /** What the second pass does with one manifest. */
  function UseActions(roles: map<string, Manifest>, m: Manifest): seq<Action> {
    if IsBinding(m.kind) then
      if m.roleRef !in roles then [Stop(MissingRole(m.name))]
      else
        RuleActions(roles[m.roleRef], m, roles[m.roleRef].rules) + [Count(RoleBindings)] +
        (if m.kind.CARoleBindingKind? then [Count(CARoleBindings)] else [])
    else if m.kind.TokenPolicyKind? then
      if m.maxTtl.Malformed? then [Stop(BadDuration(m.name))]
      else if m.expiresAt.Malformed? then [Stop(BadExpiry(m.name))]
      else [PutPolicy(m), Count(TokenPolicies)]
    else []
  }

  function UsePlan(roles: map<string, Manifest>, ms: seq<Manifest>): seq<Action> {
    if ms == [] then [] else UseActions(roles, ms[0]) + UsePlan(roles, ms[1..])
  }

  function Plan(ms: seq<Manifest>): seq<Action> {
    DefinePlan(ms) + UsePlan(RoleIndex(map[], ms), ms)
  }

  // ---- Execution ----------------------------------------------------------------------

  /** The tables, the counters, how many rows were attempted, and the error that ended it. */
  datatype State = State(db: Db, counts: multiset<Counter>, attempts: nat, error: Option<Error>)

  function Initial(db: Db): State {
    State(db, multiset{}, 0, None)
  }

  function Perform(clock: nat -> Readings, s: State, a: Action): State {
    match a
    case Count(c) => s.(counts := s.counts + multiset{c})
    case Stop(e) => s.(error := Some(e))
    case Put(id, body, expiry) =>
      var row := Stamp(id, body, expiry, clock(s.attempts));
      if Accepts(s.db, row) then s.(db := Upserted(s.db, row), attempts := s.attempts + 1)
      else s.(attempts := s.attempts + 1, error := Some(WriteFailed(KeyOf(row))))
  }

  /** Action after action, until the first error. */
  function Execute(clock: nat -> Readings, s: State, plan: seq<Action>): State
    decreases plan
  {
    if plan == [] || s.error.Some? then s
    else Execute(clock, Perform(clock, s, plan[0]), plan[1..])
  }

  lemma {:induction false} ExecuteAppend(clock: nat -> Readings, s: State, xs: seq<Action>, ys: seq<Action>)
    ensures Execute(clock, s, xs + ys) == Execute(clock, Execute(clock, s, xs), ys)
    decreases xs
  {
    if xs == [] || s.error.Some? {
      assert [] + ys == ys;
    } else {
      ExecuteAppend(clock, Perform(clock, s, xs[0]), xs[1..], ys);
      assert (xs + ys)[1..] == xs[1..] + ys;
    }
  }

  lemma {:induction false} ExecuteTwo(clock: nat -> Readings, s: State, a: Action, b: Action)
    requires s.error.None?
    ensures Execute(clock, s, [a]) == Perform(clock, s, a)
    ensures Execute(clock, s, [a, b]) == Execute(clock, Perform(clock, s, a), [b])
  {
    assert [a][1..] == [] && [a, b][1..] == [b];
  }

  // ---- The loader ---------------------------------------------------------------------

  class Loader {
    const store: CAStore
    const clock: nat -> Readings
    var counts: multiset<Counter>
    var attempts: nat
    var error: Option<Error>

    constructor (store: CAStore, clock: nat -> Readings)
      ensures this.store == store && this.clock == clock
      ensures counts == multiset{} && attempts == 0 && error == None
    {
      this.store := store;
      this.clock := clock;
      counts, attempts, error := multiset{}, 0, None;
    }

    ghost function Progress(): State
      reads this, store
    {
      State(store.rows, counts, attempts, error)
    }

    method Bump(c: Counter)
      requires error.None?
      modifies this
      ensures Progress() == Execute(clock, old(Progress()), [Count(c)])
      ensures error.None?
    {
      ExecuteTwo(clock, Progress(), Count(c), Count(c));
      counts := counts + multiset{c};
    }

    method Fail(e: Error)
      requires error.None?
      modifies this
      ensures Progress() == Execute(clock, old(Progress()), [Stop(e)])
    {
      ExecuteTwo(clock, Progress(), Stop(e), Stop(e));
      error := Some(e);
    }

    /** Stamps a row with the current readings and upserts it. */
    method Write(id: string, body: Body, expiry: Option<int>)
      requires error.None?
      modifies this, store
      ensures Progress() == Execute(clock, old(Progress()), [Put(id, body, expiry)])
    {
      ExecuteTwo(clock, Progress(), Put(id, body, expiry), Put(id, body, expiry));
      var row := Stamp(id, body, expiry, clock(attempts));
      var ok := store.Upsert(row);
      attempts := attempts + 1;
      if !ok {
        error := Some(WriteFailed(KeyOf(row)));
      }
    }

    /** A row and, if it was accepted, its counter. */
    method WriteCounted(id: string, body: Body, expiry: Option<int>, c: Counter)
      requires error.None?
      modifies this, store
      ensures Progress() == Execute(clock, old(Progress()), [Put(id, body, expiry), Count(c)])
    {
      ExecuteTwo(clock, Progress(), Put(id, body, expiry), Count(c));
      Write(id, body, expiry);
      if error.None? {
        Bump(c);
      }
    }

    method BumpBoth(c: Counter, d: Counter)
      requires error.None?
      modifies this
      ensures Progress() == Execute(clock, old(Progress()), [Count(c), Count(d)])
    {
      ExecuteTwo(clock, Progress(), Count(c), Count(d));
      Bump(c);
      Bump(d);
    }

    /** applyIntermediateCA, counted. */
    method DefineIntermediate(m: Manifest)
      requires error.None?
      modifies this, store
      ensures Progress() == Execute(clock, old(Progress()), IntermediateActions(m))
    {
      if m.maxTtl.Malformed? {
        Fail(BadDuration(m.name));
      } else {
        WriteCounted(m.name, IntermediateBody(m), None, IntermediateCAs);
      }
    }

    /** One iteration of the first pass. */
    method Define(m: Manifest, roles: map<string, Manifest>) returns (roles': map<string, Manifest>)
      requires error.None?
      modifies this, store
      ensures Progress() == Execute(clock, old(Progress()), DefineActions(m))
      ensures roles' == if IsRole(m.kind) then roles[m.name := m] else roles
    {
      roles' := roles;
      match m.kind {
        case User => Bump(Users);
        case Group => Bump(Groups);
        case ServiceAccount => Bump(ServiceAccounts);
        case RootKind => WriteCounted(m.name, RootBody(m), None, RootCAs);
        case IntermediateKind => DefineIntermediate(m);
        case RoleKind =>
          roles' := roles'[m.name := m];
          Bump(AllRoles);
        case GlobalRoleKind =>
          roles' := roles'[m.name := m];
          Bump(AllRoles);
        case CARoleKind =>
          roles' := roles'[m.name := m];
          BumpBoth(AllRoles, CARoles);
        case _ =>
      }
    }

    /** The inner loop of applyRoleBinding: one rule for every subject. */
    method GrantRule(role: Manifest, binding: Manifest, rule: Rule, target: string)
      requires error.None?
      modifies this, store
      ensures Progress() == Execute(clock, old(Progress()),
                                    SubjectActions(role, binding, rule, target, binding.subjects))
    {
      ghost var s0 := Progress();
      var j := 0;
      while j < |binding.subjects| && error.None?
        invariant 0 <= j <= |binding.subjects|
        invariant Execute(clock, s0, SubjectActions(role, binding, rule, target, binding.subjects)) ==
                  Execute(clock, Progress(), SubjectActions(role, binding, rule, target, binding.subjects[j..]))
      {
        var subject := binding.subjects[j];
        var put := PutRole(role, binding, rule, subject, target);
        assert binding.subjects[j..][1..] == binding.subjects[j + 1..];
        ExecuteAppend(clock, Progress(), [put], SubjectActions(role, binding, rule, target, binding.subjects[j + 1..]));
        Write(put.id, put.body, None);
        j := j + 1;
      }
    }

    /** applyRoleBinding: every rule of the role, for every subject of the binding. */
    method ApplyRoleBinding(role: Manifest, binding: Manifest)
      requires error.None?
      modifies this, store
      ensures Progress() == Execute(clock, old(Progress()), RuleActions(role, binding, role.rules))
    {
      ghost var s0 := Progress();
      var i := 0;
      while i < |role.rules| && error.None?
        invariant 0 <= i <= |role.rules|
        invariant Execute(clock, s0, RuleActions(role, binding, role.rules)) ==
                  Execute(clock, Progress(), RuleActions(role, binding, role.rules[i..]))
      {
        var rule := role.rules[i];
        var target := RuleTarget(role, binding, rule);
        ghost var rest := RuleActions(role, binding, role.rules[i + 1..]);
        RuleStep(role, binding, role.rules, i);
        if target != "" {
          ExecuteAppend(clock, Progress(), SubjectActions(role, binding, rule, target, binding.subjects), rest);
          GrantRule(role, binding, rule, target);
        }
        i := i + 1;
      }
    }

    /** One iteration of the second pass. */
    method Use(m: Manifest, roles: map<string, Manifest>)
      requires error.None?
      modifies this, store
      ensures Progress() == Execute(clock, old(Progress()), UseActions(roles, m))
    {
      if IsBinding(m.kind) {
        if m.roleRef !in roles {
          Fail(MissingRole(m.name));
          return;
        }
        var role := roles[m.roleRef];
        ghost var writes := RuleActions(role, m, role.rules);
        ghost var tail := if m.kind.CARoleBindingKind? then [Count(CARoleBindings)] else [];
        ExecuteAppend(clock, Progress(), writes + [Count(RoleBindings)], tail);
        ExecuteAppend(clock, Progress(), writes, [Count(RoleBindings)]);
        ApplyRoleBinding(role, m);
        if error.Some? {
          return;
        }
        Bump(RoleBindings);
        if m.kind.CARoleBindingKind? {
          Bump(CARoleBindings);
        }
      } else if m.kind.TokenPolicyKind? {
        if m.maxTtl.Malformed? {
          Fail(BadDuration(m.name));
        } else if m.expiresAt.Malformed? {
          Fail(BadExpiry(m.name));
        } else {
          WriteCounted(m.name, PolicyBody(m), if m.expiresAt.Value? then Some(m.expiresAt.n) else None, TokenPolicies);
        }
      }
    }

    /** Both passes: exactly the execution of the plan. */
    method Apply(ms: seq<Manifest>)
      requires error.None?
      modifies this, store
      ensures Progress() == Execute(clock, old(Progress()), Plan(ms))
    {
      ghost var s0 := Progress();
      var roles: map<string, Manifest> := map[];
      var i := 0;
      while i < |ms| && error.None?
        invariant 0 <= i <= |ms|
        invariant RoleIndex(map[], ms) == RoleIndex(roles, ms[i..])
        invariant Execute(clock, s0, DefinePlan(ms)) == Execute(clock, Progress(), DefinePlan(ms[i..]))
      {
        assert ms[i..][1..] == ms[i + 1..];
        ExecuteAppend(clock, Progress(), DefineActions(ms[i]), DefinePlan(ms[i + 1..]));
        roles := Define(ms[i], roles);
        i := i + 1;
      }
      ghost var uses := UsePlan(RoleIndex(map[], ms), ms);
      assert Progress() == Execute(clock, s0, DefinePlan(ms));
      ExecuteAppend(clock, s0, DefinePlan(ms), uses);
      if error.Some? {
        return;
      }
      ghost var s1 := Progress();
      i := 0;
      while i < |ms| && error.None?
        invariant 0 <= i <= |ms|
        invariant Execute(clock, s1, uses) == Execute(clock, Progress(), UsePlan(roles, ms[i..]))
      {
        assert ms[i..][1..] == ms[i + 1..];
        ExecuteAppend(clock, Progress(), UseActions(roles, ms[i]), UsePlan(roles, ms[i + 1..]));
        Use(ms[i], roles);
        i := i + 1;
      }
    }
  }
}
