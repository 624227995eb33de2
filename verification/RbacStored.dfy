/** What a successful application stores for each definition and policy, which clock readings
    it stores, and what its counters count, told from the manifests alone. */
module RbacStored {
  import opened Base
  import opened Clock
  import opened Rbac
  import opened RbacApply
  import opened RbacTheorems
  import opened RbacGrants

  // ---- Definitions -----------------------------------------------------------------------

  /** The trimmed value, or the fallback where it is blank. */
  function OrElse(value: string, fallback: string): string {
    if Blank(value) then fallback else TrimSpace(value)
  }

  lemma FirstIsOrElse(value: string, fallback: string)
    requires Trimmed(fallback)
    ensures FirstNonEmpty([value, fallback]) == OrElse(value, fallback)
  {
    TrimSpaceEmptyIffBlank(value);
    TrimmedIsFixed(fallback);
    FirstOfTwo(value, fallback);
  }

  lemma FirstIsOrTrimmed(value: string, fallback: string)
    ensures FirstNonEmpty([value, fallback]) == OrElse(value, TrimSpace(fallback))
  {
    TrimSpaceEmptyIffBlank(value);
    FirstOfTwo(value, fallback);
  }

  /** A duration cut to whole seconds, toward zero. */
  predicate IsWholeSeconds(p: Parsed, seconds: int) {
    match p
    case Value(n) =>
      && (n >= 0 ==> seconds * SECOND <= n < (seconds + 1) * SECOND)
      && (n < 0 ==> (seconds - 1) * SECOND < n <= seconds * SECOND)
    case _ => seconds == 0
  }

  lemma WholeSecondsCut(p: Parsed)
    ensures IsWholeSeconds(p, WholeSeconds(p))
  {
  }

  /** No later manifest of this kind has this name. */
  ghost predicate LastOfKind(ms: seq<Manifest>, m: nat) {
    m < |ms| && forall k :: m < k < |ms| && ms[k].kind == ms[m].kind ==> ms[k].name != ms[m].name
  }

  lemma {:induction false} LastInDefinitions(ms: seq<Manifest>, k: nat, m: nat, key: Key, a: Action)
    requires k <= m < |ms|
    requires Last(DefineActions(ms[m]), key) == Some(a) && Last(DefinePlan(ms[m + 1..]), key).None?
    ensures Last(DefinePlan(ms[k..]), key) == Some(a)
    decreases m - k
  {
    assert ms[k..][1..] == ms[k + 1..];
    if k < m {
      LastInDefinitions(ms, k + 1, m, key, a);
    }
    LastOfAppend(DefineActions(ms[k]), DefinePlan(ms[k + 1..]), key);
  }

  lemma NoLaterDefinition(ms: seq<Manifest>, m: nat, key: Key)
    requires LastOfKind(ms, m)
    requires (ms[m].kind.RootKind? && key == Key(Roots, ms[m].name)) ||
             (ms[m].kind.IntermediateKind? && key == Key(Intermediates, ms[m].name))
    ensures Last(DefinePlan(ms[m + 1..]), key).None?
  {
    var plan := DefinePlan(ms[m + 1..]);
    if Last(plan, key).Some? {
      var n := LastIsInPlan(plan, key);
      var k := DefinitionsComeFromManifests(ms[m + 1..], plan[n]);
    }
  }

  lemma {:induction false} UsesWriteNoAuthority(roles: map<string, Manifest>, ms: seq<Manifest>, key: Key)
    requires IsAuthority(key.table)
    ensures Last(UsePlan(roles, ms), key).None?
  {
    var plan := UsePlan(roles, ms);
    if Last(plan, key).Some? {
      var n := LastIsInPlan(plan, key);
      UsesDefineNoAuthority(roles, ms, plan[n]);
    }
  }

  lemma LastOfCounted(a: Action, c: Counter)
    requires a.Put?
    ensures Last([a, Count(c)], ActionKey(a).value) == Some(a)
  {
    LastOfAppend([a], [Count(c)], ActionKey(a).value);
    LastOfOne(a, ActionKey(a).value);
    LastOfOne(Count(c), ActionKey(a).value);
  }

  /** The last definition of an authority decides its planned row. */
  lemma {:induction false} LastDefinitionDecides(ms: seq<Manifest>, m: nat, key: Key, a: Action)
    requires LastOfKind(ms, m) && Last(DefineActions(ms[m]), key) == Some(a)
    requires (ms[m].kind.RootKind? && key == Key(Roots, ms[m].name)) ||
             (ms[m].kind.IntermediateKind? && key == Key(Intermediates, ms[m].name))
    ensures Last(Plan(ms), key) == Some(a)
  {
    NoLaterDefinition(ms, m, key);
    LastInDefinitions(ms, 0, m, key, a);
    assert ms[0..] == ms;
    UsesWriteNoAuthority(RoleIndex(map[], ms), ms, key);
    LastOfAppend(DefinePlan(ms), UsePlan(RoleIndex(map[], ms), ms), key);
  }

  lemma {:induction false} PlannedIsStored(clock: nat -> Readings, db: Db, plan: seq<Action>, key: Key, a: Action)
    requires Execute(clock, Initial(db), plan).error.None? && Last(plan, key) == Some(a)
    ensures key in Execute(clock, Initial(db), plan).db && WrittenBy(Execute(clock, Initial(db), plan).db[key], a)
  {
    SuccessWritesPlan(clock, Initial(db), plan);
  }

  lemma RootBodyIs(m: Manifest)
    ensures var b := RootBody(m);
            && b.name == OrElse(m.displayName, TrimSpace(m.name))
            && b.environment == OrElse(m.environment, "development") && b.status == OrElse(m.status, "active")
            && b.fingerprint == m.fingerprint && b.trustDomain == m.trustDomain
  {
    FirstIsOrTrimmed(m.displayName, m.name);
    FirstIsOrElse(m.environment, "development");
    FirstIsOrElse(m.status, "active");
  }

  /** The last RootCA manifest of a name is stored with its columns and the defaults for the
      blank ones, valid for ten years of 365 days. */
  lemma RootIsStored(clock: nat -> Readings, db: Db, ms: seq<Manifest>, m: nat)
    requires Execute(clock, Initial(db), Plan(ms)).error.None?
    requires LastOfKind(ms, m) && ms[m].kind.RootKind?
    ensures Key(Roots, ms[m].name) in Execute(clock, Initial(db), Plan(ms)).db
    ensures var row, x := Execute(clock, Initial(db), Plan(ms)).db[Key(Roots, ms[m].name)], ms[m];
            && row.id == x.name && row.body.RootCA?
            && row.body.name == OrElse(x.displayName, TrimSpace(x.name))
            && row.body.environment == OrElse(x.environment, "development")
            && row.body.fingerprint == x.fingerprint && row.body.status == OrElse(x.status, "active")
            && row.body.trustDomain == x.trustDomain && row.until == row.notBefore + 3650 * DAY
  {
    var a, key := PutRoot(ms[m]), Key(Roots, ms[m].name);
    RootBodyIs(ms[m]);
    RootIsDefined(ms[m]);
    LastOfCounted(a, RootCAs);
    LastDefinitionDecides(ms, m, key, a);
    PlannedIsStored(clock, db, Plan(ms), key, a);
  }

  lemma IntermediateBodyIs(m: Manifest)
    ensures var b := IntermediateBody(m);
            && b.rootId == m.rootRef && b.name == OrElse(m.displayName, TrimSpace(m.name))
            && b.environment == OrElse(m.environment, "development") && b.owner == m.owner && b.namespace == m.namespace
            && b.fingerprint == m.fingerprint && b.status == OrElse(m.status, "active")
            && IsWholeSeconds(m.maxTtl, b.maxTtlSeconds)
            && b.allowedDns == Join(m.allowedDns, ",") && b.allowedUsages == Join(m.allowedUsages, ",")
            && b.requireApproval == m.requireApproval && b.issuanceLimit == m.issuanceLimit
            && b.renewalAllowed == !(m.renewalAllowed == Some(false))
  {
    FirstIsOrTrimmed(m.displayName, m.name);
    FirstIsOrElse(m.environment, "development");
    FirstIsOrElse(m.status, "active");
    WholeSecondsCut(m.maxTtl);
  }

  /** In a successful run no duration was malformed where it is read. */
  lemma {:induction false} NoStopIsPlanned(clock: nat -> Readings, db: Db, plan: seq<Action>, a: Action)
    requires Execute(clock, Initial(db), plan).error.None? && a in plan
    ensures !a.Stop?
  {
    var i :| 0 <= i < |plan| && plan[i] == a;
    SuccessfulPutsAreSound(clock, Initial(db), plan, i);
  }

  lemma {:induction false} InDefinitions(ms: seq<Manifest>, k: nat, m: nat, a: Action)
    requires k <= m < |ms| && a in DefineActions(ms[m])
    ensures a in DefinePlan(ms[k..])
    decreases m - k
  {
    assert ms[k..][1..] == ms[k + 1..];
    if k < m {
      InDefinitions(ms, k + 1, m, a);
    }
  }

  lemma IntermediateIsWellTimed(clock: nat -> Readings, db: Db, ms: seq<Manifest>, m: nat)
    requires Execute(clock, Initial(db), Plan(ms)).error.None?
    requires m < |ms| && ms[m].kind.IntermediateKind?
    ensures !ms[m].maxTtl.Malformed? && DefineActions(ms[m]) == [PutIntermediate(ms[m]), Count(IntermediateCAs)]
  {
    IntermediateIsDefined(ms[m]);
    if ms[m].maxTtl.Malformed? {
      var a := Stop(BadDuration(ms[m].name));
      InDefinitions(ms, 0, m, a);
      assert ms[0..] == ms;
      NoStopIsPlanned(clock, db, Plan(ms), a);
    }
  }

  lemma IntermediateIsDefined(m: Manifest)
    requires m.kind.IntermediateKind?
    ensures DefineActions(m) == IntermediateActions(m)
  {
  }

  /** So is the last IntermediateCA manifest of a name: renewable unless it says no, valid for
      365 days. */
  lemma IntermediateIsStored(clock: nat -> Readings, db: Db, ms: seq<Manifest>, m: nat)
    requires Execute(clock, Initial(db), Plan(ms)).error.None?
    requires LastOfKind(ms, m) && ms[m].kind.IntermediateKind?
    ensures Key(Intermediates, ms[m].name) in Execute(clock, Initial(db), Plan(ms)).db
    ensures var row, x := Execute(clock, Initial(db), Plan(ms)).db[Key(Intermediates, ms[m].name)], ms[m];
            && row.id == x.name && row.body.IntermediateCA? && row.until == row.notBefore + 365 * DAY
            && row.body.rootId == x.rootRef && row.body.name == OrElse(x.displayName, TrimSpace(x.name))
            && row.body.environment == OrElse(x.environment, "development")
            && row.body.owner == x.owner && row.body.namespace == x.namespace
            && row.body.fingerprint == x.fingerprint && row.body.status == OrElse(x.status, "active")
            && IsWholeSeconds(x.maxTtl, row.body.maxTtlSeconds)
            && row.body.allowedDns == Join(x.allowedDns, ",") && row.body.allowedUsages == Join(x.allowedUsages, ",")
            && row.body.requireApproval == x.requireApproval && row.body.issuanceLimit == x.issuanceLimit
            && row.body.renewalAllowed == !(x.renewalAllowed == Some(false))
  {
    var a, key := PutIntermediate(ms[m]), Key(Intermediates, ms[m].name);
    IntermediateBodyIs(ms[m]);
    IntermediateIsWellTimed(clock, db, ms, m);
    LastOfCounted(a, IntermediateCAs);
    LastDefinitionDecides(ms, m, key, a);
    PlannedIsStored(clock, db, Plan(ms), key, a);
  }

  /** Every authority that a successful run wrote is defined by a manifest of its name. */
  lemma WrittenAuthoritiesAreDefined(clock: nat -> Readings, db: Db, ms: seq<Manifest>, key: Key) returns (m: nat)
    requires Execute(clock, Initial(db), Plan(ms)).error.None? && IsAuthority(key.table)
    requires var after := Execute(clock, Initial(db), Plan(ms)).db;
             key in after && !(key in db && after[key] == db[key])
    ensures m < |ms| && ms[m].name == key.id
    ensures if key.table.Roots? then ms[m].kind.RootKind? else ms[m].kind.IntermediateKind?
  {
    SuccessWritesPlan(clock, Initial(db), Plan(ms));
    var n := LastIsInPlan(Plan(ms), key);
    AuthorityPutIsDefined(ms, Plan(ms)[n]);
    m := DefinitionsComeFromManifests(ms, Plan(ms)[n]);
  }

  // ---- Policies -----------------------------------------------------------------------------

  lemma PolicyBodyIs(m: Manifest)
    ensures var b := PolicyBody(m);
            && b.name == OrElse(m.displayName, TrimSpace(m.name)) && b.intermediateId == m.intermediateRef
            && b.certificateTypes == Join(m.certificateTypes, ",") && b.allowedDns == Join(m.allowedDns, ",")
            && IsWholeSeconds(m.maxTtl, b.maxTtlSeconds) && b.issuanceLimit == m.issuanceLimit
            && b.renewalAllowed == (m.renewalAllowed == Some(true)) && b.requireApproval == m.requireApproval
  {
    FirstIsOrTrimmed(m.displayName, m.name);
    WholeSecondsCut(m.maxTtl);
  }

  lemma PolicyActionsAre(roles: map<string, Manifest>, m: Manifest)
    requires m.kind.TokenPolicyKind?
    ensures UseActions(roles, m) ==
            if m.maxTtl.Malformed? then [Stop(BadDuration(m.name))]
            else if m.expiresAt.Malformed? then [Stop(BadExpiry(m.name))]
            else [PutPolicy(m), Count(TokenPolicies)]
  {
  }

  lemma {:induction false} PolicyUse(clock: nat -> Readings, db: Db, ms: seq<Manifest>, m: nat)
    requires Execute(clock, Initial(db), Plan(ms)).error.None?
    requires m < |ms| && ms[m].kind.TokenPolicyKind?
    ensures !ms[m].maxTtl.Malformed? && !ms[m].expiresAt.Malformed?
    ensures UseActions(RoleIndex(map[], ms), ms[m]) == [PutPolicy(ms[m]), Count(TokenPolicies)]
  {
    var plan := UseActions(RoleIndex(map[], ms), ms[m]);
    PolicyActionsAre(RoleIndex(map[], ms), ms[m]);
    assert plan[0] in plan;
    StopIsPlanned(clock, db, ms, m, plan[0]);
  }

  lemma {:induction false} StopIsPlanned(clock: nat -> Readings, db: Db, ms: seq<Manifest>, m: nat, a: Action)
    requires Execute(clock, Initial(db), Plan(ms)).error.None?
    requires m < |ms| && a in UseActions(RoleIndex(map[], ms), ms[m])
    ensures !a.Stop?
  {
    InUses(RoleIndex(map[], ms), ms, 0, m, a);
    assert ms[0..] == ms;
    NoStopIsPlanned(clock, db, Plan(ms), a);
  }

  lemma {:induction false} FromPolicies(roles: map<string, Manifest>, ms: seq<Manifest>, k: nat, a: Action)
    returns (m: nat)
    requires k <= |ms| && a in UsePlan(roles, ms[k..]) && a.Put? && a.body.CATokenPolicy?
    ensures k <= m < |ms| && ms[m].kind.TokenPolicyKind? && a == PutPolicy(ms[m])
    decreases |ms| - k
  {
    assert ms[k..][1..] == ms[k + 1..];
    if a in UseActions(roles, ms[k]) {
      m := k;
      PolicyComesFromPolicy(roles, ms[k], a);
    } else {
      m := FromPolicies(roles, ms, k + 1, a);
    }
  }

  lemma PolicyComesFromPolicy(roles: map<string, Manifest>, m: Manifest, a: Action)
    requires a in UseActions(roles, m) && a.Put? && a.body.CATokenPolicy?
    ensures m.kind.TokenPolicyKind? && a == PutPolicy(m)
  {
    if IsBinding(m.kind) && m.roleRef in roles {
      var role := roles[m.roleRef];
      if a in RuleActions(role, m, role.rules) {
        RulesGrantRoles(role, m, role.rules, a);
      }
    }
  }

  lemma {:induction false} NoLaterPolicy(ms: seq<Manifest>, m: nat)
    requires LastOfKind(ms, m) && ms[m].kind.TokenPolicyKind?
    ensures Last(UsePlan(RoleIndex(map[], ms), ms[m + 1..]), Key(Policies, ms[m].name)).None?
  {
    var roles, key := RoleIndex(map[], ms), Key(Policies, ms[m].name);
    var plan := UsePlan(roles, ms[m + 1..]);
    if Last(plan, key).Some? {
      var n := LastIsInPlan(plan, key);
      var k := FromPolicies(roles, ms, m + 1, plan[n]);
    }
  }

  /** So is the last TokenPolicy manifest of a name: renewable only if it says so, and with the
      expiry that it fixes. */
  lemma PolicyIsStored(clock: nat -> Readings, db: Db, ms: seq<Manifest>, m: nat)
    requires Execute(clock, Initial(db), Plan(ms)).error.None?
    requires LastOfKind(ms, m) && ms[m].kind.TokenPolicyKind?
    ensures Key(Policies, ms[m].name) in Execute(clock, Initial(db), Plan(ms)).db
    ensures var row, x := Execute(clock, Initial(db), Plan(ms)).db[Key(Policies, ms[m].name)], ms[m];
            && row.id == x.name && row.body.CATokenPolicy?
            && row.body.name == OrElse(x.displayName, TrimSpace(x.name)) && row.body.intermediateId == x.intermediateRef
            && row.body.certificateTypes == Join(x.certificateTypes, ",")
            && row.body.allowedDns == Join(x.allowedDns, ",")
            && IsWholeSeconds(x.maxTtl, row.body.maxTtlSeconds) && row.body.issuanceLimit == x.issuanceLimit
            && row.body.renewalAllowed == (x.renewalAllowed == Some(true))
            && row.body.requireApproval == x.requireApproval
            && (x.expiresAt.Value? ==> row.until == x.expiresAt.n)
  {
    var roles, a, key := RoleIndex(map[], ms), PutPolicy(ms[m]), Key(Policies, ms[m].name);
    PolicyBodyIs(ms[m]);
    PolicyUse(clock, db, ms, m);
    LastOfCounted(a, TokenPolicies);
    NoLaterPolicy(ms, m);
    LastInUses(roles, ms, 0, m, key, a);
    assert ms[0..] == ms;
    LastOfAppend(DefinePlan(ms), UsePlan(roles, ms), key);
    PlannedIsStored(clock, db, Plan(ms), key, a);
  }

  // ---- Clock readings --------------------------------------------------------------------------

  ghost predicate FirstRead(clock: nat -> Readings, from: nat, to: nat, t: int) {
    exists n :: from <= n < to && clock(n).first == t
  }

  ghost predicate SecondRead(clock: nat -> Readings, from: nat, to: nat, t: int) {
    exists n :: from <= n < to && clock(n).second == t
  }

  /** The row's times are readings that this many attempts took: creation if the row is new,
      the start of validity of a written authority, and the expiry of a written policy that
      fixes none. */
  ghost predicate TimesRead(clock: nat -> Readings, from: nat, to: nat, isNew: bool, row: Row, last: Option<Action>) {
    && (isNew && !row.body.CATokenPolicy? ==> FirstRead(clock, from, to, row.createdAt))
    && (isNew && row.body.CATokenPolicy? ==> SecondRead(clock, from, to, row.createdAt))
    && (last.Some? && IsAuthority(TableOf(row.body)) ==> FirstRead(clock, from, to, row.notBefore))
    && (last.Some? && last.value.Put? && row.body.CATokenPolicy? && last.value.expiry.None? ==>
          FirstRead(clock, from, to, row.until - DAY))
  }

  lemma LaterTimesRead(
    clock: nat -> Readings, from: nat, mid: nat, to: nat, isNew: bool, row: Row, last: Option<Action>)
    requires from <= mid <= to && TimesRead(clock, mid, to, isNew, row, last)
    ensures TimesRead(clock, from, to, isNew, row, last)
  {
  }

  lemma EarlierTimesRead(
    clock: nat -> Readings, from: nat, mid: nat, to: nat, isNew: bool, row: Row, last: Option<Action>)
    requires from <= mid <= to && TimesRead(clock, from, mid, isNew, row, last)
    ensures TimesRead(clock, from, to, isNew, row, last)
  {
  }

  lemma {:induction false} AttemptsGrow(clock: nat -> Readings, s: State, plan: seq<Action>)
    ensures s.attempts <= Execute(clock, s, plan).attempts
    decreases plan
  {
    if plan != [] && s.error.None? {
      AttemptsGrow(clock, Perform(clock, s, plan[0]), plan[1..]);
    }
  }

  lemma {:induction false} StepReadsTimes(clock: nat -> Readings, s: State, a: Action, k: Key)
    requires s.error.None? && Perform(clock, s, a).error.None? && k in Perform(clock, s, a).db
    ensures var v := Perform(clock, s, a);
            TimesRead(clock, s.attempts, v.attempts, k !in s.db, v.db[k], Last([a], k))
  {
    LastOfOne(a, k);
    if a.Put? && ActionKey(a) == Some(k) {
      var now := clock(s.attempts);
      assert FirstRead(clock, s.attempts, s.attempts + 1, now.first);
      assert SecondRead(clock, s.attempts, s.attempts + 1, now.second);
    }
  }

  /** Every time that a successful run stores is a reading of its own clock. */
  lemma {:induction false} TimesAreReadings(clock: nat -> Readings, s: State, plan: seq<Action>, k: Key)
    requires Keyed(s.db) && Execute(clock, s, plan).error.None? && k in Execute(clock, s, plan).db
    ensures var v := Execute(clock, s, plan);
            TimesRead(clock, s.attempts, v.attempts, k !in s.db, v.db[k], Last(plan, k))
    decreases plan
  {
    if plan != [] {
      var next, v := Perform(clock, s, plan[0]), Execute(clock, s, plan);
      AttemptsGrow(clock, next, plan[1..]);
      PerformKeepsKeys(clock, s, plan[0]);
      TimesAreReadings(clock, next, plan[1..], k);
      LaterTimesRead(clock, s.attempts, next.attempts, v.attempts, k !in next.db, v.db[k], Last(plan[1..], k));
      if k in next.db {
        EarlierWriteReads(clock, s, plan, k, next, v);
      }
    }
  }

  lemma {:induction false} EarlierWriteReads(
    clock: nat -> Readings, s: State, plan: seq<Action>, k: Key, next: State, v: State)
    requires Keyed(s.db) && plan != [] && s.error.None? && next == Perform(clock, s, plan[0])
    requires v == Execute(clock, next, plan[1..]) && v.error.None? && next.error.None? && k in next.db && k in v.db
    requires TimesRead(clock, s.attempts, v.attempts, false, v.db[k], Last(plan[1..], k))
    ensures TimesRead(clock, s.attempts, v.attempts, k !in s.db, v.db[k], Last(plan, k))
  {
    var first, later := Last([plan[0]], k), Last(plan[1..], k);
    AttemptsGrow(clock, next, plan[1..]);
    StepReadsTimes(clock, s, plan[0], k);
    EarlierTimesRead(clock, s.attempts, next.attempts, v.attempts, k !in s.db, next.db[k], first);
    LastOfTwo(plan, k);
    RowThen(clock, s, plan, k, next, v);
    if later.Some? {
      TimesCombine(clock, s.attempts, v.attempts, k !in s.db, next.db[k], first, v.db[k], later);
    }
  }

  lemma {:induction false} LastOfTwo(plan: seq<Action>, k: Key)
    requires plan != []
    ensures Last(plan, k) == if Last(plan[1..], k).Some? then Last(plan[1..], k) else Last([plan[0]], k)
  {
    LastOfOne(plan[0], k);
  }

  /** What the rest of a run does to one row. */
  lemma {:induction false} RowThen(clock: nat -> Readings, s: State, plan: seq<Action>, k: Key, next: State, v: State)
    requires Keyed(s.db) && plan != [] && next == Perform(clock, s, plan[0]) && k in next.db
    requires v == Execute(clock, next, plan[1..]) && v.error.None?
    ensures k in v.db && v.db[k].createdAt == next.db[k].createdAt
    ensures TableOf(v.db[k].body) == TableOf(next.db[k].body)
    ensures Last(plan[1..], k).None? ==> v.db[k] == next.db[k]
  {
    PerformKeepsKeys(clock, s, plan[0]);
    SuccessWritesPlan(clock, next, plan[1..]);
    TableStays(clock, next, plan[1..], k);
  }

  lemma TimesCombine(clock: nat -> Readings, from: nat, to: nat, isNew: bool, before: Row, first: Option<Action>,
                     row: Row, later: Option<Action>)
    requires TimesRead(clock, from, to, isNew, before, first) && TimesRead(clock, from, to, false, row, later)
    requires row.createdAt == before.createdAt && TableOf(row.body) == TableOf(before.body)
    ensures TimesRead(clock, from, to, isNew, row, later)
  {
  }

  ghost predicate Keyed(db: Db) {
    forall k :: k in db ==> KeyOf(db[k]) == k
  }

  lemma PerformKeepsKeys(clock: nat -> Readings, s: State, a: Action)
    requires Keyed(s.db)
    ensures Keyed(Perform(clock, s, a).db)
  {
  }

  lemma {:induction false} TableStays(clock: nat -> Readings, s: State, plan: seq<Action>, k: Key)
    requires Keyed(s.db) && k in s.db
    ensures Keyed(Execute(clock, s, plan).db) && k in Execute(clock, s, plan).db
    ensures TableOf(Execute(clock, s, plan).db[k].body) == k.table == TableOf(s.db[k].body)
    decreases plan
  {
    assert KeyOf(s.db[k]) == k;
    if plan != [] && s.error.None? {
      PerformKeepsKeys(clock, s, plan[0]);
      TableStays(clock, Perform(clock, s, plan[0]), plan[1..], k);
    }
  }

  // ---- Counters ----------------------------------------------------------------------------------

  /** Whether manifests of this kind move a counter. */
  predicate CountsTo(k: Kind, c: Counter) {
    match c
    case Users => k.User?
    case Groups => k.Group?
    case ServiceAccounts => k.ServiceAccount?
    case RootCAs => k.RootKind?
    case IntermediateCAs => k.IntermediateKind?
    case AllRoles => k.RoleKind? || k.CARoleKind? || k.GlobalRoleKind?
    case CARoles => k.CARoleKind?
    case RoleBindings => k.RoleBindingKind? || k.CARoleBindingKind? || k.GlobalRoleBindingKind?
    case CARoleBindings => k.CARoleBindingKind?
    case TokenPolicies => k.TokenPolicyKind?
  }

  predicate CountedFirst(c: Counter) {
    !c.RoleBindings? && !c.CARoleBindings? && !c.TokenPolicies?
  }

  /** What one manifest adds to a counter. */
  function Due(k: Kind, c: Counter): nat {
    if CountsTo(k, c) then 1 else 0
  }

  function Number(ms: seq<Manifest>, c: Counter): nat {
    if ms == [] then 0 else Due(ms[0].kind, c) + Number(ms[1..], c)
  }

  /** How often a plan moves a counter. */
  function Hits(plan: seq<Action>, c: Counter): nat {
    if plan == [] then 0 else (if plan[0] == Count(c) then 1 else 0) + Hits(plan[1..], c)
  }

  lemma {:induction false} TallyIsHits(plan: seq<Action>, c: Counter)
    ensures Tally(plan)[c] == Hits(plan, c)
  {
    if plan != [] {
      TallyIsHits(plan[1..], c);
    }
  }

  lemma {:induction false} HitsAppend(xs: seq<Action>, ys: seq<Action>, c: Counter)
    ensures Hits(xs + ys, c) == Hits(xs, c) + Hits(ys, c)
  {
    if xs == [] {
      assert xs + ys == ys;
    } else {
      HitsAppend(xs[1..], ys, c);
      assert (xs + ys)[1..] == xs[1..] + ys;
    }
  }

  lemma {:induction false} HitsOfOne(a: Action, c: Counter)
    ensures Hits([a], c) == if a == Count(c) then 1 else 0
  {
    assert [a][1..] == [];
  }

  lemma {:induction false} HitsOfTwo(a: Action, b: Action, c: Counter)
    ensures Hits([a, b], c) == (if a == Count(c) then 1 else 0) + if b == Count(c) then 1 else 0
  {
    assert [a] + [b] == [a, b];
    HitsAppend([a], [b], c);
    HitsOfOne(a, c);
    HitsOfOne(b, c);
  }

  lemma {:induction false} AuthorityHits(m: Manifest, c: Counter)
    requires m.kind.RootKind? || (m.kind.IntermediateKind? && !m.maxTtl.Malformed?)
    ensures Hits(DefineActions(m), c) == if CountedFirst(c) then Due(m.kind, c) else 0
  {
    if m.kind.RootKind? {
      RootIsDefined(m);
      HitsOfTwo(PutRoot(m), Count(RootCAs), c);
    } else {
      IntermediateIsDefined(m);
      HitsOfTwo(PutIntermediate(m), Count(IntermediateCAs), c);
    }
  }

  lemma {:induction false} OtherHits(m: Manifest, c: Counter)
    requires !m.kind.RootKind? && !m.kind.IntermediateKind?
    ensures Hits(DefineActions(m), c) == if CountedFirst(c) then Due(m.kind, c) else 0
  {
    HitsOfTwo(Count(AllRoles), Count(CARoles), c);
    HitsOfOne(Count(AllRoles), c);
    HitsOfOne(Count(Users), c);
    HitsOfOne(Count(Groups), c);
    HitsOfOne(Count(ServiceAccounts), c);
  }

  predicate NeverStops(plan: seq<Action>) {
    forall a :: a in plan ==> !a.Stop?
  }

  lemma PartsNeverStop(xs: seq<Action>, ys: seq<Action>)
    requires NeverStops(xs + ys)
    ensures NeverStops(xs) && NeverStops(ys)
  {
    forall a | a in xs ensures !a.Stop? {
      assert a in xs + ys;
    }
    forall a | a in ys ensures !a.Stop? {
      assert a in xs + ys;
    }
  }

  lemma {:induction false} WellTimedHits(m: Manifest, c: Counter)
    requires NeverStops(DefineActions(m))
    ensures Hits(DefineActions(m), c) == if CountedFirst(c) then Due(m.kind, c) else 0
  {
    if m.kind.RootKind? {
      AuthorityHits(m, c);
    } else if m.kind.IntermediateKind? {
      IntermediateIsDefined(m);
      assert IntermediateActions(m)[0] in DefineActions(m);
      AuthorityHits(m, c);
    } else {
      OtherHits(m, c);
    }
  }

  lemma {:induction false} DefinitionHits(ms: seq<Manifest>, c: Counter)
    requires NeverStops(DefinePlan(ms))
    ensures Hits(DefinePlan(ms), c) == if CountedFirst(c) then Number(ms, c) else 0
  {
    if ms != [] {
      PartsNeverStop(DefineActions(ms[0]), DefinePlan(ms[1..]));
      HitsAppend(DefineActions(ms[0]), DefinePlan(ms[1..]), c);
      WellTimedHits(ms[0], c);
      DefinitionHits(ms[1..], c);
    }
  }

  lemma {:induction false} PutsHitNothing(plan: seq<Action>, c: Counter)
    requires forall a :: a in plan ==> a.Put?
    ensures Hits(plan, c) == 0
  {
    if plan != [] {
      assert plan[0] in plan;
      PutsHitNothing(plan[1..], c);
    }
  }

  lemma {:induction false} PolicyHits(roles: map<string, Manifest>, m: Manifest, c: Counter)
    requires m.kind.TokenPolicyKind? && NeverStops(UseActions(roles, m))
    ensures Hits(UseActions(roles, m), c) == if CountedFirst(c) then 0 else Due(m.kind, c)
  {
    PolicyActionsAre(roles, m);
    assert UseActions(roles, m)[0] in UseActions(roles, m);
    HitsOfTwo(PutPolicy(m), Count(TokenPolicies), c);
  }

  lemma {:induction false} GrantsHitNothing(role: Manifest, m: Manifest, c: Counter)
    ensures Hits(RuleActions(role, m, role.rules), c) == 0
  {
    forall a | a in RuleActions(role, m, role.rules) ensures a.Put? {
      RulesGrantRoles(role, m, role.rules, a);
    }
    PutsHitNothing(RuleActions(role, m, role.rules), c);
  }

  function BindingTail(k: Kind): seq<Action> {
    if k.CARoleBindingKind? then [Count(CARoleBindings)] else []
  }

  lemma {:induction false} BindingActionsAre(roles: map<string, Manifest>, m: Manifest)
    requires IsBinding(m.kind)
    ensures UseActions(roles, m) ==
            if m.roleRef !in roles then [Stop(MissingRole(m.name))]
            else RuleActions(roles[m.roleRef], m, roles[m.roleRef].rules) + [Count(RoleBindings)] + BindingTail(m.kind)
  {
  }

  lemma {:induction false} BindingHits(roles: map<string, Manifest>, m: Manifest, c: Counter)
    requires IsBinding(m.kind) && m.roleRef in roles
    ensures Hits(UseActions(roles, m), c) == if CountedFirst(c) then 0 else Due(m.kind, c)
  {
    var writes := RuleActions(roles[m.roleRef], m, roles[m.roleRef].rules);
    BindingActionsAre(roles, m);
    GrantsHitNothing(roles[m.roleRef], m, c);
    HitsAppend(writes, [Count(RoleBindings)], c);
    HitsAppend(writes + [Count(RoleBindings)], BindingTail(m.kind), c);
    HitsOfOne(Count(RoleBindings), c);
    HitsOfOne(Count(CARoleBindings), c);
  }

  lemma BoundRoleIsThere(roles: map<string, Manifest>, m: Manifest)
    requires IsBinding(m.kind) && NeverStops(UseActions(roles, m))
    ensures m.roleRef in roles
  {
    BindingActionsAre(roles, m);
    assert UseActions(roles, m)[0] in UseActions(roles, m);
  }

  lemma {:induction false} UseHits(roles: map<string, Manifest>, m: Manifest, c: Counter)
    requires NeverStops(UseActions(roles, m))
    ensures Hits(UseActions(roles, m), c) == if CountedFirst(c) then 0 else Due(m.kind, c)
  {
    if IsBinding(m.kind) {
      BoundRoleIsThere(roles, m);
      BindingHits(roles, m, c);
    } else if m.kind.TokenPolicyKind? {
      PolicyHits(roles, m, c);
    }
  }

  lemma {:induction false} UsesHit(roles: map<string, Manifest>, ms: seq<Manifest>, c: Counter)
    requires NeverStops(UsePlan(roles, ms))
    ensures Hits(UsePlan(roles, ms), c) == if CountedFirst(c) then 0 else Number(ms, c)
  {
    if ms != [] {
      PartsNeverStop(UseActions(roles, ms[0]), UsePlan(roles, ms[1..]));
      HitsAppend(UseActions(roles, ms[0]), UsePlan(roles, ms[1..]), c);
      UseHits(roles, ms[0], c);
      UsesHit(roles, ms[1..], c);
    }
  }

  /** After a successful run each counter is the number of manifests of its kinds. */
  lemma {:induction false} CountersCountManifests(clock: nat -> Readings, db: Db, ms: seq<Manifest>, c: Counter)
    requires Execute(clock, Initial(db), Plan(ms)).error.None?
    ensures Execute(clock, Initial(db), Plan(ms)).counts[c] == Number(ms, c)
  {
    var roles, plan := RoleIndex(map[], ms), Plan(ms);
    SuccessWritesPlan(clock, Initial(db), plan);
    forall a | a in plan ensures !a.Stop? {
      NoStopIsPlanned(clock, db, plan, a);
    }
    PartsNeverStop(DefinePlan(ms), UsePlan(roles, ms));
    TallyIsHits(plan, c);
    HitsAppend(DefinePlan(ms), UsePlan(roles, ms), c);
    DefinitionHits(ms, c);
    UsesHit(roles, ms, c);
  }
}
