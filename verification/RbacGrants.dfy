/** What a successful application leaves in the tables, told from the manifests alone: which
    permissions a binding grants, to whom and on which authority. */
module RbacGrants {
  import opened Base
  import opened Rbac
  import opened RbacApply
  import opened RbacTheorems

  // ---- Which role and which authority ---------------------------------------------------

  /** Manifest r is the last role manifest with this name. */
  ghost predicate RoleOf(ms: seq<Manifest>, name: string, r: nat) {
    && r < |ms| && IsRole(ms[r].kind) && ms[r].name == name
    && forall k :: r < k < |ms| && IsRole(ms[k].kind) ==> ms[k].name != name
  }

  /** The rule's own reference; where that is blank the role's, and where that is blank too
      the binding's. */
  function Reference(role: Manifest, binding: Manifest, rule: Rule): string {
    if !Blank(rule.intermediateRef) then TrimSpace(rule.intermediateRef)
    else if !Blank(role.intermediateRef) then TrimSpace(role.intermediateRef)
    else TrimSpace(binding.intermediateRef)
  }

  lemma TargetIsReference(role: Manifest, binding: Manifest, rule: Rule)
    ensures RuleTarget(role, binding, rule) == Reference(role, binding, rule)
  {
    var a, b, c := rule.intermediateRef, role.intermediateRef, binding.intermediateRef;
    TrimSpaceEmptyIffBlank(a);
    TrimSpaceEmptyIffBlank(b);
    TrimSpaceEmptyIffBlank(c);
    FirstOfThree(a, b, c);
  }

  lemma FirstOfThree(a: string, b: string, c: string)
    ensures FirstNonEmpty([a, b, c]) ==
            if TrimSpace(a) != "" then TrimSpace(a) else if TrimSpace(b) != "" then TrimSpace(b) else TrimSpace(c)
  {
    assert [a, b, c][1..] == [b, c];
    FirstOfTwo(b, c);
  }

  lemma FirstOfTwo(a: string, b: string)
    ensures FirstNonEmpty([a, b]) == if TrimSpace(a) != "" then TrimSpace(a) else TrimSpace(b)
  {
    assert [a, b][1..] == [b];
    FirstOfOne(b);
  }

  lemma FirstOfOne(a: string)
    ensures FirstNonEmpty([a]) == TrimSpace(a)
  {
    assert [a][1..] == [];
  }

  lemma {:induction false} RoleIndexKeeps(known: map<string, Manifest>, ms: seq<Manifest>, name: string)
    requires forall k :: 0 <= k < |ms| && IsRole(ms[k].kind) ==> ms[k].name != name
    ensures name in RoleIndex(known, ms) <==> name in known
    ensures name in known ==> RoleIndex(known, ms)[name] == known[name]
    decreases ms
  {
    if ms != [] {
      RoleIndexKeeps(if IsRole(ms[0].kind) then known[ms[0].name := ms[0]] else known, ms[1..], name);
    }
  }

  lemma {:induction false} RoleIndexHoldsLast(known: map<string, Manifest>, ms: seq<Manifest>, name: string, r: nat)
    requires RoleOf(ms, name, r)
    ensures name in RoleIndex(known, ms) && RoleIndex(known, ms)[name] == ms[r]
    decreases ms
  {
    var next := if IsRole(ms[0].kind) then known[ms[0].name := ms[0]] else known;
    if r == 0 {
      RoleIndexKeeps(next, ms[1..], name);
    } else {
      RoleIndexHoldsLast(next, ms[1..], name, r - 1);
    }
  }

  lemma {:induction false} LastRole(ms: seq<Manifest>, name: string) returns (r: Option<nat>)
    ensures r.Some? ==> RoleOf(ms, name, r.value)
    ensures r.None? ==> forall k :: 0 <= k < |ms| && IsRole(ms[k].kind) ==> ms[k].name != name
  {
    if ms == [] {
      r := None;
    } else if IsRole(ms[|ms| - 1].kind) && ms[|ms| - 1].name == name {
      r := Some(|ms| - 1);
    } else {
      r := LastRole(ms[..|ms| - 1], name);
    }
  }

  lemma IndexedRoleIsLast(ms: seq<Manifest>, name: string) returns (r: nat)
    requires name in RoleIndex(map[], ms)
    ensures RoleOf(ms, name, r) && RoleIndex(map[], ms)[name] == ms[r]
  {
    var last := LastRole(ms, name);
    if last.None? {
      RoleIndexKeeps(map[], ms, name);
    }
    r := last.value;
    RoleIndexHoldsLast(map[], ms, name, r);
  }

  // ---- Grants -------------------------------------------------------------------------

  /** Binding b, with its role r, grants by the role's rule i to its subject j the row with
      this id and these columns. */
  ghost predicate Grants(ms: seq<Manifest>, b: nat, r: nat, i: nat, j: nat, id: string, body: Body) {
    && b < |ms| && IsBinding(ms[b].kind) && RoleOf(ms, ms[b].roleRef, r)
    && i < |ms[r].rules| && j < |ms[b].subjects|
    && var reference, subject := Reference(ms[r], ms[b], ms[r].rules[i]), ms[b].subjects[j];
    && reference != ""
    && id == ms[b].name + "-" + ToLower(subject.kind) + "-" + subject.name + "-" + reference
    && body == CARole(ms[r].name, ToLower(subject.kind) + ":" + subject.name, reference,
                      Join(ms[r].rules[i].verbs, ","))
  }

  /** The order in which grants are made. */
  predicate Later(b: nat, i: nat, j: nat, b': nat, i': nat, j': nat) {
    b < b' || (b == b' && (i < i' || (i == i' && j < j')))
  }

  lemma GrantIsPut(ms: seq<Manifest>, b: nat, r: nat, i: nat, j: nat, id: string, body: Body)
    requires Grants(ms, b, r, i, j, id, body)
    ensures var role, rule := ms[r], ms[r].rules[i];
            && RuleTarget(role, ms[b], rule) != ""
            && PutRole(role, ms[b], rule, ms[b].subjects[j], RuleTarget(role, ms[b], rule)) == Put(id, body, None)
  {
    TargetIsReference(ms[r], ms[b], ms[r].rules[i]);
  }

  lemma PutIsGrant(ms: seq<Manifest>, b: nat, r: nat, i: nat, j: nat, a: Action)
    requires b < |ms| && IsBinding(ms[b].kind) && RoleOf(ms, ms[b].roleRef, r)
    requires i < |ms[r].rules| && j < |ms[b].subjects|
    requires var role, rule := ms[r], ms[r].rules[i];
             && RuleTarget(role, ms[b], rule) != ""
             && a == PutRole(role, ms[b], rule, ms[b].subjects[j], RuleTarget(role, ms[b], rule))
    ensures a.Put? && a.body.CARole? && Grants(ms, b, r, i, j, a.id, a.body)
  {
    TargetIsReference(ms[r], ms[b], ms[r].rules[i]);
  }

  // ---- Where a put of a role row comes from ----------------------------------------------

  lemma {:induction false} FromSubjects(
    role: Manifest, binding: Manifest, rule: Rule, target: string, subjects: seq<Subject>, k: nat, a: Action)
    returns (j: nat)
    requires k <= |subjects| && a in SubjectActions(role, binding, rule, target, subjects[k..])
    ensures k <= j < |subjects| && a == PutRole(role, binding, rule, subjects[j], target)
    decreases |subjects| - k
  {
    assert subjects[k..][1..] == subjects[k + 1..];
    if a == PutRole(role, binding, rule, subjects[k], target) {
      j := k;
    } else {
      j := FromSubjects(role, binding, rule, target, subjects, k + 1, a);
    }
  }

  lemma {:induction false} FromRules(role: Manifest, binding: Manifest, k: nat, a: Action) returns (i: nat, j: nat)
    requires k <= |role.rules| && a in RuleActions(role, binding, role.rules[k..])
    ensures k <= i < |role.rules| && j < |binding.subjects|
    ensures var target := RuleTarget(role, binding, role.rules[i]);
            target != "" && a == PutRole(role, binding, role.rules[i], binding.subjects[j], target)
    decreases |role.rules| - k
  {
    RuleStep(role, binding, role.rules, k);
    var target := RuleTarget(role, binding, role.rules[k]);
    if target != "" && a in SubjectActions(role, binding, role.rules[k], target, binding.subjects) {
      assert binding.subjects[0..] == binding.subjects;
      i := k;
      j := FromSubjects(role, binding, role.rules[k], target, binding.subjects, 0, a);
    } else {
      i, j := FromRules(role, binding, k + 1, a);
    }
  }

  lemma FromUse(roles: map<string, Manifest>, m: Manifest, a: Action) returns (i: nat, j: nat)
    requires a in UseActions(roles, m) && a.Put? && a.body.CARole?
    ensures IsBinding(m.kind) && m.roleRef in roles
    ensures var role := roles[m.roleRef];
            && i < |role.rules| && j < |m.subjects|
            && var target := RuleTarget(role, m, role.rules[i]);
               target != "" && a == PutRole(role, m, role.rules[i], m.subjects[j], target)
  {
    var role := roles[m.roleRef];
    assert role.rules[0..] == role.rules;
    i, j := FromRules(role, m, 0, a);
  }

  lemma {:induction false} FromUses(roles: map<string, Manifest>, ms: seq<Manifest>, k: nat, a: Action)
    returns (b: nat, i: nat, j: nat)
    requires k <= |ms| && a in UsePlan(roles, ms[k..]) && a.Put? && a.body.CARole?
    ensures k <= b < |ms| && IsBinding(ms[b].kind) && ms[b].roleRef in roles
    ensures var role := roles[ms[b].roleRef];
            && i < |role.rules| && j < |ms[b].subjects|
            && var target := RuleTarget(role, ms[b], role.rules[i]);
               target != "" && a == PutRole(role, ms[b], role.rules[i], ms[b].subjects[j], target)
    decreases |ms| - k
  {
    assert ms[k..][1..] == ms[k + 1..];
    if a in UseActions(roles, ms[k]) {
      b := k;
      i, j := FromUse(roles, ms[k], a);
    } else {
      b, i, j := FromUses(roles, ms, k + 1, a);
    }
  }

  /** Every planned role row is a grant. */
  lemma PlannedRoleIsGrant(ms: seq<Manifest>, a: Action) returns (b: nat, r: nat, i: nat, j: nat)
    requires a in Plan(ms) && a.Put? && a.body.CARole?
    ensures Grants(ms, b, r, i, j, a.id, a.body)
  {
    var roles := RoleIndex(map[], ms);
    if a in DefinePlan(ms) {
      var m := DefinitionsComeFromManifests(ms, a);
    }
    assert ms[0..] == ms;
    b, i, j := FromUses(roles, ms, 0, a);
    r := IndexedRoleIsLast(ms, ms[b].roleRef);
    PutIsGrant(ms, b, r, i, j, a);
  }

  // ---- The last put of a grant's row -------------------------------------------------------

  /** No grant after this one has the same id. */
  ghost predicate NoLaterGrant(ms: seq<Manifest>, b: nat, i: nat, j: nat, id: string) {
    forall b': nat, r': nat, i': nat, j': nat, body' ::
      Grants(ms, b', r', i', j', id, body') ==> !Later(b, i, j, b', i', j')
  }

  lemma {:induction false} LastInSubjects(
    role: Manifest, binding: Manifest, rule: Rule, target: string, subjects: seq<Subject>, j: nat, key: Key)
    requires j < |subjects| && ActionKey(PutRole(role, binding, rule, subjects[j], target)) == Some(key)
    requires Last(SubjectActions(role, binding, rule, target, subjects[j + 1..]), key).None?
    ensures Last(SubjectActions(role, binding, rule, target, subjects), key) ==
            Some(PutRole(role, binding, rule, subjects[j], target))
  {
    var first := PutRole(role, binding, rule, subjects[0], target);
    LastOfAppend([first], SubjectActions(role, binding, rule, target, subjects[1..]), key);
    LastOfOne(first, key);
    if j > 0 {
      assert subjects[1..][j..] == subjects[j + 1..];
      LastInSubjects(role, binding, rule, target, subjects[1..], j - 1, key);
    }
  }

  lemma {:induction false} LastInRules(role: Manifest, binding: Manifest, k: nat, i: nat, key: Key, a: Action)
    requires k <= i < |role.rules|
    requires var target := RuleTarget(role, binding, role.rules[i]);
             target != "" &&
             Last(SubjectActions(role, binding, role.rules[i], target, binding.subjects), key) == Some(a)
    requires Last(RuleActions(role, binding, role.rules[i + 1..]), key).None?
    ensures Last(RuleActions(role, binding, role.rules[k..]), key) == Some(a)
    decreases i - k
  {
    var target := RuleTarget(role, binding, role.rules[k]);
    RuleStep(role, binding, role.rules, k);
    if k < i {
      LastInRules(role, binding, k + 1, i, key, a);
    }
    if target != "" {
      LastOfAppend(SubjectActions(role, binding, role.rules[k], target, binding.subjects),
                   RuleActions(role, binding, role.rules[k + 1..]), key);
    }
  }

  lemma {:induction false} LastInUse(roles: map<string, Manifest>, m: Manifest, key: Key, a: Action)
    requires IsBinding(m.kind) && m.roleRef in roles
    requires Last(RuleActions(roles[m.roleRef], m, roles[m.roleRef].rules), key) == Some(a)
    ensures Last(UseActions(roles, m), key) == Some(a)
  {
    var writes := RuleActions(roles[m.roleRef], m, roles[m.roleRef].rules);
    var tail := if m.kind.CARoleBindingKind? then [Count(CARoleBindings)] else [];
    LastOfOne(Count(RoleBindings), key);
    LastOfOne(Count(CARoleBindings), key);
    LastOfAppend(writes, [Count(RoleBindings)], key);
    LastOfAppend(writes + [Count(RoleBindings)], tail, key);
  }

  lemma {:induction false} LastInUses(
    roles: map<string, Manifest>, ms: seq<Manifest>, k: nat, b: nat, key: Key, a: Action)
    requires k <= b < |ms|
    requires Last(UseActions(roles, ms[b]), key) == Some(a) && Last(UsePlan(roles, ms[b + 1..]), key).None?
    ensures Last(UsePlan(roles, ms[k..]), key) == Some(a)
    decreases b - k
  {
    assert ms[k..][1..] == ms[k + 1..];
    if k < b {
      LastInUses(roles, ms, k + 1, b, key, a);
    }
    LastOfAppend(UseActions(roles, ms[k]), UsePlan(roles, ms[k + 1..]), key);
  }

  lemma NoneLaterInSubjects(ms: seq<Manifest>, b: nat, r: nat, i: nat, j: nat, id: string, body: Body)
    requires Grants(ms, b, r, i, j, id, body) && NoLaterGrant(ms, b, i, j, id)
    ensures var rule := ms[r].rules[i];
            Last(SubjectActions(ms[r], ms[b], rule, RuleTarget(ms[r], ms[b], rule), ms[b].subjects[j + 1..]),
                 Key(Roles, id)).None?
  {
    var rule := ms[r].rules[i];
    var target := RuleTarget(ms[r], ms[b], rule);
    var plan := SubjectActions(ms[r], ms[b], rule, target, ms[b].subjects[j + 1..]);
    TargetIsReference(ms[r], ms[b], rule);
    if Last(plan, Key(Roles, id)).Some? {
      var n := LastIsInPlan(plan, Key(Roles, id));
      var j' := FromSubjects(ms[r], ms[b], rule, target, ms[b].subjects, j + 1, plan[n]);
      PutIsGrant(ms, b, r, i, j', plan[n]);
      assert Later(b, i, j, b, i, j');
    }
  }

  lemma NoneLaterInRules(ms: seq<Manifest>, b: nat, r: nat, i: nat, j: nat, id: string, body: Body)
    requires Grants(ms, b, r, i, j, id, body) && NoLaterGrant(ms, b, i, j, id)
    ensures Last(RuleActions(ms[r], ms[b], ms[r].rules[i + 1..]), Key(Roles, id)).None?
  {
    var plan := RuleActions(ms[r], ms[b], ms[r].rules[i + 1..]);
    if Last(plan, Key(Roles, id)).Some? {
      var n := LastIsInPlan(plan, Key(Roles, id));
      var i', j' := FromRules(ms[r], ms[b], i + 1, plan[n]);
      PutIsGrant(ms, b, r, i', j', plan[n]);
      assert Later(b, i, j, b, i', j');
    }
  }

  lemma {:induction false} NoneLaterInUses(ms: seq<Manifest>, b: nat, r: nat, i: nat, j: nat, id: string, body: Body)
    requires Grants(ms, b, r, i, j, id, body) && NoLaterGrant(ms, b, i, j, id)
    ensures Last(UsePlan(RoleIndex(map[], ms), ms[b + 1..]), Key(Roles, id)).None?
  {
    var roles := RoleIndex(map[], ms);
    var plan := UsePlan(roles, ms[b + 1..]);
    if Last(plan, Key(Roles, id)).Some? {
      var n := LastIsInPlan(plan, Key(Roles, id));
      var b', i', j' := FromUses(roles, ms, b + 1, plan[n]);
      var r' := IndexedRoleIsLast(ms, ms[b'].roleRef);
      PutIsGrant(ms, b', r', i', j', plan[n]);
      assert Later(b, i, j, b', i', j');
    }
  }

  lemma LastPutOfGrant(ms: seq<Manifest>, b: nat, r: nat, i: nat, j: nat, id: string, body: Body)
    requires Grants(ms, b, r, i, j, id, body) && NoLaterGrant(ms, b, i, j, id)
    ensures Last(Plan(ms), Key(Roles, id)) == Some(Put(id, body, None))
  {
    var roles, key := RoleIndex(map[], ms), Key(Roles, id);
    var role, rule := ms[r], ms[r].rules[i];
    GrantIsPut(ms, b, r, i, j, id, body);
    RoleIndexHoldsLast(map[], ms, ms[b].roleRef, r);
    NoneLaterInSubjects(ms, b, r, i, j, id, body);
    LastInSubjects(role, ms[b], rule, RuleTarget(role, ms[b], rule), ms[b].subjects, j, key);
    NoneLaterInRules(ms, b, r, i, j, id, body);
    LastInRules(role, ms[b], 0, i, key, Put(id, body, None));
    assert role.rules[0..] == role.rules;
    LastInUse(roles, ms[b], key, Put(id, body, None));
    NoneLaterInUses(ms, b, r, i, j, id, body);
    LastInUses(roles, ms, 0, b, key, Put(id, body, None));
    assert ms[0..] == ms;
    LastOfAppend(DefinePlan(ms), UsePlan(roles, ms), key);
  }

  // ---- What is stored -----------------------------------------------------------------------

  /** After a successful run every grant has its row, with the columns of the last grant that
      shares its id. */
  lemma GrantIsStored(
    clock: nat -> Readings, db: Db, ms: seq<Manifest>, b: nat, r: nat, i: nat, j: nat, id: string, body: Body)
    requires Execute(clock, Initial(db), Plan(ms)).error.None?
    requires Grants(ms, b, r, i, j, id, body)
    ensures var after := Execute(clock, Initial(db), Plan(ms)).db;
            && Key(Roles, id) in after && after[Key(Roles, id)].id == id && after[Key(Roles, id)].body.CARole?
            && (NoLaterGrant(ms, b, i, j, id) ==> after[Key(Roles, id)].body == body)
  {
    var key := Key(Roles, id);
    SuccessWritesPlan(clock, Initial(db), Plan(ms));
    GrantIsPlanned(ms, b, r, i, j, id, body);
    var n := LastIsInPlan(Plan(ms), key);
    if NoLaterGrant(ms, b, i, j, id) {
      LastPutOfGrant(ms, b, r, i, j, id, body);
    }
  }

  lemma {:induction false} InSubjects(
    role: Manifest, binding: Manifest, rule: Rule, target: string, subjects: seq<Subject>, j: nat)
    requires j < |subjects|
    ensures PutRole(role, binding, rule, subjects[j], target) in SubjectActions(role, binding, rule, target, subjects)
  {
    if j > 0 {
      InSubjects(role, binding, rule, target, subjects[1..], j - 1);
    }
  }

  lemma {:induction false} InRules(role: Manifest, binding: Manifest, k: nat, i: nat, a: Action)
    requires k <= i < |role.rules|
    requires var target := RuleTarget(role, binding, role.rules[i]);
             target != "" && a in SubjectActions(role, binding, role.rules[i], target, binding.subjects)
    ensures a in RuleActions(role, binding, role.rules[k..])
    decreases i - k
  {
    RuleStep(role, binding, role.rules, k);
    if k < i {
      InRules(role, binding, k + 1, i, a);
    }
  }

  lemma {:induction false} InUses(roles: map<string, Manifest>, ms: seq<Manifest>, k: nat, b: nat, a: Action)
    requires k <= b < |ms| && a in UseActions(roles, ms[b])
    ensures a in UsePlan(roles, ms[k..])
    decreases b - k
  {
    assert ms[k..][1..] == ms[k + 1..];
    if k < b {
      InUses(roles, ms, k + 1, b, a);
    }
  }

  lemma GrantIsPlanned(ms: seq<Manifest>, b: nat, r: nat, i: nat, j: nat, id: string, body: Body)
    requires Grants(ms, b, r, i, j, id, body)
    ensures Put(id, body, None) in Plan(ms) && Last(Plan(ms), Key(Roles, id)).Some?
  {
    var roles, a := RoleIndex(map[], ms), Put(id, body, None);
    GrantIsInUse(ms, b, r, i, j, id, body);
    InUses(roles, ms, 0, b, a);
    assert ms[0..] == ms;
    PutIsFound(Plan(ms), a);
  }

  lemma {:induction false} GrantIsInUse(ms: seq<Manifest>, b: nat, r: nat, i: nat, j: nat, id: string, body: Body)
    requires Grants(ms, b, r, i, j, id, body)
    ensures Put(id, body, None) in UseActions(RoleIndex(map[], ms), ms[b])
  {
    var role, rule, a := ms[r], ms[r].rules[i], Put(id, body, None);
    GrantIsPut(ms, b, r, i, j, id, body);
    RoleIndexHoldsLast(map[], ms, ms[b].roleRef, r);
    InSubjects(role, ms[b], rule, RuleTarget(role, ms[b], rule), ms[b].subjects, j);
    InRules(role, ms[b], 0, i, a);
    assert role.rules[0..] == role.rules;
    assert a in RuleActions(role, ms[b], role.rules);
  }

  lemma {:induction false} PutIsFound(plan: seq<Action>, a: Action)
    requires a in plan && a.Put?
    ensures Last(plan, ActionKey(a).value).Some?
  {
    var n :| 0 <= n < |plan| && plan[n] == a;
    LastIsFound(plan, n);
  }

  /** Every role row that a successful run wrote is a grant's. */
  lemma WrittenRolesAreGrants(clock: nat -> Readings, db: Db, ms: seq<Manifest>, id: string)
    returns (b: nat, r: nat, i: nat, j: nat)
    requires Execute(clock, Initial(db), Plan(ms)).error.None?
    requires var after, key := Execute(clock, Initial(db), Plan(ms)).db, Key(Roles, id);
             key in after && !(key in db && after[key] == db[key])
    ensures Grants(ms, b, r, i, j, id, Execute(clock, Initial(db), Plan(ms)).db[Key(Roles, id)].body)
  {
    SuccessWritesPlan(clock, Initial(db), Plan(ms));
    var n := LastIsInPlan(Plan(ms), Key(Roles, id));
    b, r, i, j := PlannedRoleIsGrant(ms, Plan(ms)[n]);
  }
}
