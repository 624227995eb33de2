/** What applying manifests guarantees: the order that matters, what a failure leaves
    behind, and that applying the same manifests again changes nothing but times. */
module RbacTheorems {
  import opened Base
  import opened Clock
  import opened Rbac
  import opened RbacApply

  // ---- Two passes -------------------------------------------------------------------

  function Definitions(ms: seq<Manifest>): seq<Manifest> {
    if ms == [] then []
    else if IsUse(ms[0]) then Definitions(ms[1..])
    else [ms[0]] + Definitions(ms[1..])
  }

  function Uses(ms: seq<Manifest>): seq<Manifest> {
    if ms == [] then []
    else if IsUse(ms[0]) then [ms[0]] + Uses(ms[1..])
    else Uses(ms[1..])
  }

  lemma {:induction false} DefinePlanReadsDefinitions(ms: seq<Manifest>)
    ensures DefinePlan(ms) == DefinePlan(Definitions(ms))
  {
    if ms != [] {
      DefinePlanReadsDefinitions(ms[1..]);
      var rest := Definitions(ms[1..]);
      if IsUse(ms[0]) {
        assert Definitions(ms) == rest && DefineActions(ms[0]) == [];
      } else {
        assert Definitions(ms)[1..] == rest;
      }
    }
  }

  lemma {:induction false} RoleIndexReadsDefinitions(known: map<string, Manifest>, ms: seq<Manifest>)
    ensures RoleIndex(known, ms) == RoleIndex(known, Definitions(ms))
    decreases ms
  {
    if ms != [] {
      var rest := Definitions(ms[1..]);
      RoleIndexReadsDefinitions(if IsRole(ms[0].kind) then known[ms[0].name := ms[0]] else known, ms[1..]);
      if IsUse(ms[0]) {
        assert Definitions(ms) == rest;
      } else {
        assert Definitions(ms)[1..] == rest;
      }
    }
  }

  lemma {:induction false} UsePlanReadsUses(roles: map<string, Manifest>, ms: seq<Manifest>)
    ensures UsePlan(roles, ms) == UsePlan(roles, Uses(ms))
  {
    if ms != [] {
      UsePlanReadsUses(roles, ms[1..]);
      var rest := Uses(ms[1..]);
      if IsUse(ms[0]) {
        assert Uses(ms)[1..] == rest;
      } else {
        assert Uses(ms) == rest && UseActions(roles, ms[0]) == [];
      }
    }
  }

  /** Two lists with the same definitions in the same order and the same uses in the same
      order do the same, however definitions and uses are mixed. */
  lemma {:induction false} MixingOrderIsIrrelevant(
    ms: seq<Manifest>, other: seq<Manifest>, clock: nat -> Readings, s: State)
    requires Definitions(ms) == Definitions(other) && Uses(ms) == Uses(other)
    ensures Execute(clock, s, Plan(ms)) == Execute(clock, s, Plan(other))
  {
    DefinePlanReadsDefinitions(ms);
    DefinePlanReadsDefinitions(other);
    RoleIndexReadsDefinitions(map[], ms);
    RoleIndexReadsDefinitions(map[], other);
    UsePlanReadsUses(RoleIndex(map[], ms), ms);
    UsePlanReadsUses(RoleIndex(map[], other), other);
  }

  lemma {:induction false} PassesOfCons(m: Manifest, rest: seq<Manifest>)
    ensures Definitions([m] + rest) == (if IsUse(m) then [] else [m]) + Definitions(rest)
    ensures Uses([m] + rest) == (if IsUse(m) then [m] else []) + Uses(rest)
  {
    assert ([m] + rest)[1..] == rest;
  }

  lemma {:induction false} DefinitionsOfConcatenation(xs: seq<Manifest>, ys: seq<Manifest>)
    ensures Definitions(xs + ys) == Definitions(xs) + Definitions(ys)
  {
    if xs == [] {
      assert xs + ys == ys;
    } else {
      var m, rest := xs[0], xs[1..];
      assert xs == [m] + rest && xs + ys == [m] + (rest + ys);
      DefinitionsOfConcatenation(rest, ys);
      PassesOfCons(m, rest);
      PassesOfCons(m, rest + ys);
      var head := if IsUse(m) then [] else [m];
      assert head + (Definitions(rest) + Definitions(ys)) == (head + Definitions(rest)) + Definitions(ys);
    }
  }

  lemma {:induction false} UsesOfConcatenation(xs: seq<Manifest>, ys: seq<Manifest>)
    ensures Uses(xs + ys) == Uses(xs) + Uses(ys)
  {
    if xs == [] {
      assert xs + ys == ys;
    } else {
      var m, rest := xs[0], xs[1..];
      assert xs == [m] + rest && xs + ys == [m] + (rest + ys);
      UsesOfConcatenation(rest, ys);
      PassesOfCons(m, rest);
      PassesOfCons(m, rest + ys);
      var head := if IsUse(m) then [m] else [];
      assert head + (Uses(rest) + Uses(ys)) == (head + Uses(rest)) + Uses(ys);
    }
  }

  lemma {:induction false} PassesOfAPass(ms: seq<Manifest>)
    ensures Definitions(Definitions(ms)) == Definitions(ms) && Uses(Definitions(ms)) == []
    ensures Definitions(Uses(ms)) == [] && Uses(Uses(ms)) == Uses(ms)
  {
    if ms != [] {
      PassesOfAPass(ms[1..]);
      var definitions, uses := Definitions(ms[1..]), Uses(ms[1..]);
      if IsUse(ms[0]) {
        assert Uses(ms)[0] == ms[0] && Uses(ms)[1..] == uses && Definitions(ms) == definitions;
      } else {
        assert Definitions(ms)[0] == ms[0] && Definitions(ms)[1..] == definitions && Uses(ms) == uses;
      }
    }
  }

  /** Bindings and policies may come before what they refer to: applying a list is applying
      its definitions first and its bindings and policies after them. */
  lemma {:induction false} ApplyEqualsPartitioned(ms: seq<Manifest>, clock: nat -> Readings, s: State)
    ensures Execute(clock, s, Plan(ms)) == Execute(clock, s, Plan(Definitions(ms) + Uses(ms)))
  {
    DefinitionsOfConcatenation(Definitions(ms), Uses(ms));
    UsesOfConcatenation(Definitions(ms), Uses(ms));
    PassesOfAPass(ms);
    MixingOrderIsIrrelevant(ms, Definitions(ms) + Uses(ms), clock, s);
  }

  // ---- Failure ----------------------------------------------------------------------

  /** The action cannot be done in this state. */
  predicate Refused(clock: nat -> Readings, s: State, a: Action) {
    match a
    case Count(_) => false
    case Stop(_) => true
    case Put(id, body, expiry) => !Accepts(s.db, Stamp(id, body, expiry, clock(s.attempts)))
  }

  /** A run that fails has done exactly the actions before the one that was refused, and
      there is no way back: the tables and counters keep them. */
  lemma {:induction false} FailureKeepsPrefix(clock: nat -> Readings, s: State, plan: seq<Action>) returns (n: nat)
    requires s.error.None? && Execute(clock, s, plan).error.Some?
    ensures n < |plan|
    ensures var before := Execute(clock, s, plan[..n]);
            && before.error.None?
            && Refused(clock, before, plan[n])
            && Execute(clock, s, plan).db == before.db
            && Execute(clock, s, plan).counts == before.counts
            && (plan[n].Stop? ==> Execute(clock, s, plan).error == Some(plan[n].error))
            && (plan[n].Put? ==> Execute(clock, s, plan).error == Some(WriteFailed(ActionKey(plan[n]).value)))
    decreases plan
  {
    var next := Perform(clock, s, plan[0]);
    if next.error.Some? {
      n := 0;
      assert Execute(clock, next, plan[1..]) == next;
    } else {
      var rest := FailureKeepsPrefix(clock, next, plan[1..]);
      n := rest + 1;
      assert plan[..n][0] == plan[0] && plan[..n][1..] == plan[1..][..rest];
    }
  }

  /** Whatever happens, the constraints hold afterwards. */
  lemma {:induction false} ExecuteKeepsIntegrity(clock: nat -> Readings, s: State, plan: seq<Action>)
    requires Integrity(s.db)
    ensures Integrity(Execute(clock, s, plan).db)
    decreases plan
  {
    if plan != [] && s.error.None? {
      var next := Perform(clock, s, plan[0]);
      if plan[0].Put? {
        var row := Stamp(plan[0].id, plan[0].body, plan[0].expiry, clock(s.attempts));
        if Accepts(s.db, row) {
          UpsertKeepsIntegrity(s.db, row);
        }
      }
      ExecuteKeepsIntegrity(clock, next, plan[1..]);
    }
  }

  // ---- What a successful run leaves ---------------------------------------------------

  function ActionKey(a: Action): Option<Key> {
    if a.Put? then Some(Key(TableOf(a.body), a.id)) else None
  }

  /** The last action of the plan that writes this row. */
  function Last(plan: seq<Action>, k: Key): Option<Action> {
    if plan == [] then None
    else
      var later := Last(plan[1..], k);
      if later.Some? then later
      else if ActionKey(plan[0]) == Some(k) then Some(plan[0])
      else None
  }

  function Tally(plan: seq<Action>): multiset<Counter> {
    if plan == [] then multiset{}
    else (if plan[0].Count? then multiset{plan[0].counter} else multiset{}) + Tally(plan[1..])
  }

  /** A row that a put of the plan last wrote. */
  predicate WrittenBy(r: Row, a: Action) {
    && a.Put? && r.id == a.id && r.body == a.body
    && (TableOf(a.body).Policies? && a.expiry.Some? ==> r.until == a.expiry.value)
    && (a.body.RootCA? ==> r.until == r.notBefore + 3650 * DAY)
    && (a.body.IntermediateCA? ==> r.until == r.notBefore + 365 * DAY)
  }

  /** `after` is `before` with the plan's rows written over it. */
  ghost predicate Rewritten(before: Db, plan: seq<Action>, after: Db) {
    && (forall k :: k in after <==> k in before || Last(plan, k).Some?)
    && (forall k :: k in before ==> k in after && after[k].createdAt == before[k].createdAt)
    && (forall k :: k in before && Last(plan, k).None? ==> after[k] == before[k])
    && (forall k :: Last(plan, k).Some? ==> k in after && WrittenBy(after[k], Last(plan, k).value))
  }

  /** A run without error wrote every row of its plan, the last put deciding, kept creation
      times and every other row, and counted everything. */
  lemma {:induction false} SuccessWritesPlan(clock: nat -> Readings, s: State, plan: seq<Action>)
    requires Execute(clock, s, plan).error.None?
    ensures Rewritten(s.db, plan, Execute(clock, s, plan).db)
    ensures Execute(clock, s, plan).counts == s.counts + Tally(plan)
    decreases plan
  {
    if plan != [] {
      var next := Perform(clock, s, plan[0]);
      SuccessWritesPlan(clock, next, plan[1..]);
      StepWritesAction(clock, s, plan[0]);
      RewritesCompose(s.db, plan, next.db, Execute(clock, s, plan).db);
    }
  }

  lemma {:induction false} LastOfOne(a: Action, k: Key)
    ensures Last([a], k) == if ActionKey(a) == Some(k) then Some(a) else None
  {
    assert [a][1..] == [];
  }

  lemma StepWritesAction(clock: nat -> Readings, s: State, a: Action)
    requires s.error.None? && Perform(clock, s, a).error.None?
    ensures Rewritten(s.db, [a], Perform(clock, s, a).db)
  {
    forall k ensures Last([a], k) == if ActionKey(a) == Some(k) then Some(a) else None {
      LastOfOne(a, k);
    }
  }

  lemma RewritesCompose(before: Db, plan: seq<Action>, middle: Db, after: Db)
    requires plan != [] && Rewritten(before, [plan[0]], middle) && Rewritten(middle, plan[1..], after)
    ensures Rewritten(before, plan, after)
  {
    forall k ensures Last([plan[0]], k) == if ActionKey(plan[0]) == Some(k) then Some(plan[0]) else None {
      LastOfOne(plan[0], k);
    }
    forall k ensures Last(plan, k) == if Last(plan[1..], k).Some? then Last(plan[1..], k) else Last([plan[0]], k) {
    }
  }

  /** Every row that a run without error wrote was fit to be written, and refers to a row
      that is there at the end. */
  lemma {:induction false} SuccessfulPutsAreSound(clock: nat -> Readings, s: State, plan: seq<Action>, i: nat)
    requires Execute(clock, s, plan).error.None?
    requires i < |plan|
    ensures !plan[i].Stop?
    ensures plan[i].Put? ==> StatusOk(plan[i].body) && ParentThere(Execute(clock, s, plan).db, plan[i].body)
    decreases plan
  {
    var next := Perform(clock, s, plan[0]);
    SuccessWritesPlan(clock, next, plan[1..]);
    if i > 0 {
      SuccessfulPutsAreSound(clock, next, plan[1..], i - 1);
    }
  }

  // ---- Applying again -----------------------------------------------------------------

  /** Puts of one authority's row all write the same. */
  ghost predicate AgreesOnAuthorities(plan: seq<Action>) {
    forall i, j :: 0 <= i < |plan| && 0 <= j < |plan| && plan[i].Put? && plan[j].Put? &&
                   ActionKey(plan[i]) == ActionKey(plan[j]) && IsAuthority(TableOf(plan[i].body)) ==>
                     plan[i].body == plan[j].body
  }

  lemma {:induction false} LastIsFound(plan: seq<Action>, i: nat)
    requires i < |plan| && plan[i].Put?
    ensures Last(plan, ActionKey(plan[i]).value).Some?
  {
    if i > 0 {
      LastIsFound(plan[1..], i - 1);
    }
  }

  lemma {:induction false} LastIsInPlan(plan: seq<Action>, k: Key) returns (i: nat)
    requires Last(plan, k).Some?
    ensures i < |plan| && plan[i] == Last(plan, k).value && ActionKey(plan[i]) == Some(k)
  {
    if Last(plan[1..], k).Some? {
      var j := LastIsInPlan(plan[1..], k);
      i := j + 1;
    } else {
      i := 0;
    }
  }

  lemma {:induction false} LastOfAppend(xs: seq<Action>, ys: seq<Action>, k: Key)
    ensures Last(xs + ys, k) == if Last(ys, k).Some? then Last(ys, k) else Last(xs, k)
  {
    if xs == [] {
      assert xs + ys == ys;
    } else {
      LastOfAppend(xs[1..], ys, k);
      assert (xs + ys)[1..] == xs[1..] + ys;
    }
  }

  function FingerprintOf(b: Body): string {
    if b.RootCA? || b.IntermediateCA? then b.fingerprint else ""
  }

  /** This put's fingerprint ends up with another authority of the same table, one that the
      plan first writes later. */
  ghost predicate HandsOver(plan: seq<Action>, i: nat)
    requires i < |plan|
  {
    && plan[i].Put? && IsAuthority(TableOf(plan[i].body))
    && exists k :: TakesOver(plan, i, k)
  }

  predicate TakesOver(plan: seq<Action>, i: nat, k: Key)
    requires i < |plan| && plan[i].Put?
  {
    && k.table == TableOf(plan[i].body) && k.id != plan[i].id
    && Last(plan[..i], k).None? && Last(plan, k).Some? && Last(plan, k).value.Put?
    && FingerprintOf(Last(plan, k).value.body) == FingerprintOf(plan[i].body)
  }

  lemma FreeAmongOthers(db: Db, r: Row)
    requires Integrity(db)
    ensures FingerprintFree(db, r) <==>
            (IsAuthority(TableOf(r.body)) ==>
               forall k :: k in db && k.table == TableOf(r.body) && k.id != r.id ==>
                 FingerprintOf(db[k].body) != FingerprintOf(r.body))
  {
    forall k | k in db ensures TableOf(db[k].body) == k.table {
      assert KeyOf(db[k]) == k;
    }
  }

  lemma FingerprintsDiffer(db: Db, k: Key, other: Key)
    requires Integrity(db) && k in db && other in db
    requires k != other && k.table == other.table && IsAuthority(k.table)
    ensures FingerprintOf(db[k].body) != FingerprintOf(db[other].body)
  {
    assert KeyOf(db[k]) == k && KeyOf(db[other]) == other;
    FreeAmongOthers(db, db[k]);
  }

  lemma {:induction false} PrefixSucceeds(clock: nat -> Readings, s: State, plan: seq<Action>, i: nat)
    requires Execute(clock, s, plan).error.None? && i < |plan|
    ensures Execute(clock, s, plan[..i]).error.None?
    ensures Perform(clock, Execute(clock, s, plan[..i]), plan[i]).error.None?
  {
    assert plan == plan[..i] + plan[i..] && plan[i..][0] == plan[i];
    ExecuteAppend(clock, s, plan[..i], plan[i..]);
  }

  /** In the second run a row's fingerprint is as in the first unless the row is yet to be
      written; then it is the one it ends up with. */
  lemma {:induction false} SecondRunFingerprint(db: Db, plan: seq<Action>, i: nat, first: Db, at1: Db, at2: Db, k: Key)
    requires i < |plan| && Rewritten(db, plan, first) && Rewritten(db, plan[..i], at1) &&
             Rewritten(first, plan[..i], at2)
    requires k in at2
    ensures k in first
    ensures Last(plan[..i], k).None? && Last(plan, k).Some? ==> at2[k].body == Last(plan, k).value.body
    ensures Last(plan[..i], k).Some? || Last(plan, k).None? ==> k in at1 && at2[k].body == at1[k].body
  {
    LastOfAppend(plan[..i], plan[i..], k);
    assert plan == plan[..i] + plan[i..];
    if Last(plan[..i], k).Some? {
      assert WrittenBy(at1[k], Last(plan[..i], k).value) && WrittenBy(at2[k], Last(plan[..i], k).value);
    }
    if Last(plan, k).Some? {
      assert WrittenBy(first[k], Last(plan, k).value);
    }
  }

  function RowOf(clock: nat -> Readings, s: State, a: Action): Row
    requires a.Put?
  {
    Stamp(a.id, a.body, a.expiry, clock(s.attempts))
  }

  lemma RowOfPut(clock: nat -> Readings, s: State, a: Action)
    requires a.Put? && s.error.None?
    ensures RowOf(clock, s, a).id == a.id && RowOf(clock, s, a).body == a.body
    ensures Perform(clock, s, a).error.None? <==> Accepts(s.db, RowOf(clock, s, a))
  {
  }

  /** One step of the second run, the steps before it having gone well. */
  lemma {:induction false} StepAgainIff(
    clock: nat -> Readings, later: nat -> Readings, db: Db, plan: seq<Action>, i: nat)
    requires Integrity(db) && i < |plan|
    requires Execute(clock, Initial(db), plan).error.None?
    requires Execute(later, Initial(Execute(clock, Initial(db), plan).db), plan[..i]).error.None?
    ensures var second := Execute(later, Initial(Execute(clock, Initial(db), plan).db), plan[..i]);
            Perform(later, second, plan[i]).error.None? <==> !HandsOver(plan, i)
  {
    var first := Execute(clock, Initial(db), plan);
    SuccessfulPutsAreSound(clock, Initial(db), plan, i);
    if plan[i].Put? {
      var s2 := Execute(later, Initial(first.db), plan[..i]);
      PutAgainIff(clock, later, db, plan, i, first.db, s2);
    }
  }

  lemma {:induction false} PutAgainIff(
    clock: nat -> Readings, later: nat -> Readings, db: Db, plan: seq<Action>, i: nat, first: Db, s2: State)
    requires Integrity(db) && i < |plan| && plan[i].Put?
    requires Execute(clock, Initial(db), plan).error.None? && Execute(clock, Initial(db), plan).db == first
    requires StatusOk(plan[i].body) && ParentThere(first, plan[i].body)
    requires Execute(later, Initial(first), plan[..i]) == s2 && s2.error.None?
    ensures Perform(later, s2, plan[i]).error.None? <==> !HandsOver(plan, i)
  {
    var s1 := Execute(clock, Initial(db), plan[..i]);
    PrefixSucceeds(clock, Initial(db), plan, i);
    SuccessWritesPlan(clock, Initial(db), plan);
    SuccessWritesPlan(clock, Initial(db), plan[..i]);
    SuccessWritesPlan(later, Initial(first), plan[..i]);
    ExecuteKeepsIntegrity(clock, Initial(db), plan[..i]);
    ExecuteKeepsIntegrity(clock, Initial(db), plan);
    ExecuteKeepsIntegrity(later, Initial(first), plan[..i]);
    RowOfPut(clock, s1, plan[i]);
    RowOfPut(later, s2, plan[i]);
    FingerprintFreeAgainIff(db, plan, i, first, s1.db, s2.db, RowOf(clock, s1, plan[i]), RowOf(later, s2, plan[i]));
    assert ParentThere(s2.db, plan[i].body);
  }

  lemma FingerprintFreeAgainIff(db: Db, plan: seq<Action>, i: nat, first: Db, at1: Db, at2: Db, row1: Row, row2: Row)
    requires i < |plan| && Rewritten(db, plan, first) && Rewritten(db, plan[..i], at1) &&
             Rewritten(first, plan[..i], at2)
    requires plan[i].Put? && row1.id == row2.id == plan[i].id && row1.body == row2.body == plan[i].body
    requires Integrity(at1) && Integrity(at2) && FingerprintFree(at1, row1)
    ensures FingerprintFree(at2, row2) <==> !HandsOver(plan, i)
  {
    var a := plan[i];
    FreeAmongOthers(at1, row1);
    FreeAmongOthers(at2, row2);
    if IsAuthority(TableOf(a.body)) {
      forall k | k in at2 && k.table == TableOf(a.body) && k.id != a.id
        ensures FingerprintOf(at2[k].body) == FingerprintOf(a.body) <==> TakesOver(plan, i, k)
      {
        SecondRunFingerprint(db, plan, i, first, at1, at2, k);
      }
      forall k | TakesOver(plan, i, k) ensures k in at2 {
        assert k in first;
      }
    }
  }

  lemma {:induction false} PrefixSucceedsAgain(
    clock: nat -> Readings, later: nat -> Readings, db: Db, plan: seq<Action>, i: nat)
    requires Integrity(db) && i <= |plan|
    requires Execute(clock, Initial(db), plan).error.None?
    requires forall j :: 0 <= j < i ==> !HandsOver(plan, j)
    ensures Execute(later, Initial(Execute(clock, Initial(db), plan).db), plan[..i]).error.None?
  {
    if i > 0 {
      var s := Initial(Execute(clock, Initial(db), plan).db);
      PrefixSucceedsAgain(clock, later, db, plan, i - 1);
      StepAgainIff(clock, later, db, plan, i - 1);
      var before := Execute(later, s, plan[..i - 1]);
      assert plan[..i] == plan[..i - 1] + [plan[i - 1]];
      ExecuteAppend(later, s, plan[..i - 1], [plan[i - 1]]);
      ExecuteTwo(later, before, plan[i - 1], plan[i - 1]);
    }
  }

  /** The last manifest of this policy gives its time of expiry. */
  predicate FixesExpiry(plan: seq<Action>, k: Key) {
    var last := Last(plan, k);
    last.Some? && last.value.Put? && last.value.expiry.Some?
  }

  /** Equal but for what the clock decides. */
  ghost predicate SameButTimes(plan: seq<Action>, before: Db, after: Db) {
    && after.Keys == before.Keys
    && (forall k :: k in before ==>
          && after[k].id == before[k].id && after[k].body == before[k].body
          && after[k].createdAt == before[k].createdAt)
    && (forall k :: k in before && Last(plan, k).None? ==> after[k] == before[k])
    && (forall k :: k in before && k.table.Policies? && FixesExpiry(plan, k) ==> after[k].until == before[k].until)
  }

  /** A plan that went through once goes through again, at any later time, exactly when no
      fingerprint is handed over; then it counts the same and changes only times. */
  lemma {:induction false} SecondRunSucceedsIff(
    clock: nat -> Readings, later: nat -> Readings, db: Db, plan: seq<Action>)
    requires Integrity(db) && Execute(clock, Initial(db), plan).error.None?
    ensures var first := Execute(clock, Initial(db), plan);
            var second := Execute(later, Initial(first.db), plan);
            && (second.error.None? <==> forall i :: 0 <= i < |plan| ==> !HandsOver(plan, i))
            && (second.error.None? ==> second.counts == first.counts && SameButTimes(plan, first.db, second.db))
  {
    var first := Execute(clock, Initial(db), plan);
    var second := Execute(later, Initial(first.db), plan);
    assert plan[..|plan|] == plan;
    if forall i :: 0 <= i < |plan| ==> !HandsOver(plan, i) {
      PrefixSucceedsAgain(clock, later, db, plan, |plan|);
    }
    if second.error.None? {
      forall i | 0 <= i < |plan| ensures !HandsOver(plan, i) {
        PrefixSucceeds(later, Initial(first.db), plan, i);
        StepAgainIff(clock, later, db, plan, i);
      }
      ExecuteKeepsIntegrity(clock, Initial(db), plan);
      SuccessWritesPlan(clock, Initial(db), plan);
      SuccessWritesPlan(later, Initial(first.db), plan);
      RewritingTwice(db, plan, first.db, second.db);
    }
  }

  lemma RewritingTwice(db: Db, plan: seq<Action>, first: Db, second: Db)
    requires Rewritten(db, plan, first) && Rewritten(first, plan, second)
    requires Integrity(first)
    ensures SameButTimes(plan, first, second)
  {
    forall k | k in first && Last(plan, k).Some?
      ensures second[k].id == first[k].id && second[k].body == first[k].body
      ensures k.table.Policies? && FixesExpiry(plan, k) ==> second[k].until == first[k].until
    {
      var a := Last(plan, k).value;
      assert WrittenBy(first[k], a) && WrittenBy(second[k], a) && KeyOf(first[k]) == k;
    }
  }

  // ---- Manifests that agree -----------------------------------------------------------

  /** Two manifests of one authority describe the same row, as when no two share a name. */
  ghost predicate Coherent(ms: seq<Manifest>) {
    forall i, j :: 0 <= i < |ms| && 0 <= j < |ms| && ms[i].kind == ms[j].kind && ms[i].name == ms[j].name ==>
      && (ms[i].kind.RootKind? ==> RootBody(ms[i]) == RootBody(ms[j]))
      && (ms[i].kind.IntermediateKind? ==> IntermediateBody(ms[i]) == IntermediateBody(ms[j]))
  }

  lemma {:induction false} DefinitionsComeFromManifests(ms: seq<Manifest>, a: Action) returns (i: nat)
    requires a in DefinePlan(ms) && a.Put?
    ensures i < |ms|
    ensures (ms[i].kind.RootKind? && a == PutRoot(ms[i])) ||
            (ms[i].kind.IntermediateKind? && a == PutIntermediate(ms[i]))
  {
    if a in DefineActions(ms[0]) {
      i := 0;
    } else {
      var j := DefinitionsComeFromManifests(ms[1..], a);
      i := j + 1;
    }
  }

  lemma {:induction false} SubjectsGrantRoles(
    role: Manifest, binding: Manifest, rule: Rule, target: string, subjects: seq<Subject>, a: Action)
    requires a in SubjectActions(role, binding, rule, target, subjects)
    ensures a.Put? && a.body.CARole?
  {
    if a != PutRole(role, binding, rule, subjects[0], target) {
      SubjectsGrantRoles(role, binding, rule, target, subjects[1..], a);
    }
  }

  lemma {:induction false} RulesGrantRoles(role: Manifest, binding: Manifest, rules: seq<Rule>, a: Action)
    requires a in RuleActions(role, binding, rules)
    ensures a.Put? && a.body.CARole?
  {
    if a in RuleActions(role, binding, rules[1..]) {
      RulesGrantRoles(role, binding, rules[1..], a);
    } else {
      SubjectsGrantRoles(role, binding, rules[0], RuleTarget(role, binding, rules[0]), binding.subjects, a);
    }
  }

  lemma {:induction false} UsesDefineNoAuthority(roles: map<string, Manifest>, ms: seq<Manifest>, a: Action)
    requires a in UsePlan(roles, ms) && a.Put?
    ensures !IsAuthority(TableOf(a.body))
  {
    if a in UsePlan(roles, ms[1..]) {
      UsesDefineNoAuthority(roles, ms[1..], a);
    } else {
      UseDefinesNoAuthority(roles, ms[0], a);
    }
  }

  lemma UseDefinesNoAuthority(roles: map<string, Manifest>, m: Manifest, a: Action)
    requires a in UseActions(roles, m) && a.Put?
    ensures !IsAuthority(TableOf(a.body))
  {
    if IsBinding(m.kind) && m.roleRef in roles {
      var role := roles[m.roleRef];
      assert a in RuleActions(role, m, role.rules);
      RulesGrantRoles(role, m, role.rules, a);
    }
  }

  lemma CoherentManifestsAgree(ms: seq<Manifest>)
    requires Coherent(ms)
    ensures AgreesOnAuthorities(Plan(ms))
  {
    var plan := Plan(ms);
    forall i, j | 0 <= i < |plan| && 0 <= j < |plan| && plan[i].Put? && plan[j].Put? &&
                  ActionKey(plan[i]) == ActionKey(plan[j]) && IsAuthority(TableOf(plan[i].body))
      ensures plan[i].body == plan[j].body
    {
      AuthorityPutIsDefined(ms, plan[i]);
      AuthorityPutIsDefined(ms, plan[j]);
      var x := DefinitionsComeFromManifests(ms, plan[i]);
      var y := DefinitionsComeFromManifests(ms, plan[j]);
    }
  }

  lemma {:induction false} AuthorityPutIsDefined(ms: seq<Manifest>, a: Action)
    requires a in Plan(ms) && a.Put? && IsAuthority(TableOf(a.body))
    ensures a in DefinePlan(ms)
  {
    if a in UsePlan(RoleIndex(map[], ms), ms) {
      UsesDefineNoAuthority(RoleIndex(map[], ms), ms, a);
    }
  }

  /** Where puts of one authority agree, a successful run leaves no fingerprint to hand over. */
  lemma {:induction false} AgreementHandsNothingOver(clock: nat -> Readings, db: Db, plan: seq<Action>, i: nat)
    requires Integrity(db) && Execute(clock, Initial(db), plan).error.None?
    requires AgreesOnAuthorities(plan) && i < |plan|
    ensures !HandsOver(plan, i)
  {
    SuccessWritesPlan(clock, Initial(db), plan);
    ExecuteKeepsIntegrity(clock, Initial(db), plan);
    if plan[i].Put? && IsAuthority(TableOf(plan[i].body)) {
      forall k ensures !TakesOver(plan, i, k) {
        NothingTakenOver(db, plan, Execute(clock, Initial(db), plan).db, i, k);
      }
    }
  }

  lemma NothingTakenOver(before: Db, plan: seq<Action>, after: Db, i: nat, k: Key)
    requires Rewritten(before, plan, after) && Integrity(after) && AgreesOnAuthorities(plan)
    requires i < |plan| && plan[i].Put? && IsAuthority(TableOf(plan[i].body))
    ensures !TakesOver(plan, i, k)
  {
    var own := ActionKey(plan[i]).value;
    LastIsFound(plan, i);
    var j := LastIsInPlan(plan, own);
    assert after[own].body == plan[i].body by {
      assert WrittenBy(after[own], plan[j]);
    }
    if k in after && k != own && k.table == own.table {
      FingerprintsDiffer(after, own, k);
    }
  }

  /** Applying coherent manifests again succeeds, counts the same and changes nothing but
      clock-derived validity and expiry. */
  lemma ReapplyIsStable(ms: seq<Manifest>, db: Db, clock: nat -> Readings, later: nat -> Readings)
    requires Integrity(db) && Coherent(ms)
    requires Execute(clock, Initial(db), Plan(ms)).error.None?
    ensures var first := Execute(clock, Initial(db), Plan(ms));
            var second := Execute(later, Initial(first.db), Plan(ms));
            second.error.None? && second.counts == first.counts && SameButTimes(Plan(ms), first.db, second.db)
  {
    var plan := Plan(ms);
    CoherentManifestsAgree(ms);
    forall i | 0 <= i < |plan| ensures !HandsOver(plan, i) {
      AgreementHandsNothingOver(clock, db, plan, i);
    }
    SecondRunSucceedsIff(clock, later, db, plan);
  }

  function RootManifest(name: string, fingerprint: string): Manifest {
    Manifest("v1", RootKind, name, "", "", fingerprint, "", "", "", "", "", [], [], "", "", [], [], [], Unset, 0,
             None, false, Unset)
  }

  lemma NotBlank(s: string, k: nat)
    requires k < |s| && !IsSpace(s[k])
    ensures !Blank(s)
  {
    assert s[k] in s;
  }

  lemma RootManifestBody(name: string, fingerprint: string)
    ensures var b := RootBody(RootManifest(name, fingerprint));
            b.status == "active" && b.fingerprint == fingerprint
  {
    TrimmedIsFixed("active");
    var values := ["", "active"];
    assert values[1..][0] == "active";
    assert FirstNonEmpty(values) == FirstNonEmpty(values[1..]);
  }

  lemma {:induction false} CountedPut(
    clock: nat -> Readings, s: State, id: string, b: Body, c: Counter, rest: seq<Action>)
    requires s.error.None? && b.RootCA?
    ensures var put := Put(id, b, None);
            var next := Perform(clock, s, put);
            Execute(clock, s, [put, Count(c)] + rest) ==
            if next.error.Some? then next else Execute(clock, Perform(clock, next, Count(c)), rest)
  {
    var put := Put(id, b, None);
    ExecuteAppend(clock, s, [put, Count(c)], rest);
    ExecuteTwo(clock, s, put, Count(c));
    if Perform(clock, s, put).error.None? {
      ExecuteTwo(clock, Perform(clock, s, put), Count(c), Count(c));
    }
  }

  lemma RootIsDefined(m: Manifest)
    requires m.kind.RootKind?
    ensures DefineActions(m) == RootActions(m)
  {
  }

  lemma {:induction false} RootPlan(ms: seq<Manifest>)
    requires ms != [] && ms[0].kind.RootKind?
    ensures DefinePlan(ms) == RootActions(ms[0]) + DefinePlan(ms[1..])
  {
    RootIsDefined(ms[0]);
  }

  lemma {:induction false} RootsUseNothing(roles: map<string, Manifest>, ms: seq<Manifest>)
    requires forall m :: m in ms ==> m.kind.RootKind?
    ensures UsePlan(roles, ms) == []
  {
    if ms != [] {
      RootsUseNothing(roles, ms[1..]);
    }
  }

  /** Authority A gives its fingerprint up for another one, and B takes it. */
  function Handover(): seq<Manifest> {
    [RootManifest("A", "1"), RootManifest("A", "2"), RootManifest("B", "1")]
  }

  lemma HandoverIsValid()
    ensures forall m :: m in Handover() ==> ValidManifest(m)
  {
    SampleIsValid("A", "1");
    SampleIsValid("A", "2");
    SampleIsValid("B", "1");
  }

  lemma HandoverReapplyFails(clock: nat -> Readings, later: nat -> Readings)
    ensures var first := Execute(clock, Initial(map[]), Plan(Handover()));
            first.error.None? && Execute(later, Initial(first.db), Plan(Handover())).error.Some?
  {
    RootManifestBody("A", "1");
    RootManifestBody("A", "2");
    RootManifestBody("B", "1");
    HandoverOfManifestsFails(clock, later, RootManifest("A", "1"), RootManifest("A", "2"), RootManifest("B", "1"));
  }

  /** Without coherence the second run of valid manifests can fail. */
  lemma IncoherentReapplyFails(clock: nat -> Readings, later: nat -> Readings) returns (ms: seq<Manifest>)
    ensures forall m :: m in ms ==> ValidManifest(m)
    ensures var first := Execute(clock, Initial(map[]), Plan(ms));
            first.error.None? && Execute(later, Initial(first.db), Plan(ms)).error.Some?
  {
    ms := Handover();
    HandoverIsValid();
    HandoverReapplyFails(clock, later);
  }

  lemma SampleIsValid(name: string, fingerprint: string)
    requires name in {"A", "B"} && fingerprint in {"1", "2"}
    ensures ValidManifest(RootManifest(name, fingerprint))
  {
    NotBlank(name, 0);
    NotBlank(fingerprint, 0);
    NotBlank("v1", 0);
  }

  lemma HandoverOfManifestsFails(
    clock: nat -> Readings, later: nat -> Readings, a1: Manifest, a2: Manifest, b: Manifest)
    requires a1.kind.RootKind? && a2.kind.RootKind? && b.kind.RootKind?
    requires a1.name == a2.name == "A" && b.name == "B"
    requires RootBody(a1).status == RootBody(a2).status == RootBody(b).status == "active"
    requires RootBody(a1).fingerprint == RootBody(b).fingerprint != RootBody(a2).fingerprint
    ensures var plan := Plan([a1, a2, b]);
            var first := Execute(clock, Initial(map[]), plan);
            first.error.None? && Execute(later, Initial(first.db), plan).error.Some?
  {
    ThreeRoots(a1, a2, b);
    HandoverFails(clock, later, RootBody(a1), RootBody(a2), RootBody(b));
  }

  lemma ThreeRoots(x: Manifest, y: Manifest, z: Manifest)
    requires x.kind.RootKind? && y.kind.RootKind? && z.kind.RootKind?
    ensures Plan([x, y, z]) == RootActions(x) + (RootActions(y) + (RootActions(z) + []))
  {
    var ms := [x, y, z];
    RootPlan(ms);
    RootPlan(ms[1..]);
    RootPlan(ms[2..]);
    assert ms[1..][1..] == ms[2..] && ms[2..][1..] == [];
    RootsUseNothing(RoleIndex(map[], ms), ms);
  }

  lemma HandoverFails(clock: nat -> Readings, later: nat -> Readings, a1: Body, a2: Body, b: Body)
    requires a1.RootCA? && a2.RootCA? && b.RootCA?
    requires a1.status == a2.status == b.status == "active"
    requires a1.fingerprint == b.fingerprint != a2.fingerprint
    ensures var plan := [Put("A", a1, None), Count(RootCAs)] +
                        ([Put("A", a2, None), Count(RootCAs)] + ([Put("B", b, None), Count(RootCAs)] + []));
            var first := Execute(clock, Initial(map[]), plan);
            first.error.None? && Execute(later, Initial(first.db), plan).error.Some?
  {
    var c := Count(RootCAs);
    var last := [Put("B", b, None), c] + [];
    var tail := [Put("A", a2, None), c] + last;
    var s0 := Initial(map[]);
    var s1, s2, s3 := Created(clock, s0, "A", a1), Created(clock, Created(clock, s0, "A", a1), "A", a2),
      Created(clock, Created(clock, Created(clock, s0, "A", a1), "A", a2), "B", b);
    RootPut(clock, s0, "A", a1);
    RootPut(clock, s1, "A", a2);
    RootPut(clock, s2, "B", b);
    CountedPut(clock, s0, "A", a1, RootCAs, tail);
    CountedPut(clock, s1, "A", a2, RootCAs, last);
    CountedPut(clock, s2, "B", b, RootCAs, []);
    assert Key(Roots, "B") in s3.db && Key(Roots, "B").id != "A";
    RootPut(later, Initial(s3.db), "A", a1);
    CountedPut(later, Initial(s3.db), "A", a1, RootCAs, tail);
  }

  function Created(clock: nat -> Readings, s: State, id: string, b: Body): State {
    Perform(clock, Perform(clock, s, Put(id, b, None)), Count(RootCAs))
  }

  lemma RootPut(clock: nat -> Readings, s: State, id: string, b: Body)
    requires b.RootCA? && b.status == "active" && s.error.None?
    ensures var k, put := Key(Roots, id), Perform(clock, s, Put(id, b, None));
            && (put.error.None? <==>
                  forall other ::
                    other in s.db && s.db[other].body.RootCA? && s.db[other].body.fingerprint == b.fingerprint ==>
                      other.id == id)
            && (put.error.None? ==>
                  && Created(clock, s, id, b).error.None?
                  && Created(clock, s, id, b).db == s.db[k := put.db[k]] && put.db[k].body == b)
  {
  }
}
