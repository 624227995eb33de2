/** The CA hierarchy of internal/api/status.go: a join of four tables through maps of
    positions and slices, proved equal to the nested-loop join, and the projection of old
    single-authority configurations into it. */
module Hierarchy {
  import opened Base
  import Tables
  import opened Rbac
  import opened Names
  import opened Grouping
  import opened CertificateStatus

  type RootRow = r: Row | r.body.RootCA? witness Row("", RootCA("", "", "", "", ""), 0, 0, 0)

  type IntermediateRow = r: Row | r.body.IntermediateCA?
    witness Row("", IntermediateCA("", "", "", "", "", "", "", 0, "", "", false, 0, false), 0, 0, 0)

  type RoleRow = r: Row | r.body.CARole? witness Row("", CARole("", "", "", ""), 0, 0, 0)

  type PolicyRow = r: Row | r.body.CATokenPolicy?
    witness Row("", CATokenPolicy("", "", "", "", 0, 0, false, false), 0, 0, 0)

  datatype RoleItem = RoleItem(id: string, name: string, subject: string, permissions: seq<string>)

  datatype PolicyItem = PolicyItem(
    id: string, name: string, certificateTypes: seq<string>, allowedDns: seq<string>, maxTtlSeconds: int,
    issuanceLimit: int, renewalAllowed: bool, requireApproval: bool, expiresAt: int)

  datatype IntermediateItem = IntermediateItem(
    id: string, name: string, environment: string, owner: string, namespace: string, fingerprint: string,
    status: string, maxTtlSeconds: int, allowedDns: seq<string>, allowedUsages: seq<string>, requireApproval: bool,
    issuanceLimit: int, renewalAllowed: bool, notBefore: int, notAfter: int, activeCerts: nat, revokedCerts: nat,
    roles: seq<RoleItem>, policies: seq<PolicyItem>)

  datatype RootItem = RootItem(
    id: string, name: string, environment: string, fingerprint: string, status: string, trustDomain: string,
    notBefore: int, notAfter: int, intermediates: seq<IntermediateItem>)

  datatype HierarchySummary = HierarchySummary(
    rootCAs: nat, intermediateCAs: nat, activeIssuers: nat, disabledIssuers: nat, retiredIssuers: nat,
    tokenPolicies: nat, roles: nat, pendingApprovals: nat)

  datatype Hierarchy = Hierarchy(roots: seq<RootItem>, summary: HierarchySummary)

  // ---- The nested-loop join -----------------------------------------------------------

  /** The rows next to the certificates that the join reads. */
  datatype Sources = Sources(
    roles: seq<RoleRow>, policies: seq<PolicyRow>, certs: seq<Tables.IssuedCertificate>, now: nat)

  function RoleItems(roles: seq<RoleRow>): seq<RoleItem> {
    seq(|roles|, i requires 0 <= i < |roles| =>
      RoleItem(roles[i].id, roles[i].body.name, roles[i].body.subject, Split(roles[i].body.permissions)))
  }

  function RoleParents(roles: seq<RoleRow>): seq<string> {
    seq(|roles|, i requires 0 <= i < |roles| => roles[i].body.intermediateId)
  }

  function PolicyItems(policies: seq<PolicyRow>): seq<PolicyItem> {
    seq(|policies|, i requires 0 <= i < |policies| =>
      var b := policies[i].body;
      PolicyItem(policies[i].id, b.name, Split(b.certificateTypes), Split(b.allowedDns), b.maxTtlSeconds,
                 b.issuanceLimit, b.renewalAllowed, b.requireApproval, policies[i].until))
  }

  function PolicyParents(policies: seq<PolicyRow>): seq<string> {
    seq(|policies|, i requires 0 <= i < |policies| => policies[i].body.intermediateId)
  }

  function ItemWith(
    r: IntermediateRow, active: nat, revoked: nat, roles: seq<RoleItem>, policies: seq<PolicyItem>): IntermediateItem {
    var b := r.body;
    IntermediateItem(
      r.id, b.name, b.environment, b.owner, b.namespace, b.fingerprint, b.status, b.maxTtlSeconds, Split(b.allowedDns),
      Split(b.allowedUsages), b.requireApproval, b.issuanceLimit, b.renewalAllowed, r.notBefore, r.until,
      active, revoked, roles, policies)
  }

  /** An intermediate with the certificates, roles and policies that name it. */
  function Item(r: IntermediateRow, src: Sources): IntermediateItem {
    ItemWith(r,
             CountFor(src.certs, Current, src.now, r.id),
             CountFor(src.certs, Withdrawn, src.now, r.id) + CountFor(src.certs, Outdated, src.now, r.id),
             Select(RoleParents(src.roles), RoleItems(src.roles), r.id),
             Select(PolicyParents(src.policies), PolicyItems(src.policies), r.id))
  }

  function IntermediateItems(rows: seq<IntermediateRow>, src: Sources): seq<IntermediateItem> {
    seq(|rows|, i requires 0 <= i < |rows| => Item(rows[i], src))
  }

  function RootIds(rows: seq<IntermediateRow>): seq<string> {
    seq(|rows|, i requires 0 <= i < |rows| => rows[i].body.rootId)
  }

  function Ids(rows: seq<RootRow>): seq<string> {
    seq(|rows|, i requires 0 <= i < |rows| => rows[i].id)
  }

  function Bare(r: RootRow): RootItem {
    RootItem(r.id, r.body.name, r.body.environment, r.body.fingerprint, r.body.status, r.body.trustDomain,
             r.notBefore, r.until, [])
  }

  /** No later root has this root's id. */
  predicate LastOfItsId(roots: seq<RootRow>, j: nat)
    requires j < |roots|
  {
    forall k :: j < k < |roots| ==> roots[k].id != roots[j].id
  }

  /** Root j with every intermediate that names it, in the order of the rows; of roots that
      share an id the last gets them all. */
  function Joined(roots: seq<RootRow>, rows: seq<IntermediateRow>, src: Sources, j: nat): RootItem
    requires j < |roots|
  {
    if LastOfItsId(roots, j)
    then Bare(roots[j]).(intermediates := Select(RootIds(rows), IntermediateItems(rows, src), roots[j].id))
    else Bare(roots[j])
  }

  function NestedJoin(roots: seq<RootRow>, rows: seq<IntermediateRow>, src: Sources): seq<RootItem> {
    seq(|roots|, j requires 0 <= j < |roots| => Joined(roots, rows, src, j))
  }

  function WithStatus(rows: seq<IntermediateRow>, status: string): nat {
    if rows == [] then 0
    else WithStatus(rows[..|rows| - 1], status) + (if rows[|rows| - 1].body.status == status then 1 else 0)
  }

  function Guarded(rows: seq<IntermediateRow>): nat {
    if rows == [] then 0
    else Guarded(rows[..|rows| - 1]) + (if rows[|rows| - 1].body.requireApproval then 1 else 0)
  }

  ghost predicate CountsIssuers(s: HierarchySummary, rows: seq<IntermediateRow>) {
    && s.activeIssuers == WithStatus(rows, "active") && s.disabledIssuers == WithStatus(rows, "disabled")
    && s.retiredIssuers == WithStatus(rows, "retired") && s.pendingApprovals == Guarded(rows)
  }

  ghost predicate CountsRows(s: HierarchySummary, roots: seq<RootRow>, rows: seq<IntermediateRow>, src: Sources) {
    s.rootCAs == |roots| && s.intermediateCAs == |rows| && s.roles == |src.roles| && s.tokenPolicies == |src.policies|
  }

  // ---- What a hierarchy says, column by column ------------------------------------------

  /** Positions in ascending order. */
  ghost predicate Ascending(at: seq<nat>) {
    forall m, n :: 0 <= m < n < |at| ==> at[m] < at[n]
  }

  ghost predicate ShowsRole(item: RoleItem, r: RoleRow) {
    && item.id == r.id && item.name == r.body.name && item.subject == r.body.subject
    && item.permissions == Split(r.body.permissions)
  }

  ghost predicate ShowsPolicy(item: PolicyItem, r: PolicyRow) {
    && item.id == r.id && item.name == r.body.name && item.certificateTypes == Split(r.body.certificateTypes)
    && item.allowedDns == Split(r.body.allowedDns) && item.maxTtlSeconds == r.body.maxTtlSeconds
    && item.issuanceLimit == r.body.issuanceLimit && item.renewalAllowed == r.body.renewalAllowed
    && item.requireApproval == r.body.requireApproval && item.expiresAt == r.until
  }

  /** The items show the rows at these positions, which are those of all rows that name the
      intermediate. */
  ghost predicate ShowsRoles(items: seq<RoleItem>, roles: seq<RoleRow>, id: string, at: seq<nat>) {
    && |items| == |at| && Ascending(at)
    && (forall m :: 0 <= m < |at| ==>
          at[m] < |roles| && roles[at[m]].body.intermediateId == id && ShowsRole(items[m], roles[at[m]]))
    && (forall k: nat :: k < |roles| && roles[k].body.intermediateId == id ==> k in at)
  }

  ghost predicate ShowsPolicies(items: seq<PolicyItem>, policies: seq<PolicyRow>, id: string, at: seq<nat>) {
    && |items| == |at| && Ascending(at)
    && (forall m :: 0 <= m < |at| ==>
          at[m] < |policies| && policies[at[m]].body.intermediateId == id && ShowsPolicy(items[m], policies[at[m]]))
    && (forall k: nat :: k < |policies| && policies[k].body.intermediateId == id ==> k in at)
  }

  ghost predicate ShowsColumns(item: IntermediateItem, r: IntermediateRow) {
    && item.id == r.id && item.name == r.body.name && item.environment == r.body.environment
    && item.owner == r.body.owner && item.namespace == r.body.namespace
    && item.fingerprint == r.body.fingerprint && item.status == r.body.status
    && item.maxTtlSeconds == r.body.maxTtlSeconds && item.allowedDns == Split(r.body.allowedDns)
    && item.allowedUsages == Split(r.body.allowedUsages) && item.requireApproval == r.body.requireApproval
    && item.issuanceLimit == r.body.issuanceLimit && item.renewalAllowed == r.body.renewalAllowed
    && item.notBefore == r.notBefore && item.notAfter == r.until
  }

  /** The item has its row's columns, counts its certificates, and shows its roles and policies. */
  ghost predicate ShowsIntermediate(item: IntermediateItem, r: IntermediateRow, src: Sources) {
    && ShowsColumns(item, r)
    && item.activeCerts == |Valid(src.certs, src.now, r.id)| && item.revokedCerts == |Gone(src.certs, src.now, r.id)|
    && (exists at :: ShowsRoles(item.roles, src.roles, r.id, at))
    && (exists at :: ShowsPolicies(item.policies, src.policies, r.id, at))
  }

  ghost predicate ShowsChildren(
    items: seq<IntermediateItem>, rows: seq<IntermediateRow>, src: Sources, id: string, at: seq<nat>) {
    && |items| == |at| && Ascending(at)
    && (forall m :: 0 <= m < |at| ==>
          at[m] < |rows| && rows[at[m]].body.rootId == id && ShowsIntermediate(items[m], rows[at[m]], src))
    && (forall k: nat :: k < |rows| && rows[k].body.rootId == id ==> k in at)
  }

  /** The last root of an id shows all intermediates that name it, an earlier one none. */
  ghost predicate ShowsRoot(item: RootItem, roots: seq<RootRow>, j: nat, rows: seq<IntermediateRow>, src: Sources)
    requires j < |roots|
  {
    var r := roots[j];
    && item.id == r.id && item.name == r.body.name && item.environment == r.body.environment
    && item.fingerprint == r.body.fingerprint && item.status == r.body.status
    && item.trustDomain == r.body.trustDomain && item.notBefore == r.notBefore && item.notAfter == r.until
    && if exists k :: j < k < |roots| && roots[k].id == r.id then item.intermediates == []
       else exists at :: ShowsChildren(item.intermediates, rows, src, r.id, at)
  }

  ghost predicate ShowsAll(items: seq<RootItem>, roots: seq<RootRow>, rows: seq<IntermediateRow>, src: Sources) {
    |items| == |roots| && forall j: nat :: j < |roots| ==> ShowsRoot(items[j], roots, j, rows, src)
  }

  /** The positions of a key, and what is selected by it. */
  lemma {:induction false} SelectionPositions<T>(keys: seq<string>, xs: seq<T>, id: string) returns (at: seq<nat>)
    requires |keys| == |xs|
    ensures |Select(keys, xs, id)| == |at| && Ascending(at)
    ensures forall m :: 0 <= m < |at| ==> at[m] < |xs| && keys[at[m]] == id && Select(keys, xs, id)[m] == xs[at[m]]
    ensures forall k: nat :: k < |xs| && keys[k] == id ==> k in at
  {
    if xs == [] {
      at := [];
    } else {
      var n := |xs| - 1;
      var before := Select(keys[..n], xs[..n], id);
      at := SelectionPositions(keys[..n], xs[..n], id);
      if keys[n] == id {
        assert Select(keys, xs, id) == before + [xs[n]];
        at := at + [n];
      } else {
        assert Select(keys, xs, id) == before;
      }
    }
  }

  lemma ItemShowsRoles(r: IntermediateRow, src: Sources)
    ensures exists at :: ShowsRoles(Item(r, src).roles, src.roles, r.id, at)
  {
    var at := SelectionPositions(RoleParents(src.roles), RoleItems(src.roles), r.id);
    forall k: nat | k < |src.roles| && src.roles[k].body.intermediateId == r.id ensures k in at {
      assert RoleParents(src.roles)[k] == r.id;
    }
    assert ShowsRoles(Item(r, src).roles, src.roles, r.id, at);
  }

  lemma ItemShowsPolicies(r: IntermediateRow, src: Sources)
    ensures exists at :: ShowsPolicies(Item(r, src).policies, src.policies, r.id, at)
  {
    var at := SelectionPositions(PolicyParents(src.policies), PolicyItems(src.policies), r.id);
    forall k: nat | k < |src.policies| && src.policies[k].body.intermediateId == r.id ensures k in at {
      assert PolicyParents(src.policies)[k] == r.id;
    }
    assert ShowsPolicies(Item(r, src).policies, src.policies, r.id, at);
  }

  lemma ItemShowsRow(r: IntermediateRow, src: Sources)
    ensures ShowsIntermediate(Item(r, src), r, src)
  {
    CountForValid(src.certs, src.now, r.id);
    CountForGone(src.certs, src.now, r.id);
    ItemShowsRoles(r, src);
    ItemShowsPolicies(r, src);
  }

  lemma {:induction false} SelectionShowsChildren(rows: seq<IntermediateRow>, src: Sources, id: string)
    ensures exists at :: ShowsChildren(Select(RootIds(rows), IntermediateItems(rows, src), id), rows, src, id, at)
  {
    var items := Select(RootIds(rows), IntermediateItems(rows, src), id);
    var at := SelectionPositions(RootIds(rows), IntermediateItems(rows, src), id);
    forall m | 0 <= m < |at| ensures ShowsIntermediate(items[m], rows[at[m]], src) {
      ItemShowsRow(rows[at[m]], src);
    }
    forall k: nat | k < |rows| && rows[k].body.rootId == id ensures k in at {
      assert RootIds(rows)[k] == id;
    }
    assert ShowsChildren(items, rows, src, id, at);
  }

  /** The join says what it should. */
  lemma JoinShowsAll(roots: seq<RootRow>, rows: seq<IntermediateRow>, src: Sources)
    ensures ShowsAll(NestedJoin(roots, rows, src), roots, rows, src)
  {
    forall j: nat | j < |roots| ensures ShowsRoot(Joined(roots, rows, src, j), roots, j, rows, src) {
      SelectionShowsChildren(rows, src, roots[j].id);
    }
  }

  // ---- The program's join ---------------------------------------------------------------

  /** Where the last root of each id is. */
  ghost predicate Indexes(index: map<string, nat>, roots: seq<RootRow>) {
    && (forall id :: id in index ==> index[id] < |roots| && roots[index[id]].id == id && LastOfItsId(roots, index[id]))
    && (forall j: nat :: j < |roots| ==> roots[j].id in index)
  }

  /** The first loop: one bare item per root. */
  method IndexRoots(roots: seq<RootRow>) returns (items: seq<RootItem>, index: map<string, nat>)
    ensures items == seq(|roots|, j requires 0 <= j < |roots| => Bare(roots[j]))
    ensures Indexes(index, roots)
  {
    items, index := [], map[];
    for i := 0 to |roots|
      invariant |items| == i && forall j :: 0 <= j < i ==> items[j] == Bare(roots[j])
      invariant forall id :: id in index ==>
                  index[id] < i && roots[index[id]].id == id && LastOfItsId(roots[..i], index[id])
      invariant forall j: nat :: j < i ==> roots[j].id in index
    {
      index := index[roots[i].id := i];
      items := items + [Bare(roots[i])];
    }
    assert roots[..|roots|] == roots;
  }

  /** The slices and counters found in the maps, for one intermediate. */
  method NewItem(
    r: IntermediateRow, src: Sources, roleBy: map<string, seq<RoleItem>>, policyBy: map<string, seq<PolicyItem>>,
    active: map<string, nat>, revoked: map<string, nat>)
    returns (item: IntermediateItem)
    requires Lookup(roleBy, r.id) == Select(RoleParents(src.roles), RoleItems(src.roles), r.id)
    requires Lookup(policyBy, r.id) == Select(PolicyParents(src.policies), PolicyItems(src.policies), r.id)
    requires Tally(active, r.id) == CountFor(src.certs, Current, src.now, r.id)
    requires Tally(revoked, r.id) ==
             CountFor(src.certs, Withdrawn, src.now, r.id) + CountFor(src.certs, Outdated, src.now, r.id)
    ensures item == Item(r, src)
  {
    item := ItemWith(r, Tally(active, r.id), Tally(revoked, r.id), Lookup(roleBy, r.id), Lookup(policyBy, r.id));
  }

  /** The item appended to the root that the index names, if any. */
  method Attach(items: seq<RootItem>, roots: seq<RootRow>, index: map<string, nat>, ghost rows: seq<IntermediateRow>,
                r: IntermediateRow, ghost src: Sources, item: IntermediateItem)
    returns (items': seq<RootItem>)
    requires Indexes(index, roots) && item == Item(r, src) && items == NestedJoin(roots, rows, src)
    ensures items' == NestedJoin(roots, rows + [r], src)
  {
    JoinOneMore(roots, rows, r, src, index);
    items' := items;
    if r.body.rootId in index {
      var idx := index[r.body.rootId];
      items' := items[idx := items[idx].(intermediates := items[idx].intermediates + [item])];
    }
  }

  method BuildCAHierarchy(roots: seq<RootRow>, rows: seq<IntermediateRow>, src: Sources) returns (h: Hierarchy)
    ensures h.roots == NestedJoin(roots, rows, src)
    ensures ShowsAll(h.roots, roots, rows, src)
    ensures CountsRows(h.summary, roots, rows, src) && CountsIssuers(h.summary, rows)
  {
    var items, index := IndexRoots(roots);
    var roleBy := GroupBy(RoleParents(src.roles), RoleItems(src.roles));
    var policyBy := GroupBy(PolicyParents(src.policies), PolicyItems(src.policies));
    var active, revoked := CertificateCountsByCA(src.certs, src.now);
    var s := HierarchySummary(|items|, |rows|, 0, 0, 0, |src.policies|, |src.roles|, 0);
    JoinOfNothing(roots, src);
    var k := 0;
    while k < |rows|
      invariant 0 <= k <= |rows|
      invariant items == NestedJoin(roots, rows[..k], src)
      invariant CountsRows(s, roots, rows, src) && CountsIssuers(s, rows[..k])
    {
      var r := rows[k];
      var item := NewItem(r, src, roleBy, policyBy, active, revoked);
      CountedOneMore(s, roots, rows, src, rows[..k], r);
      s := Counted(s, r);
      items := Attach(items, roots, index, rows[..k], r, src, item);
      assert rows[..k + 1] == rows[..k] + [r];
      k := k + 1;
    }
    assert rows[..k] == rows;
    JoinShowsAll(roots, rows, src);
    h := Hierarchy(items, s);
  }

  lemma JoinOfNothing(roots: seq<RootRow>, src: Sources)
    ensures NestedJoin(roots, [], src) == seq(|roots|, j requires 0 <= j < |roots| => Bare(roots[j]))
  {
  }

  /** The counters that one intermediate moves. */
  function Counted(s: HierarchySummary, r: IntermediateRow): HierarchySummary {
    var t :=
      match r.body.status
      case "active" => s.(activeIssuers := s.activeIssuers + 1)
      case "disabled" => s.(disabledIssuers := s.disabledIssuers + 1)
      case "retired" => s.(retiredIssuers := s.retiredIssuers + 1)
      case _ => s;
    if r.body.requireApproval then t.(pendingApprovals := t.pendingApprovals + 1) else t
  }

  lemma CountedOneMore(s: HierarchySummary, roots: seq<RootRow>, rows: seq<IntermediateRow>, src: Sources,
                       done: seq<IntermediateRow>, r: IntermediateRow)
    requires CountsRows(s, roots, rows, src) && CountsIssuers(s, done)
    ensures CountsRows(Counted(s, r), roots, rows, src) && CountsIssuers(Counted(s, r), done + [r])
  {
    assert (done + [r])[..|done|] == done;
  }

  /** What the second loop does to the items for one intermediate. */
  lemma JoinOneMore(
    roots: seq<RootRow>, rows: seq<IntermediateRow>, r: IntermediateRow, src: Sources, index: map<string, nat>)
    requires Indexes(index, roots)
    ensures forall j: nat :: j < |roots| ==>
      var before, after := Joined(roots, rows, src, j), Joined(roots, rows + [r], src, j);
      after == if r.body.rootId in index && index[r.body.rootId] == j
               then before.(intermediates := before.intermediates + [Item(r, src)]) else before
  {
    forall j: nat | j < |roots|
      ensures var before, after := Joined(roots, rows, src, j), Joined(roots, rows + [r], src, j);
              after == if r.body.rootId in index && index[r.body.rootId] == j
                       then before.(intermediates := before.intermediates + [Item(r, src)]) else before
    {
      JoinedOneMore(roots, rows, r, src, j);
      if r.body.rootId == roots[j].id {
        var last := index[r.body.rootId];
        assert j <= last && (j < last ==> !LastOfItsId(roots, j));
      }
    }
  }

  lemma JoinedOneMore(roots: seq<RootRow>, rows: seq<IntermediateRow>, r: IntermediateRow, src: Sources, j: nat)
    requires j < |roots|
    ensures var before, after := Joined(roots, rows, src, j), Joined(roots, rows + [r], src, j);
            after == if LastOfItsId(roots, j) && r.body.rootId == roots[j].id
                     then before.(intermediates := before.intermediates + [Item(r, src)]) else before
  {
    var more := rows + [r];
    assert RootIds(more)[..|rows|] == RootIds(rows);
    assert IntermediateItems(more, src)[..|rows|] == IntermediateItems(rows, src);
  }

  // ---- Nothing is lost ------------------------------------------------------------------

  /** All intermediates that the roots list, root after root. */
  function Listed(roots: seq<RootItem>): seq<IntermediateItem> {
    if roots == [] then [] else Listed(roots[..|roots| - 1]) + roots[|roots| - 1].intermediates
  }

  lemma {:induction false} ListedIsGrouped(
    roots: seq<RootRow>, rows: seq<IntermediateRow>, src: Sources, items: seq<RootItem>)
    requires |items| == |roots|
    requires forall j :: 0 <= j < |roots| ==>
      items[j].intermediates == Select(RootIds(rows), IntermediateItems(rows, src), roots[j].id)
    ensures Listed(items) == Grouped(RootIds(rows), IntermediateItems(rows, src), Ids(roots))
  {
    if roots != [] {
      var n := |roots| - 1;
      ListedIsGrouped(roots[..n], rows, src, items[..n]);
      assert Ids(roots)[..n] == Ids(roots[..n]);
    }
  }

  /** With distinct root ids each root lists exactly its own intermediates in order, none is
      listed twice, and all are listed exactly when every reference resolves. */
  lemma {:induction false} DistinctRootsListEverything(
    roots: seq<RootRow>, rows: seq<IntermediateRow>, src: Sources, items: seq<RootItem>)
    requires Distinct(Ids(roots)) && items == NestedJoin(roots, rows, src)
    ensures forall j :: 0 <= j < |roots| ==>
              items[j].intermediates == Select(RootIds(rows), IntermediateItems(rows, src), roots[j].id)
    ensures multiset(Listed(items)) == multiset(Among(RootIds(rows), IntermediateItems(rows, src), Ids(roots)))
    ensures multiset(Listed(items)) == multiset(IntermediateItems(rows, src)) <==>
            forall k :: k in RootIds(rows) ==> k in Ids(roots)
  {
    forall j: nat | j < |roots| ensures LastOfItsId(roots, j) {
      forall k | j < k < |roots| ensures roots[k].id != roots[j].id {
        assert Ids(roots)[j] != Ids(roots)[k];
      }
    }
    var keys, all, ids := RootIds(rows), IntermediateItems(rows, src), Ids(roots);
    ListedIsGrouped(roots, rows, src, items);
    GroupingConserves(keys, all, ids);
    AmongAllIff(keys, all, ids);
    assert |multiset(Listed(items))| == |multiset(Among(keys, all, ids))| == |Among(keys, all, ids)|;
    assert |multiset(all)| == |all|;
  }

  /** A listing of one table: every row of it, under distinct ids. */
  ghost predicate Lists(rows: seq<Row>, db: Db, table: Table) {
    && (forall i, j :: 0 <= i < j < |rows| ==> rows[i].id != rows[j].id)
    && (forall i :: 0 <= i < |rows| ==> Key(table, rows[i].id) in db && db[Key(table, rows[i].id)] == rows[i])
    && (forall k :: k in db && k.table == table ==> db[k] in rows)
  }

  /** Foreign keys make the references resolve, so the hierarchy of a store that keeps its
      constraints lists every intermediate. */
  lemma {:induction false} StoredHierarchyIsComplete(
    db: Db, roots: seq<RootRow>, rows: seq<IntermediateRow>, src: Sources, items: seq<RootItem>)
    requires Integrity(db) && Lists(roots, db, Roots) && Lists(rows, db, Intermediates)
    requires items == NestedJoin(roots, rows, src)
    ensures multiset(Listed(items)) == multiset(IntermediateItems(rows, src))
  {
    StoredReferencesResolve(db, roots, rows);
    assert Distinct(Ids(roots));
    DistinctRootsListEverything(roots, rows, src, items);
  }

  lemma StoredReferencesResolve(db: Db, roots: seq<RootRow>, rows: seq<IntermediateRow>)
    requires Integrity(db) && Lists(roots, db, Roots) && Lists(rows, db, Intermediates)
    ensures forall k :: k in RootIds(rows) ==> k in Ids(roots)
  {
    var keys := RootIds(rows);
    forall i | 0 <= i < |keys| ensures keys[i] in Ids(roots) {
      var parent := Key(Roots, rows[i].body.rootId);
      assert Accepts(db, db[Key(Intermediates, rows[i].id)]) && parent in db;
      var j :| 0 <= j < |roots| && roots[j] == db[parent];
      assert KeyOf(db[parent]) == parent && Ids(roots)[j] == keys[i];
    }
  }

  // ---- The certificates add up ------------------------------------------------------------

  function SumActive(items: seq<IntermediateItem>): nat {
    if items == [] then 0 else SumActive(items[..|items| - 1]) + items[|items| - 1].activeCerts
  }

  function SumRevoked(items: seq<IntermediateItem>): nat {
    if items == [] then 0 else SumRevoked(items[..|items| - 1]) + items[|items| - 1].revokedCerts
  }

  /** The sums without the item at one position. */
  lemma {:induction false} SumsWithout(items: seq<IntermediateItem>, i: nat)
    requires i < |items|
    ensures SumActive(items) == SumActive(items[..i] + items[i + 1..]) + items[i].activeCerts
    ensures SumRevoked(items) == SumRevoked(items[..i] + items[i + 1..]) + items[i].revokedCerts
  {
    var n := |items| - 1;
    var rest := items[..i] + items[i + 1..];
    if i == n {
      assert rest == items[..n];
    } else {
      SumsWithout(items[..n], i);
      assert rest[..|rest| - 1] == items[..n][..i] + items[..n][i + 1..];
    }
  }

  lemma WithoutSame<T>(xs: seq<T>, ys: seq<T>, i: nat)
    requires multiset(xs) == multiset(ys) && xs != [] && i < |ys| && ys[i] == xs[|xs| - 1]
    ensures multiset(xs[..|xs| - 1]) == multiset(ys[..i] + ys[i + 1..])
  {
    var init, last, rest := xs[..|xs| - 1], xs[|xs| - 1], ys[..i] + ys[i + 1..];
    assert xs == init + [last];
    assert ys == ys[..i] + [ys[i]] + ys[i + 1..];
    assert multiset(xs) == multiset(init) + multiset{last};
    assert multiset(ys) == multiset(rest) + multiset{last};
    assert multiset(init) == multiset(xs) - multiset{last};
    assert multiset(rest) == multiset(ys) - multiset{last};
  }

  /** The sums do not depend on the order. */
  lemma {:induction false} SumsIgnoreOrder(xs: seq<IntermediateItem>, ys: seq<IntermediateItem>)
    requires multiset(xs) == multiset(ys)
    ensures SumActive(xs) == SumActive(ys) && SumRevoked(xs) == SumRevoked(ys)
    decreases xs
  {
    assert |multiset(xs)| == |xs| && |multiset(ys)| == |ys|;
    if xs != [] {
      var n := |xs| - 1;
      assert xs[n] in multiset(ys);
      var i :| 0 <= i < |ys| && ys[i] == xs[n];
      SumsWithout(ys, i);
      WithoutSame(xs, ys, i);
      SumsIgnoreOrder(xs[..n], ys[..i] + ys[i + 1..]);
    }
  }

  function RowIds(rows: seq<IntermediateRow>): seq<string> {
    seq(|rows|, i requires 0 <= i < |rows| => rows[i].id)
  }

  lemma {:induction false} SumsOfItems(rows: seq<IntermediateRow>, src: Sources)
    ensures SumActive(IntermediateItems(rows, src)) == SumFor(src.certs, Current, src.now, RowIds(rows))
    ensures SumRevoked(IntermediateItems(rows, src)) ==
            SumFor(src.certs, Withdrawn, src.now, RowIds(rows)) + SumFor(src.certs, Outdated, src.now, RowIds(rows))
  {
    if rows != [] {
      SumsOfItems(rows[..|rows| - 1], src);
      LastItemCounts(rows, src);
      var items, ids := IntermediateItems(rows, src), RowIds(rows);
      assert items != [] && ids != [];
    }
  }

  lemma LastItemCounts(rows: seq<IntermediateRow>, src: Sources)
    requires rows != []
    ensures var n, items := |rows| - 1, IntermediateItems(rows, src);
            && items[..n] == IntermediateItems(rows[..n], src) && RowIds(rows)[..n] == RowIds(rows[..n])
            && items[n].activeCerts == CountFor(src.certs, Current, src.now, rows[n].id)
            && items[n].revokedCerts == CountFor(src.certs, Withdrawn, src.now, rows[n].id) +
                                        CountFor(src.certs, Outdated, src.now, rows[n].id)
  {
  }

  /** In a store that keeps its constraints the listed numbers of certificates sum to the
      summary's, valid ones and revoked or expired ones, exactly when the listed intermediates
      issued all of them. */
  lemma {:induction false} ListedCertificatesAddUpIff(
    db: Db, roots: seq<RootRow>, rows: seq<IntermediateRow>, src: Sources, items: seq<RootItem>)
    requires Integrity(db) && Lists(roots, db, Roots) && Lists(rows, db, Intermediates)
    requires items == NestedJoin(roots, rows, src)
    ensures SumActive(Listed(items)) == |WithStanding(src.certs, Current, src.now)| <==>
            Covers(RowIds(rows), src.certs, Current, src.now)
    ensures SumRevoked(Listed(items)) ==
            |WithStanding(src.certs, Withdrawn, src.now)| + |WithStanding(src.certs, Outdated, src.now)| <==>
            Covers(RowIds(rows), src.certs, Withdrawn, src.now) && Covers(RowIds(rows), src.certs, Outdated, src.now)
  {
    StoredHierarchyIsComplete(db, roots, rows, src, items);
    SumsIgnoreOrder(Listed(items), IntermediateItems(rows, src));
    SumsOfItems(rows, src);
    assert Distinct(RowIds(rows));
    CountsCoverIff(src.certs, Current, src.now, RowIds(rows));
    CountsCoverIff(src.certs, Withdrawn, src.now, RowIds(rows));
    CountsCoverIff(src.certs, Outdated, src.now, RowIds(rows));
  }

  // ---- Old configurations -----------------------------------------------------------------

  function LegacyRootId(c: Tables.CAConfig): string {
    "legacy-root-" + c.caId
  }

  function LegacyRoot(c: Tables.CAConfig): RootRow {
    Row(LegacyRootId(c), RootCA(c.name + " Root", "legacy", c.rootFingerprint, c.status, ""), c.createdAt,
        c.notBefore, c.notAfter)
  }

  function LegacyIntermediate(c: Tables.CAConfig): IntermediateRow {
    Row(c.caId,
        IntermediateCA(LegacyRootId(c), c.name, "legacy", "", "", c.intermediateFingerprint, c.status, 0, "", "",
                       false, 0, true),
        c.createdAt, c.notBefore, c.notAfter)
  }

  function LegacyRoots(configs: seq<Tables.CAConfig>): seq<RootRow> {
    seq(|configs|, i requires 0 <= i < |configs| => LegacyRoot(configs[i]))
  }

  function LegacyIntermediates(configs: seq<Tables.CAConfig>): seq<IntermediateRow> {
    seq(|configs|, i requires 0 <= i < |configs| => LegacyIntermediate(configs[i]))
  }

  function CaIds(configs: seq<Tables.CAConfig>): seq<string> {
    seq(|configs|, i requires 0 <= i < |configs| => configs[i].caId)
  }

  /** A root made of an old configuration, with its one intermediate. */
  ghost predicate ShowsLegacy(item: RootItem, c: Tables.CAConfig, certs: seq<Tables.IssuedCertificate>, now: nat) {
    && item.id == "legacy-root-" + c.caId && item.name == c.name + " Root" && item.environment == "legacy"
    && item.fingerprint == c.rootFingerprint && item.status == c.status && item.trustDomain == ""
    && item.notBefore == c.notBefore && item.notAfter == c.notAfter
    && |item.intermediates| == 1 && ShowsLegacyIssuer(item.intermediates[0], c)
    && item.intermediates[0].activeCerts == |Valid(certs, now, c.caId)|
    && item.intermediates[0].revokedCerts == |Gone(certs, now, c.caId)|
  }

  ghost predicate ShowsLegacyIssuer(item: IntermediateItem, c: Tables.CAConfig) {
    && item.id == c.caId && item.name == c.name && item.environment == "legacy"
    && item.fingerprint == c.intermediateFingerprint && item.status == c.status && item.renewalAllowed
    && item.notBefore == c.notBefore && item.notAfter == c.notAfter
    && item.owner == "" && item.namespace == "" && item.maxTtlSeconds == 0 && item.issuanceLimit == 0
    && !item.requireApproval && item.allowedDns == [] && item.allowedUsages == []
    && item.roles == [] && item.policies == []
  }

  lemma LegacyItemShows(c: Tables.CAConfig, certs: seq<Tables.IssuedCertificate>, now: nat)
    ensures var item := Item(LegacyIntermediate(c), Sources([], [], certs, now));
            ShowsLegacy(Bare(LegacyRoot(c)).(intermediates := [item]), c, certs, now)
  {
    CountForValid(certs, now, c.caId);
    CountForGone(certs, now, c.caId);
    assert Split("") == [];
  }

  /** legacyCAHierarchy: with distinct authorities every root has its own one intermediate,
      which counts that authority's certificates. */
  method LegacyCAHierarchy(configs: seq<Tables.CAConfig>, certs: seq<Tables.IssuedCertificate>, now: nat)
    returns (h: Hierarchy)
    ensures h.roots == NestedJoin(LegacyRoots(configs), LegacyIntermediates(configs), Sources([], [], certs, now))
    ensures CountsRows(h.summary, LegacyRoots(configs), LegacyIntermediates(configs), Sources([], [], certs, now))
    ensures CountsIssuers(h.summary, LegacyIntermediates(configs))
    ensures |h.roots| == |configs|
    ensures Distinct(CaIds(configs)) ==>
              forall j :: 0 <= j < |configs| ==> ShowsLegacy(h.roots[j], configs[j], certs, now)
  {
    var roots: seq<RootRow>, rows: seq<IntermediateRow> := [], [];
    for i := 0 to |configs|
      invariant roots == LegacyRoots(configs[..i]) && rows == LegacyIntermediates(configs[..i])
    {
      roots := roots + [LegacyRoot(configs[i])];
      rows := rows + [LegacyIntermediate(configs[i])];
    }
    assert configs[..|configs|] == configs;
    var src := Sources([], [], certs, now);
    h := BuildCAHierarchy(roots, rows, src);
    forall j | Distinct(CaIds(configs)) && 0 <= j < |configs|
      ensures ShowsLegacy(h.roots[j], configs[j], certs, now)
    {
      LegacyJoin(configs, src, j);
      LegacyItemShows(configs[j], certs, now);
    }
  }

  lemma LegacyJoin(configs: seq<Tables.CAConfig>, src: Sources, j: nat)
    requires Distinct(CaIds(configs)) && j < |configs|
    ensures var roots, rows := LegacyRoots(configs), LegacyIntermediates(configs);
            Joined(roots, rows, src, j) == Bare(roots[j]).(intermediates := [Item(rows[j], src)])
  {
    var roots, rows := LegacyRoots(configs), LegacyIntermediates(configs);
    forall k | 0 <= k < |configs| && k != j ensures roots[k].id != roots[j].id {
      assert CaIds(configs)[k] != CaIds(configs)[j];
      SamePrefix("legacy-root-", configs[k].caId, configs[j].caId);
    }
    var keys := RootIds(rows);
    assert forall k :: 0 <= k < |configs| ==> keys[k] == roots[k].id;
    SelectsOne(keys, IntermediateItems(rows, src), roots[j].id, j);
  }

  lemma SamePrefix(prefix: string, x: string, y: string)
    ensures prefix + x == prefix + y ==> x == y
  {
    assert (prefix + x)[|prefix|..] == x && (prefix + y)[|prefix|..] == y;
  }

  lemma {:induction false} SelectsOne<T>(keys: seq<string>, xs: seq<T>, id: string, j: nat)
    requires |keys| == |xs| && j < |xs| && keys[j] == id
    requires forall k :: 0 <= k < |xs| && k != j ==> keys[k] != id
    ensures Select(keys, xs, id) == [xs[j]]
  {
    var n := |xs| - 1;
    if j == n {
      SelectsNone(keys[..n], xs[..n], id);
    } else {
      SelectsOne(keys[..n], xs[..n], id, j);
    }
  }

  lemma {:induction false} SelectsNone<T>(keys: seq<string>, xs: seq<T>, id: string)
    requires |keys| == |xs| && forall k :: 0 <= k < |xs| ==> keys[k] != id
    ensures Select(keys, xs, id) == []
  {
    if xs != [] {
      SelectsNone(keys[..|xs| - 1], xs[..|xs| - 1], id);
    }
  }
}
