/** Applying RBAC manifests (internal/rbac/loader.go) to the CA tables: reading and
    validating documents, and the two passes of upserts that `apply` makes. The four
    tables are one map from (table, primary key) to rows; the constraints are those of
    internal/db/migrations.go. Durations and timestamps in manifests come parsed. */
module Rbac {
  import opened Base

  // ---- Tables -----------------------------------------------------------------------

  datatype Table = Roots | Intermediates | Roles | Policies
  datatype Key = Key(table: Table, id: string)

  /** What a row says apart from its key and its times. */
  datatype Body =
    | RootCA(name: string, environment: string, fingerprint: string, status: string, trustDomain: string)
    | IntermediateCA(rootId: string, name: string, environment: string, owner: string, namespace: string,
                     fingerprint: string, status: string, maxTtlSeconds: int, allowedDns: string, allowedUsages: string,
                     requireApproval: bool, issuanceLimit: int, renewalAllowed: bool)
    | CARole(name: string, subject: string, intermediateId: string, permissions: string)
    | CATokenPolicy(name: string, intermediateId: string, certificateTypes: string, allowedDns: string,
                    maxTtlSeconds: int, issuanceLimit: int, renewalAllowed: bool, requireApproval: bool)

  /** `until` is not_after for authorities and expires_at for policies. Columns that a table
      does not have are zero. */
  datatype Row = Row(id: string, body: Body, createdAt: int, notBefore: int, until: int)

  type Db = map<Key, Row>

  function TableOf(b: Body): Table {
    if b.RootCA? then Roots
    else if b.IntermediateCA? then Intermediates
    else if b.CARole? then Roles
    else Policies
  }

  function KeyOf(r: Row): Key {
    Key(TableOf(r.body), r.id)
  }

  predicate IsAuthority(t: Table) {
    t.Roots? || t.Intermediates?
  }

  /** The row that the foreign key points at, for the tables that have one. */
  function Parent(b: Body): Option<Key> {
    match b
    case RootCA(_, _, _, _, _) => None
    case IntermediateCA(rootId, _, _, _, _, _, _, _, _, _, _, _, _) => Some(Key(Roots, rootId))
    case CARole(_, _, intermediateId, _) => Some(Key(Intermediates, intermediateId))
    case CATokenPolicy(_, intermediateId, _, _, _, _, _, _) => Some(Key(Intermediates, intermediateId))
  }

  const ROOT_STATUSES := {"active", "disabled", "retired", "testing"}
  const INTERMEDIATE_STATUSES := {"active", "disabled", "retired", "pending", "testing"}

  predicate StatusOk(b: Body) {
    && (b.RootCA? ==> b.status in ROOT_STATUSES)
    && (b.IntermediateCA? ==> b.status in INTERMEDIATE_STATUSES)
  }

  /** UNIQUE fingerprints: no other authority of the same table has this one. */
  predicate FingerprintFree(db: Db, r: Row) {
    && (r.body.RootCA? ==>
          forall k :: k in db && db[k].body.RootCA? && db[k].body.fingerprint == r.body.fingerprint ==> k.id == r.id)
    && (r.body.IntermediateCA? ==>
          forall k :: k in db && db[k].body.IntermediateCA? && db[k].body.fingerprint == r.body.fingerprint ==>
            k.id == r.id)
  }

  predicate ParentThere(db: Db, b: Body) {
    Parent(b).Some? ==> Parent(b).value in db
  }

  predicate Accepts(db: Db, r: Row) {
    StatusOk(r.body) && FingerprintFree(db, r) && ParentThere(db, r.body)
  }

  /** INSERT ... ON CONFLICT(id) DO UPDATE: everything but created_at is replaced. */
  function Upserted(db: Db, r: Row): Db {
    var k := KeyOf(r);
    db[k := if k in db then r.(createdAt := db[k].createdAt) else r]
  }

  ghost predicate Integrity(db: Db) {
    forall k :: k in db ==> KeyOf(db[k]) == k && Accepts(db, db[k])
  }

  lemma UpsertKeepsIntegrity(db: Db, r: Row)
    requires Integrity(db) && Accepts(db, r)
    ensures Integrity(Upserted(db, r))
  {
    var after := Upserted(db, r);
    forall k | k in after ensures KeyOf(after[k]) == k && Accepts(after, after[k]) {
      if k != KeyOf(r) {
        assert after[k] == db[k] && Accepts(db, db[k]);
      }
    }
  }

  /** A status that the CHECK constraints allow. */
  ghost predicate HasStatus(b: Body) {
    && (b.RootCA? ==> b.status == "active" || b.status == "disabled" || b.status == "retired" || b.status == "testing")
    && (b.IntermediateCA? ==>
          b.status == "active" || b.status == "disabled" || b.status == "retired" || b.status == "pending" ||
          b.status == "testing")
  }

  /** No authority of the same kind under another id has this fingerprint. */
  ghost predicate HasOwnFingerprint(db: Db, b: Body, id: string) {
    && (b.RootCA? ==>
          forall k :: k in db && k.id != id && db[k].body.RootCA? ==> db[k].body.fingerprint != b.fingerprint)
    && (b.IntermediateCA? ==>
          forall k :: k in db && k.id != id && db[k].body.IntermediateCA? ==> db[k].body.fingerprint != b.fingerprint)
  }

  /** The row that it refers to, if any, is there. */
  ghost predicate HasParent(db: Db, b: Body) {
    && (b.IntermediateCA? ==> Key(Roots, b.rootId) in db)
    && (b.CARole? || b.CATokenPolicy? ==> Key(Intermediates, b.intermediateId) in db)
  }

  lemma AcceptsIff(db: Db, r: Row)
    ensures Accepts(db, r) <==> HasStatus(r.body) && HasOwnFingerprint(db, r.body, r.id) && HasParent(db, r.body)
  {
  }

  /** What the constraints of the four tables say together. */
  lemma IntegrityIff(db: Db)
    ensures Integrity(db) <==>
            forall k :: k in db ==>
              && k.id == db[k].id
              && (k.table.Roots? <==> db[k].body.RootCA?) && (k.table.Intermediates? <==> db[k].body.IntermediateCA?)
              && (k.table.Roles? <==> db[k].body.CARole?) && (k.table.Policies? <==> db[k].body.CATokenPolicy?)
              && HasStatus(db[k].body) && HasOwnFingerprint(db, db[k].body, k.id) && HasParent(db, db[k].body)
  {
    forall k | k in db
      ensures Accepts(db, db[k]) <==>
              HasStatus(db[k].body) && HasOwnFingerprint(db, db[k].body, db[k].id) && HasParent(db, db[k].body)
    {
      AcceptsIff(db, db[k]);
    }
  }

  class CAStore {
    var rows: Db

    /** UpsertRootCA, UpsertIntermediateCA, UpsertCARole and UpsertCATokenPolicy. */
    method Upsert(r: Row) returns (ok: bool)
      modifies this
      ensures ok <==> Accepts(old(rows), r)
      ensures rows == if ok then Upserted(old(rows), r) else old(rows)
      ensures ok <==> HasStatus(r.body) && HasOwnFingerprint(old(rows), r.body, r.id) && HasParent(old(rows), r.body)
      ensures ok ==>
                var k := KeyOf(r);
                && rows.Keys == old(rows).Keys + {k}
                && (forall j :: j in old(rows) && j != k ==> rows[j] == old(rows)[j])
                && rows[k].id == r.id && rows[k].body == r.body
                && rows[k].notBefore == r.notBefore && rows[k].until == r.until
                && rows[k].createdAt == if k in old(rows) then old(rows)[k].createdAt else r.createdAt
    {
      AcceptsIff(rows, r);
      ok := StatusOk(r.body) && FingerprintFree(rows, r) && ParentThere(rows, r.body);
      if ok {
        var k := KeyOf(r);
        var stored := r;
        if k in rows {
          stored := r.(createdAt := rows[k].createdAt);
        }
        rows := rows[k := stored];
      }
    }
  }

  // ---- Manifests --------------------------------------------------------------------

  datatype Kind =
    | User | Group | ServiceAccount
    | RootKind | IntermediateKind
    | RoleKind | CARoleKind | GlobalRoleKind
    | RoleBindingKind | CARoleBindingKind | GlobalRoleBindingKind
    | TokenPolicyKind
    | OtherKind(text: string)

  /** A text field that the loader parses: blank, malformed, or its value. */
  datatype Parsed = Unset | Malformed | Value(n: int)

  datatype Subject = Subject(kind: string, name: string)
  datatype Rule = Rule(verbs: seq<string>, intermediateRef: string)

  datatype Manifest = Manifest(
    apiVersion: string, kind: Kind, name: string,
    displayName: string, environment: string, fingerprint: string, status: string, trustDomain: string,
    rootRef: string, owner: string, namespace: string, subjects: seq<Subject>, rules: seq<Rule>,
    roleRef: string, intermediateRef: string, certificateTypes: seq<string>, allowedDns: seq<string>,
    allowedUsages: seq<string>, maxTtl: Parsed, issuanceLimit: int, renewalAllowed: Option<bool>,
    requireApproval: bool, expiresAt: Parsed)

  predicate IsRole(k: Kind) {
    k.RoleKind? || k.CARoleKind? || k.GlobalRoleKind?
  }

  predicate IsBinding(k: Kind) {
    k.RoleBindingKind? || k.CARoleBindingKind? || k.GlobalRoleBindingKind?
  }

  /** Handled by the second pass. */
  predicate IsUse(m: Manifest) {
    IsBinding(m.kind) || m.kind.TokenPolicyKind?
  }

  predicate KindBlank(k: Kind) {
    k.OtherKind? && Blank(k.text)
  }

  /** validateManifest finds nothing to object to. */
  predicate ValidManifest(m: Manifest) {
    && !Blank(m.apiVersion) && !KindBlank(m.kind) && !Blank(m.name)
    && !m.kind.OtherKind?
    && (m.kind.RootKind? ==> !Blank(m.fingerprint))
    && (m.kind.IntermediateKind? ==> !Blank(m.rootRef) && !Blank(m.fingerprint))
    && (IsRole(m.kind) ==> |m.rules| > 0)
    && (IsBinding(m.kind) ==> !Blank(m.roleRef) && |m.subjects| > 0)
    && (m.kind.TokenPolicyKind? ==> !Blank(m.intermediateRef) && |m.certificateTypes| > 0)
    && (!m.kind.User? && !m.kind.Group? && !m.kind.ServiceAccount? ==>
          forall i :: 0 <= i < |m.subjects| ==> !Blank(m.subjects[i].kind) && !Blank(m.subjects[i].name))
  }

  /** firstNonEmpty. */
  function FirstNonEmpty(values: seq<string>): string {
    if values == [] then ""
    else if TrimSpace(values[0]) != "" then TrimSpace(values[0])
    else FirstNonEmpty(values[1..])
  }

  /** It is the first value that is not blank, trimmed, and empty only if all are blank. */
  lemma {:induction false} FirstNonEmptyIsFirst(values: seq<string>)
    ensures FirstNonEmpty(values) == "" <==> forall i :: 0 <= i < |values| ==> Blank(values[i])
    ensures forall i :: 0 <= i < |values| && !Blank(values[i]) && (forall j :: 0 <= j < i ==> Blank(values[j])) ==>
              FirstNonEmpty(values) == TrimSpace(values[i])
  {
    if values != [] {
      TrimSpaceEmptyIffBlank(values[0]);
      FirstNonEmptyIsFirst(values[1..]);
      assert forall i :: 0 < i < |values| ==> values[i] == values[1..][i - 1];
      assert forall i :: 0 <= i < |values| - 1 ==> values[1..][i] == values[i + 1];
    }
  }
}
