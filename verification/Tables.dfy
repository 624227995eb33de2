/** The certificate and token tables of internal/db, as values, and every statement the
    server issues against them with the keys, UNIQUE columns and foreign keys of
    internal/db/migrations.go (foreign keys are on, as in the default DSN). */
module Tables {
  import opened Base
  import opened Clock

  datatype Token = Token(
    id: string, tokenHash: string, hostname: string, expiresAt: nat, revokedAt: Option<nat>, createdAt: nat)

  datatype Enrollment = Enrollment(
    id: string, hostname: string, machineId: string, mac: string, tokenId: string, createdAt: nat)

  datatype IssuedCertificate = IssuedCertificate(
    serial: string, caId: string, enrollmentId: string, subject: string, dnsNames: string, pem: string,
    notBefore: nat, notAfter: nat, revokedAt: Option<nat>, createdAt: nat)

  datatype RevokedCertificate = RevokedCertificate(serial: string, reason: string, revokedAt: nat)

  datatype CAConfig = CAConfig(
    caId: string, name: string, rootFingerprint: string, intermediateFingerprint: string, status: string,
    createdAt: nat, notBefore: int, notAfter: nat)

  datatype Db = Db(
    tokens: map<string, Token>,
    enrollments: map<string, Enrollment>,
    configs: map<string, CAConfig>,
    issued: map<string, IssuedCertificate>,
    revoked: map<string, RevokedCertificate>)

  const EMPTY := Db(map[], map[], map[], map[], map[])

  datatype Error = Constraint | NotFound

  // ---- Integrity ----------------------------------------------------------------

  /** Every row sits under its own primary key. */
  ghost predicate Keyed(db: Db) {
    && (forall k :: k in db.tokens ==> db.tokens[k].id == k)
    && (forall k :: k in db.enrollments ==> db.enrollments[k].id == k)
    && (forall k :: k in db.configs ==> db.configs[k].caId == k)
    && (forall k :: k in db.issued ==> db.issued[k].serial == k)
    && (forall k :: k in db.revoked ==> db.revoked[k].serial == k)
  }

  /** bootstrap_tokens.token_hash is UNIQUE. */
  ghost predicate UniqueHashes(tokens: map<string, Token>) {
    forall j, k :: j in tokens && k in tokens && tokens[j].tokenHash == tokens[k].tokenHash ==> j == k
  }

  /** Foreign keys resolve. */
  ghost predicate References(db: Db) {
    && (forall k :: k in db.enrollments ==> db.enrollments[k].tokenId in db.tokens)
    && (forall k :: k in db.issued ==> db.issued[k].caId in db.configs)
    && (forall k :: k in db.revoked ==> k in db.issued)
  }

  ghost predicate Integrity(db: Db) {
    Keyed(db) && UniqueHashes(db.tokens) && References(db)
  }

  // ---- Statements ---------------------------------------------------------------

  function InsertToken(db: Db, t: Token): Result<Db, Error> {
    if t.id in db.tokens || exists k :: k in db.tokens && db.tokens[k].tokenHash == t.tokenHash then Err(Constraint)
    else Ok(db.(tokens := db.tokens[t.id := t]))
  }

  /** SQLite's CURRENT_TIMESTAMP has whole seconds. */
  function CurrentTimestamp(now: nat): (t: nat)
    ensures t <= now < t + SECOND && t % SECOND == 0
  {
    now / SECOND * SECOND
  }

  function UpdateTokenRevoked(db: Db, id: string, now: nat): Result<Db, Error> {
    if id !in db.tokens then Err(NotFound)
    else Ok(db.(tokens := db.tokens[id := db.tokens[id].(revokedAt := Some(CurrentTimestamp(now)))]))
  }

  /** The token row with the given hash, if any; UNIQUE makes it the only one. */
  ghost predicate IsTokenByHash(db: Db, hash: string, found: Option<Token>) {
    match found
    case Some(t) => t.id in db.tokens && db.tokens[t.id] == t && t.tokenHash == hash
    case None => forall k :: k in db.tokens ==> db.tokens[k].tokenHash != hash
  }

  lemma TokenByHashIsUnique(db: Db, hash: string, a: Option<Token>, b: Option<Token>)
    requires Integrity(db) && IsTokenByHash(db, hash, a) && IsTokenByHash(db, hash, b)
    ensures a == b
  {
  }

  function InsertEnrollment(db: Db, e: Enrollment): Result<Db, Error> {
    if e.id in db.enrollments || e.tokenId !in db.tokens then Err(Constraint)
    else Ok(db.(enrollments := db.enrollments[e.id := e]))
  }

  const CONFIG_STATUSES := {"active", "disabled", "retired"}

  /** ON CONFLICT(ca_id) DO UPDATE of everything but created_at. */
  function UpsertConfig(db: Db, c: CAConfig): Result<Db, Error> {
    if c.status !in CONFIG_STATUSES then Err(Constraint)
    else
      var kept := if c.caId in db.configs then c.(createdAt := db.configs[c.caId].createdAt) else c;
      Ok(db.(configs := db.configs[c.caId := kept]))
  }

  function InsertIssued(db: Db, c: IssuedCertificate): Result<Db, Error> {
    if c.serial in db.issued || c.caId !in db.configs then Err(Constraint)
    else Ok(db.(issued := db.issued[c.serial := c]))
  }

  /** UPDATE issued_certificates: no row with that serial is not an error. */
  function UpdateIssuedRevoked(db: Db, serial: string, at: nat): Db {
    if serial !in db.issued then db
    else db.(issued := db.issued[serial := db.issued[serial].(revokedAt := Some(at))])
  }

  /** INSERT OR REPLACE: the foreign key still applies. */
  function ReplaceRevoked(db: Db, r: RevokedCertificate): Result<Db, Error> {
    if r.serial !in db.issued then Err(Constraint)
    else Ok(db.(revoked := db.revoked[r.serial := r]))
  }

  // ---- Every statement keeps the constraints --------------------------------------

  lemma InsertTokenKeepsIntegrity(db: Db, t: Token)
    requires Integrity(db) && InsertToken(db, t).Ok?
    ensures Integrity(InsertToken(db, t).value)
  {
  }

  lemma UpdateTokenKeepsIntegrity(db: Db, id: string, now: nat)
    requires Integrity(db) && UpdateTokenRevoked(db, id, now).Ok?
    ensures Integrity(UpdateTokenRevoked(db, id, now).value)
  {
    var after := UpdateTokenRevoked(db, id, now).value;
    assert UniqueHashes(after.tokens) by {
      assert forall k :: k in after.tokens ==> after.tokens[k].tokenHash == db.tokens[k].tokenHash;
    }
  }

  lemma InsertEnrollmentKeepsIntegrity(db: Db, e: Enrollment)
    requires Integrity(db) && InsertEnrollment(db, e).Ok?
    ensures Integrity(InsertEnrollment(db, e).value)
  {
  }

  lemma UpsertConfigKeepsIntegrity(db: Db, c: CAConfig)
    requires Integrity(db) && UpsertConfig(db, c).Ok?
    ensures Integrity(UpsertConfig(db, c).value)
  {
  }

  lemma InsertIssuedKeepsIntegrity(db: Db, c: IssuedCertificate)
    requires Integrity(db) && InsertIssued(db, c).Ok?
    ensures Integrity(InsertIssued(db, c).value)
  {
  }

  lemma UpdateIssuedKeepsIntegrity(db: Db, serial: string, at: nat)
    requires Integrity(db)
    ensures Integrity(UpdateIssuedRevoked(db, serial, at))
  {
  }

  lemma ReplaceRevokedKeepsIntegrity(db: Db, r: RevokedCertificate)
    requires Integrity(db) && ReplaceRevoked(db, r).Ok?
    ensures Integrity(ReplaceRevoked(db, r).value)
  {
  }

  // ---- Token status ---------------------------------------------------------------

  ghost function Uses(db: Db, tokenId: string): set<string> {
    set k | k in db.enrollments && db.enrollments[k].tokenId == tokenId
  }

  datatype TokenStatus = Active | Used | Expired | Revoked {
    function Rank(): nat {
      match this
      case Active => 0
      case Used => 1
      case Expired => 2
      case Revoked => 3
    }
  }

  /** tokenStatus of the admin CLI (internal/cli/admin/admin.go). */
  function AdminTokenStatus(revokedAt: Option<nat>, expiresAt: nat, used: bool, now: nat): TokenStatus {
    if revokedAt.Some? then Revoked
    else if now > expiresAt then Expired
    else if used then Used
    else Active
  }

  /** The status the API computes in statusTokens (internal/api/status.go): a default
      that three mutually exclusive branches overwrite. */
  method ApiTokenStatus(token: Token, usageCount: nat, now: nat) returns (status: TokenStatus)
    ensures status == AdminTokenStatus(token.revokedAt, token.expiresAt, usageCount > 0, now)
  {
    status := Active;
    if token.revokedAt != None {
      status := Revoked;
    } else if now > token.expiresAt {
      status := Expired;
    } else if usageCount > 0 {
      status := Used;
    }
  }

  /** The status of a stored token at a clock reading. */
  ghost function StatusOf(db: Db, tokenId: string, now: nat): TokenStatus
    requires tokenId in db.tokens
  {
    var t := db.tokens[tokenId];
    AdminTokenStatus(t.revokedAt, t.expiresAt, Uses(db, tokenId) != {}, now)
  }
}
