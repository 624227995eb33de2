/** The store object and the API handlers that write to it: enroll, request, renew and
    revoke (internal/db/repositories.go, internal/enrollment/enrollment.go,
    internal/api/handlers.go). Clock readings, generated ids and the outcome of SignCSR
    are parameters; the active-certificate up-down counter is a field. */
module Handlers {
  import opened Base
  import opened Clock
  import opened Tables

  class SQLStore {
    var tokens: map<string, Token>
    var enrollments: map<string, Enrollment>
    var configs: map<string, CAConfig>
    var issued: map<string, IssuedCertificate>
    var revoked: map<string, RevokedCertificate>

    ghost function Snapshot(): Db
      reads this
    {
      Db(tokens, enrollments, configs, issued, revoked)
    }

    constructor ()
      ensures Snapshot() == EMPTY
    {
      tokens, enrollments, configs, issued, revoked := map[], map[], map[], map[], map[];
    }

    method CreateBootstrapToken(t: Token) returns (ok: bool)
      modifies this`tokens
      ensures ok <==> InsertToken(old(Snapshot()), t).Ok?
      ensures Snapshot() == if ok then InsertToken(old(Snapshot()), t).value else old(Snapshot())
      ensures ok <==> t.id !in old(tokens) && forall k :: k in old(tokens) ==> old(tokens)[k].tokenHash != t.tokenHash
      ensures tokens == if ok then old(tokens)[t.id := t] else old(tokens)
    {
      ok := t.id !in tokens;
      var rest := tokens.Keys;
      while rest != {} && ok
        invariant rest <= tokens.Keys
        invariant ok <==> t.id !in tokens && forall k :: k in tokens.Keys - rest ==> tokens[k].tokenHash != t.tokenHash
        decreases rest
      {
        var k :| k in rest;
        ok := tokens[k].tokenHash != t.tokenHash;
        rest := rest - {k};
      }
      if ok {
        tokens := tokens[t.id := t];
      }
    }

    method GetBootstrapTokenByHash(hash: string) returns (found: Option<Token>)
      requires Integrity(Snapshot())
      ensures IsTokenByHash(Snapshot(), hash, found)
    {
      found := None;
      var rest := tokens.Keys;
      while rest != {}
        invariant rest <= tokens.Keys
        invariant found.None?
        invariant forall k :: k in tokens.Keys - rest ==> tokens[k].tokenHash != hash
        decreases rest
      {
        var k :| k in rest;
        if tokens[k].tokenHash == hash {
          return Some(tokens[k]);
        }
        rest := rest - {k};
      }
    }

    method RevokeBootstrapToken(id: string, now: nat) returns (ok: bool)
      modifies this`tokens
      ensures ok <==> id in old(tokens)
      ensures Snapshot() == if ok then UpdateTokenRevoked(old(Snapshot()), id, now).value else old(Snapshot())
      ensures !ok ==> tokens == old(tokens)
      ensures ok ==>
                && tokens.Keys == old(tokens).Keys
                && (forall k :: k in tokens && k != id ==> tokens[k] == old(tokens)[k])
                && tokens[id].revokedAt.Some?
                && tokens[id].revokedAt.value <= now < tokens[id].revokedAt.value + SECOND
                && tokens[id].revokedAt.value % SECOND == 0
                && tokens[id] == old(tokens)[id].(revokedAt := tokens[id].revokedAt)
    {
      ok := id in tokens;
      if ok {
        var at := now / SECOND * SECOND;
        tokens := tokens[id := tokens[id].(revokedAt := Some(at))];
      }
    }

    method CreateEnrollment(e: Enrollment) returns (ok: bool)
      modifies this`enrollments
      ensures ok <==> InsertEnrollment(old(Snapshot()), e).Ok?
      ensures Snapshot() == if ok then InsertEnrollment(old(Snapshot()), e).value else old(Snapshot())
      ensures ok <==> e.id !in old(enrollments) && e.tokenId in old(tokens)
      ensures enrollments == if ok then old(enrollments)[e.id := e] else old(enrollments)
    {
      ok := e.id !in enrollments && e.tokenId in tokens;
      if ok {
        enrollments := enrollments[e.id := e];
      }
    }

    method UpsertCAConfig(c: CAConfig) returns (ok: bool)
      modifies this`configs
      ensures ok <==> UpsertConfig(old(Snapshot()), c).Ok?
      ensures Snapshot() == if ok then UpsertConfig(old(Snapshot()), c).value else old(Snapshot())
      ensures ok <==> c.status in {"active", "disabled", "retired"}
      ensures !ok ==> configs == old(configs)
      ensures ok ==>
                && configs == old(configs)[c.caId := configs[c.caId]]
                && configs[c.caId] == c.(createdAt := configs[c.caId].createdAt)
                && configs[c.caId].createdAt ==
                   if c.caId in old(configs) then old(configs)[c.caId].createdAt else c.createdAt
    {
      ok := c.status in CONFIG_STATUSES;
      if ok {
        var created := if c.caId in configs then configs[c.caId].createdAt else c.createdAt;
        configs := configs[c.caId := c.(createdAt := created)];
      }
    }

    method StoreIssuedCertificate(c: IssuedCertificate) returns (ok: bool)
      modifies this`issued
      ensures ok <==> InsertIssued(old(Snapshot()), c).Ok?
      ensures Snapshot() == if ok then InsertIssued(old(Snapshot()), c).value else old(Snapshot())
      ensures ok <==> c.serial !in old(issued) && c.caId in old(configs)
      ensures issued == if ok then old(issued)[c.serial := c] else old(issued)
    {
      ok := c.serial !in issued && c.caId in configs;
      if ok {
        issued := issued[c.serial := c];
      }
    }

    /** Two statements: mark the issued row, then record the revocation. An unknown
        serial is refused by the second one and changes nothing. */
    method RevokeCertificate(r: RevokedCertificate) returns (ok: bool)
      modifies this`issued, this`revoked
      ensures ok <==> r.serial in old(issued)
      ensures !ok ==> Snapshot() == old(Snapshot())
      ensures ok ==> issued == old(issued)[r.serial := old(issued)[r.serial].(revokedAt := Some(r.revokedAt))]
      ensures ok ==> revoked == old(revoked)[r.serial := r]
      ensures Snapshot() == var marked := UpdateIssuedRevoked(old(Snapshot()), r.serial, r.revokedAt);
                            if ok then ReplaceRevoked(marked, r).value else marked
    {
      if r.serial in issued {
        issued := issued[r.serial := issued[r.serial].(revokedAt := Some(r.revokedAt))];
      }
      ok := r.serial in issued;
      if ok {
        revoked := revoked[r.serial := r];
      }
    }
  }

  datatype EnrollRequest = EnrollRequest(token: string, hostname: string, machineId: string, mac: string)
  datatype CertificateRequest = CertificateRequest(enrollmentId: string, csr: string, dnsNames: seq<string>)

  /** What SignCSR returns when it signs. */
  datatype Issued = Issued(serial: string, certPem: string, notBefore: nat, notAfter: nat)

  datatype Reply =
    | Created(id: string)
    | Done
    | BadRequest
    | Unauthorized
    | ServerError

  /** The request passes every check of ValidateAndEnroll at clock reading `now`, against
      the token row t. */
  predicate Admissible(t: Token, req: EnrollRequest, now: nat) {
    t.revokedAt.None? && now <= t.expiresAt && EqualFold(t.hostname, req.hostname)
  }

  /** ensureCAConfig's row. */
  function DefaultConfig(caId: string, now: nat): CAConfig {
    CAConfig(caId, "default", caId, caId, "active", now, now - MINUTE, now + 5 * 365 * 24 * HOUR)
  }

  class Api {
    const store: SQLStore
    const caId: string
    const renewBefore: int
    const hashToken: string -> string
    var activeCertificates: int

    constructor (store: SQLStore, caId: string, renewBefore: int, hashToken: string -> string)
      ensures this.store == store && this.caId == caId && this.renewBefore == renewBefore
      ensures this.hashToken == hashToken && activeCertificates == 0
    {
      this.store := store;
      this.caId := caId;
      this.renewBefore := renewBefore;
      this.hashToken := hashToken;
      activeCertificates := 0;
    }

    /** enrollment.Service.ValidateAndEnroll. A found token admits the request exactly
        when its status at the check is active or used and its host matches. */
    method ValidateAndEnroll(
      req: EnrollRequest, newId: string, checkedAt: nat, createdAt: nat, ghost found: Option<Token>)
      returns (reply: Reply)
      requires Integrity(store.Snapshot())
      requires IsTokenByHash(store.Snapshot(), hashToken(req.token), found)
      modifies store`enrollments
      ensures reply.Created? <==>
                && !Blank(req.hostname) && !Blank(req.machineId)
                && found.Some? && StatusOf(old(store.Snapshot()), found.value.id, checkedAt) in {Active, Used}
                && EqualFold(found.value.hostname, req.hostname)
                && newId !in old(store.enrollments)
      ensures reply.Created? ==> reply.id == newId
      ensures reply.Created? ==>
                store.Snapshot() == old(store.Snapshot()).(enrollments := old(store.enrollments)[newId :=
                  Enrollment(newId, req.hostname, req.machineId, req.mac, found.value.id, createdAt)])
      ensures !reply.Created? ==> store.Snapshot() == old(store.Snapshot())
    {
      TrimSpaceEmptyIffBlank(req.hostname);
      TrimSpaceEmptyIffBlank(req.machineId);
      if TrimSpace(req.hostname) == "" || TrimSpace(req.machineId) == "" {
        return Unauthorized;
      }
      var token := store.GetBootstrapTokenByHash(hashToken(req.token));
      TokenByHashIsUnique(store.Snapshot(), hashToken(req.token), token, found);
      if token.None? || token.value.revokedAt.Some? || checkedAt > token.value.expiresAt ||
         !EqualFold(token.value.hostname, req.hostname) {
        return Unauthorized;
      }
      var ok := store.CreateEnrollment(
        Enrollment(newId, req.hostname, req.machineId, req.mac, token.value.id, createdAt));
      reply := if ok then Created(newId) else Unauthorized;
    }

    method EnsureCAConfig(now: nat) returns (ok: bool)
      modifies store`configs
      ensures ok
      ensures store.Snapshot() == UpsertConfig(old(store.Snapshot()), DefaultConfig(caId, now)).value
      ensures store.configs.Keys == old(store.configs).Keys + {caId}
      ensures forall k :: k in old(store.configs) && k != caId ==> store.configs[k] == old(store.configs)[k]
      ensures var c := store.configs[caId];
              && c.caId == caId && c.name == "default" && c.rootFingerprint == caId && c.intermediateFingerprint == caId
              && c.status == "active" && c.notBefore == now - MINUTE && c.notAfter == now + 5 * 365 * DAY
              && c.createdAt == if caId in old(store.configs) then old(store.configs)[caId].createdAt else now
    {
      ok := store.UpsertCAConfig(DefaultConfig(caId, now));
    }

    /** Stores a signed certificate and counts it; a used serial is refused after the CA
        row was refreshed. */
    method StoreSigned(c: IssuedCertificate, configAt: nat) returns (ok: bool)
      requires c.caId == caId
      modifies this`activeCertificates, store`configs, store`issued
      ensures ok <==> c.serial !in old(store.issued)
      ensures store.issued == if ok then old(store.issued)[c.serial := c] else old(store.issued)
      ensures store.configs == UpsertConfig(old(store.Snapshot()), DefaultConfig(caId, configAt)).value.configs
      ensures activeCertificates == old(activeCertificates) + if ok then 1 else 0
    {
      ok := EnsureCAConfig(configAt);
      ok := store.StoreIssuedCertificate(c);
      if ok {
        activeCertificates := activeCertificates + 1;
      }
    }

    /** POST a certificate request: needs a stored enrollment, whose host becomes the
        subject. */
    method RequestCertificate(req: CertificateRequest, signed: Option<Issued>, configAt: nat, now: nat)
      returns (reply: Reply)
      modifies this`activeCertificates, store`configs, store`issued
      ensures reply.Created? <==>
                && !Blank(req.enrollmentId) && req.enrollmentId in old(store.enrollments)
                && signed.Some? && signed.value.serial !in old(store.issued)
      ensures reply.Created? ==> reply.id == signed.value.serial && store.issued == old(store.issued)[reply.id :=
                var en, s := old(store.enrollments)[req.enrollmentId], signed.value;
                IssuedCertificate(s.serial, caId, en.id, en.hostname, Join(req.dnsNames, ","), s.certPem,
                                  s.notBefore, s.notAfter, None, now)]
      ensures reply.Created? || reply.ServerError? ==>
                store.configs == UpsertConfig(old(store.Snapshot()), DefaultConfig(caId, configAt)).value.configs
      ensures !reply.Created? ==> store.issued == old(store.issued)
      ensures reply.BadRequest? || reply.Unauthorized? ==> store.configs == old(store.configs)
      ensures activeCertificates - old(activeCertificates) == |store.issued| - |old(store.issued)|
    {
      TrimSpaceEmptyIffBlank(req.enrollmentId);
      if TrimSpace(req.enrollmentId) == "" {
        return BadRequest;
      }
      if req.enrollmentId !in store.enrollments {
        return Unauthorized;
      }
      var en := store.enrollments[req.enrollmentId];
      if signed.None? {
        return BadRequest;
      }
      var s := signed.value;
      var ok := StoreSigned(
        IssuedCertificate(s.serial, caId, en.id, en.hostname, Join(req.dnsNames, ","), s.certPem,
                          s.notBefore, s.notAfter, None, now), configAt);
      reply := if ok then Created(s.serial) else ServerError;
    }

    /** Renew: refused while a known old certificate is outside its renewal window; no
        enrollment is looked up, and the enrollment id doubles as the subject. */
    method RenewCertificate(
      req: CertificateRequest, oldSerial: string, signed: Option<Issued>, checkedAt: nat, configAt: nat, now: nat)
      returns (reply: Reply)
      modifies this`activeCertificates, store`configs, store`issued
      ensures reply.Created? <==>
                && (oldSerial != "" && oldSerial in old(store.issued) ==>
                      old(store.issued)[oldSerial].notAfter - checkedAt <= renewBefore)
                && signed.Some? && signed.value.serial !in old(store.issued)
      ensures reply.Created? ==> reply.id == signed.value.serial && store.issued == old(store.issued)[reply.id :=
                var s := signed.value;
                IssuedCertificate(s.serial, caId, req.enrollmentId, req.enrollmentId, Join(req.dnsNames, ","),
                                  s.certPem, s.notBefore, s.notAfter, None, now)]
      ensures reply.Created? || reply.ServerError? ==>
                store.configs == UpsertConfig(old(store.Snapshot()), DefaultConfig(caId, configAt)).value.configs
      ensures !reply.Created? ==> store.issued == old(store.issued)
      ensures reply.BadRequest? ==> store.configs == old(store.configs)
      ensures activeCertificates - old(activeCertificates) == |store.issued| - |old(store.issued)|
    {
      if oldSerial != "" && oldSerial in store.issued {
        if store.issued[oldSerial].notAfter - checkedAt > renewBefore {
          return BadRequest;
        }
      }
      if signed.None? {
        return BadRequest;
      }
      var s := signed.value;
      var ok := StoreSigned(
        IssuedCertificate(s.serial, caId, req.enrollmentId, req.enrollmentId, Join(req.dnsNames, ","), s.certPem,
                          s.notBefore, s.notAfter, None, now), configAt);
      reply := if ok then Created(s.serial) else ServerError;
    }

    /** Revoke: an unknown serial changes nothing; a known one is marked in both tables
        with one time and leaves the counter one lower, every time. */
    method RevokeCertificate(serial: string, reason: string, now: nat) returns (reply: Reply)
      modifies this`activeCertificates, store`issued, store`revoked
      ensures reply.Done? <==> serial != "" && serial in old(store.issued)
      ensures reply.Done? ==>
                && store.issued == old(store.issued)[serial := old(store.issued)[serial].(revokedAt := Some(now))]
                && store.revoked == old(store.revoked)[serial :=
                     RevokedCertificate(serial, if reason == "" then "unspecified" else reason, now)]
      ensures !reply.Done? ==> store.Snapshot() == old(store.Snapshot())
      ensures activeCertificates == old(activeCertificates) - if reply.Done? then 1 else 0
    {
      if serial == "" {
        return BadRequest;
      }
      var why := reason;
      if why == "" {
        why := "unspecified";
      }
      var ok := store.RevokeCertificate(RevokedCertificate(serial, why, now));
      if !ok {
        return ServerError;
      }
      activeCertificates := activeCertificates - 1;
      reply := Done;
    }
  }
}
