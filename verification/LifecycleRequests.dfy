/** A request whose acts run without interruption does in the world what its handler does
    in Handlers: the histories of LifecycleRuns are histories of those handlers. */
module LifecycleRequests {
  import opened Base
  import opened Tables
  import opened Handlers
  import opened LifecycleRuns

  function At(w: World, now: nat): World {
    w.(clock := now)
  }

  /** Api.ValidateAndEnroll. */
  lemma UninterruptedEnrollment(
    w: World, p: nat, t: Token, req: EnrollRequest, id: string, checkedAt: nat, createdAt: nat)
    requires p !in w.flights && t.id in w.db.tokens && w.db.tokens[t.id] == t
    requires Integrity(w.db)
    ensures var v := DoSaveEnrollment(At(DoCheckToken(At(w, checkedAt), p, t.id, t.tokenHash, req), createdAt), p, id);
            var admitted := !Blank(req.hostname) && !Blank(req.machineId) &&
                            StatusOf(w.db, t.id, checkedAt) in {Active, Used} && EqualFold(t.hostname, req.hostname) &&
                            id !in w.db.enrollments;
            && v.flights == w.flights && v.active == w.active
            && v.db == if admitted
                       then w.db.(enrollments := w.db.enrollments[id :=
                              Enrollment(id, req.hostname, req.machineId, req.mac, t.id, createdAt)])
                       else w.db
  {
    var checked := At(DoCheckToken(At(w, checkedAt), p, t.id, t.tokenHash, req), createdAt);
    if !Blank(req.hostname) && !Blank(req.machineId) && Admissible(t, req, checkedAt) {
      SavesEnrollment(checked, p, req, t, id);
      assert checked.flights - {p} == w.flights;
    }
  }

  lemma SavesEnrollment(w: World, p: nat, req: EnrollRequest, t: Token, id: string)
    requires p in w.flights && w.flights[p] == Admitted(req, t) && t.id in w.db.tokens
    ensures var v := DoSaveEnrollment(w, p, id);
            && v.flights == w.flights - {p} && v.active == w.active
            && v.db == if id in w.db.enrollments then w.db
                       else w.db.(enrollments := w.db.enrollments[id :=
                              Enrollment(id, req.hostname, req.machineId, req.mac, t.id, w.clock)])
  {
  }

  /** What request and renewal do after signing: refresh the CA row at `configAt`, store the
      certificate at `createdAt`, and count it. */
  function Finished(server: Server, signed: World, p: nat, configAt: nat, createdAt: nat): World {
    DoCountIssued(DoStore(At(DoEnsureConfig(server, At(signed, configAt), p), createdAt), p), p)
  }

  /** v is w with this certificate stored, unless its serial is in use, and counted. */
  ghost predicate Issues(server: Server, w: World, v: World, cert: IssuedCertificate, configAt: nat) {
    && v.flights == w.flights
    && v.db == UpsertConfig(w.db, DefaultConfig(server.caId, configAt)).value.(
         issued := if cert.serial in w.db.issued then w.db.issued else w.db.issued[cert.serial := cert])
    && v.active - w.active == |v.db.issued| - |w.db.issued|
  }

  ghost predicate ChangesNothing(w: World, v: World) {
    v.db == w.db && v.flights == w.flights && v.active == w.active
  }

  /** Api.RequestCertificate with a signed request. */
  lemma UninterruptedRequest(server: Server, w: World, p: nat, creq: CertificateRequest, s: Issued,
                             signedAt: nat, configAt: nat, createdAt: nat)
    requires p !in w.flights
    ensures var v := Finished(server, DoRequest(server, At(w, signedAt), p, creq, s), p, configAt, createdAt);
            if !Blank(creq.enrollmentId) && creq.enrollmentId in w.db.enrollments then
              var en := w.db.enrollments[creq.enrollmentId];
              Issues(server, w, v,
                     IssuedCertificate(s.serial, server.caId, creq.enrollmentId, en.hostname,
                                       Join(creq.dnsNames, ","), s.certPem, s.notBefore, s.notAfter, None, createdAt),
                     configAt)
            else ChangesNothing(w, v)
  {
    var signed := DoRequest(server, At(w, signedAt), p, creq, s);
    if !Blank(creq.enrollmentId) && creq.enrollmentId in w.db.enrollments {
      var en := w.db.enrollments[creq.enrollmentId];
      FinishesRequest(server, w, signed, p, CertificateFor(server.caId, creq, s, en.hostname), Some(en), configAt,
                      createdAt);
    } else {
      NothingToFinish(server, signed, p, configAt, createdAt);
    }
  }

  /** Api.RenewCertificate with a signed request. */
  lemma UninterruptedRenewal(server: Server, w: World, p: nat, creq: CertificateRequest, oldSerial: string, s: Issued,
                             checkedAt: nat, configAt: nat, createdAt: nat)
    requires p !in w.flights
    ensures var v := Finished(server, DoRenew(server, At(w, checkedAt), p, creq, oldSerial, s), p, configAt, createdAt);
            if oldSerial != "" && oldSerial in w.db.issued &&
               w.db.issued[oldSerial].notAfter - checkedAt > server.renewBefore
            then ChangesNothing(w, v)
            else
              Issues(server, w, v,
                     IssuedCertificate(s.serial, server.caId, creq.enrollmentId, creq.enrollmentId,
                                       Join(creq.dnsNames, ","), s.certPem, s.notBefore, s.notAfter, None, createdAt),
                     configAt)
  {
    var signed := DoRenew(server, At(w, checkedAt), p, creq, oldSerial, s);
    if Renewable(server, At(w, checkedAt), oldSerial) {
      FinishesRequest(server, w, signed, p, CertificateFor(server.caId, creq, s, creq.enrollmentId), None, configAt,
                      createdAt);
    } else {
      NothingToFinish(server, signed, p, configAt, createdAt);
    }
  }

  lemma NothingToFinish(server: Server, w: World, p: nat, configAt: nat, createdAt: nat)
    requires p !in w.flights
    ensures ChangesNothing(w, Finished(server, w, p, configAt, createdAt))
  {
  }

  lemma FinishesRequest(
    server: Server, w: World, signed: World, p: nat, cert: IssuedCertificate, origin: Option<Enrollment>,
    configAt: nat, createdAt: nat)
    requires p !in w.flights && cert.caId == server.caId
    requires signed.flights == w.flights[p := Signed(cert, origin)] && signed.db == w.db && signed.active == w.active
    ensures Issues(server, w, Finished(server, signed, p, configAt, createdAt), cert.(createdAt := createdAt), configAt)
  {
    var configured := At(DoEnsureConfig(server, At(signed, configAt), p), createdAt);
    Configures(server, signed, p, cert, origin, configAt, createdAt);
    ConfiguredIssues(server, w, configured, p, cert, origin, configAt);
  }

  lemma ConfiguredIssues(
    server: Server, w: World, configured: World, p: nat, cert: IssuedCertificate, origin: Option<Enrollment>,
    configAt: nat)
    requires p !in w.flights && configured.flights == w.flights[p := Configured(cert, origin)]
    requires cert.caId == server.caId && cert.caId in configured.db.configs && configured.active == w.active
    requires configured.db == UpsertConfig(w.db, DefaultConfig(server.caId, configAt)).value
    ensures Issues(server, w, DoCountIssued(DoStore(configured, p), p), cert.(createdAt := configured.clock), configAt)
  {
    StoresAndCounts(configured, p, cert, origin);
    assert configured.flights - {p} == w.flights;
  }

  lemma Configures(server: Server, signed: World, p: nat, cert: IssuedCertificate, origin: Option<Enrollment>,
                   configAt: nat, createdAt: nat)
    requires p in signed.flights && signed.flights[p] == Signed(cert, origin)
    ensures var v := At(DoEnsureConfig(server, At(signed, configAt), p), createdAt);
            && v.flights == signed.flights[p := Configured(cert, origin)]
            && v.db == UpsertConfig(signed.db, DefaultConfig(server.caId, configAt)).value
            && v.active == signed.active && v.clock == createdAt && server.caId in v.db.configs
  {
    assert "active" in CONFIG_STATUSES;
  }

  lemma StoresAndCounts(w: World, p: nat, cert: IssuedCertificate, origin: Option<Enrollment>)
    requires p in w.flights && w.flights[p] == Configured(cert, origin) && cert.caId in w.db.configs
    ensures var v, row := DoCountIssued(DoStore(w, p), p), cert.(createdAt := w.clock);
            && v.flights == w.flights - {p}
            && v.db == w.db.(
                 issued := if cert.serial in w.db.issued then w.db.issued else w.db.issued[cert.serial := row])
            && v.active - w.active == |v.db.issued| - |w.db.issued|
  {
    if cert.serial in w.db.issued {
      assert DoStore(w, p) == Landed(w, p);
    } else {
      var stored, row := DoStore(w, p), cert.(createdAt := w.clock);
      assert stored.flights == w.flights[p := Stored(cert.serial)];
      assert stored.flights - {p} == w.flights - {p};
      assert w.db.issued[cert.serial := row].Keys == w.db.issued.Keys + {cert.serial};
      assert |w.db.issued[cert.serial := row].Keys| == |w.db.issued.Keys| + 1;
    }
  }

  /** Api.RevokeCertificate. */
  lemma UninterruptedRevocation(w: World, p: nat, serial: string, reason: string)
    requires p !in w.flights
    ensures var v := DoCountRevoked(DoRecordRevoked(DoMarkRevoked(w, p, serial, reason), p), p);
            if serial != "" && serial in w.db.issued then
              && v.flights == w.flights
              && v.db == w.db.(
                   issued := w.db.issued[serial := w.db.issued[serial].(revokedAt := Some(w.clock))],
                   revoked := w.db.revoked[serial :=
                     RevokedCertificate(serial, if reason == "" then "unspecified" else reason, w.clock)])
              && v.active == w.active - 1
            else ChangesNothing(w, v)
  {
    if serial != "" {
      var marked := DoMarkRevoked(w, p, serial, reason);
      var recorded := DoRecordRevoked(marked, p);
      assert marked.flights - {p} == w.flights && recorded.flights - {p} == w.flights;
    }
  }
}
