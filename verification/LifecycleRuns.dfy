/** Every history of the server: any number of requests in flight, interleaved statement
    by statement, beside the admin CLI's token commands. Each act is one statement (or
    one local counter update) of a handler; an act that its handler could not perform
    leaves the world alone, so every list of events is a history. */
module LifecycleRuns {
  import opened Base
  import opened Clock
  import opened Tables
  import opened Handlers

  /** A request between two of its statements. */
  datatype Flight =
    | Admitted(req: EnrollRequest, token: Token)                            // token accepted, not yet enrolled
    | Signed(cert: IssuedCertificate, origin: Option<Enrollment>)           // CSR signed
    | Configured(cert: IssuedCertificate, origin: Option<Enrollment>)       // CA row refreshed
    | Stored(serial: string)                                                // row inserted, not yet counted
    | Marked(row: RevokedCertificate)                                       // UPDATE done, INSERT pending
    | Recorded(serial: string)                                              // both done, not yet counted

  /** The tables, the clock, the up-down counter and the requests in flight, followed by
      what happened: which enrollment each certificate was requested for (None when renewed)
      and the revocations recorded so far. */
  datatype World = World(
    db: Db, clock: nat, active: int, flights: map<nat, Flight>,
    origins: map<string, Option<Enrollment>>, revocations: seq<string>)

  const START := World(EMPTY, 0, 0, map[], map[], [])

  /** What a server is configured with. */
  datatype Server = Server(caId: string, renewBefore: int)

  datatype Act =
    | CreateToken(token: Token)
    | RevokeToken(tokenId: string)
    | CheckToken(p: nat, tokenId: string, hash: string, req: EnrollRequest)
    | SaveEnrollment(p: nat, id: string)
    | Request(p: nat, creq: CertificateRequest, signed: Issued)
    | Renew(p: nat, creq: CertificateRequest, oldSerial: string, signed: Issued)
    | EnsureConfig(p: nat)
    | Store(p: nat)
    | CountIssued(p: nat)
    | MarkRevoked(p: nat, serial: string, reason: string)
    | RecordRevoked(p: nat)
    | CountRevoked(p: nat)

  datatype Event = Event(now: nat, act: Act)

  /** The row to be stored, but for its creation time. */
  function CertificateFor(caId: string, creq: CertificateRequest, s: Issued, subject: string): IssuedCertificate {
    IssuedCertificate(s.serial, caId, creq.enrollmentId, subject, Join(creq.dnsNames, ","), s.certPem,
                      s.notBefore, s.notAfter, None, 0)
  }

  function WithDb(w: World, r: Result<Db, Error>): World {
    if r.Ok? then w.(db := r.value) else w
  }

  /** Only request p got further. */
  ghost predicate MovesOne(before: map<nat, Flight>, after: map<nat, Flight>, p: nat) {
    forall q :: q != p ==> (q in after <==> q in before) && (q in before ==> after[q] == before[q])
  }

  /** A request that a handler ends here. */
  function Landed(w: World, p: nat): (v: World)
    ensures MovesOne(w.flights, v.flights, p)
  {
    w.(flights := w.flights - {p})
  }

  function Flying(w: World, p: nat, f: Flight): (v: World)
    ensures MovesOne(w.flights, v.flights, p)
  {
    w.(flights := w.flights[p := f])
  }

  function DoCheckToken(w: World, p: nat, tokenId: string, hash: string, req: EnrollRequest): World {
    if p !in w.flights && !Blank(req.hostname) && !Blank(req.machineId) &&
       tokenId in w.db.tokens && w.db.tokens[tokenId].tokenHash == hash &&
       Admissible(w.db.tokens[tokenId], req, w.clock)
    then Flying(w, p, Admitted(req, w.db.tokens[tokenId]))
    else w
  }

  function DoSaveEnrollment(w: World, p: nat, id: string): World {
    if p in w.flights && w.flights[p].Admitted? then
      var f := w.flights[p];
      var r := InsertEnrollment(w.db, Enrollment(id, f.req.hostname, f.req.machineId, f.req.mac, f.token.id, w.clock));
      if r.Ok? then Landed(w, p).(db := r.value) else Landed(w, p)
    else w
  }

  function DoRequest(server: Server, w: World, p: nat, creq: CertificateRequest, signed: Issued): World {
    if p !in w.flights && !Blank(creq.enrollmentId) && creq.enrollmentId in w.db.enrollments then
      var en := w.db.enrollments[creq.enrollmentId];
      Flying(w, p, Signed(CertificateFor(server.caId, creq, signed, en.hostname), Some(en)))
    else w
  }

  /** A known old certificate is inside its renewal window. */
  predicate Renewable(server: Server, w: World, oldSerial: string) {
    oldSerial != "" && oldSerial in w.db.issued ==> w.db.issued[oldSerial].notAfter - w.clock <= server.renewBefore
  }

  function DoRenew(
    server: Server, w: World, p: nat, creq: CertificateRequest, oldSerial: string, signed: Issued): World {
    if p !in w.flights && Renewable(server, w, oldSerial) then
      Flying(w, p, Signed(CertificateFor(server.caId, creq, signed, creq.enrollmentId), None))
    else w
  }

  function DoEnsureConfig(server: Server, w: World, p: nat): World {
    if p in w.flights && w.flights[p].Signed? then
      var f := w.flights[p];
      Flying(WithDb(w, UpsertConfig(w.db, DefaultConfig(server.caId, w.clock))), p, Configured(f.cert, f.origin))
    else w
  }

  function DoStore(w: World, p: nat): World {
    if p in w.flights && w.flights[p].Configured? then
      var f := w.flights[p];
      var r := InsertIssued(w.db, f.cert.(createdAt := w.clock));
      if r.Ok? then
        Flying(w, p, Stored(f.cert.serial)).(db := r.value, origins := w.origins[f.cert.serial := f.origin])
      else Landed(w, p)
    else w
  }

  function DoCountIssued(w: World, p: nat): World {
    if p in w.flights && w.flights[p].Stored? then Landed(w, p).(active := w.active + 1) else w
  }

  function DoMarkRevoked(w: World, p: nat, serial: string, reason: string): World {
    if p !in w.flights && serial != "" then
      var row := RevokedCertificate(serial, if reason == "" then "unspecified" else reason, w.clock);
      Flying(w, p, Marked(row)).(db := UpdateIssuedRevoked(w.db, serial, w.clock))
    else w
  }

  function DoRecordRevoked(w: World, p: nat): World {
    if p in w.flights && w.flights[p].Marked? then
      var row := w.flights[p].row;
      var r := ReplaceRevoked(w.db, row);
      if r.Ok? then
        Flying(w, p, Recorded(row.serial)).(db := r.value, revocations := w.revocations + [row.serial])
      else Landed(w, p)
    else w
  }

  function DoCountRevoked(w: World, p: nat): World {
    if p in w.flights && w.flights[p].Recorded? then Landed(w, p).(active := w.active - 1) else w
  }

  function Do(server: Server, w: World, act: Act): World {
    match act
    case CreateToken(t) => WithDb(w, InsertToken(w.db, t))
    case RevokeToken(id) => WithDb(w, UpdateTokenRevoked(w.db, id, w.clock))
    case CheckToken(p, id, hash, req) => DoCheckToken(w, p, id, hash, req)
    case SaveEnrollment(p, id) => DoSaveEnrollment(w, p, id)
    case Request(p, creq, signed) => DoRequest(server, w, p, creq, signed)
    case Renew(p, creq, oldSerial, signed) => DoRenew(server, w, p, creq, oldSerial, signed)
    case EnsureConfig(p) => DoEnsureConfig(server, w, p)
    case Store(p) => DoStore(w, p)
    case CountIssued(p) => DoCountIssued(w, p)
    case MarkRevoked(p, serial, reason) => DoMarkRevoked(w, p, serial, reason)
    case RecordRevoked(p) => DoRecordRevoked(w, p)
    case CountRevoked(p) => DoCountRevoked(w, p)
  }

  /** The clock never goes back. */
  function Step(server: Server, w: World, e: Event): World {
    if e.now < w.clock then w else Do(server, w.(clock := e.now), e.act)
  }

  /** The worlds that the events lead through. */
  ghost predicate History(server: Server, events: seq<Event>, ws: seq<World>) {
    && |ws| == |events| + 1 && ws[0] == START
    && forall i {:trigger events[i]} :: 0 <= i < |events| ==> ws[i + 1] == Step(server, ws[i], events[i])
  }

  lemma {:induction false} EveryEventListIsAHistory(server: Server, events: seq<Event>) returns (ws: seq<World>)
    ensures History(server, events, ws)
  {
    if events == [] {
      ws := [START];
    } else {
      var init := events[..|events| - 1];
      var before := EveryEventListIsAHistory(server, init);
      ws := before + [Step(server, before[|init|], events[|init|])];
      forall i | 0 <= i < |events| ensures ws[i + 1] == Step(server, ws[i], events[i]) {
        if i < |init| {
          assert init[i] == events[i];
        }
      }
    }
  }

  // ---- Certificates -------------------------------------------------------------------

  /** The certificate was requested for a stored enrollment and names it. */
  ghost predicate NamesEnrollment(db: Db, c: IssuedCertificate, origin: Option<Enrollment>) {
    origin.Some? ==>
      var en := origin.value;
      en.id in db.enrollments && db.enrollments[en.id] == en && c.enrollmentId == en.id && c.subject == en.hostname
  }

  ghost predicate CertificatesNamed(w: World) {
    forall s :: s in w.db.issued ==> s in w.origins && NamesEnrollment(w.db, w.db.issued[s], w.origins[s])
  }

  ghost predicate SigningFlights(w: World) {
    forall p :: p in w.flights && (w.flights[p].Signed? || w.flights[p].Configured?) ==>
      NamesEnrollment(w.db, w.flights[p].cert, w.flights[p].origin) && w.flights[p].cert.revokedAt == None
  }

  ghost predicate Signing(w: World, p: nat) {
    p in w.flights && (w.flights[p].Signed? || w.flights[p].Configured?)
  }

  /** Acts that store no certificate and sign nothing. */
  lemma FrameKeepsNamed(w: World, v: World, p: nat)
    requires CertificatesNamed(w) && SigningFlights(w)
    requires forall k :: k in w.db.enrollments ==> k in v.db.enrollments && v.db.enrollments[k] == w.db.enrollments[k]
    requires v.origins == w.origins && v.db.issued == w.db.issued
    requires v.flights == w.flights || (MovesOne(w.flights, v.flights, p) && !Signing(v, p))
    ensures CertificatesNamed(v) && SigningFlights(v)
  {
  }

  lemma EnsureConfigKeepsNamed(server: Server, w: World, p: nat)
    requires CertificatesNamed(w) && SigningFlights(w)
    ensures var v := DoEnsureConfig(server, w, p); CertificatesNamed(v) && SigningFlights(v)
  {
  }

  lemma MarkKeepsNamed(w: World, p: nat, serial: string, reason: string)
    requires CertificatesNamed(w) && SigningFlights(w)
    ensures var v := DoMarkRevoked(w, p, serial, reason); CertificatesNamed(v) && SigningFlights(v)
  {
  }

  lemma RequestKeepsNamed(server: Server, w: World, p: nat, creq: CertificateRequest, signed: Issued)
    requires Keyed(w.db) && CertificatesNamed(w) && SigningFlights(w)
    ensures var v := DoRequest(server, w, p, creq, signed); CertificatesNamed(v) && SigningFlights(v)
  {
  }

  lemma RenewKeepsNamed(server: Server, w: World, p: nat, creq: CertificateRequest, oldSerial: string, signed: Issued)
    requires CertificatesNamed(w) && SigningFlights(w)
    ensures var v := DoRenew(server, w, p, creq, oldSerial, signed); CertificatesNamed(v) && SigningFlights(v)
  {
  }

  lemma StoreKeepsNamed(w: World, p: nat)
    requires CertificatesNamed(w) && SigningFlights(w)
    ensures var v := DoStore(w, p); CertificatesNamed(v) && SigningFlights(v)
  {
  }

  // ---- Revocations ----------------------------------------------------------------------

  /** Request p is a revocation between its two statements. */
  ghost predicate Revoking(w: World, p: nat) {
    p in w.flights && w.flights[p].Marked?
  }

  ghost predicate HalfDone(w: World, serial: string) {
    exists p :: Revoking(w, p) && w.flights[p].row.serial == serial
  }

  predicate IsMarked(db: Db, serial: string) {
    serial in db.issued && db.issued[serial].revokedAt.Some?
  }

  /** A marked row is recorded or about to be. */
  ghost predicate MarksRecorded(w: World) {
    forall s :: IsMarked(w.db, s) ==> s in w.db.revoked || HalfDone(w, s)
  }

  lemma MarkKeepsMatch(w: World, p: nat, serial: string, reason: string)
    requires MarksRecorded(w)
    ensures MarksRecorded(DoMarkRevoked(w, p, serial, reason))
  {
    var v := DoMarkRevoked(w, p, serial, reason);
    if p !in w.flights && serial != "" {
      forall s | IsMarked(v.db, s) ensures s in v.db.revoked || HalfDone(v, s) {
        if s == serial {
          assert v.flights[p].row.serial == s;
        } else if s !in w.db.revoked {
          assert IsMarked(w.db, s);
          var q :| Revoking(w, q) && w.flights[q].row.serial == s;
          assert v.flights[q] == w.flights[q];
        }
      }
    }
  }

  lemma RecordKeepsMatch(w: World, p: nat)
    requires MarksRecorded(w)
    ensures MarksRecorded(DoRecordRevoked(w, p))
  {
    if Revoking(w, p) {
      var v, row := DoRecordRevoked(w, p), w.flights[p].row;
      forall s | IsMarked(v.db, s) ensures s in v.db.revoked || HalfDone(v, s) {
        assert IsMarked(w.db, s);
        if s !in w.db.revoked && s != row.serial {
          var q :| Revoking(w, q) && w.flights[q].row.serial == s;
          assert Revoking(v, q) && v.flights[q].row.serial == s;
        }
      }
    }
  }

  /** Acts of requests that are not revocations; a newly stored row is not marked. */
  lemma OtherActsKeepMatch(w: World, v: World, p: nat)
    requires MarksRecorded(w)
    requires v.db.revoked == w.db.revoked
    requires forall s :: IsMarked(v.db, s) <==> IsMarked(w.db, s)
    requires v.flights == w.flights || (MovesOne(w.flights, v.flights, p) && !Revoking(w, p) && !Revoking(v, p))
    ensures MarksRecorded(v)
  {
    forall s | IsMarked(v.db, s) ensures s in v.db.revoked || HalfDone(v, s) {
      assert IsMarked(w.db, s);
      if s !in w.db.revoked {
        var q :| Revoking(w, q) && w.flights[q].row.serial == s;
        assert v.flights[q] == w.flights[q];
      }
    }
  }

  // ---- The counter ------------------------------------------------------------------------

  /** Certificates stored whose increment is still to come. */
  ghost function Uncounted(w: World): set<nat> {
    set p | p in w.flights && w.flights[p].Stored?
  }

  /** Revocations recorded whose decrement is still to come. */
  ghost function Undropped(w: World): set<nat> {
    set p | p in w.flights && w.flights[p].Recorded?
  }

  ghost predicate Counted(w: World) {
    && w.active == |w.db.issued| - |Uncounted(w)| - |w.revocations| + |Undropped(w)|
    && w.db.revoked.Keys == set s | s in w.revocations
  }

  ghost predicate Counting(w: World, p: nat) {
    p in w.flights && (w.flights[p].Stored? || w.flights[p].Recorded?)
  }

  lemma StoreKeepsCounted(w: World, p: nat)
    requires Counted(w)
    ensures Counted(DoStore(w, p))
  {
    if p in w.flights && w.flights[p].Configured? {
      var v := DoStore(w, p);
      var cert := w.flights[p].cert.(createdAt := w.clock);
      if InsertIssued(w.db, cert).Ok? {
        AcceptedStoreKeepsCounted(w, v, p, cert);
      } else {
        OtherActsKeepCounted(w, v, p);
      }
    }
  }

  lemma AcceptedStoreKeepsCounted(w: World, v: World, p: nat, cert: IssuedCertificate)
    requires Counted(w) && p in w.flights && w.flights[p].Configured? && cert.serial !in w.db.issued
    requires v.flights == w.flights[p := Stored(cert.serial)] && v.active == w.active && v.revocations == w.revocations
    requires v.db.issued == w.db.issued[cert.serial := cert] && v.db.revoked == w.db.revoked
    ensures Counted(v)
  {
    assert Undropped(v) == Undropped(w) && Uncounted(v) == Uncounted(w) + {p};
    OneMoreIssued(w.db.issued, cert);
  }

  lemma OneMoreIssued(issued: map<string, IssuedCertificate>, cert: IssuedCertificate)
    requires cert.serial !in issued
    ensures |issued[cert.serial := cert]| == |issued| + 1
  {
    assert issued[cert.serial := cert].Keys == issued.Keys + {cert.serial};
    assert |issued[cert.serial := cert].Keys| == |issued.Keys| + 1;
  }

  lemma CountIssuedKeepsCounted(w: World, p: nat)
    requires Counted(w)
    ensures Counted(DoCountIssued(w, p))
  {
    var v := DoCountIssued(w, p);
    if v != w {
      assert Undropped(v) == Undropped(w) && Uncounted(v) == Uncounted(w) - {p} && p in Uncounted(w);
    }
  }

  lemma AppendedElements(xs: seq<string>, x: string)
    ensures (set s | s in xs + [x]) == (set s | s in xs) + {x}
  {
  }

  lemma RecordKeepsCounted(w: World, p: nat)
    requires Counted(w)
    ensures Counted(DoRecordRevoked(w, p))
  {
    if p in w.flights && w.flights[p].Marked? {
      var v := DoRecordRevoked(w, p);
      var row := w.flights[p].row;
      if row.serial in w.db.issued {
        AcceptedRecordKeepsCounted(w, v, p, row);
      } else {
        OtherActsKeepCounted(w, v, p);
      }
    }
  }

  lemma AcceptedRecordKeepsCounted(w: World, v: World, p: nat, row: RevokedCertificate)
    requires Counted(w) && p in w.flights && w.flights[p] == Marked(row)
    requires v.flights == w.flights[p := Recorded(row.serial)] && v.active == w.active
    requires v.revocations == w.revocations + [row.serial]
    requires v.db.issued == w.db.issued && v.db.revoked == w.db.revoked[row.serial := row]
    ensures Counted(v)
  {
    assert Uncounted(v) == Uncounted(w) && Undropped(v) == Undropped(w) + {p};
    AppendedElements(w.revocations, row.serial);
    assert v.db.revoked.Keys == w.db.revoked.Keys + {row.serial};
  }

  lemma CountRevokedKeepsCounted(w: World, p: nat)
    requires Counted(w)
    ensures Counted(DoCountRevoked(w, p))
  {
    var v := DoCountRevoked(w, p);
    if v != w {
      assert Uncounted(v) == Uncounted(w) && Undropped(v) == Undropped(w) - {p} && p in Undropped(w);
    }
  }

  lemma OtherActsKeepCounted(w: World, v: World, p: nat)
    requires Counted(w)
    requires v.active == w.active && v.revocations == w.revocations && v.db.revoked == w.db.revoked
    requires v.db.issued.Keys == w.db.issued.Keys
    requires v == w || (MovesOne(w.flights, v.flights, p) && !Counting(w, p) && !Counting(v, p))
    ensures Counted(v)
  {
    assert |v.db.issued| == |v.db.issued.Keys| == |w.db.issued|;
    assert Uncounted(v) == Uncounted(w) && Undropped(v) == Undropped(w);
  }

  lemma MarkKeepsCounted(w: World, p: nat, serial: string, reason: string)
    requires Counted(w)
    ensures Counted(DoMarkRevoked(w, p, serial, reason))
  {
    if p !in w.flights && serial != "" {
      OtherActsKeepCounted(w, DoMarkRevoked(w, p, serial, reason), p);
    }
  }

  // ---- All histories ----------------------------------------------------------------------

  ghost predicate Inv(w: World) {
    && Integrity(w.db)
    && CertificatesNamed(w) && SigningFlights(w)
    && MarksRecorded(w)
    && Counted(w)
  }

  // ---- Each act keeps the invariant ---------------------------------------------------------

  lemma CreateTokenKeepsInv(w: World, t: Token, v: World)
    requires Inv(w) && v == WithDb(w, InsertToken(w.db, t))
    ensures Inv(v)
  {
    if InsertToken(w.db, t).Ok? {
      InsertTokenKeepsIntegrity(w.db, t);
      FrameKeepsNamed(w, v, 0);
      OtherActsKeepMatch(w, v, 0);
    }
  }

  lemma RevokeTokenKeepsInv(w: World, id: string, v: World)
    requires Inv(w) && v == WithDb(w, UpdateTokenRevoked(w.db, id, w.clock))
    ensures Inv(v)
  {
    if UpdateTokenRevoked(w.db, id, w.clock).Ok? {
      UpdateTokenKeepsIntegrity(w.db, id, w.clock);
      FrameKeepsNamed(w, v, 0);
      OtherActsKeepMatch(w, v, 0);
    }
  }

  /** A request that moves on without touching the tables or the history. */
  lemma LocalActKeepsInv(w: World, v: World, p: nat)
    requires Inv(w) && v == w.(flights := v.flights) && MovesOne(w.flights, v.flights, p)
    requires !Revoking(w, p) && !Revoking(v, p) && !Counting(w, p) && !Counting(v, p)
    requires CertificatesNamed(v) && SigningFlights(v)
    ensures Inv(v)
  {
    OtherActsKeepMatch(w, v, p);
    OtherActsKeepCounted(w, v, p);
  }

  lemma CheckTokenKeepsInv(w: World, p: nat, tokenId: string, hash: string, req: EnrollRequest, v: World)
    requires Inv(w) && v == DoCheckToken(w, p, tokenId, hash, req)
    ensures Inv(v)
  {
    if v != w {
      FrameKeepsNamed(w, v, p);
      LocalActKeepsInv(w, v, p);
    }
  }

  lemma SaveEnrollmentKeepsIntegrity(w: World, p: nat, id: string)
    requires Integrity(w.db)
    ensures Integrity(DoSaveEnrollment(w, p, id).db)
  {
    if p in w.flights && w.flights[p].Admitted? {
      var f := w.flights[p];
      var e := Enrollment(id, f.req.hostname, f.req.machineId, f.req.mac, f.token.id, w.clock);
      if InsertEnrollment(w.db, e).Ok? {
        InsertEnrollmentKeepsIntegrity(w.db, e);
      }
    }
  }

  lemma SaveEnrollmentKeepsNamed(w: World, p: nat, id: string)
    requires CertificatesNamed(w) && SigningFlights(w)
    ensures var v := DoSaveEnrollment(w, p, id); CertificatesNamed(v) && SigningFlights(v)
  {
    if p in w.flights && w.flights[p].Admitted? {
      FrameKeepsNamed(w, DoSaveEnrollment(w, p, id), p);
    }
  }

  lemma SaveEnrollmentKeepsMatch(w: World, p: nat, id: string)
    requires MarksRecorded(w)
    ensures MarksRecorded(DoSaveEnrollment(w, p, id))
  {
    if p in w.flights && w.flights[p].Admitted? {
      OtherActsKeepMatch(w, DoSaveEnrollment(w, p, id), p);
    }
  }

  lemma SaveEnrollmentKeepsCounted(w: World, p: nat, id: string)
    requires Counted(w)
    ensures Counted(DoSaveEnrollment(w, p, id))
  {
    if p in w.flights && w.flights[p].Admitted? {
      OtherActsKeepCounted(w, DoSaveEnrollment(w, p, id), p);
    }
  }

  lemma SaveEnrollmentKeepsInv(w: World, p: nat, id: string, v: World)
    requires Inv(w) && v == DoSaveEnrollment(w, p, id)
    ensures Inv(v)
  {
    SaveEnrollmentKeepsIntegrity(w, p, id);
    SaveEnrollmentKeepsNamed(w, p, id);
    SaveEnrollmentKeepsMatch(w, p, id);
    SaveEnrollmentKeepsCounted(w, p, id);
  }

  lemma RequestKeepsInv(server: Server, w: World, p: nat, creq: CertificateRequest, signed: Issued, v: World)
    requires Inv(w) && v == DoRequest(server, w, p, creq, signed)
    ensures Inv(v)
  {
    if v != w {
      RequestKeepsNamed(server, w, p, creq, signed);
      LocalActKeepsInv(w, v, p);
    }
  }

  lemma RenewKeepsInv(
    server: Server, w: World, p: nat, creq: CertificateRequest, oldSerial: string, signed: Issued, v: World)
    requires Inv(w) && v == DoRenew(server, w, p, creq, oldSerial, signed)
    ensures Inv(v)
  {
    if v != w {
      RenewKeepsNamed(server, w, p, creq, oldSerial, signed);
      LocalActKeepsInv(w, v, p);
    }
  }

  lemma EnsureConfigKeepsInv(server: Server, w: World, p: nat, v: World)
    requires Inv(w) && v == DoEnsureConfig(server, w, p)
    ensures Inv(v)
  {
    if p in w.flights && w.flights[p].Signed? {
      UpsertConfigKeepsIntegrity(w.db, DefaultConfig(server.caId, w.clock));
      EnsureConfigKeepsNamed(server, w, p);
      OtherActsKeepMatch(w, v, p);
      OtherActsKeepCounted(w, v, p);
    }
  }

  lemma StoreKeepsRows(w: World, p: nat)
    requires Inv(w)
    ensures var v := DoStore(w, p);
            Integrity(v.db) && CertificatesNamed(v) && SigningFlights(v)
  {
    if p in w.flights && w.flights[p].Configured? {
      var cert := w.flights[p].cert.(createdAt := w.clock);
      if InsertIssued(w.db, cert).Ok? {
        InsertIssuedKeepsIntegrity(w.db, cert);
      }
      StoreKeepsNamed(w, p);
    }
  }

  lemma StoreMarksNothing(w: World, p: nat, s: string)
    requires SigningFlights(w)
    ensures IsMarked(DoStore(w, p).db, s) <==> IsMarked(w.db, s)
  {
  }

  lemma StoreKeepsMatch(w: World, p: nat)
    requires SigningFlights(w) && MarksRecorded(w)
    ensures MarksRecorded(DoStore(w, p))
  {
    if p in w.flights && w.flights[p].Configured? {
      forall s ensures IsMarked(DoStore(w, p).db, s) <==> IsMarked(w.db, s) {
        StoreMarksNothing(w, p, s);
      }
      OtherActsKeepMatch(w, DoStore(w, p), p);
    }
  }

  lemma StoreKeepsInv(w: World, p: nat, v: World)
    requires Inv(w) && v == DoStore(w, p)
    ensures Inv(v)
  {
    StoreKeepsRows(w, p);
    StoreKeepsMatch(w, p);
    StoreKeepsCounted(w, p);
  }

  lemma CountIssuedKeepsInv(w: World, p: nat, v: World)
    requires Inv(w) && v == DoCountIssued(w, p)
    ensures Inv(v)
  {
    if p in w.flights && w.flights[p].Stored? {
      FrameKeepsNamed(w, v, p);
      OtherActsKeepMatch(w, v, p);
      CountIssuedKeepsCounted(w, p);
    }
  }

  lemma MarkKeepsInv(w: World, p: nat, serial: string, reason: string, v: World)
    requires Inv(w) && v == DoMarkRevoked(w, p, serial, reason)
    ensures Inv(v)
  {
    if p !in w.flights && serial != "" {
      UpdateIssuedKeepsIntegrity(w.db, serial, w.clock);
      MarkKeepsNamed(w, p, serial, reason);
      MarkKeepsMatch(w, p, serial, reason);
      MarkKeepsCounted(w, p, serial, reason);
    }
  }

  lemma RecordKeepsIntegrity(w: World, p: nat)
    requires Inv(w)
    ensures Integrity(DoRecordRevoked(w, p).db)
  {
    if p in w.flights && w.flights[p].Marked? && ReplaceRevoked(w.db, w.flights[p].row).Ok? {
      ReplaceRevokedKeepsIntegrity(w.db, w.flights[p].row);
    }
  }

  lemma RecordKeepsNamed(w: World, p: nat)
    requires CertificatesNamed(w) && SigningFlights(w)
    ensures var v := DoRecordRevoked(w, p); CertificatesNamed(v) && SigningFlights(v)
  {
    FrameKeepsNamed(w, DoRecordRevoked(w, p), p);
  }

  lemma RecordKeepsInv(w: World, p: nat, v: World)
    requires Inv(w) && v == DoRecordRevoked(w, p)
    ensures Inv(v)
  {
    if p in w.flights && w.flights[p].Marked? {
      RecordKeepsIntegrity(w, p);
      RecordKeepsNamed(w, p);
      RecordKeepsMatch(w, p);
      RecordKeepsCounted(w, p);
    }
  }

  lemma CountRevokedKeepsInv(w: World, p: nat, v: World)
    requires Inv(w) && v == DoCountRevoked(w, p)
    ensures Inv(v)
  {
    if p in w.flights && w.flights[p].Recorded? {
      FrameKeepsNamed(w, v, p);
      OtherActsKeepMatch(w, v, p);
      CountRevokedKeepsCounted(w, p);
    }
  }

  lemma TokenActKeepsInv(server: Server, w: World, act: Act, v: World)
    requires Inv(w) && v == Do(server, w, act)
    requires act.CreateToken? || act.RevokeToken? || act.CheckToken? || act.SaveEnrollment?
    ensures Inv(v)
  {
    match act
    case CreateToken(t) => CreateTokenKeepsInv(w, t, v);
    case RevokeToken(id) => RevokeTokenKeepsInv(w, id, v);
    case CheckToken(p, id, hash, req) => CheckTokenKeepsInv(w, p, id, hash, req, v);
    case SaveEnrollment(p, id) => SaveEnrollmentKeepsInv(w, p, id, v);
  }

  lemma DoKeepsInv(server: Server, w: World, act: Act, v: World)
    requires Inv(w) && v == Do(server, w, act)
    ensures Inv(v)
  {
    if act.CreateToken? || act.RevokeToken? || act.CheckToken? || act.SaveEnrollment? {
      TokenActKeepsInv(server, w, act, v);
    } else {
      match act
      case Request(p, creq, signed) => RequestKeepsInv(server, w, p, creq, signed, v);
      case Renew(p, creq, oldSerial, signed) => RenewKeepsInv(server, w, p, creq, oldSerial, signed, v);
      case EnsureConfig(p) => EnsureConfigKeepsInv(server, w, p, v);
      case Store(p) => StoreKeepsInv(w, p, v);
      case CountIssued(p) => CountIssuedKeepsInv(w, p, v);
      case MarkRevoked(p, serial, reason) => MarkKeepsInv(w, p, serial, reason, v);
      case RecordRevoked(p) => RecordKeepsInv(w, p, v);
      case CountRevoked(p) => CountRevokedKeepsInv(w, p, v);
    }
  }

  lemma StepKeepsInv(server: Server, w: World, e: Event, v: World)
    requires Inv(w) && v == Step(server, w, e)
    ensures Inv(v)
  {
    if e.now >= w.clock {
      LaterClockKeepsInv(w, e.now);
      DoKeepsInv(server, w.(clock := e.now), e.act, v);
    }
  }

  lemma LaterClockKeepsInv(w: World, now: nat)
    requires Inv(w) && w.clock <= now
    ensures Inv(w.(clock := now))
  {
    var t := w.(clock := now);
    OtherActsKeepMatch(w, t, 0);
  }

  lemma StartIsSound()
    ensures Inv(START)
  {
  }

  lemma HistoryStep(server: Server, events: seq<Event>, ws: seq<World>, i: nat)
    requires History(server, events, ws) && i < |events|
    ensures ws[i + 1] == Step(server, ws[i], events[i])
  {
  }

  lemma {:induction false} EveryHistoryKeepsInv(server: Server, events: seq<Event>, ws: seq<World>, n: nat)
    requires History(server, events, ws) && n < |ws|
    ensures Inv(ws[n])
  {
    if n == 0 {
      StartIsSound();
    } else {
      EveryHistoryKeepsInv(server, events, ws, n - 1);
      HistoryStep(server, events, ws, n - 1);
      StepKeepsInv(server, ws[n - 1], events[n - 1], ws[n]);
    }
  }

  // ---- What every history shows --------------------------------------------------------------

  /** Every certificate names a stored CA row; one that was requested (not renewed) also
      names a stored enrollment, whose host is its subject. */
  lemma CertificatesNameTheirSources(server: Server, events: seq<Event>, ws: seq<World>, n: nat, serial: string)
    requires History(server, events, ws) && n < |ws| && serial in ws[n].db.issued
    ensures var w := ws[n];
            var c := w.db.issued[serial];
            && c.serial == serial && c.caId in w.db.configs && serial in w.origins
            && (w.origins[serial].Some? ==>
                  c.enrollmentId in w.db.enrollments && w.db.enrollments[c.enrollmentId] == w.origins[serial].value &&
                  c.subject == w.db.enrollments[c.enrollmentId].hostname)
  {
    EveryHistoryKeepsInv(server, events, ws, n);
  }

  ghost function MarkedSerials(w: World): set<string> {
    set s | s in w.db.issued && w.db.issued[s].revokedAt.Some?
  }

  /** Whenever no request is in flight the active-certificate counter is stored certificates
      minus recorded revocations. It never exceeds the certificates that are not revoked, and
      it equals their number exactly when no serial was revoked twice and each revoked one had
      a revocation that found it stored. */
  lemma CounterBoundsActiveCertificates(server: Server, events: seq<Event>, ws: seq<World>, n: nat)
    requires History(server, events, ws) && n < |ws| && ws[n].flights == map[]
    ensures var w := ws[n];
            var unrevoked := w.db.issued.Keys - MarkedSerials(w);
            && w.active == |w.db.issued| - |w.revocations|
            && w.active <= |unrevoked|
            && (w.active == |unrevoked| <==>
                  Distinct(w.revocations) && forall s :: s in w.db.revoked ==> EverMarked(events, ws, n, s))
  {
    EveryHistoryKeepsInv(server, events, ws, n);
    QuietCounter(ws[n]);
    RevocationTablesCoincideIff(server, events, ws, n);
  }

  lemma QuietCounter(w: World)
    requires Counted(w) && MarksRecorded(w) && References(w.db) && w.flights == map[]
    ensures var unrevoked := w.db.issued.Keys - MarkedSerials(w);
            && w.active == |w.db.issued| - |w.revocations|
            && w.active <= |unrevoked|
            && (w.active == |unrevoked| <==> Distinct(w.revocations) && w.db.revoked.Keys == MarkedSerials(w))
  {
    var marked, recorded := MarkedSerials(w), w.db.revoked.Keys;
    assert Uncounted(w) == {} && Undropped(w) == {};
    forall s | s in marked ensures s in recorded {
      assert IsMarked(w.db, s);
    }
    SubsetCounts(marked, w.db.issued.Keys);
    SubsetCounts(marked, recorded);
    DistinctCardinality(w.revocations, recorded);
  }

  lemma SubsetCounts<T>(a: set<T>, b: set<T>)
    requires a <= b
    ensures |b - a| == |b| - |a|
    ensures |a| <= |b| && (|a| == |b| <==> a == b)
  {
    assert b == a + (b - a);
  }

  // ---- How enrollments were admitted -----------------------------------------------------------

  /** This act looked a token up by its hash for this enrollment's request and found it active
      or used, and for the enrollment's host; w is the world right after the check. */
  ghost predicate Admits(w: World, e: Event, en: Enrollment) {
    && e.act.CheckToken? && e.act.tokenId == en.tokenId && w.clock == e.now <= en.createdAt
    && e.act.req.hostname == en.hostname && e.act.req.machineId == en.machineId && e.act.req.mac == en.mac
    && en.tokenId in w.db.tokens && w.db.tokens[en.tokenId].tokenHash == e.act.hash
    && StatusOf(w.db, en.tokenId, e.now) in {Active, Used}
    && EqualFold(w.db.tokens[en.tokenId].hostname, en.hostname)
  }

  ghost predicate WasAdmitted(events: seq<Event>, ws: seq<World>, n: nat, en: Enrollment)
    requires n <= |events| < |ws|
  {
    exists k :: 0 <= k < n && Admits(ws[k + 1], events[k], en)
  }

  /** What an admitted request would store now, but for the id. */
  ghost function Applied(w: World, p: nat): Enrollment
    requires p in w.flights && w.flights[p].Admitted?
  {
    var f := w.flights[p];
    Enrollment("", f.req.hostname, f.req.machineId, f.req.mac, f.token.id, w.clock)
  }

  lemma CheckAdmits(w: World, p: nat, tokenId: string, hash: string, req: EnrollRequest, q: nat)
    requires Keyed(w.db)
    ensures var v := DoCheckToken(w, p, tokenId, hash, req);
            q in v.flights && v.flights[q].Admitted? ==>
              (q in w.flights && w.flights[q] == v.flights[q]) ||
              Admits(v, Event(w.clock, CheckToken(p, tokenId, hash, req)), Applied(v, q))
  {
  }

  lemma OtherActsAdmitNone(server: Server, w: World, act: Act, q: nat)
    requires !act.CheckToken?
    ensures var v := Do(server, w, act);
            q in v.flights && v.flights[q].Admitted? ==> q in w.flights && w.flights[q] == v.flights[q]
  {
  }

  lemma SaveStoresApplied(w: World, p: nat, id: string, other: string)
    ensures var v := DoSaveEnrollment(w, p, id);
            other in v.db.enrollments ==>
              (other in w.db.enrollments && v.db.enrollments[other] == w.db.enrollments[other]) ||
              (p in w.flights && w.flights[p].Admitted? && v.db.enrollments[other] == Applied(w, p).(id := other))
  {
  }

  lemma OtherActsEnrollNone(server: Server, w: World, act: Act)
    requires !act.SaveEnrollment?
    ensures Do(server, w, act).db.enrollments == w.db.enrollments
  {
  }

  lemma StaysAdmitted(events: seq<Event>, ws: seq<World>, n: nat, en: Enrollment, later: Enrollment)
    requires n < |events| < |ws| && WasAdmitted(events, ws, n, en)
    requires en.createdAt <= later.createdAt && later == en.(id := later.id, createdAt := later.createdAt)
    ensures WasAdmitted(events, ws, n + 1, later)
  {
    var k :| 0 <= k < n && Admits(ws[k + 1], events[k], en);
    assert Admits(ws[k + 1], events[k], later);
  }

  lemma StepAdmits(server: Server, w: World, e: Event, q: nat)
    requires Keyed(w.db)
    ensures var v := Step(server, w, e);
            q in v.flights && v.flights[q].Admitted? ==>
              (q in w.flights && w.flights[q] == v.flights[q] && w.clock <= v.clock) || Admits(v, e, Applied(v, q))
  {
    if e.now >= w.clock {
      var t := w.(clock := e.now);
      if e.act.CheckToken? {
        CheckAdmits(t, e.act.p, e.act.tokenId, e.act.hash, e.act.req, q);
        assert e == Event(t.clock, CheckToken(e.act.p, e.act.tokenId, e.act.hash, e.act.req));
      } else {
        OtherActsAdmitNone(server, t, e.act, q);
      }
      KeepsTime(server, t, e.act);
    }
  }

  lemma {:induction false} FlightsWereAdmitted(server: Server, events: seq<Event>, ws: seq<World>, n: nat, q: nat)
    requires History(server, events, ws) && n < |ws| && q in ws[n].flights && ws[n].flights[q].Admitted?
    ensures WasAdmitted(events, ws, n, Applied(ws[n], q))
  {
    if n > 0 {
      var w, e := ws[n - 1], events[n - 1];
      assert Keyed(w.db) by {
        EveryHistoryKeepsInv(server, events, ws, n - 1);
      }
      StepAdmits(server, w, e, q);
      if !Admits(ws[n], e, Applied(ws[n], q)) {
        FlightsWereAdmitted(server, events, ws, n - 1, q);
        StaysAdmitted(events, ws, n - 1, Applied(w, q), Applied(ws[n], q));
      }
    }
  }

  lemma KeepsTime(server: Server, w: World, act: Act)
    ensures Do(server, w, act).clock == w.clock
  {
  }

  lemma {:induction false} EnrollmentsWereAdmitted(
    server: Server, events: seq<Event>, ws: seq<World>, n: nat, id: string)
    requires History(server, events, ws) && n < |ws| && id in ws[n].db.enrollments
    ensures WasAdmitted(events, ws, n, ws[n].db.enrollments[id])
  {
    if n > 0 {
      var w, e, en := ws[n - 1], events[n - 1], ws[n].db.enrollments[id];
      if e.now >= w.clock {
        var t := w.(clock := e.now);
        if e.act.SaveEnrollment? {
          SaveStoresApplied(t, e.act.p, e.act.id, id);
        } else {
          OtherActsEnrollNone(server, t, e.act);
        }
      }
      if id in w.db.enrollments && w.db.enrollments[id] == en {
        EnrollmentsWereAdmitted(server, events, ws, n - 1, id);
        StaysAdmitted(events, ws, n - 1, en, en);
      } else {
        FlightsWereAdmitted(server, events, ws, n - 1, e.act.p);
        StaysAdmitted(events, ws, n - 1, Applied(w, e.act.p), en);
      }
    }
  }

  /** Every enrollment names a stored token, and an earlier act of the history presented that
      token's hash for it and found the token unrevoked, unexpired and bound to the enrolled
      host. */
  lemma EnrollmentsStandOnLiveTokens(server: Server, events: seq<Event>, ws: seq<World>, n: nat, id: string)
    requires History(server, events, ws) && n < |ws| && id in ws[n].db.enrollments
    ensures ws[n].db.enrollments[id].tokenId in ws[n].db.tokens
    ensures exists k :: 0 <= k < n && Admits(ws[k + 1], events[k], ws[n].db.enrollments[id])
  {
    EveryHistoryKeepsInv(server, events, ws, n);
    EnrollmentsWereAdmitted(server, events, ws, n, id);
  }

  // ---- When the revocation tables agree ----------------------------------------------------------

  /** A revocation's UPDATE that finds a stored certificate. */
  ghost predicate MarksStored(w: World, e: Event, s: string) {
    && e.now >= w.clock && e.act.MarkRevoked? && e.act.p !in w.flights
    && e.act.serial == s && s != "" && s in w.db.issued
  }

  ghost predicate EverMarked(events: seq<Event>, ws: seq<World>, n: nat, s: string)
    requires n <= |events| < |ws|
  {
    exists i :: 0 <= i < n && MarksStored(ws[i], events[i], s)
  }

  lemma OtherActsKeepIssued(server: Server, w: World, act: Act)
    requires !act.Store? && !act.MarkRevoked?
    ensures Do(server, w, act).db.issued == w.db.issued
  {
  }

  lemma StepMarksIff(server: Server, w: World, e: Event, s: string)
    requires SigningFlights(w)
    ensures IsMarked(Step(server, w, e).db, s) <==> IsMarked(w.db, s) || MarksStored(w, e, s)
  {
    if e.now >= w.clock {
      var t := w.(clock := e.now);
      if e.act.Store? {
        StoreMarksNothing(t, e.act.p, s);
      } else if !e.act.MarkRevoked? {
        OtherActsKeepIssued(server, t, e.act);
      }
    }
  }

  /** A certificate's row is marked exactly when some revocation found it stored. */
  lemma {:induction false} MarkedIff(server: Server, events: seq<Event>, ws: seq<World>, n: nat, s: string)
    requires History(server, events, ws) && n < |ws|
    ensures IsMarked(ws[n].db, s) <==> EverMarked(events, ws, n, s)
  {
    if n > 0 {
      MarkedIff(server, events, ws, n - 1, s);
      EverMarkedOneMore(events, ws, n - 1, s);
      assert SigningFlights(ws[n - 1]) by {
        EveryHistoryKeepsInv(server, events, ws, n - 1);
      }
      StepMarksIff(server, ws[n - 1], events[n - 1], s);
    }
  }

  lemma EverMarkedOneMore(events: seq<Event>, ws: seq<World>, n: nat, s: string)
    requires n < |events| < |ws|
    ensures EverMarked(events, ws, n + 1, s) <==> EverMarked(events, ws, n, s) || MarksStored(ws[n], events[n], s)
  {
  }

  /** However revocations interleave: a revoked row names an issued row, and a marked row is
      recorded or has its revocation half done. The recorded serials are all marked exactly
      when each had a revocation that found it stored; and when none is half done, that is
      exactly when the two tables name the same serials. */
  lemma RevocationTablesCoincideIff(server: Server, events: seq<Event>, ws: seq<World>, n: nat)
    requires History(server, events, ws) && n < |ws|
    ensures ws[n].db.revoked.Keys <= ws[n].db.issued.Keys
    ensures forall s :: s in MarkedSerials(ws[n]) ==> s in ws[n].db.revoked || HalfDone(ws[n], s)
    ensures ws[n].db.revoked.Keys <= MarkedSerials(ws[n]) <==>
            forall s :: s in ws[n].db.revoked ==> EverMarked(events, ws, n, s)
    ensures (forall p :: !Revoking(ws[n], p)) ==>
              (ws[n].db.revoked.Keys == MarkedSerials(ws[n]) <==>
               forall s :: s in ws[n].db.revoked ==> EverMarked(events, ws, n, s))
  {
    var w := ws[n];
    EveryHistoryKeepsInv(server, events, ws, n);
    forall s ensures s in MarkedSerials(w) <==> EverMarked(events, ws, n, s) {
      MarkedIff(server, events, ws, n, s);
    }
    forall s | s in MarkedSerials(w) ensures s in w.db.revoked || HalfDone(w, s) {
      assert IsMarked(w.db, s);
    }
  }

  /** A certificate is stored while a revocation of its serial is half done. */
  ghost predicate Overtakes(w: World, e: Event) {
    && e.now >= w.clock && e.act.Store? && e.act.p in w.flights && w.flights[e.act.p].Configured?
    && var s := w.flights[e.act.p].cert.serial;
       s !in w.db.issued && HalfDone(w, s)
  }

  /** Revoked serials are marked, and a revocation under way marked its row or met none. */
  ghost predicate NoRace(w: World) {
    && (forall p :: Revoking(w, p) ==>
          IsMarked(w.db, w.flights[p].row.serial) || w.flights[p].row.serial !in w.db.issued)
    && (forall s :: s in w.db.revoked ==> IsMarked(w.db, s))
  }

  lemma StoreKeepsNoRace(w: World, p: nat)
    requires SigningFlights(w) && NoRace(w) && !Overtakes(w, Event(w.clock, Store(p)))
    ensures NoRace(DoStore(w, p))
  {
    var v := DoStore(w, p);
    forall s ensures IsMarked(v.db, s) <==> IsMarked(w.db, s) {
      StoreMarksNothing(w, p, s);
    }
    forall q | Revoking(v, q)
      ensures IsMarked(v.db, v.flights[q].row.serial) || v.flights[q].row.serial !in v.db.issued
    {
      assert Revoking(w, q) && w.flights[q] == v.flights[q];
    }
  }

  lemma OvertakesAnyTime(w: World, e: Event)
    requires e.now >= w.clock && Overtakes(w.(clock := e.now), e)
    ensures Overtakes(w, e)
  {
    var s := w.flights[e.act.p].cert.serial;
    var q :| Revoking(w.(clock := e.now), q) && w.flights[q].row.serial == s;
    assert Revoking(w, q);
  }

  lemma RecordKeepsNoRace(w: World, p: nat)
    requires NoRace(w)
    ensures NoRace(DoRecordRevoked(w, p))
  {
  }

  lemma MarkKeepsNoRace(w: World, p: nat, serial: string, reason: string)
    requires NoRace(w)
    ensures NoRace(DoMarkRevoked(w, p, serial, reason))
  {
  }

  lemma OtherActsKeepNoRace(server: Server, w: World, act: Act)
    requires NoRace(w) && !act.Store? && !act.RecordRevoked? && !act.MarkRevoked?
    ensures NoRace(Do(server, w, act))
  {
  }

  lemma StepKeepsNoRace(server: Server, w: World, e: Event)
    requires SigningFlights(w) && NoRace(w) && !Overtakes(w, e)
    ensures NoRace(Step(server, w, e))
  {
    if e.now >= w.clock {
      var v := w.(clock := e.now);
      match e.act
      case Store(p) =>
        if Overtakes(v, e) {
          OvertakesAnyTime(w, e);
        }
        StoreKeepsNoRace(v, p);
      case RecordRevoked(p) => RecordKeepsNoRace(v, p);
      case MarkRevoked(p, serial, reason) => MarkKeepsNoRace(v, p, serial, reason);
      case _ => OtherActsKeepNoRace(server, v, e.act);
    }
  }

  lemma {:induction false} UnlessOvertakenNoRace(server: Server, events: seq<Event>, ws: seq<World>, n: nat)
    requires History(server, events, ws) && n < |ws|
    requires forall i {:trigger events[i]} :: 0 <= i < n ==> !Overtakes(ws[i], events[i])
    ensures NoRace(ws[n])
  {
    if n > 0 {
      UnlessOvertakenNoRace(server, events, ws, n - 1);
      EveryHistoryKeepsInv(server, events, ws, n - 1);
      StepKeepsNoRace(server, ws[n - 1], events[n - 1]);
    }
  }

  /** As long as no certificate is stored while a revocation of its serial is half done, the
      tables name the same serials whenever no revocation is half done, and between requests
      the counter equals the certificates that are not revoked exactly when no serial was
      revoked twice. */
  lemma TablesAgreeUnlessOvertaken(server: Server, events: seq<Event>, ws: seq<World>, n: nat)
    requires History(server, events, ws) && n < |ws|
    requires forall i {:trigger events[i]} :: 0 <= i < n ==> !Overtakes(ws[i], events[i])
    ensures (forall p :: !Revoking(ws[n], p)) ==> ws[n].db.revoked.Keys == MarkedSerials(ws[n])
    ensures ws[n].flights == map[] ==>
              (ws[n].active == |ws[n].db.issued.Keys - MarkedSerials(ws[n])| <==> Distinct(ws[n].revocations))
  {
    var w := ws[n];
    UnlessOvertakenNoRace(server, events, ws, n);
    RevocationTablesCoincideIff(server, events, ws, n);
    assert w.db.revoked.Keys <= MarkedSerials(w) by {
      forall s | s in w.db.revoked ensures s in MarkedSerials(w) {
        assert IsMarked(w.db, s);
      }
    }
    if w.flights == map[] {
      CounterBoundsActiveCertificates(server, events, ws, n);
    }
  }

  /** Every revocation aims at a certificate that is stored. */
  ghost predicate RevokesOnlyStored(events: seq<Event>, ws: seq<World>)
    requires |events| < |ws|
  {
    forall i {:trigger events[i]} :: 0 <= i < |events| && events[i].act.MarkRevoked? ==>
      events[i].act.serial in ws[i].db.issued
  }

  lemma StepKeepsRevokingStored(server: Server, w: World, e: Event, q: nat)
    requires e.act.MarkRevoked? ==> e.act.serial in w.db.issued
    ensures var v := Step(server, w, e);
            Revoking(v, q) ==>
              (Revoking(w, q) && w.flights[q] == v.flights[q]) || v.flights[q].row.serial in w.db.issued
  {
    if e.now >= w.clock && !e.act.MarkRevoked? {
      OtherActsMarkNone(server, w.(clock := e.now), e.act, q);
    }
  }

  lemma OtherActsMarkNone(server: Server, w: World, act: Act, q: nat)
    requires !act.MarkRevoked?
    ensures var v := Do(server, w, act); Revoking(v, q) ==> Revoking(w, q) && w.flights[q] == v.flights[q]
  {
  }

  lemma IssuedStays(server: Server, w: World, e: Event)
    ensures w.db.issued.Keys <= Step(server, w, e).db.issued.Keys
  {
    if e.now >= w.clock && !e.act.Store? && !e.act.MarkRevoked? {
      OtherActsKeepIssued(server, w.(clock := e.now), e.act);
    }
  }

  lemma {:induction false} RevokingIsStored(server: Server, events: seq<Event>, ws: seq<World>, n: nat, q: nat)
    requires History(server, events, ws) && n < |ws| && RevokesOnlyStored(events, ws) && Revoking(ws[n], q)
    ensures ws[n].flights[q].row.serial in ws[n].db.issued
  {
    if n > 0 {
      StepKeepsRevokingStored(server, ws[n - 1], events[n - 1], q);
      IssuedStays(server, ws[n - 1], events[n - 1]);
      if Revoking(ws[n - 1], q) && ws[n - 1].flights[q] == ws[n].flights[q] {
        RevokingIsStored(server, events, ws, n - 1, q);
      }
    }
  }

  /** Revocations of stored certificates only: the tables name the same serials whenever no
      revocation is half done, however everything interleaves. */
  lemma RevokingStoredKeepsTablesEqual(server: Server, events: seq<Event>, ws: seq<World>, n: nat)
    requires History(server, events, ws) && n < |ws| && RevokesOnlyStored(events, ws)
    ensures (forall p :: !Revoking(ws[n], p)) ==> ws[n].db.revoked.Keys == MarkedSerials(ws[n])
    ensures ws[n].flights == map[] ==>
              (ws[n].active == |ws[n].db.issued.Keys - MarkedSerials(ws[n])| <==> Distinct(ws[n].revocations))
  {
    forall i {:trigger events[i]} | 0 <= i < n ensures !Overtakes(ws[i], events[i]) {
      forall q | Revoking(ws[i], q) ensures ws[i].flights[q].row.serial in ws[i].db.issued {
        RevokingIsStored(server, events, ws, i, q);
      }
    }
    TablesAgreeUnlessOvertaken(server, events, ws, n);
  }

  // ---- When the tables agree on times --------------------------------------------------------------

  /** A revocation's INSERT that is accepted. */
  ghost predicate Records(w: World, e: Event, s: string) {
    && e.now >= w.clock && e.act.RecordRevoked? && Revoking(w, e.act.p)
    && w.flights[e.act.p].row.serial == s && s in w.db.issued
  }

  lemma StepKeepsMark(server: Server, w: World, e: Event, s: string)
    requires s in w.db.issued && !MarksStored(w, e, s)
    ensures s in Step(server, w, e).db.issued && Step(server, w, e).db.issued[s].revokedAt == w.db.issued[s].revokedAt
  {
    if e.now >= w.clock && !e.act.Store? && !e.act.MarkRevoked? {
      OtherActsKeepIssued(server, w.(clock := e.now), e.act);
    }
  }

  lemma OtherActsKeepRevoked(server: Server, w: World, act: Act)
    requires !act.RecordRevoked?
    ensures Do(server, w, act).db.revoked == w.db.revoked
  {
  }

  lemma StepKeepsRecord(server: Server, w: World, e: Event, s: string)
    requires s in w.db.revoked && !Records(w, e, s)
    ensures s in Step(server, w, e).db.revoked && Step(server, w, e).db.revoked[s] == w.db.revoked[s]
  {
    if e.now >= w.clock && !e.act.RecordRevoked? {
      OtherActsKeepRevoked(server, w.(clock := e.now), e.act);
    }
  }

  /** The last UPDATE that found the certificate stored gave it its time. */
  lemma {:induction false} MarkedTimeIsLast(
    server: Server, events: seq<Event>, ws: seq<World>, n: nat, s: string, i: nat)
    requires History(server, events, ws) && i < n < |ws| && MarksStored(ws[i], events[i], s)
    requires forall k {:trigger events[k]} :: i < k < n ==> !MarksStored(ws[k], events[k], s)
    ensures s in ws[n].db.issued && ws[n].db.issued[s].revokedAt == Some(events[i].now)
  {
    if i + 1 < n {
      MarkedTimeIsLast(server, events, ws, n - 1, s, i);
      StepKeepsMark(server, ws[n - 1], events[n - 1], s);
    }
  }

  lemma {:induction false} RecordedRowIsLast(
    server: Server, events: seq<Event>, ws: seq<World>, n: nat, s: string, j: nat)
    requires History(server, events, ws) && j < n < |ws| && Records(ws[j], events[j], s)
    requires forall k {:trigger events[k]} :: j < k < n ==> !Records(ws[k], events[k], s)
    ensures s in ws[n].db.revoked && ws[n].db.revoked[s] == ws[j].flights[events[j].act.p].row
  {
    if j + 1 < n {
      RecordedRowIsLast(server, events, ws, n - 1, s, j);
      StepKeepsRecord(server, ws[n - 1], events[n - 1], s);
    }
  }

  /** The act with which request p begins to revoke a serial, at its own clock reading. */
  ghost predicate Begins(w: World, e: Event, p: nat, row: RevokedCertificate) {
    && e.now >= w.clock && e.act.MarkRevoked? && e.act.p == p && p !in w.flights
    && e.act.serial == row.serial != "" && e.now == row.revokedAt
  }

  /** Request p has been under way since event m, with this row. */
  ghost predicate UnderWay(events: seq<Event>, ws: seq<World>, m: nat, n: nat, p: nat, row: RevokedCertificate)
    requires m < n <= |events| < |ws|
  {
    && Begins(ws[m], events[m], p, row)
    && forall k :: m < k <= n ==> p in ws[k].flights && ws[k].flights[p] == Marked(row)
  }

  lemma StepBegins(server: Server, w: World, e: Event, p: nat)
    ensures var v := Step(server, w, e);
            Revoking(v, p) ==>
              (Revoking(w, p) && w.flights[p] == v.flights[p]) || Begins(w, e, p, v.flights[p].row)
  {
    if e.now >= w.clock && !e.act.MarkRevoked? {
      OtherActsMarkNone(server, w.(clock := e.now), e.act, p);
    }
  }

  /** Every half done revocation began with an UPDATE of its own, which gave it its time. */
  lemma {:induction false} RevocationBegan(server: Server, events: seq<Event>, ws: seq<World>, n: nat, p: nat)
    returns (m: nat)
    requires History(server, events, ws) && n < |ws| && Revoking(ws[n], p)
    ensures m < n && UnderWay(events, ws, m, n, p, ws[n].flights[p].row)
  {
    StepBegins(server, ws[n - 1], events[n - 1], p);
    if Revoking(ws[n - 1], p) && ws[n - 1].flights[p] == ws[n].flights[p] {
      m := RevocationBegan(server, events, ws, n - 1, p);
    } else {
      m := n - 1;
    }
  }

  /** After the last UPDATE that found the certificate, at i, and the last accepted INSERT of
      its serial, at j, the tables show the same time exactly when the request that inserts
      at j began, at some m, at the time of event i, as when its own UPDATE is event i. */
  lemma RevocationTimesAgreeIff(server: Server, events: seq<Event>, ws: seq<World>, n: nat, s: string, i: nat, j: nat)
    returns (m: nat)
    requires History(server, events, ws) && i < n < |ws| && j < n
    requires MarksStored(ws[i], events[i], s) && Records(ws[j], events[j], s)
    requires forall k {:trigger events[k]} :: i < k < n ==> !MarksStored(ws[k], events[k], s)
    requires forall k {:trigger events[k]} :: j < k < n ==> !Records(ws[k], events[k], s)
    ensures s in ws[n].db.issued && s in ws[n].db.revoked
    ensures m < j && UnderWay(events, ws, m, j, events[j].act.p, ws[n].db.revoked[s])
    ensures ws[n].db.issued[s].revokedAt == Some(ws[n].db.revoked[s].revokedAt) <==> events[i].now == events[m].now
  {
    MarkedTimeIsLast(server, events, ws, n, s, i);
    RecordedRowIsLast(server, events, ws, n, s, j);
    m := RevocationBegan(server, events, ws, j, events[j].act.p);
  }

  /** At most one revocation of this serial is half done. */
  ghost predicate ApartFor(w: World, s: string) {
    forall p, q :: Revoking(w, p) && Revoking(w, q) && w.flights[p].row.serial == s == w.flights[q].row.serial ==>
      p == q
  }

  /** A half done revocation of a marked serial has its time, and so has the recorded one
      when none is half done. */
  ghost predicate TimesMatch(w: World, s: string) {
    IsMarked(w.db, s) ==>
      && (forall p :: Revoking(w, p) && w.flights[p].row.serial == s ==>
            w.db.issued[s].revokedAt == Some(w.flights[p].row.revokedAt))
      && (s in w.db.revoked && !HalfDone(w, s) ==> w.db.issued[s].revokedAt == Some(w.db.revoked[s].revokedAt))
  }

  lemma MarkKeepsTimes(w: World, p: nat, serial: string, reason: string, s: string)
    requires TimesMatch(w, s) && ApartFor(DoMarkRevoked(w, p, serial, reason), s)
    ensures TimesMatch(DoMarkRevoked(w, p, serial, reason), s)
  {
    var v := DoMarkRevoked(w, p, serial, reason);
    if v != w {
      assert Revoking(v, p) && v.flights[p].row.serial == serial;
      if s != serial {
        assert HalfDone(w, s) ==> HalfDone(v, s) by {
          if HalfDone(w, s) {
            var q :| Revoking(w, q) && w.flights[q].row.serial == s;
            assert Revoking(v, q) && v.flights[q] == w.flights[q];
          }
        }
      }
    }
  }

  lemma RecordKeepsTimes(w: World, p: nat, s: string)
    requires TimesMatch(w, s)
    ensures TimesMatch(DoRecordRevoked(w, p), s)
  {
    var v := DoRecordRevoked(w, p);
    if Revoking(w, p) && w.flights[p].row.serial != s && HalfDone(w, s) {
      var q :| Revoking(w, q) && w.flights[q].row.serial == s;
      assert Revoking(v, q) && v.flights[q] == w.flights[q];
    }
  }

  lemma OtherActsKeepTimes(server: Server, w: World, e: Event, s: string)
    requires SigningFlights(w) && TimesMatch(w, s) && !e.act.MarkRevoked? && !e.act.RecordRevoked?
    ensures TimesMatch(Step(server, w, e), s)
  {
    var v := Step(server, w, e);
    StepMarksIff(server, w, e, s);
    if e.now >= w.clock {
      var t := w.(clock := e.now);
      OtherActsKeepRevoked(server, t, e.act);
      if IsMarked(w.db, s) {
        StepKeepsMark(server, w, e, s);
      }
      forall q ensures Revoking(v, q) <==> Revoking(w, q)
               ensures Revoking(v, q) ==> v.flights[q] == w.flights[q]
      {
        OtherActsMarkNone(server, t, e.act, q);
        OtherActsFinishNoRevocation(server, t, e.act, q);
      }
      assert HalfDone(w, s) ==> HalfDone(v, s);
    }
  }

  lemma OtherActsFinishNoRevocation(server: Server, w: World, act: Act, q: nat)
    requires !act.RecordRevoked?
    ensures Revoking(w, q) ==> Revoking(Do(server, w, act), q)
  {
  }

  lemma {:induction false} TimesMatchWhenApart(server: Server, events: seq<Event>, ws: seq<World>, n: nat, s: string)
    requires History(server, events, ws) && n < |ws|
    requires forall i :: 0 <= i <= n ==> ApartFor(ws[i], s)
    ensures TimesMatch(ws[n], s)
  {
    if n > 0 {
      TimesMatchWhenApart(server, events, ws, n - 1, s);
      assert SigningFlights(ws[n - 1]) by {
        EveryHistoryKeepsInv(server, events, ws, n - 1);
      }
      StepKeepsTimes(server, ws[n - 1], events[n - 1], s);
    }
  }

  lemma StepKeepsTimes(server: Server, w: World, e: Event, s: string)
    requires SigningFlights(w) && TimesMatch(w, s) && ApartFor(Step(server, w, e), s)
    ensures TimesMatch(Step(server, w, e), s)
  {
    if e.act.MarkRevoked? || e.act.RecordRevoked? {
      if e.now >= w.clock {
        LaterClockKeepsTimes(w, e.now, s);
        if e.act.MarkRevoked? {
          MarkKeepsTimes(w.(clock := e.now), e.act.p, e.act.serial, e.act.reason, s);
        } else {
          RecordKeepsTimes(w.(clock := e.now), e.act.p, s);
        }
      }
    } else {
      OtherActsKeepTimes(server, w, e, s);
    }
  }

  lemma LaterClockKeepsTimes(w: World, now: nat, s: string)
    requires TimesMatch(w, s)
    ensures TimesMatch(w.(clock := now), s)
  {
    var t := w.(clock := now);
    forall q ensures Revoking(t, q) <==> Revoking(w, q) {
    }
    if HalfDone(w, s) {
      var q :| Revoking(w, q) && w.flights[q].row.serial == s;
      assert Revoking(t, q);
    }
  }

  // ---- Requests one after the other -----------------------------------------------------------

  /** Never two requests in flight at once. */
  ghost predicate OneAtATime(ws: seq<World>) {
    forall n, p, q :: 0 <= n < |ws| && p in ws[n].flights && q in ws[n].flights ==> p == q
  }

  /** With requests one after the other, between any two of them both revocation tables
      agree on serials and times, and the counter equals the certificates that are not
      revoked exactly when no serial was revoked twice. */
  lemma SerialHistoriesAgree(server: Server, events: seq<Event>, ws: seq<World>, n: nat)
    requires History(server, events, ws) && n < |ws| && OneAtATime(ws) && ws[n].flights == map[]
    ensures var w := ws[n];
            && w.db.revoked.Keys == MarkedSerials(w)
            && (forall s :: s in w.db.revoked ==> w.db.issued[s].revokedAt == Some(w.db.revoked[s].revokedAt))
            && (w.active == |w.db.issued.Keys - MarkedSerials(w)| <==> Distinct(w.revocations))
  {
    TablesAgreeUnlessOvertaken(server, events, ws, n);
    forall s | s in ws[n].db.revoked ensures ws[n].db.issued[s].revokedAt == Some(ws[n].db.revoked[s].revokedAt) {
      assert s in MarkedSerials(ws[n]);
      TimesMatchWhenApart(server, events, ws, n, s);
    }
  }

  // ---- A race ---------------------------------------------------------------------------------

  // A renewal stores serial 7 between the two statements of its revocation.
  const EARLY_SIGNED := Issued("7", "", 0, 0)
  const EARLY_REQUEST := CertificateRequest("node", "", [])
  const EARLY_ROW := RevokedCertificate("7", "unspecified", 0)

  function EarlyWorld(server: Server, n: nat): World {
    var cert := CertificateFor(server.caId, EARLY_REQUEST, EARLY_SIGNED, "node");
    var configured := EMPTY.(configs := map[server.caId := DefaultConfig(server.caId, 0)]);
    var stored := configured.(issued := map["7" := cert]);
    var recorded := stored.(revoked := map["7" := EARLY_ROW]);
    var origin := map["7" := None];
    if n == 0 then START
    else if n == 1 then World(EMPTY, 0, 0, map[1 := Signed(cert, None)], map[], [])
    else if n == 2 then World(configured, 0, 0, map[1 := Configured(cert, None)], map[], [])
    else if n == 3 then World(configured, 0, 0, map[1 := Configured(cert, None), 2 := Marked(EARLY_ROW)], map[], [])
    else if n == 4 then World(stored, 0, 0, map[1 := Stored("7"), 2 := Marked(EARLY_ROW)], origin, [])
    else if n == 5 then World(stored, 0, 1, map[2 := Marked(EARLY_ROW)], origin, [])
    else if n == 6 then World(recorded, 0, 1, map[2 := Recorded("7")], origin, ["7"])
    else World(recorded, 0, 0, map[], origin, ["7"])
  }

  lemma EarlyRenews(server: Server)
    ensures Do(server, EarlyWorld(server, 0), Renew(1, EARLY_REQUEST, "", EARLY_SIGNED)) == EarlyWorld(server, 1)
  {
  }

  lemma EarlyConfigures(server: Server)
    ensures Do(server, EarlyWorld(server, 1), EnsureConfig(1)) == EarlyWorld(server, 2)
  {
  }

  lemma EarlyMarks(server: Server)
    ensures Do(server, EarlyWorld(server, 2), MarkRevoked(2, "7", "")) == EarlyWorld(server, 3)
  {
  }

  lemma EarlyStores(server: Server)
    ensures Do(server, EarlyWorld(server, 3), Store(1)) == EarlyWorld(server, 4)
  {
  }

  lemma EarlyCountsIssued(server: Server)
    ensures Do(server, EarlyWorld(server, 4), CountIssued(1)) == EarlyWorld(server, 5)
  {
  }

  lemma EarlyRecords(server: Server)
    ensures Do(server, EarlyWorld(server, 5), RecordRevoked(2)) == EarlyWorld(server, 6)
  {
    assert EarlyWorld(server, 5).revocations + ["7"] == ["7"];
  }

  lemma EarlyCountsRevoked(server: Server)
    ensures Do(server, EarlyWorld(server, 6), CountRevoked(2)) == EarlyWorld(server, 7)
  {
  }

  function EarlyActs(): seq<Act> {
    [Renew(1, EARLY_REQUEST, "", EARLY_SIGNED), EnsureConfig(1), MarkRevoked(2, "7", ""), Store(1), CountIssued(1),
     RecordRevoked(2), CountRevoked(2)]
  }

  lemma EarlyStep(server: Server, n: nat)
    requires n < 7
    ensures Step(server, EarlyWorld(server, n), Event(0, EarlyActs()[n])) == EarlyWorld(server, n + 1)
  {
    EarlyRenews(server);
    EarlyConfigures(server);
    EarlyMarks(server);
    EarlyStores(server);
    EarlyCountsIssued(server);
    EarlyRecords(server);
    EarlyCountsRevoked(server);
    assert EarlyWorld(server, n).(clock := 0) == EarlyWorld(server, n);
  }

  /** The race does break the agreement: a history that ends with no request in flight, a
      revoked row, and an unmarked certificate. */
  lemma EarlyRevocationSplitsTables(server: Server) returns (events: seq<Event>, ws: seq<World>)
    ensures History(server, events, ws)
    ensures var w := ws[|events|];
            w.flights == map[] && "7" in w.db.revoked && "7" in w.db.issued && w.db.issued["7"].revokedAt == None
  {
    events := seq(7, i requires 0 <= i < 7 => Event(0, EarlyActs()[i]));
    ws := seq(8, i requires 0 <= i < 8 => EarlyWorld(server, i));
    forall i | 0 <= i < 7 ensures ws[i + 1] == Step(server, ws[i], events[i]) {
      EarlyStep(server, i);
    }
  }

  // ---- Token status only moves forward -----------------------------------------------------------

  /** Token rows stay, keep their expiry, and once revoked stay revoked; enrollments stay. */
  ghost predicate Progress(w: World, v: World) {
    && w.clock <= v.clock
    && (forall k :: k in w.db.tokens ==>
          k in v.db.tokens && v.db.tokens[k].expiresAt == w.db.tokens[k].expiresAt &&
          (w.db.tokens[k].revokedAt.Some? ==> v.db.tokens[k].revokedAt.Some?))
    && (forall k :: k in w.db.enrollments ==> k in v.db.enrollments && v.db.enrollments[k] == w.db.enrollments[k])
  }

  lemma SaveEnrollmentProgresses(w: World, p: nat, id: string)
    ensures Progress(w, DoSaveEnrollment(w, p, id))
  {
  }

  /** The other acts leave tokens and enrollments alone. */
  lemma OtherActsKeepTokens(server: Server, w: World, act: Act)
    requires !act.CreateToken? && !act.RevokeToken? && !act.SaveEnrollment?
    ensures var v := Do(server, w, act);
            v.clock == w.clock && v.db.tokens == w.db.tokens && v.db.enrollments == w.db.enrollments
  {
  }

  lemma DoProgresses(server: Server, w: World, act: Act)
    ensures Progress(w, Do(server, w, act))
  {
    if act.SaveEnrollment? {
      SaveEnrollmentProgresses(w, act.p, act.id);
    } else if !act.CreateToken? && !act.RevokeToken? {
      OtherActsKeepTokens(server, w, act);
    }
  }

  lemma {:induction false} HistoryProgresses(server: Server, events: seq<Event>, ws: seq<World>, i: nat, j: nat)
    requires History(server, events, ws) && i <= j < |ws|
    ensures Progress(ws[i], ws[j])
    decreases j
  {
    if i < j {
      HistoryProgresses(server, events, ws, i, j - 1);
      var mid, e := ws[j - 1], events[j - 1];
      if e.now >= mid.clock {
        DoProgresses(server, mid.(clock := e.now), e.act);
      }
    }
  }

  /** In any history a token's status never moves back in active, used, expired, revoked. */
  lemma TokenStatusMovesForward(server: Server, events: seq<Event>, ws: seq<World>, i: nat, j: nat, tokenId: string)
    requires History(server, events, ws) && i <= j < |ws|
    requires tokenId in ws[i].db.tokens
    ensures tokenId in ws[j].db.tokens
    ensures StatusOf(ws[i].db, tokenId, ws[i].clock).Rank() <= StatusOf(ws[j].db, tokenId, ws[j].clock).Rank()
  {
    HistoryProgresses(server, events, ws, i, j);
    if Uses(ws[i].db, tokenId) != {} {
      var k :| k in Uses(ws[i].db, tokenId);
      assert k in Uses(ws[j].db, tokenId);
    }
  }

  // ---- Revoked tokens ----------------------------------------------------------------------------

  /** A revocation that finds its token gives it a time, to the whole second, and a token that
      was ever found is revoked from then on. */
  lemma RevokedTokenStaysRevoked(
    server: Server, events: seq<Event>, ws: seq<World>, i: nat, n: nat, id: string)
    requires History(server, events, ws) && i < n < |ws|
    requires events[i].act == RevokeToken(id) && events[i].now >= ws[i].clock && id in ws[i].db.tokens
    ensures var t := ws[i + 1].db.tokens;
            && id in t && t[id].revokedAt.Some? && t[id].revokedAt.value % SECOND == 0
            && t[id].revokedAt.value <= events[i].now < t[id].revokedAt.value + SECOND
            && t == ws[i].db.tokens[id := ws[i].db.tokens[id].(revokedAt := t[id].revokedAt)]
    ensures id in ws[n].db.tokens && StatusOf(ws[n].db, id, ws[n].clock) == Revoked
  {
    HistoryStep(server, events, ws, i);
    HistoryProgresses(server, events, ws, i + 1, n);
  }

  /** No later check admits a request with a revoked token. */
  lemma RevokedTokenAdmitsNone(
    server: Server, events: seq<Event>, ws: seq<World>, i: nat, k: nat, id: string)
    requires History(server, events, ws) && i < k < |events|
    requires events[i].act == RevokeToken(id) && events[i].now >= ws[i].clock && id in ws[i].db.tokens
    requires events[k].act.CheckToken? && events[k].act.tokenId == id
    ensures ws[k + 1].flights == ws[k].flights
  {
    RevokedTokenStaysRevoked(server, events, ws, i, k, id);
    HistoryStep(server, events, ws, k);
  }
}
