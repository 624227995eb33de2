/** The certificate projections of internal/api/status.go: per-certificate status, the
    summary and the counts per authority, three separate loops over the same rows that
    have to agree. Every clock reading is a parameter. */
module CertificateStatus {
  import opened Base
  import opened Clock
  import opened Tables
  import opened Names
  import opened Grouping

  datatype Standing = Current | Withdrawn | Outdated

  datatype Item = Item(
    serial: string, dnsNames: seq<string>, issuer: string, status: Standing, createdAt: nat, expiresAt: nat,
    daysRemaining: int, enrollmentId: string, due: bool)

  datatype CertificateSummary = CertificateSummary(
    total: nat, active: nat, revoked: nat, expired: nat, expiringSoon: nat, issuedToday: nat, revokedToday: nat)

  /** Whole days, cut toward zero as Go's conversion does. */
  function DaysUntil(t: nat, now: nat): (days: int)
    ensures t >= now ==> days * DAY <= t - now < (days + 1) * DAY
    ensures t < now ==> (days - 1) * DAY < t - now <= days * DAY
  {
    if t >= now then (t - now) / DAY else -((now - t) / DAY)
  }

  /** certificateItem; the clock is read up to three times. */
  function CertificateItem(c: IssuedCertificate, renewBefore: int, now: nat, second: nat, third: nat): (item: Item)
    ensures item.serial == c.serial && item.issuer == c.caId && item.enrollmentId == c.enrollmentId
    ensures item.createdAt == c.createdAt && item.expiresAt == c.notAfter
    ensures item.status.Current? <==> c.revokedAt.None? && now <= c.notAfter
    ensures item.due <==> c.revokedAt.None? && now < c.notAfter <= second + renewBefore
  {
    var status := if c.revokedAt.Some? then Withdrawn else if now > c.notAfter then Outdated else Current;
    var due := c.revokedAt.None? && now < c.notAfter && c.notAfter - second <= renewBefore;
    Item(c.serial, Split(c.dnsNames), c.caId, status, c.createdAt, c.notAfter, DaysUntil(c.notAfter, third),
         c.enrollmentId, due)
  }

  /** The items of all certificates, made at one instant. */
  function Items(certs: seq<IssuedCertificate>, renewBefore: int, now: nat): seq<Item> {
    seq(|certs|, i requires 0 <= i < |certs| => CertificateItem(certs[i], renewBefore, now, now, now))
  }

  /** The status item lists a request's names as they were asked for exactly when the stored
      comma list keeps them apart. */
  lemma {:induction false} ItemShowsRequestedNamesIff(
    c: IssuedCertificate, names: seq<string>, renewBefore: int, now: nat)
    requires c.dnsNames == Join(names, ",")
    ensures CertificateItem(c, renewBefore, now, now, now).dnsNames == names <==> forall x :: x in names ==> Clean(x)
  {
    SplitUndoesJoinIff(names);
  }

  // ---- What the loops count ---------------------------------------------------------

  function StandingAt(c: IssuedCertificate, now: nat): Standing {
    if c.revokedAt.Some? then Withdrawn else if c.notAfter < now then Outdated else Current
  }

  function WithStanding(certs: seq<IssuedCertificate>, s: Standing, now: nat): seq<IssuedCertificate> {
    if certs == [] then []
    else
      var last := certs[|certs| - 1];
      WithStanding(certs[..|certs| - 1], s, now) + (if StandingAt(last, now) == s then [last] else [])
  }

  function CreatedAfter(certs: seq<IssuedCertificate>, t: nat): nat {
    if certs == [] then 0
    else CreatedAfter(certs[..|certs| - 1], t) + (if certs[|certs| - 1].createdAt > t then 1 else 0)
  }

  function RevokedAfter(certs: seq<IssuedCertificate>, t: nat): nat {
    if certs == [] then 0
    else
      var last := certs[|certs| - 1];
      RevokedAfter(certs[..|certs| - 1], t) + (if last.revokedAt.Some? && last.revokedAt.value > t then 1 else 0)
  }

  /** Current certificates within the window at the reading taken for them. */
  function InWindow(certs: seq<IssuedCertificate>, renewBefore: int, now: nat, readings: nat -> nat): nat {
    if certs == [] then 0
    else
      var n := |certs| - 1;
      InWindow(certs[..n], renewBefore, now, readings) +
      (if StandingAt(certs[n], now) == Current && certs[n].notAfter - readings(n) <= renewBefore then 1 else 0)
  }

  /** The midnight at or before t, less than a day back. */
  function StartOfDay(t: nat): (r: nat)
    ensures r <= t < r + DAY && exists n: nat :: r == n * DAY
  {
    var r := t - t % DAY;
    assert r == (t / DAY) * DAY;
    r
  }

  /** summarizeCertificates; `readings` are the times at which the loop asks how long is left. */
  method SummarizeCertificates(certs: seq<IssuedCertificate>, renewBefore: int, now: nat, readings: nat -> nat)
    returns (out: CertificateSummary)
    ensures out.total == |certs|
    ensures out.active == |WithStanding(certs, Current, now)|
    ensures out.revoked == |WithStanding(certs, Withdrawn, now)|
    ensures out.expired == |WithStanding(certs, Outdated, now)|
    ensures out.expiringSoon == InWindow(certs, renewBefore, now, readings)
    ensures out.issuedToday == CreatedAfter(certs, StartOfDay(now))
    ensures out.revokedToday == RevokedAfter(certs, StartOfDay(now))
  {
    var today := StartOfDay(now);
    out := CertificateSummary(|certs|, 0, 0, 0, 0, 0, 0);
    var i := 0;
    while i < |certs|
      invariant 0 <= i <= |certs|
      invariant out.total == |certs|
      invariant out.active == |WithStanding(certs[..i], Current, now)|
      invariant out.revoked == |WithStanding(certs[..i], Withdrawn, now)|
      invariant out.expired == |WithStanding(certs[..i], Outdated, now)|
      invariant out.expiringSoon == InWindow(certs[..i], renewBefore, now, readings)
      invariant out.issuedToday == CreatedAfter(certs[..i], today)
      invariant out.revokedToday == RevokedAfter(certs[..i], today)
    {
      var c := certs[i];
      assert certs[..i + 1][..i] == certs[..i];
      if c.createdAt > today {
        out := out.(issuedToday := out.issuedToday + 1);
      }
      if c.revokedAt.Some? {
        out := out.(revoked := out.revoked + 1);
        if c.revokedAt.value > today {
          out := out.(revokedToday := out.revokedToday + 1);
        }
      } else if now > c.notAfter {
        out := out.(expired := out.expired + 1);
      } else {
        out := out.(active := out.active + 1);
        if c.notAfter - readings(i) <= renewBefore {
          out := out.(expiringSoon := out.expiringSoon + 1);
        }
      }
      i := i + 1;
    }
    assert certs[..i] == certs;
  }

  function Issuers(certs: seq<IssuedCertificate>): seq<string> {
    seq(|certs|, i requires 0 <= i < |certs| => certs[i].caId)
  }

  /** How many certificates of this authority have this standing. */
  function CountFor(certs: seq<IssuedCertificate>, s: Standing, now: nat, ca: string): nat {
    if certs == [] then 0
    else
      var last := certs[|certs| - 1];
      CountFor(certs[..|certs| - 1], s, now, ca) + (if StandingAt(last, now) == s && last.caId == ca then 1 else 0)
  }

  lemma {:induction false} CountForIsGroupSize(certs: seq<IssuedCertificate>, s: Standing, now: nat, ca: string)
    ensures var some := WithStanding(certs, s, now);
            CountFor(certs, s, now, ca) == |Select(Issuers(some), some, ca)|
  {
    if certs != [] {
      var n := |certs| - 1;
      var before, after := WithStanding(certs[..n], s, now), WithStanding(certs, s, now);
      CountForIsGroupSize(certs[..n], s, now, ca);
      if StandingAt(certs[n], now) == s {
        GroupOneMore(before, certs[n], ca);
        assert after == before + [certs[n]];
      } else {
        assert after == before;
      }
    }
  }

  lemma {:induction false} GroupOneMore(certs: seq<IssuedCertificate>, c: IssuedCertificate, ca: string)
    ensures |Select(Issuers(certs + [c]), certs + [c], ca)| ==
            |Select(Issuers(certs), certs, ca)| + if c.caId == ca then 1 else 0
  {
    assert (certs + [c])[..|certs|] == certs && Issuers(certs + [c])[..|certs|] == Issuers(certs);
  }

  /** Where the certificates of this authority that are neither revoked nor expired are. */
  ghost function Valid(certs: seq<IssuedCertificate>, now: nat, ca: string): set<nat> {
    set i: nat | i < |certs| && certs[i].caId == ca && certs[i].revokedAt.None? && certs[i].notAfter >= now
  }

  /** Where its revoked or expired certificates are. */
  ghost function Gone(certs: seq<IssuedCertificate>, now: nat, ca: string): set<nat> {
    set i: nat | i < |certs| && certs[i].caId == ca && (certs[i].revokedAt.Some? || certs[i].notAfter < now)
  }

  lemma ValidOneMore(init: seq<IssuedCertificate>, last: IssuedCertificate, now: nat, ca: string)
    ensures Valid(init + [last], now, ca) ==
            Valid(init, now, ca) + if StandingAt(last, now) == Current && last.caId == ca then {|init|} else {}
  {
    var certs := init + [last];
    assert forall i: nat :: i < |init| ==> certs[i] == init[i];
  }

  lemma GoneOneMore(init: seq<IssuedCertificate>, last: IssuedCertificate, now: nat, ca: string)
    ensures Gone(init + [last], now, ca) ==
            Gone(init, now, ca) + if StandingAt(last, now) != Current && last.caId == ca then {|init|} else {}
  {
    var certs := init + [last];
    assert forall i: nat :: i < |init| ==> certs[i] == init[i];
  }

  lemma {:induction false} CountForValid(certs: seq<IssuedCertificate>, now: nat, ca: string)
    ensures CountFor(certs, Current, now, ca) == |Valid(certs, now, ca)|
  {
    if certs == [] {
      assert Valid(certs, now, ca) == {};
    } else {
      var init, last := certs[..|certs| - 1], certs[|certs| - 1];
      assert certs == init + [last];
      CountForValid(init, now, ca);
      CountForOneMore(init, last, Current, now, ca);
      ValidOneMore(init, last, now, ca);
      assert |init| !in Valid(init, now, ca);
    }
  }

  lemma {:induction false} CountForGone(certs: seq<IssuedCertificate>, now: nat, ca: string)
    ensures CountFor(certs, Withdrawn, now, ca) + CountFor(certs, Outdated, now, ca) == |Gone(certs, now, ca)|
  {
    if certs == [] {
      assert Gone(certs, now, ca) == {};
    } else {
      var init, last := certs[..|certs| - 1], certs[|certs| - 1];
      assert certs == init + [last];
      CountForGone(init, now, ca);
      CountForOneMore(init, last, Withdrawn, now, ca);
      CountForOneMore(init, last, Outdated, now, ca);
      GoneOneMore(init, last, now, ca);
      assert |init| !in Gone(init, now, ca);
    }
  }

  function Tally(counts: map<string, nat>, ca: string): nat {
    if ca in counts then counts[ca] else 0
  }

  /** The maps count these certificates, revoked and expired ones together. */
  ghost predicate Counts(active: map<string, nat>, revoked: map<string, nat>, certs: seq<IssuedCertificate>, now: nat) {
    && (forall ca :: Tally(active, ca) == CountFor(certs, Current, now, ca))
    && (forall ca :: Tally(revoked, ca) == CountFor(certs, Withdrawn, now, ca) + CountFor(certs, Outdated, now, ca))
  }

  lemma {:induction false} CountForOneMore(
    certs: seq<IssuedCertificate>, c: IssuedCertificate, s: Standing, now: nat, ca: string)
    ensures CountFor(certs + [c], s, now, ca) ==
            CountFor(certs, s, now, ca) + if StandingAt(c, now) == s && c.caId == ca then 1 else 0
  {
    assert (certs + [c])[..|certs|] == certs;
  }

  lemma CountsOneMoreActive(
    active: map<string, nat>, revoked: map<string, nat>, certs: seq<IssuedCertificate>, c: IssuedCertificate, now: nat)
    requires Counts(active, revoked, certs, now) && StandingAt(c, now) == Current
    ensures Counts(active[c.caId := Tally(active, c.caId) + 1], revoked, certs + [c], now)
  {
    forall ca, s
      ensures CountFor(certs + [c], s, now, ca) ==
              CountFor(certs, s, now, ca) + if s == Current && c.caId == ca then 1 else 0
    {
      CountForOneMore(certs, c, s, now, ca);
    }
  }

  lemma CountsOneMoreGone(
    active: map<string, nat>, revoked: map<string, nat>, certs: seq<IssuedCertificate>, c: IssuedCertificate, now: nat)
    requires Counts(active, revoked, certs, now) && StandingAt(c, now) != Current
    ensures Counts(active, revoked[c.caId := Tally(revoked, c.caId) + 1], certs + [c], now)
  {
    forall ca
      ensures CountFor(certs + [c], Current, now, ca) == CountFor(certs, Current, now, ca)
      ensures CountFor(certs + [c], Withdrawn, now, ca) + CountFor(certs + [c], Outdated, now, ca) ==
              CountFor(certs, Withdrawn, now, ca) + CountFor(certs, Outdated, now, ca) + if c.caId == ca then 1 else 0
    {
      CountForOneMore(certs, c, Current, now, ca);
      CountForOneMore(certs, c, Withdrawn, now, ca);
      CountForOneMore(certs, c, Outdated, now, ca);
    }
  }

  /** certificateCountsByCA: revoked and expired certificates are counted together. */
  method CertificateCountsByCA(certs: seq<IssuedCertificate>, now: nat)
    returns (active: map<string, nat>, revoked: map<string, nat>)
    ensures forall ca :: Tally(active, ca) == CountFor(certs, Current, now, ca)
    ensures forall ca :: Tally(revoked, ca) == CountFor(certs, Withdrawn, now, ca) + CountFor(certs, Outdated, now, ca)
  {
    active, revoked := map[], map[];
    var i := 0;
    while i < |certs|
      invariant 0 <= i <= |certs|
      invariant Counts(active, revoked, certs[..i], now)
    {
      var c := certs[i];
      assert certs[..i + 1] == certs[..i] + [c];
      if c.revokedAt.Some? || now > c.notAfter {
        CountsOneMoreGone(active, revoked, certs[..i], c, now);
        revoked := revoked[c.caId := Tally(revoked, c.caId) + 1];
      } else {
        CountsOneMoreActive(active, revoked, certs[..i], c, now);
        active := active[c.caId := Tally(active, c.caId) + 1];
      }
      i := i + 1;
    }
    assert certs[..i] == certs;
  }

  // ---- The projections agree ----------------------------------------------------------

  /** The certificates by standing. */
  ghost function ByStanding(certs: seq<IssuedCertificate>, now: nat): multiset<IssuedCertificate> {
    multiset(WithStanding(certs, Current, now)) + multiset(WithStanding(certs, Withdrawn, now)) +
    multiset(WithStanding(certs, Outdated, now))
  }

  /** At one instant every certificate has exactly one standing. */
  lemma {:induction false} StandingsPartition(certs: seq<IssuedCertificate>, now: nat)
    ensures ByStanding(certs, now) == multiset(certs)
  {
    if certs != [] {
      var init, last := certs[..|certs| - 1], certs[|certs| - 1];
      assert certs == init + [last];
      StandingsPartition(init, now);
      PartitionOneMore(init, last, now);
    }
  }

  lemma {:induction false} PartitionOneMore(init: seq<IssuedCertificate>, last: IssuedCertificate, now: nat)
    requires ByStanding(init, now) == multiset(init)
    ensures ByStanding(init + [last], now) == multiset(init + [last])
  {
    ByStandingOneMore(init, last, now);
  }

  lemma ByStandingOneMore(init: seq<IssuedCertificate>, last: IssuedCertificate, now: nat)
    ensures ByStanding(init + [last], now) == ByStanding(init, now) + multiset{last}
  {
    StandingOneMore(init, last, Current, now);
    StandingOneMore(init, last, Withdrawn, now);
    StandingOneMore(init, last, Outdated, now);
  }

  lemma {:induction false} StandingOneMore(init: seq<IssuedCertificate>, last: IssuedCertificate, s: Standing, now: nat)
    ensures multiset(WithStanding(init + [last], s, now)) ==
            multiset(WithStanding(init, s, now)) + if StandingAt(last, now) == s then multiset{last} else multiset{}
  {
    assert (init + [last])[..|init|] == init;
  }

  /** So the summary's three counters add up to its total. */
  lemma {:induction false} CountersAddUp(certs: seq<IssuedCertificate>, now: nat)
    ensures |WithStanding(certs, Current, now)| + |WithStanding(certs, Withdrawn, now)| +
            |WithStanding(certs, Outdated, now)|
            == |certs|
  {
    StandingsPartition(certs, now);
    assert |multiset(WithStanding(certs, Current, now))| == |WithStanding(certs, Current, now)|;
    assert |multiset(WithStanding(certs, Withdrawn, now))| == |WithStanding(certs, Withdrawn, now)|;
    assert |multiset(WithStanding(certs, Outdated, now))| == |WithStanding(certs, Outdated, now)|;
    assert |multiset(certs)| == |certs|;
  }

  function ItemsWith(items: seq<Item>, s: Standing): nat {
    if items == [] then 0
    else ItemsWith(items[..|items| - 1], s) + (if items[|items| - 1].status == s then 1 else 0)
  }

  function ItemsDue(items: seq<Item>): nat {
    if items == [] then 0
    else ItemsDue(items[..|items| - 1]) + (if items[|items| - 1].due then 1 else 0)
  }

  /** The unrevoked certificates that expire at this very instant. */
  function ExpiringNow(certs: seq<IssuedCertificate>, now: nat): nat {
    if certs == [] then 0
    else
      var last := certs[|certs| - 1];
      ExpiringNow(certs[..|certs| - 1], now) + (if last.revokedAt.None? && last.notAfter == now then 1 else 0)
  }

  lemma {:induction false} SummaryCountsItems(certs: seq<IssuedCertificate>, renewBefore: int, now: nat, s: Standing)
    ensures |WithStanding(certs, s, now)| == ItemsWith(Items(certs, renewBefore, now), s)
  {
    if certs != [] {
      var n := |certs| - 1;
      SummaryCountsItems(certs[..n], renewBefore, now, s);
      assert Items(certs, renewBefore, now)[..n] == Items(certs[..n], renewBefore, now);
    }
  }

  /** The summary counts as expiring soon what the items call due, and also, unless the
      window is negative, what expires at this very instant. */
  lemma {:induction false} ExpiringSoonIsDueOrNow(
    certs: seq<IssuedCertificate>, renewBefore: int, now: nat, readings: nat -> nat)
    requires forall i: nat :: readings(i) == now
    ensures InWindow(certs, renewBefore, now, readings) ==
            ItemsDue(Items(certs, renewBefore, now)) + if renewBefore >= 0 then ExpiringNow(certs, now) else 0
  {
    if certs != [] {
      var n := |certs| - 1;
      ExpiringSoonIsDueOrNow(certs[..n], renewBefore, now, readings);
      assert Items(certs, renewBefore, now)[..n] == Items(certs[..n], renewBefore, now);
    }
  }

  function SumFor(certs: seq<IssuedCertificate>, s: Standing, now: nat, cas: seq<string>): nat {
    if cas == [] then 0
    else SumFor(certs, s, now, cas[..|cas| - 1]) + CountFor(certs, s, now, cas[|cas| - 1])
  }

  /** What a map of counts says of these authorities together. */
  function SumTally(counts: map<string, nat>, cas: seq<string>): nat {
    if cas == [] then 0 else SumTally(counts, cas[..|cas| - 1]) + Tally(counts, cas[|cas| - 1])
  }

  lemma {:induction false} TalliesAreCounts(
    certs: seq<IssuedCertificate>, now: nat, active: map<string, nat>, revoked: map<string, nat>, cas: seq<string>)
    requires forall ca :: Tally(active, ca) == CountFor(certs, Current, now, ca)
    requires forall ca :: Tally(revoked, ca) == CountFor(certs, Withdrawn, now, ca) + CountFor(certs, Outdated, now, ca)
    ensures SumTally(active, cas) == SumFor(certs, Current, now, cas)
    ensures SumTally(revoked, cas) == SumFor(certs, Withdrawn, now, cas) + SumFor(certs, Outdated, now, cas)
  {
    if cas != [] {
      TalliesAreCounts(certs, now, active, revoked, cas[..|cas| - 1]);
    }
  }

  lemma {:induction false} SumForIsTotal(certs: seq<IssuedCertificate>, s: Standing, now: nat, cas: seq<string>)
    ensures var some := WithStanding(certs, s, now);
            SumFor(certs, s, now, cas) == TotalLength(Issuers(some), some, cas)
  {
    if cas != [] {
      CountForIsGroupSize(certs, s, now, cas[|cas| - 1]);
      SumForIsTotal(certs, s, now, cas[..|cas| - 1]);
    }
  }

  /** Over distinct authorities the counts add up to the summary's exactly when no such
      certificate has an issuer outside them. */
  lemma {:induction false} CountsAddUpIff(certs: seq<IssuedCertificate>, s: Standing, now: nat, cas: seq<string>)
    requires Distinct(cas)
    ensures SumFor(certs, s, now, cas) <= |WithStanding(certs, s, now)|
    ensures SumFor(certs, s, now, cas) == |WithStanding(certs, s, now)| <==>
            forall c :: c in WithStanding(certs, s, now) ==> c.caId in cas
  {
    var some := WithStanding(certs, s, now);
    SumForIsTotal(certs, s, now, cas);
    GroupSizesAddUpIff(Issuers(some), some, cas);
    assert forall i :: 0 <= i < |some| ==> Issuers(some)[i] == some[i].caId;
    if forall k :: k in Issuers(some) ==> k in cas {
      forall c | c in some ensures c.caId in cas {
        var i :| 0 <= i < |some| && some[i] == c;
        assert Issuers(some)[i] in Issuers(some);
      }
    }
    if forall c :: c in some ==> c.caId in cas {
      forall k | k in Issuers(some) ensures k in cas {
        var i :| 0 <= i < |some| && Issuers(some)[i] == k;
        assert some[i] in some;
      }
    }
  }

  lemma {:induction false} WithStandingHas(certs: seq<IssuedCertificate>, s: Standing, now: nat, c: IssuedCertificate)
    ensures c in WithStanding(certs, s, now) <==> c in certs && StandingAt(c, now) == s
  {
    if certs != [] {
      var init, last := certs[..|certs| - 1], certs[|certs| - 1];
      WithStandingHas(init, s, now, c);
      assert certs == init + [last];
    }
  }

  /** Whether these are all issuers of certificates with this standing. */
  ghost predicate Covers(cas: seq<string>, certs: seq<IssuedCertificate>, s: Standing, now: nat) {
    forall c :: c in certs && StandingAt(c, now) == s ==> c.caId in cas
  }

  lemma {:induction false} CountsCoverIff(certs: seq<IssuedCertificate>, s: Standing, now: nat, cas: seq<string>)
    requires Distinct(cas)
    ensures SumFor(certs, s, now, cas) <= |WithStanding(certs, s, now)|
    ensures SumFor(certs, s, now, cas) == |WithStanding(certs, s, now)| <==> Covers(cas, certs, s, now)
  {
    CountsAddUpIff(certs, s, now, cas);
    forall c ensures c in WithStanding(certs, s, now) <==> c in certs && StandingAt(c, now) == s {
      WithStandingHas(certs, s, now, c);
    }
  }

  /** For the maps that CertificateCountsByCA returns: over distinct authorities the active one
      sums to the summary's active certificates exactly when it covers their issuers, and the
      revoked one to its revoked and expired ones together exactly when it covers theirs. */
  lemma {:induction false} TalliesAddUpIff(
    certs: seq<IssuedCertificate>, now: nat, active: map<string, nat>, revoked: map<string, nat>, cas: seq<string>)
    requires Distinct(cas)
    requires forall ca :: Tally(active, ca) == CountFor(certs, Current, now, ca)
    requires forall ca :: Tally(revoked, ca) == CountFor(certs, Withdrawn, now, ca) + CountFor(certs, Outdated, now, ca)
    ensures SumTally(active, cas) == |WithStanding(certs, Current, now)| <==> Covers(cas, certs, Current, now)
    ensures SumTally(revoked, cas) == |WithStanding(certs, Withdrawn, now)| + |WithStanding(certs, Outdated, now)| <==>
            Covers(cas, certs, Withdrawn, now) && Covers(cas, certs, Outdated, now)
  {
    TalliesAreCounts(certs, now, active, revoked, cas);
    CountsCoverIff(certs, Current, now, cas);
    CountsCoverIff(certs, Withdrawn, now, cas);
    CountsCoverIff(certs, Outdated, now, cas);
  }
}
