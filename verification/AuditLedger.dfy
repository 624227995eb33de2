/** The audit hash chain: what a row hashes, what it means for a list of rows to be
    a chain, and what a passing chain tells about the rows that made it.
    SHA-256 in hexadecimal is a parameter; nothing is assumed of it but the shape of its
    output, so every statement that needs collision resistance offers two stored rows
    with different inputs and one digest instead. */
module AuditLedger {
  import opened Clock

  // ---- Rows and digests -------------------------------------------------------

  datatype AuditLog = AuditLog(
    id: string, action: string, actor: string, target: string, metadata: string,
    traceId: string, prevHash: string, hash: string, createdAt: nat)

  predicate IsHex(c: char) {
    '0' <= c <= '9' || 'a' <= c <= 'f'
  }

  const DIGEST_LENGTH := 64

  const STAMP_LENGTH := 20

  /** The two library functions behind a row's hash: SHA-256 in hexadecimal and the
      printing of a UTC time. */
  datatype Hasher = Hasher(sha: string -> string, stamp: nat -> string) {
    /** A digest is 64 lower-case hex characters and nothing more is known of it; a
        printed time has 20 characters and tells the second. */
    ghost predicate Sound() {
      && (forall s :: |sha(s)| == DIGEST_LENGTH)
      && (forall s, k :: 0 <= k < DIGEST_LENGTH == |sha(s)| ==> IsHex(sha(s)[k]))
      && (forall t :: |stamp(t)| == STAMP_LENGTH)
      && (forall t: nat, u: nat :: Printable(t) && Printable(u) && stamp(t) == stamp(u) ==> t / SECOND == u / SECOND)
    }
  }

  /** The delimiter-free middle of the hash input. */
  function Content(r: AuditLog): string {
    r.action + r.actor + r.target + r.metadata
  }

  function HashInput(h: Hasher, r: AuditLog): string {
    r.prevHash + Content(r) + r.traceId + h.stamp(r.createdAt)
  }

  /** What audit.Logger writes: a 32-character trace id and a UTC time with a four-digit year. */
  predicate LoggerShape(r: AuditLog) {
    |r.traceId| == 32 && Printable(r.createdAt)
  }

  /** The action has a character within its first 64 that no digest contains. */
  predicate MarkedAction(r: AuditLog) {
    exists k :: 0 <= k < DIGEST_LENGTH && k < |r.action| && !IsHex(r.action[k])
  }

  /** The actions the server records. */
  const SERVER_ACTIONS := {"enrollment.created", "certificate.issued", "certificate.renewed", "certificate.revoked"}

  lemma ServerActionsAreMarked(r: AuditLog)
    requires r.action in SERVER_ACTIONS
    ensures MarkedAction(r)
  {
    var dot := if r.action[0] == 'e' then 10 else 11;
    assert !IsHex(r.action[dot]);
  }

  /** Two rows, one from each list, with different hash inputs and the same digest. */
  ghost predicate Clash(h: Hasher, xs: seq<AuditLog>, ys: seq<AuditLog>) {
    exists a, b :: a in xs && b in ys && HashInput(h, a) != HashInput(h, b) &&
      h.sha(HashInput(h, a)) == h.sha(HashInput(h, b))
  }

  /** The calendar's own printing meets what is asked of a stamp. */
  lemma CalendarStampIsSound(sha: string -> string)
    requires forall s :: |sha(s)| == DIGEST_LENGTH
    requires forall s, k :: 0 <= k < DIGEST_LENGTH == |sha(s)| ==> IsHex(sha(s)[k])
    ensures Hasher(sha, Format).Sound()
  {
    forall t: nat, u: nat | Printable(t) && Printable(u) && Format(t) == Format(u) ensures t / SECOND == u / SECOND {
      FormatDeterminesSecond(t, u);
    }
  }

  // ---- Chains -----------------------------------------------------------------

  /** Row i repeats the hash of the row before it and carries its own digest. */
  predicate LinkedAt(h: Hasher, rows: seq<AuditLog>, i: nat)
    requires i < |rows|
  {
    rows[i].prevHash == (if i == 0 then "" else rows[i - 1].hash) && rows[i].hash == h.sha(HashInput(h, rows[i]))
  }

  /** `rows`, oldest first, is an unbroken chain from the empty hash. */
  predicate Chain(h: Hasher, rows: seq<AuditLog>) {
    forall i :: 0 <= i < |rows| ==> LinkedAt(h, rows, i)
  }

  /** The hash input splits at its fixed-length ends. */
  lemma HashInputEnds(h: Hasher, r: AuditLog)
    requires h.Sound() && LoggerShape(r)
    ensures var s := HashInput(h, r);
            var n := |s| - 52;
            && n == |r.prevHash| + |Content(r)|
            && s[..n] == r.prevHash + Content(r)
            && s[n..n + 32] == r.traceId
            && s[n + 32..] == h.stamp(r.createdAt)
  {
    var s, head := HashInput(h, r), r.prevHash + Content(r);
    assert s == head + r.traceId + h.stamp(r.createdAt);
    assert s == head + (r.traceId + h.stamp(r.createdAt));
  }

  /** Equal inputs with equally long previous hashes agree piece by piece. */
  lemma HashInputDeterminesPieces(h: Hasher, a: AuditLog, b: AuditLog)
    requires h.Sound() && LoggerShape(a) && LoggerShape(b)
    requires |a.prevHash| == |b.prevHash| && HashInput(h, a) == HashInput(h, b)
    ensures a.prevHash == b.prevHash && Content(a) == Content(b) && a.traceId == b.traceId
    ensures a.createdAt / SECOND == b.createdAt / SECOND
  {
    HashInputEnds(h, a);
    HashInputEnds(h, b);
    var k := |a.prevHash|;
    assert (a.prevHash + Content(a))[..k] == a.prevHash && (a.prevHash + Content(a))[k..] == Content(a);
    assert (b.prevHash + Content(b))[..k] == b.prevHash && (b.prevHash + Content(b))[k..] == Content(b);
  }

  lemma PrevHashIsPrefix(h: Hasher, r: AuditLog)
    ensures |r.prevHash| <= |HashInput(h, r)| && HashInput(h, r)[..|r.prevHash|] == r.prevHash
  {
  }

  /** A first row with a marked action never hashes the same input as a later row. */
  lemma FirstInputDiffers(h: Hasher, first: AuditLog, later: AuditLog, before: AuditLog)
    requires h.Sound()
    requires first.prevHash == "" && MarkedAction(first)
    requires later.prevHash == before.hash == h.sha(HashInput(h, before))
    ensures HashInput(h, first) != HashInput(h, later)
  {
    var k :| 0 <= k < DIGEST_LENGTH && k < |first.action| && !IsHex(first.action[k]);
    assert HashInput(h, first) == first.action +
           (first.actor + first.target + first.metadata + first.traceId + h.stamp(first.createdAt));
    assert HashInput(h, first)[k] == first.action[k];
    PrevHashIsPrefix(h, later);
    assert HashInput(h, later)[k] == later.prevHash[k];
  }

  /** Walking back from two rows of one chain with the same hash ends in a clash. */
  lemma {:induction false} HashesNeverRepeat(h: Hasher, rows: seq<AuditLog>, i: nat, j: nat)
    requires h.Sound() && Chain(h, rows)
    requires i < j < |rows| && rows[i].hash == rows[j].hash
    requires MarkedAction(rows[0])
    ensures Clash(h, rows, rows)
  {
    assert LinkedAt(h, rows, i) && LinkedAt(h, rows, j) && LinkedAt(h, rows, j - 1);
    if HashInput(h, rows[i]) == HashInput(h, rows[j]) {
      if i == 0 {
        FirstInputDiffers(h, rows[0], rows[j], rows[j - 1]);
      } else {
        assert LinkedAt(h, rows, i - 1);
        PrevHashIsPrefix(h, rows[i]);
        PrevHashIsPrefix(h, rows[j]);
        HashesNeverRepeat(h, rows, i - 1, j - 1);
      }
    }
  }

  /** Two rows that claim the same predecessor cannot both sit in one chain. */
  lemma ForkBreaksChain(h: Hasher, rows: seq<AuditLog>, i: nat, j: nat)
    requires h.Sound()
    requires i < j < |rows| && rows[i].prevHash == rows[j].prevHash
    requires MarkedAction(rows[0])
    ensures !Chain(h, rows) || Clash(h, rows, rows)
  {
    if Chain(h, rows) {
      assert LinkedAt(h, rows, i) && LinkedAt(h, rows, j) && LinkedAt(h, rows, j - 1);
      if i > 0 {
        HashesNeverRepeat(h, rows, i - 1, j - 1);
      }
    }
  }

  // ---- The tip determines the history -----------------------------------------

  /** Both rows record the same event, as far as the hash input can tell. */
  predicate SameRecord(a: AuditLog, b: AuditLog) {
    Content(a) == Content(b) && a.traceId == b.traceId && a.createdAt / SECOND == b.createdAt / SECOND &&
    a.prevHash == b.prevHash && a.hash == b.hash
  }

  /** From two equal hashes, the rows agree all the way back to the shorter start. */
  lemma {:induction false} AgreeBackFrom(h: Hasher, xs: seq<AuditLog>, ys: seq<AuditLog>, i: nat, j: nat)
    requires h.Sound() && Chain(h, xs) && Chain(h, ys)
    requires forall r :: r in xs || r in ys ==> LoggerShape(r)
    requires i < |xs| && j < |ys| && xs[i].hash == ys[j].hash
    requires i == j || (MarkedAction(xs[0]) && MarkedAction(ys[0]))
    ensures Clash(h, xs, ys) || (i == j && forall k :: 0 <= k <= i ==> SameRecord(xs[k], ys[k]))
    decreases i
  {
    assert LinkedAt(h, xs, i) && LinkedAt(h, ys, j);
    if HashInput(h, xs[i]) == HashInput(h, ys[j]) {
      if i == 0 && j == 0 {
        HashInputDeterminesPieces(h, xs[0], ys[0]);
      } else if i == 0 {
        assert LinkedAt(h, ys, j - 1);
        FirstInputDiffers(h, xs[0], ys[j], ys[j - 1]);
      } else if j == 0 {
        assert LinkedAt(h, xs, i - 1);
        FirstInputDiffers(h, ys[0], xs[i], xs[i - 1]);
      } else {
        assert LinkedAt(h, xs, i - 1) && LinkedAt(h, ys, j - 1);
        HashInputDeterminesPieces(h, xs[i], ys[j]);
        AgreeBackFrom(h, xs, ys, i - 1, j - 1);
      }
    }
  }

  /** Two passing ledgers with the same last hash are the same history: equally long,
      and equal row by row in everything that is hashed. For equally long ledgers the
      actions need no mark. */
  lemma TipDeterminesLedger(h: Hasher, xs: seq<AuditLog>, ys: seq<AuditLog>)
    requires h.Sound() && Chain(h, xs) && Chain(h, ys)
    requires forall r :: r in xs || r in ys ==> LoggerShape(r)
    requires xs != [] && ys != [] && xs[|xs| - 1].hash == ys[|ys| - 1].hash
    requires |xs| == |ys| || (MarkedAction(xs[0]) && MarkedAction(ys[0]))
    ensures Clash(h, xs, ys) ||
            (|xs| == |ys| && forall k :: 0 <= k < |xs| ==> SameRecord(xs[k], ys[k]))
  {
    AgreeBackFrom(h, xs, ys, |xs| - 1, |ys| - 1);
  }

  /** Editing one row of a passing ledger and leaving its hash columns alone is caught. */
  lemma EditedRowIsCaught(h: Hasher, rows: seq<AuditLog>, i: nat, edited: AuditLog)
    requires h.Sound() && Chain(h, rows)
    requires forall r :: r in rows ==> LoggerShape(r)
    requires i < |rows| && LoggerShape(edited) && edited.hash == rows[i].hash
    requires !SameRecord(edited, rows[i])
    ensures !Chain(h, rows[i := edited]) || Clash(h, rows, rows[i := edited])
  {
    var forged := rows[i := edited];
    if Chain(h, forged) {
      forall r | r in forged ensures LoggerShape(r) {
        var k :| 0 <= k < |forged| && forged[k] == r;
        assert r == edited || r == rows[k];
      }
      assert !SameRecord(rows[i], forged[i]);
      TipDeterminesLedger(h, rows, forged);
    }
  }

  // ---- Deletion ---------------------------------------------------------------

  /** Strictly increasing positions of a list of length n. */
  predicate Positions(kept: seq<nat>, n: nat) {
    (forall i :: 0 <= i < |kept| ==> kept[i] < n) &&
    (forall i, j :: 0 <= i < j < |kept| ==> kept[i] < kept[j])
  }

  function Pick<T>(xs: seq<T>, kept: seq<nat>): (r: seq<T>)
    requires forall i :: 0 <= i < |kept| ==> kept[i] < |xs|
    ensures |r| == |kept|
  {
    seq(|kept|, i requires 0 <= i < |kept| => xs[kept[i]])
  }

  /** Only the newest rows are gone. */
  predicate KeepsPrefix(kept: seq<nat>) {
    forall i :: 0 <= i < |kept| ==> kept[i] == i
  }

  lemma {:induction false} SurvivorAtItsPlace(h: Hasher, rows: seq<AuditLog>, kept: seq<nat>, i: nat)
    requires h.Sound() && Chain(h, rows) && rows != [] && MarkedAction(rows[0])
    requires Positions(kept, |rows|) && Chain(h, Pick(rows, kept))
    requires i < |kept| && !Clash(h, rows, rows)
    ensures kept[i] == i
  {
    var left := Pick(rows, kept);
    var at := kept[i];
    assert LinkedAt(h, left, i) && LinkedAt(h, rows, at) && (at > 0 ==> LinkedAt(h, rows, at - 1));
    if i > 0 {
      SurvivorAtItsPlace(h, rows, kept, i - 1);
      assert kept[i - 1] < at;
      if i < at {
        HashesNeverRepeat(h, rows, i - 1, at - 1);
      }
    }
  }

  lemma PrefixIsChain(h: Hasher, rows: seq<AuditLog>, kept: seq<nat>)
    requires Chain(h, rows) && Positions(kept, |rows|) && KeepsPrefix(kept)
    ensures Chain(h, Pick(rows, kept))
  {
    var left := Pick(rows, kept);
    forall i | 0 <= i < |left| ensures LinkedAt(h, left, i) {
      assert kept[i] == i && LinkedAt(h, rows, i);
    }
  }

  /** What is left of a passing ledger is a chain if only newest rows were deleted, and only
      then unless rows collide. */
  lemma SurvivorsChainIffPrefix(h: Hasher, rows: seq<AuditLog>, kept: seq<nat>)
    requires h.Sound() && Chain(h, rows) && (rows != [] ==> MarkedAction(rows[0]))
    requires Positions(kept, |rows|)
    ensures KeepsPrefix(kept) ==> Chain(h, Pick(rows, kept))
    ensures Chain(h, Pick(rows, kept)) ==> KeepsPrefix(kept) || Clash(h, rows, rows)
  {
    if KeepsPrefix(kept) {
      PrefixIsChain(h, rows, kept);
    }
    if !Clash(h, rows, rows) && Chain(h, Pick(rows, kept)) {
      forall i | 0 <= i < |kept| ensures kept[i] == i {
        assert kept[i] < |rows|;
        SurvivorAtItsPlace(h, rows, kept, i);
      }
    }
  }

  lemma LaterRowsAreLinked(h: Hasher, rows: seq<AuditLog>, k: nat)
    requires h.Sound() && Chain(h, rows) && 0 < k < |rows|
    ensures rows[k].prevHash != ""
  {
    assert LinkedAt(h, rows, k) && LinkedAt(h, rows, k - 1);
  }
}
