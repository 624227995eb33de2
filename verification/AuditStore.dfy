/** The audit table with its writer and its lister (internal/db/repositories.go), the
    logger in front of it (internal/audit/audit.go) and the ledger check that reads it
    back (internal/securitycheck/checks.go). */
module AuditStore {
  import opened Base
  import opened AuditLedger

  // ---- Orders -----------------------------------------------------------------

  function InsertByTime(r: AuditLog, sorted: seq<AuditLog>): (out: seq<AuditLog>)
    ensures |out| == |sorted| + 1
    ensures multiset(out) == multiset(sorted) + multiset{r}
    ensures forall x :: x in out <==> x == r || x in sorted
  {
    if sorted == [] then [r]
    else
      assert sorted == sorted[..|sorted| - 1] + [sorted[|sorted| - 1]];
      if sorted[|sorted| - 1].createdAt <= r.createdAt then sorted + [r]
      else InsertByTime(r, sorted[..|sorted| - 1]) + [sorted[|sorted| - 1]]
  }

  /** All rows, oldest first. Rows with equal times stay in insertion order, which is
      one of the orders SQL allows for them. */
  function Chronological(rows: seq<AuditLog>): (out: seq<AuditLog>)
    ensures |out| == |rows|
    ensures multiset(out) == multiset(rows)
  {
    if rows == [] then []
    else
      assert rows == rows[..|rows| - 1] + [rows[|rows| - 1]];
      InsertByTime(rows[|rows| - 1], Chronological(rows[..|rows| - 1]))
  }

  /** Strictly increasing times. */
  ghost predicate Ascending(rows: seq<AuditLog>) {
    forall i, j :: 0 <= i < j < |rows| ==> rows[i].createdAt < rows[j].createdAt
  }

  ghost predicate WeaklyAscending(rows: seq<AuditLog>) {
    forall i, j :: 0 <= i < j < |rows| ==> rows[i].createdAt <= rows[j].createdAt
  }

  lemma AppendNewestSorts(sorted: seq<AuditLog>, last: AuditLog)
    requires WeaklyAscending(sorted)
    requires forall x :: x in sorted ==> x.createdAt <= last.createdAt
    ensures WeaklyAscending(sorted + [last])
  {
  }

  lemma {:induction false} InsertByTimeSorts(r: AuditLog, sorted: seq<AuditLog>)
    requires WeaklyAscending(sorted)
    ensures WeaklyAscending(InsertByTime(r, sorted))
  {
    if sorted != [] {
      var init, last := sorted[..|sorted| - 1], sorted[|sorted| - 1];
      if last.createdAt <= r.createdAt {
        AppendNewestSorts(sorted, r);
      } else {
        InsertByTimeSorts(r, init);
        AppendNewestSorts(InsertByTime(r, init), last);
      }
    }
  }

  lemma {:induction false} ChronologicalSorts(rows: seq<AuditLog>)
    ensures WeaklyAscending(Chronological(rows))
  {
    if rows != [] {
      ChronologicalSorts(rows[..|rows| - 1]);
      InsertByTimeSorts(rows[|rows| - 1], Chronological(rows[..|rows| - 1]));
    }
  }

  lemma PrefixStaysAscending(init: seq<AuditLog>, last: AuditLog)
    requires Ascending(init + [last])
    ensures Ascending(init) && forall x :: x in init ==> x.createdAt < last.createdAt
  {
    var rows := init + [last];
    assert rows[|init|] == last && forall i :: 0 <= i < |init| ==> rows[i] == init[i];
  }

  lemma {:induction false} NewestIsAppended(init: seq<AuditLog>, last: AuditLog)
    requires forall x :: x in init ==> x.createdAt < last.createdAt
    ensures InsertByTime(last, init) == init + [last]
  {
    if init != [] {
      assert init[|init| - 1] in init;
    }
  }

  /** Rows already written in time order are their own chronological list. */
  lemma {:induction false} AscendingIsChronological(rows: seq<AuditLog>)
    requires Ascending(rows)
    ensures Chronological(rows) == rows
  {
    if rows != [] {
      var init, last := rows[..|rows| - 1], rows[|rows| - 1];
      assert rows == init + [last];
      PrefixStaysAscending(init, last);
      AscendingIsChronological(init);
      NewestIsAppended(init, last);
    }
  }

  function Reverse<T>(xs: seq<T>): (out: seq<T>)
    ensures |out| == |xs|
    ensures forall i :: 0 <= i < |xs| ==> out[i] == xs[|xs| - 1 - i]
  {
    seq(|xs|, i requires 0 <= i < |xs| => xs[|xs| - 1 - i])
  }

  const CHECK_LIMIT := 500
  const DEFAULT_LIMIT := 100

  /** ListAuditLogs never returns more than 500 rows; an odd limit means 100. */
  function EffectiveLimit(limit: int): nat {
    if limit <= 0 || limit > 500 then DEFAULT_LIMIT else limit
  }

  /** The newest `limit` rows, oldest first. */
  function Newest(rows: seq<AuditLog>, limit: nat): (out: seq<AuditLog>) {
    var sorted := Chronological(rows);
    if |sorted| <= limit then sorted else sorted[|sorted| - limit..]
  }

  function Smaller(a: nat, b: nat): nat {
    if a < b then a else b
  }

  /** These are rows of the table, newest first, and the others are no newer. */
  ghost predicate LatestOf(out: seq<AuditLog>, rows: seq<AuditLog>) {
    && multiset(out) <= multiset(rows)
    && (forall i, j :: 0 <= i < j < |out| ==> out[i].createdAt >= out[j].createdAt)
    && (forall r, i :: r in multiset(rows) - multiset(out) && 0 <= i < |out| ==> r.createdAt <= out[i].createdAt)
  }

  /** What the lister takes are the latest rows, as many as there are up to the limit. */
  lemma NewestAreLatest(rows: seq<AuditLog>, limit: nat)
    ensures |Newest(rows, limit)| == Smaller(limit, |rows|)
    ensures LatestOf(Reverse(Newest(rows, limit)), rows)
  {
    var sorted := Chronological(rows);
    ChronologicalSorts(rows);
    var n := if |sorted| <= limit then 0 else |sorted| - limit;
    assert Newest(rows, limit) == sorted[n..];
    EndOfSortedIsLatest(rows, sorted, n);
  }

  lemma EndOfSortedIsLatest(rows: seq<AuditLog>, sorted: seq<AuditLog>, n: nat)
    requires WeaklyAscending(sorted) && multiset(sorted) == multiset(rows) && n <= |sorted|
    ensures LatestOf(Reverse(sorted[n..]), rows)
  {
    var out := Reverse(sorted[n..]);
    ReverseKeepsRows(sorted[n..]);
    assert sorted == sorted[..n] + sorted[n..];
    assert multiset(rows) - multiset(out) == multiset(sorted[..n]);
    EndIsLatest(sorted, n, out);
  }

  lemma EndIsLatest(sorted: seq<AuditLog>, n: nat, out: seq<AuditLog>)
    requires WeaklyAscending(sorted) && n <= |sorted| && out == Reverse(sorted[n..])
    ensures forall i, j :: 0 <= i < j < |out| ==> out[i].createdAt >= out[j].createdAt
    ensures forall r, i :: r in multiset(sorted[..n]) && 0 <= i < |out| ==> r.createdAt <= out[i].createdAt
  {
    forall i | 0 <= i < |out| ensures out[i] == sorted[|sorted| - 1 - i] {
    }
    forall r, i | r in multiset(sorted[..n]) && 0 <= i < |out| ensures r.createdAt <= out[i].createdAt {
      assert r in sorted[..n];
      var k :| 0 <= k < n && sorted[k] == r;
      assert out[i] == sorted[|sorted| - 1 - i];
    }
  }

  lemma {:induction false} ReverseKeepsRows(xs: seq<AuditLog>)
    ensures multiset(Reverse(xs)) == multiset(xs)
  {
    if xs != [] {
      var n := |xs| - 1;
      ReverseKeepsRows(xs[..n]);
      assert xs == xs[..n] + [xs[n]] && Reverse(xs) == [xs[n]] + Reverse(xs[..n]);
    }
  }

  /** Row a comes before row b in "ORDER BY created_at DESC, id DESC". */
  predicate NewerThan(a: AuditLog, b: AuditLog) {
    a.createdAt > b.createdAt || (a.createdAt == b.createdAt && StringLess(b.id, a.id))
  }

  /** The position of the row that the writer chains to. */
  function TipIndex(rows: seq<AuditLog>): (k: nat)
    requires rows != []
    ensures k < |rows|
  {
    if |rows| == 1 then 0
    else
      var k := TipIndex(rows[..|rows| - 1]);
      if NewerThan(rows[|rows| - 1], rows[k]) then |rows| - 1 else k
  }

  /** No row is later than row k, and of those at its time none has a greater id. */
  ghost predicate NewestOf(rows: seq<AuditLog>, k: nat)
    requires k < |rows|
  {
    forall i :: 0 <= i < |rows| ==>
      && rows[i].createdAt <= rows[k].createdAt
      && (rows[i].createdAt == rows[k].createdAt ==> !StringLess(rows[k].id, rows[i].id))
  }

  lemma NewerIsTransitive(a: AuditLog, b: AuditLog, c: AuditLog)
    requires !NewerThan(b, a) && !NewerThan(c, b)
    ensures !NewerThan(c, a)
  {
    StringOrderIsTotal(a.id, b.id);
    StringOrderIsTotal(b.id, c.id);
    if StringLess(c.id, b.id) && StringLess(b.id, a.id) {
      StringLessIsTransitive(c.id, b.id, a.id);
    }
    StringOrderIsTotal(a.id, c.id);
  }

  lemma {:induction false} TipIsNewest(rows: seq<AuditLog>)
    requires rows != []
    ensures NewestOf(rows, TipIndex(rows))
  {
    var last := |rows| - 1;
    if last > 0 {
      var init := rows[..last];
      var k := TipIndex(init);
      TipIsNewest(init);
      forall i | 0 <= i < last ensures !NewerThan(rows[i], rows[TipIndex(rows)]) {
        assert !NewerThan(init[i], init[k]);
        if NewerThan(rows[last], rows[k]) {
          NewerIsAsymmetric(rows[last], rows[k]);
          NewerIsTransitive(rows[last], rows[k], rows[i]);
        }
      }
    }
    StringOrderIsTotal(rows[TipIndex(rows)].id, rows[TipIndex(rows)].id);
  }

  lemma NewerIsAsymmetric(a: AuditLog, b: AuditLog)
    requires NewerThan(a, b)
    ensures !NewerThan(b, a)
  {
    StringOrderIsTotal(a.id, b.id);
  }

  /** The hash the writer chains to. */
  function LastHash(rows: seq<AuditLog>): string {
    if rows == [] then "" else rows[TipIndex(rows)].hash
  }

  lemma {:induction false} TipIndexIsNewest(rows: seq<AuditLog>)
    requires rows != []
    ensures forall r :: r in rows ==> r.createdAt <= rows[TipIndex(rows)].createdAt
  {
    if |rows| > 1 {
      TipIndexIsNewest(rows[..|rows| - 1]);
    }
  }

  /** In a table written in time order the writer chains to the last row. */
  lemma LastHashOfAscending(rows: seq<AuditLog>)
    requires Ascending(rows)
    ensures LastHash(rows) == if rows == [] then "" else rows[|rows| - 1].hash
  {
    if rows != [] {
      TipIndexIsNewest(rows);
      var k := TipIndex(rows);
      assert rows[|rows| - 1] in rows;
    }
  }

  // ---- Writer -----------------------------------------------------------------

  /** Row r has the columns of entry a; only the hashes may differ. */
  predicate Carries(r: AuditLog, a: AuditLog) {
    && r.id == a.id && r.action == a.action && r.actor == a.actor && r.target == a.target
    && r.metadata == a.metadata && r.traceId == a.traceId && r.createdAt == a.createdAt
  }

  /** The row as CreateAuditLog stores it behind the given previous hash. */
  function Sealed(h: Hasher, prev: string, a: AuditLog): (r: AuditLog)
    ensures r.prevHash == prev && r.hash == h.sha(HashInput(h, r))
    ensures Carries(r, a)
  {
    var linked := a.(prevHash := prev);
    linked.(hash := h.sha(HashInput(h, linked)))
  }

  predicate HasId(rows: seq<AuditLog>, id: string) {
    exists i :: 0 <= i < |rows| && rows[i].id == id
  }

  /** The INSERT statement: the primary key may refuse the row. */
  function Inserted(rows: seq<AuditLog>, r: AuditLog): seq<AuditLog> {
    if HasId(rows, r.id) then rows else rows + [r]
  }

  datatype Verdict =
    | StoreMissing
    | TableMissing
    | Unreadable
    | Pass
    | LinkBroken(id: string, expected: string, found: string)
    | HashMismatch(id: string)

  /** What reading the log table can bring. */
  datatype Fetch = Rows(logs: seq<AuditLog>) | NoSuchTable | ReadError

  class SQLStore {
    const h: Hasher
    var rows: seq<AuditLog>

    constructor (h: Hasher)
      ensures this.h == h && rows == []
    {
      this.h := h;
      rows := [];
    }

    /** SELECT hash ... ORDER BY created_at DESC, id DESC LIMIT 1 */
    method SelectLastHash() returns (hash: string)
      ensures hash == LastHash(rows)
      ensures rows == [] ==> hash == ""
      ensures rows != [] ==> exists k :: 0 <= k < |rows| && hash == rows[k].hash && NewestOf(rows, k)
    {
      hash := "";
      if rows != [] {
        var best := 0;
        var i := 1;
        while i < |rows|
          invariant 1 <= i <= |rows|
          invariant best == TipIndex(rows[..i])
        {
          assert rows[..i + 1][..i] == rows[..i];
          if NewerThan(rows[i], rows[best]) {
            best := i;
          }
          i := i + 1;
        }
        assert rows[..|rows|] == rows;
        TipIsNewest(rows);
        hash := rows[best].hash;
      }
    }

    /** Chains the entry to the newest stored row; only a used id stops it. */
    method CreateAuditLog(a: AuditLog) returns (ok: bool)
      modifies this
      ensures ok <==> !HasId(old(rows), a.id)
      ensures rows == if ok then old(rows) + [Sealed(h, LastHash(old(rows)), a)] else old(rows)
      ensures ok ==>
                && |rows| == |old(rows)| + 1 && rows[..|old(rows)|] == old(rows)
                && var r := rows[|old(rows)|];
                && r.id == a.id && r.action == a.action && r.actor == a.actor && r.target == a.target
                && r.metadata == a.metadata && r.traceId == a.traceId && r.createdAt == a.createdAt
                && r.prevHash == LastHash(old(rows))
                && r.hash == h.sha(r.prevHash + a.action + a.actor + a.target + a.metadata + a.traceId +
                                   h.stamp(a.createdAt))
    {
      var lastHash := SelectLastHash();
      var entry := a.(prevHash := lastHash);
      var input := "";
      input := input + entry.prevHash;
      input := input + entry.action;
      input := input + entry.actor;
      input := input + entry.target;
      input := input + entry.metadata;
      input := input + entry.traceId;
      input := input + h.stamp(entry.createdAt);
      WritesConcatenate(h, entry);
      assert input == HashInput(h, entry);
      assert "" + entry.prevHash == entry.prevHash;
      entry := entry.(hash := h.sha(input));
      ok := !HasId(rows, entry.id);
      if ok {
        rows := rows + [entry];
      }
    }

    /** audit.Logger.Record: reads the clock, then appends; a refused row is dropped. */
    method Record(
      id: string, action: string, actor: string, target: string, metadata: string, traceId: string, now: nat)
      modifies this
      ensures rows == Inserted(old(rows),
                Sealed(h, LastHash(old(rows)), AuditLog(id, action, actor, target, metadata, traceId, "", "", now)))
      ensures !HasId(old(rows), id) ==>
                && |rows| == |old(rows)| + 1 && rows[..|old(rows)|] == old(rows)
                && var r := rows[|old(rows)|];
                && r.id == id && r.action == action && r.actor == actor && r.target == target
                && r.metadata == metadata && r.traceId == traceId && r.createdAt == now
    {
      var _ := CreateAuditLog(AuditLog(id, action, actor, target, metadata, traceId, "", "", now));
    }

    /** The rows of the query's result, read one after the other. */
    method ReadRows(bounded: nat) returns (out: seq<AuditLog>)
      ensures out == Reverse(Newest(rows, bounded))
    {
      var sorted := Chronological(rows);
      out := [];
      var i := |sorted|;
      while i > 0 && |out| < bounded
        invariant 0 <= i <= |sorted|
        invariant |out| == |sorted| - i <= bounded
        invariant forall k :: 0 <= k < |out| ==> out[k] == sorted[|sorted| - 1 - k]
      {
        i := i - 1;
        out := out + [sorted[i]];
      }
    }

    /** The newest rows, newest first, never more than 500. */
    method ListAuditLogs(limit: int) returns (out: seq<AuditLog>)
      ensures out == Reverse(Newest(rows, EffectiveLimit(limit)))
      ensures |out| == if 1 <= limit <= 500 then Smaller(limit, |rows|) else Smaller(100, |rows|)
      ensures LatestOf(out, rows)
    {
      var bounded := limit;
      if bounded <= 0 || bounded > 500 {
        bounded := 100;
      }
      out := ReadRows(bounded);
      NewestAreLatest(rows, bounded);
    }
  }

  lemma WritesConcatenate(h: Hasher, e: AuditLog)
    ensures "" + e.prevHash + e.action + e.actor + e.target + e.metadata + e.traceId +
            h.stamp(e.createdAt) == HashInput(h, e)
  {
    assert "" + e.prevHash == e.prevHash;
    assert e.prevHash + e.action + e.actor + e.target + e.metadata == e.prevHash + Content(e);
  }

  // ---- Checker ----------------------------------------------------------------

  /** The index, oldest first, of the first row that is out of the chain. */
  ghost predicate FirstBreak(h: Hasher, rows: seq<AuditLog>, i: nat) {
    i < |rows| && !LinkedAt(h, rows, i) && forall k :: 0 <= k < i ==> LinkedAt(h, rows, k)
  }

  /** The failure report v describes the oldest broken row: a wrong link first, and a
      wrong digest only when the link is right. */
  ghost predicate Explains(h: Hasher, rows: seq<AuditLog>, i: nat, v: Verdict) {
    FirstBreak(h, rows, i) &&
    var expected := if i == 0 then "" else rows[i - 1].hash;
    if rows[i].prevHash != expected then v == LinkBroken(rows[i].id, expected, rows[i].prevHash)
    else v == HashMismatch(rows[i].id)
  }

  /** AuditChainCheck.Run over an already fetched, newest-first list: it passes exactly
      on chains, and otherwise names the oldest broken row and what is wrong there. */
  method CheckLogs(h: Hasher, logs: seq<AuditLog>) returns (v: Verdict)
    ensures v.Pass? || v.LinkBroken? || v.HashMismatch?
    ensures v.Pass? <==> Chain(h, Reverse(logs))
    ensures !v.Pass? ==> exists i: nat :: Explains(h, Reverse(logs), i, v)
  {
    if |logs| == 0 {
      return Pass;
    }
    ghost var rows := Reverse(logs);
    var lastHash := "";
    var i := |logs| - 1;
    while i >= 0
      invariant -1 <= i < |logs|
      invariant lastHash == if i == |logs| - 1 then "" else logs[i + 1].hash
      invariant forall k :: 0 <= k < |logs| - 1 - i ==> LinkedAt(h, rows, k)
    {
      var log := logs[i];
      ghost var at := |logs| - 1 - i;
      assert rows[at] == log && (at > 0 ==> rows[at - 1] == logs[i + 1]);
      if log.prevHash != lastHash {
        assert Explains(h, rows, at, LinkBroken(log.id, lastHash, log.prevHash));
        return LinkBroken(log.id, lastHash, log.prevHash);
      }
      var input := "";
      input := input + log.prevHash;
      input := input + log.action;
      input := input + log.actor;
      input := input + log.target;
      input := input + log.metadata;
      input := input + log.traceId;
      input := input + h.stamp(log.createdAt);
      WritesConcatenate(h, log);
      var recalculated := h.sha(input);
      if log.hash != recalculated {
        assert Explains(h, rows, at, HashMismatch(log.id));
        return HashMismatch(log.id);
      }
      assert LinkedAt(h, rows, at);
      lastHash := log.hash;
      i := i - 1;
    }
    return Pass;
  }

  /** AuditChainCheck.Run after its fetch. */
  method CheckFetched(h: Hasher, storeAvailable: bool, fetch: Fetch) returns (v: Verdict)
    ensures v.Pass? <==> storeAvailable && fetch.Rows? && Chain(h, Reverse(fetch.logs))
    ensures v.StoreMissing? <==> !storeAvailable
    ensures v.TableMissing? <==> storeAvailable && fetch.NoSuchTable?
    ensures v.Unreadable? <==> storeAvailable && fetch.ReadError?
  {
    if !storeAvailable {
      return StoreMissing;
    }
    match fetch
    case NoSuchTable => return TableMissing;
    case ReadError => return Unreadable;
    case Rows(logs) => v := CheckLogs(h, logs);
  }

  /** The check passes on a table with these rows. */
  predicate Passes(h: Hasher, rows: seq<AuditLog>) {
    Chain(h, Newest(rows, CHECK_LIMIT))
  }

  /** AuditChainCheck.Run against the live table. */
  method RunCheck(store: SQLStore) returns (v: Verdict)
    ensures v.Pass? <==> Passes(store.h, store.rows)
  {
    var logs := store.ListAuditLogs(500);
    v := CheckFetched(store.h, true, Rows(logs));
    assert Reverse(logs) == Newest(store.rows, CHECK_LIMIT);
  }

  // ---- Serial histories -------------------------------------------------------

  /** The table after the given entries were appended one after the other. */
  function AppendAll(h: Hasher, entries: seq<AuditLog>): (rows: seq<AuditLog>) {
    if entries == [] then []
    else
      var before := AppendAll(h, entries[..|entries| - 1]);
      var a := entries[|entries| - 1];
      Inserted(before, Sealed(h, LastHash(before), a))
  }

  /** Entries as the logger hands them over one at a time: later means later, and no
      id twice. */
  ghost predicate HonestEntries(entries: seq<AuditLog>) {
    Ascending(entries) && forall i, j :: 0 <= i < j < |entries| ==> entries[i].id != entries[j].id
  }

  /** The rows are a chain in order of time that stores exactly these entries. */
  ghost predicate Chronicles(h: Hasher, rows: seq<AuditLog>, entries: seq<AuditLog>) {
    && |rows| == |entries| && Ascending(rows) && Chain(h, rows)
    && forall i :: 0 <= i < |rows| ==> Carries(rows[i], entries[i])
  }

  lemma {:induction false} HonestLedgerIsChain(h: Hasher, entries: seq<AuditLog>)
    requires HonestEntries(entries)
    ensures Chronicles(h, AppendAll(h, entries), entries)
  {
    if entries != [] {
      var init, a := entries[..|entries| - 1], entries[|entries| - 1];
      assert entries == init + [a];
      PrefixIsHonest(init, a);
      HonestLedgerIsChain(h, init);
      AppendAllOneMore(h, init, a);
      HonestAppend(h, AppendAll(h, init), init, a);
    }
  }

  lemma PrefixIsHonest(init: seq<AuditLog>, a: AuditLog)
    requires HonestEntries(init + [a])
    ensures HonestEntries(init)
  {
    assert forall i :: 0 <= i < |init| ==> (init + [a])[i] == init[i];
  }

  lemma {:induction false} AppendAllOneMore(h: Hasher, init: seq<AuditLog>, a: AuditLog)
    ensures var before := AppendAll(h, init);
            AppendAll(h, init + [a]) == Inserted(before, Sealed(h, LastHash(before), a))
  {
    assert (init + [a])[..|init|] == init;
  }

  lemma HonestAppend(h: Hasher, before: seq<AuditLog>, init: seq<AuditLog>, a: AuditLog)
    requires HonestEntries(init + [a]) && Chronicles(h, before, init)
    ensures Chronicles(h, Inserted(before, Sealed(h, LastHash(before), a)), init + [a])
  {
    var r, entries := Sealed(h, LastHash(before), a), init + [a];
    LastHashOfAscending(before);
    forall i | 0 <= i < |before| ensures before[i].id != a.id && before[i].createdAt < a.createdAt {
      assert Carries(before[i], init[i]);
      assert entries[i] == init[i] && entries[|init|] == a;
    }
    ChainGrows(h, before, r);
    forall i | 0 <= i < |entries| ensures Carries((before + [r])[i], entries[i]) {
      if i < |init| {
        assert Carries(before[i], init[i]);
      }
    }
  }

  lemma ChainGrows(h: Hasher, rows: seq<AuditLog>, r: AuditLog)
    requires Chain(h, rows) && Ascending(rows)
    requires r.prevHash == (if rows == [] then "" else rows[|rows| - 1].hash) && r.hash == h.sha(HashInput(h, r))
    requires forall i :: 0 <= i < |rows| ==> rows[i].createdAt < r.createdAt
    ensures Chain(h, rows + [r]) && Ascending(rows + [r])
  {
    var out := rows + [r];
    forall i | 0 <= i < |out| ensures LinkedAt(h, out, i) {
      if i < |rows| {
        assert LinkedAt(h, rows, i);
      }
    }
  }

  /** A window that opens on a row with a predecessor outside it. */
  lemma LateWindowFails(h: Hasher, rows: seq<AuditLog>)
    requires Ascending(rows) && |rows| > CHECK_LIMIT && rows[|rows| - CHECK_LIMIT].prevHash != ""
    ensures !Passes(h, rows)
  {
    AscendingIsChronological(rows);
    var window := Newest(rows, CHECK_LIMIT);
    assert window[0] == rows[|rows| - CHECK_LIMIT] && !LinkedAt(h, window, 0);
  }

  lemma AscendingPassesIff(h: Hasher, rows: seq<AuditLog>)
    requires Ascending(rows) && |rows| <= CHECK_LIMIT
    ensures Passes(h, rows) <==> Chain(h, rows)
  {
    AscendingIsChronological(rows);
  }

  /** A chain in order of time passes exactly while it has at most 500 rows. */
  lemma ChainPassesIffSmall(h: Hasher, rows: seq<AuditLog>)
    requires h.Sound() && Ascending(rows) && Chain(h, rows)
    ensures Passes(h, rows) <==> |rows| <= CHECK_LIMIT
  {
    if |rows| <= CHECK_LIMIT {
      AscendingPassesIff(h, rows);
    } else {
      LaterRowsAreLinked(h, rows, |rows| - CHECK_LIMIT);
      LateWindowFails(h, rows);
    }
  }

  /** A serial history passes the check for exactly its first 500 rows: after that the
      window opens on a row that has a predecessor outside it. */
  lemma {:induction false} SerialLedgerPassesIffSmall(h: Hasher, entries: seq<AuditLog>)
    requires h.Sound() && HonestEntries(entries)
    ensures Passes(h, AppendAll(h, entries)) <==> |entries| <= CHECK_LIMIT
  {
    HonestLedgerIsChain(h, entries);
    ChainPassesIffSmall(h, AppendAll(h, entries));
  }

  lemma PickAscending(rows: seq<AuditLog>, kept: seq<nat>)
    requires Ascending(rows) && Positions(kept, |rows|)
    ensures Ascending(Pick(rows, kept))
  {
  }

  lemma {:induction false} KeptIsLate(kept: seq<nat>, n: nat, i: nat)
    requires Positions(kept, n) && i < |kept|
    ensures kept[i] >= i
  {
    if i > 0 {
      KeptIsLate(kept, n, i - 1);
    }
  }

  /** Deleting rows of an honest ledger goes unnoticed if at most 500 rows are left and only
      newest ones are gone, and otherwise it is noticed unless rows collide. */
  lemma {:induction false} DeletionUnnoticedIffNewest(h: Hasher, entries: seq<AuditLog>, kept: seq<nat>)
    requires h.Sound() && HonestEntries(entries) && (entries != [] ==> MarkedAction(entries[0]))
    requires Positions(kept, |entries|)
    ensures |AppendAll(h, entries)| == |entries|
    ensures KeepsPrefix(kept) && |kept| <= CHECK_LIMIT ==> Passes(h, Pick(AppendAll(h, entries), kept))
    ensures Passes(h, Pick(AppendAll(h, entries), kept)) ==>
              |kept| <= CHECK_LIMIT && (KeepsPrefix(kept) || Clash(h, AppendAll(h, entries), AppendAll(h, entries)))
  {
    HonestLedgerIsChain(h, entries);
    var rows := AppendAll(h, entries);
    if rows != [] {
      assert Carries(rows[0], entries[0]);
    }
    SurvivorsPassIff(h, rows, kept);
  }

  lemma SurvivorsPassIff(h: Hasher, rows: seq<AuditLog>, kept: seq<nat>)
    requires h.Sound() && Ascending(rows) && Chain(h, rows) && (rows != [] ==> MarkedAction(rows[0]))
    requires Positions(kept, |rows|)
    ensures KeepsPrefix(kept) && |kept| <= CHECK_LIMIT ==> Passes(h, Pick(rows, kept))
    ensures Passes(h, Pick(rows, kept)) ==> |kept| <= CHECK_LIMIT && (KeepsPrefix(kept) || Clash(h, rows, rows))
  {
    var left := Pick(rows, kept);
    PickAscending(rows, kept);
    if |kept| <= CHECK_LIMIT {
      AscendingPassesIff(h, left);
      SurvivorsChainIffPrefix(h, rows, kept);
    } else {
      var first := |kept| - CHECK_LIMIT;
      KeptIsLate(kept, |rows|, first);
      LaterRowsAreLinked(h, rows, kept[first]);
      LateWindowFails(h, left);
    }
  }

  // ---- Tables that pass ---------------------------------------------------------

  lemma {:induction false} ChronologicalHasTheRows(rows: seq<AuditLog>, r: AuditLog)
    ensures r in Chronological(rows) <==> r in rows
  {
    assert r in multiset(Chronological(rows)) <==> r in multiset(rows);
  }

  lemma {:induction false} SmallPassesIffChain(h: Hasher, rows: seq<AuditLog>)
    requires |rows| <= CHECK_LIMIT
    ensures Passes(h, rows) <==> Chain(h, Chronological(rows))
  {
  }

  /** Two tables of at most 500 rows that pass and whose newest rows have the same hash hold
      the same records in order of time; rows with equal digests and different inputs aside. */
  lemma {:induction false} PassingTablesWithOneTipAgree(
    h: Hasher, xs: seq<AuditLog>, ys: seq<AuditLog>, older: seq<AuditLog>, newer: seq<AuditLog>)
    requires older == Chronological(xs) && newer == Chronological(ys)
    requires h.Sound() && 0 < |xs| <= CHECK_LIMIT && 0 < |ys| <= CHECK_LIMIT
    requires Passes(h, xs) && Passes(h, ys)
    requires forall r :: r in xs || r in ys ==> LoggerShape(r)
    requires older[|older| - 1].hash == newer[|newer| - 1].hash
    requires |xs| == |ys| || (MarkedAction(older[0]) && MarkedAction(newer[0]))
    ensures Clash(h, older, newer) ||
            (|xs| == |ys| && forall k :: 0 <= k < |older| ==> SameRecord(older[k], newer[k]))
  {
    forall r | r in older || r in newer ensures LoggerShape(r) {
      ChronologicalHasTheRows(xs, r);
      ChronologicalHasTheRows(ys, r);
    }
    SmallPassesIffChain(h, xs);
    SmallPassesIffChain(h, ys);
    TipDeterminesLedger(h, older, newer);
  }
}
