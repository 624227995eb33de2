/** Concurrent appenders. An append is three steps that other appenders may separate:
    the logger reads the clock, one statement selects the last hash, another inserts the
    row. The result says exactly which interleavings leave a ledger that passes. */
module AuditInterleaving {
  import opened AuditLedger
  import opened AuditStore

  /** Where an append stands. `seen` is the number of rows stored when it selected. */
  datatype Flight =
    | Clocked(entry: AuditLog)
    | Selected(entry: AuditLog, prev: string, seen: nat)

  /** `seen[k]` remembers, for stored row k, how many rows its appender had seen. */
  datatype World = World(clock: nat, rows: seq<AuditLog>, seen: seq<nat>, flights: map<nat, Flight>)

  datatype Step =
    | ReadClock(p: nat, entry: AuditLog)
    | SelectLast(p: nat)
    | Insert(p: nat)

  const START := World(0, [], [], map[])

  /** An idle appender may start with any later clock reading; the others go on. */
  predicate Enabled(w: World, s: Step) {
    match s
    case ReadClock(p, entry) => p !in w.flights && w.clock < entry.createdAt
    case SelectLast(p) => p in w.flights && w.flights[p].Clocked?
    case Insert(p) => p in w.flights && w.flights[p].Selected?
  }

  function Next(h: Hasher, w: World, s: Step): World
    requires Enabled(w, s)
  {
    match s
    case ReadClock(p, entry) =>
      w.(clock := entry.createdAt, flights := w.flights[p := Clocked(entry)])
    case SelectLast(p) =>
      w.(flights := w.flights[p := Selected(w.flights[p].entry, LastHash(w.rows), |w.rows|)])
    case Insert(p) =>
      var f := w.flights[p];
      var r := Sealed(h, f.prev, f.entry);
      var rest := w.flights - {p};
      if HasId(w.rows, r.id) then w.(flights := rest)
      else World(w.clock, w.rows + [r], w.seen + [f.seen], rest)
  }

  /** `steps` is a possible interleaving, and these are the worlds it leads through. */
  ghost predicate History(h: Hasher, steps: seq<Step>, ws: seq<World>) {
    && |ws| == |steps| + 1 && ws[0] == START
    && forall i {:trigger steps[i]} :: 0 <= i < |steps| ==>
      Enabled(ws[i], steps[i]) && ws[i + 1] == Next(h, ws[i], steps[i])
  }

  // ---- What every interleaving keeps -------------------------------------------

  ghost predicate RowOk(h: Hasher, rows: seq<AuditLog>, seen: seq<nat>, k: nat)
    requires k < |rows| == |seen|
  {
    && seen[k] <= k
    && rows[k].prevHash == LastHash(rows[..seen[k]])
    && rows[k].hash == h.sha(HashInput(h, rows[k]))
  }

  /** The stored rows: each chained to the tip of what its appender saw, no time twice. */
  ghost predicate RowsOk(h: Hasher, rows: seq<AuditLog>, seen: seq<nat>, clock: nat) {
    && |seen| == |rows|
    && (forall k :: 0 <= k < |rows| ==> RowOk(h, rows, seen, k))
    && (forall k :: 0 <= k < |rows| ==> rows[k].createdAt <= clock)
    && TimesDiffer(rows)
  }

  ghost predicate TimesDiffer(rows: seq<AuditLog>) {
    forall i, j :: 0 <= i < j < |rows| ==> rows[i].createdAt != rows[j].createdAt
  }

  /** An append under way: its time is its own, and what it selected is still a prefix. */
  ghost predicate FlightOk(rows: seq<AuditLog>, clock: nat, f: Flight) {
    && f.entry.createdAt <= clock
    && (forall k :: 0 <= k < |rows| ==> rows[k].createdAt != f.entry.createdAt)
    && (f.Selected? ==> f.seen <= |rows| && f.prev == LastHash(rows[..f.seen]))
  }

  ghost predicate FlightsOk(rows: seq<AuditLog>, clock: nat, flights: map<nat, Flight>) {
    && (forall p :: p in flights ==> FlightOk(rows, clock, flights[p]))
    && (forall p, q :: p in flights && q in flights && p != q ==>
          flights[p].entry.createdAt != flights[q].entry.createdAt)
  }

  ghost predicate Inv(h: Hasher, w: World) {
    RowsOk(h, w.rows, w.seen, w.clock) && FlightsOk(w.rows, w.clock, w.flights)
  }

  lemma AppendKeepsRows(h: Hasher, rows: seq<AuditLog>, seen: seq<nat>, clock: nat, r: AuditLog, n: nat)
    requires RowsOk(h, rows, seen, clock)
    requires n <= |rows| && r.prevHash == LastHash(rows[..n]) && r.hash == h.sha(HashInput(h, r))
    requires r.createdAt <= clock && forall k :: 0 <= k < |rows| ==> rows[k].createdAt != r.createdAt
    ensures RowsOk(h, rows + [r], seen + [n], clock)
  {
    var rows', seen' := rows + [r], seen + [n];
    forall k | 0 <= k < |rows'| ensures RowOk(h, rows', seen', k) {
      if k < |rows| {
        assert RowOk(h, rows, seen, k);
        assert rows'[..seen'[k]] == rows[..seen[k]];
      } else {
        assert rows'[..n] == rows[..n];
      }
    }
  }

  lemma AppendKeepsFlights(rows: seq<AuditLog>, clock: nat, flights: map<nat, Flight>, p: nat, r: AuditLog)
    requires FlightsOk(rows, clock, flights)
    requires p in flights && r.createdAt == flights[p].entry.createdAt
    ensures FlightsOk(rows + [r], clock, flights - {p})
  {
    forall q | q in flights - {p} ensures FlightOk(rows + [r], clock, flights[q]) {
      var f := flights[q];
      assert FlightOk(rows, clock, f);
      if f.Selected? {
        assert (rows + [r])[..f.seen] == rows[..f.seen];
      }
    }
  }

  lemma SelectKeepsFlights(rows: seq<AuditLog>, clock: nat, flights: map<nat, Flight>, p: nat)
    requires FlightsOk(rows, clock, flights) && p in flights
    ensures FlightsOk(rows, clock, flights[p := Selected(flights[p].entry, LastHash(rows), |rows|)])
  {
    assert FlightOk(rows, clock, flights[p]);
    assert rows[..|rows|] == rows;
  }

  lemma StepKeepsInv(h: Hasher, w: World, s: Step)
    requires Inv(h, w) && Enabled(w, s)
    ensures Inv(h, Next(h, w, s))
  {
    match s
    case ReadClock(p, entry) =>
    case SelectLast(p) =>
      SelectKeepsFlights(w.rows, w.clock, w.flights, p);
    case Insert(p) =>
      var f := w.flights[p];
      assert FlightOk(w.rows, w.clock, f);
      var r := Sealed(h, f.prev, f.entry);
      AppendKeepsRows(h, w.rows, w.seen, w.clock, r, f.seen);
      AppendKeepsFlights(w.rows, w.clock, w.flights, p, r);
  }

  lemma {:induction false} EveryRunKeepsInv(h: Hasher, steps: seq<Step>, ws: seq<World>, n: nat)
    requires History(h, steps, ws) && n < |ws|
    ensures Inv(h, ws[n])
  {
    if n > 0 {
      EveryRunKeepsInv(h, steps, ws, n - 1);
      StepKeepsInv(h, ws[n - 1], steps[n - 1]);
    }
  }

  // ---- What is stored ------------------------------------------------------------

  /** Some appender read the clock with this entry. */
  ghost predicate WasGiven(steps: seq<Step>, n: nat, e: AuditLog)
    requires n <= |steps|
  {
    exists i :: 0 <= i < n && steps[i].ReadClock? && steps[i].entry == e
  }

  lemma {:induction false} FlightsWereGiven(h: Hasher, steps: seq<Step>, ws: seq<World>, n: nat, p: nat)
    requires History(h, steps, ws) && n < |ws| && p in ws[n].flights
    ensures WasGiven(steps, n, ws[n].flights[p].entry)
  {
    var w, s := ws[n - 1], steps[n - 1];
    if !(s.ReadClock? && s.p == p) {
      FlightsWereGiven(h, steps, ws, n - 1, p);
    }
  }

  /** Every stored row carries an entry that an appender was given, column by column. */
  lemma {:induction false} RowsCarryEntries(h: Hasher, steps: seq<Step>, ws: seq<World>, n: nat, k: nat)
    returns (i: nat)
    requires History(h, steps, ws) && n < |ws| && k < |ws[n].rows|
    ensures i < n && steps[i].ReadClock?
    ensures var r, e := ws[n].rows[k], steps[i].entry;
            && r.id == e.id && r.action == e.action && r.actor == e.actor && r.target == e.target
            && r.metadata == e.metadata && r.traceId == e.traceId && r.createdAt == e.createdAt
  {
    var w, s := ws[n - 1], steps[n - 1];
    if k < |w.rows| {
      i := RowsCarryEntries(h, steps, ws, n - 1, k);
    } else {
      FlightsWereGiven(h, steps, ws, n - 1, s.p);
      i :| 0 <= i < n - 1 && steps[i].ReadClock? && steps[i].entry == w.flights[s.p].entry;
    }
  }

  /** Stored rows stay as they are, and an INSERT with a free id stores its entry behind them. */
  lemma InsertStores(h: Hasher, w: World, p: nat)
    requires Enabled(w, Insert(p))
    ensures var v, e := Next(h, w, Insert(p)), w.flights[p].entry;
            && v.flights == w.flights - {p}
            && if exists k :: 0 <= k < |w.rows| && w.rows[k].id == e.id then v.rows == w.rows
               else |v.rows| == |w.rows| + 1 && v.rows[..|w.rows|] == w.rows && Carries(v.rows[|w.rows|], e)
  {
  }

  lemma {:induction false} RowsStay(h: Hasher, steps: seq<Step>, ws: seq<World>, m: nat, n: nat)
    requires History(h, steps, ws) && m <= n < |ws|
    ensures |ws[m].rows| <= |ws[n].rows| && ws[n].rows[..|ws[m].rows|] == ws[m].rows
  {
    if m < n {
      RowsStay(h, steps, ws, m, n - 1);
      var before, now := ws[n - 1].rows, ws[n].rows;
      assert ws[n] == Next(h, ws[n - 1], steps[n - 1]);
      assert now[..|before|] == before;
      assert now[..|ws[m].rows|] == before[..|ws[m].rows|];
    }
  }

  /** None of these steps is one of appender p. */
  ghost predicate Idles(steps: seq<Step>, p: nat, from: nat, to: nat)
    requires to <= |steps|
  {
    forall k :: from <= k < to ==> steps[k].p != p
  }

  /** What an appender knows is kept for it until its next step. */
  lemma {:induction false} FlightStays(h: Hasher, steps: seq<Step>, ws: seq<World>, p: nat, m: nat, n: nat)
    requires History(h, steps, ws) && m <= n < |ws| && Idles(steps, p, m, n) && p in ws[m].flights
    ensures p in ws[n].flights && ws[n].flights[p] == ws[m].flights[p]
  {
    if m < n {
      FlightStays(h, steps, ws, p, m, n - 1);
      assert ws[n] == Next(h, ws[n - 1], steps[n - 1]) && steps[n - 1].p != p;
    }
  }

  lemma SelectSees(h: Hasher, w: World, p: nat)
    requires Enabled(w, SelectLast(p))
    ensures var f := Next(h, w, SelectLast(p)).flights;
            && p in f && f[p] == Selected(w.flights[p].entry, f[p].prev, |w.rows|)
            && (w.rows == [] ==> f[p].prev == "")
            && (w.rows != [] ==> exists t :: 0 <= t < |w.rows| && NewestOf(w.rows, t) && f[p].prev == w.rows[t].hash)
  {
    if w.rows != [] {
      TipIsNewest(w.rows);
      assert LastHash(w.rows) == w.rows[TipIndex(w.rows)].hash;
    }
  }

  /** An appender that takes its three steps, whatever others do in between, stores its entry
      behind the rows that are there, linked to the newest row of those it selected from;
      or nothing, if its id is used by then. */
  lemma {:induction false} AppenderStores(h: Hasher, steps: seq<Step>, ws: seq<World>, p: nat, i: nat, j: nat, k: nat)
    requires History(h, steps, ws) && i < j < k < |steps|
    requires steps[i].ReadClock? && steps[i].p == p && steps[j] == SelectLast(p) && steps[k] == Insert(p)
    requires Idles(steps, p, i + 1, j) && Idles(steps, p, j + 1, k)
    ensures var seen, before, after := ws[j].rows, ws[k].rows, ws[k + 1].rows;
            if exists m :: 0 <= m < |before| && before[m].id == steps[i].entry.id then after == before
            else
              && |after| == |before| + 1 && after[..|before|] == before && Carries(after[|before|], steps[i].entry)
              && (seen == [] ==> after[|before|].prevHash == "")
              && (seen != [] ==>
                    exists t :: 0 <= t < |seen| && NewestOf(seen, t) && after[|before|].prevHash == seen[t].hash)
  {
    assert ws[i + 1] == Next(h, ws[i], steps[i]) && ws[i + 1].flights[p] == Clocked(steps[i].entry);
    FlightStays(h, steps, ws, p, i + 1, j);
    assert ws[j + 1] == Next(h, ws[j], steps[j]) && Enabled(ws[j], steps[j]);
    SelectSees(h, ws[j], p);
    FlightStays(h, steps, ws, p, j + 1, k);
    assert ws[k + 1] == Next(h, ws[k], steps[k]) && Enabled(ws[k], steps[k]);
    InsertStores(h, ws[k], p);
    InsertLinks(h, ws[k], p);
  }

  lemma InsertLinks(h: Hasher, w: World, p: nat)
    requires Enabled(w, Insert(p))
    ensures var rows := Next(h, w, Insert(p)).rows; |rows| > |w.rows| ==> rows[|w.rows|].prevHash == w.flights[p].prev
  {
  }

  // ---- Exactly the serialised interleavings pass --------------------------------

  /** Of any two stored rows, the one with the earlier clock reading was inserted before
      the other one's appender selected its previous hash. */
  ghost predicate Serialized(w: World)
    requires |w.seen| == |w.rows|
  {
    SerializedRows(w.rows, w.seen)
  }

  ghost predicate SerializedRows(rows: seq<AuditLog>, seen: seq<nat>)
    requires |seen| == |rows|
  {
    forall i, j :: 0 <= i < |rows| && 0 <= j < |rows| && rows[i].createdAt < rows[j].createdAt ==> i < seen[j]
  }

  lemma SerializedRowsAreInOrder(h: Hasher, w: World)
    requires Inv(h, w) && Serialized(w)
    ensures Ascending(w.rows)
    ensures forall k :: 0 <= k < |w.rows| ==> w.seen[k] == k
  {
    forall i, j | 0 <= i < j < |w.rows| ensures w.rows[i].createdAt < w.rows[j].createdAt {
      assert RowOk(h, w.rows, w.seen, i);
    }
    forall k | 0 <= k < |w.rows| ensures w.seen[k] == k {
      assert RowOk(h, w.rows, w.seen, k);
      if k > 0 {
        assert w.rows[k - 1].createdAt < w.rows[k].createdAt;
      }
    }
  }

  lemma PrefixAscending(rows: seq<AuditLog>, n: nat)
    requires Ascending(rows) && n <= |rows|
    ensures Ascending(rows[..n])
  {
  }

  lemma SerializedIsChain(h: Hasher, w: World)
    requires Inv(h, w) && Serialized(w)
    ensures Ascending(w.rows) && Chain(h, w.rows)
  {
    SerializedRowsAreInOrder(h, w);
    forall k | 0 <= k < |w.rows| ensures LinkedAt(h, w.rows, k) {
      assert RowOk(h, w.rows, w.seen, k);
      PrefixAscending(w.rows, k);
      LastHashOfAscending(w.rows[..k]);
    }
  }

  lemma {:induction false} ChronologicalIsStrict(rows: seq<AuditLog>)
    requires TimesDiffer(rows)
    ensures Ascending(Chronological(rows))
  {
    var sorted := Chronological(rows);
    ChronologicalSorts(rows);
    forall i, j | 0 <= i < j < |sorted| ensures sorted[i].createdAt < sorted[j].createdAt {
      if sorted[i].createdAt == sorted[j].createdAt {
        SameTimeTwice(rows, sorted, i, j);
      }
    }
  }

  lemma SameTimeTwice(rows: seq<AuditLog>, sorted: seq<AuditLog>, i: nat, j: nat)
    requires multiset(rows) == multiset(sorted)
    requires i < j < |sorted| && sorted[i].createdAt == sorted[j].createdAt
    ensures exists a, b :: 0 <= a < b < |rows| && rows[a].createdAt == rows[b].createdAt
  {
    var x, y := sorted[i], sorted[j];
    assert x in multiset(rows) && y in multiset(rows);
    if x == y {
      TwiceCounts(sorted, i, j);
      assert multiset(rows)[x] >= 2;
      TwoPlaces(rows, x);
    } else {
      var a :| 0 <= a < |rows| && rows[a] == x;
      var b :| 0 <= b < |rows| && rows[b] == y;
      assert a != b;
    }
  }

  lemma TwiceCounts<T>(xs: seq<T>, i: nat, j: nat)
    requires i < j < |xs| && xs[i] == xs[j]
    ensures multiset(xs)[xs[i]] >= 2
  {
    assert xs == xs[..j] + [xs[j]] + xs[j + 1..];
    assert xs[..j][i] == xs[i];
    assert xs[i] in multiset(xs[..j]);
  }

  lemma {:induction false} TwoPlaces<T>(xs: seq<T>, x: T)
    requires multiset(xs)[x] >= 2
    ensures exists a, b :: 0 <= a < b < |xs| && xs[a] == x == xs[b]
  {
    var init, last := xs[..|xs| - 1], xs[|xs| - 1];
    assert xs == init + [last];
    if last == x {
      assert x in multiset(init);
      var a :| 0 <= a < |init| && init[a] == x;
      assert xs[a] == x == xs[|xs| - 1];
    } else {
      TwoPlaces(init, x);
      var a, b :| 0 <= a < b < |init| && init[a] == x == init[b];
      assert xs[a] == x == xs[b];
    }
  }

  lemma ClashCarriesOver(h: Hasher, xs: seq<AuditLog>, ys: seq<AuditLog>)
    requires multiset(xs) == multiset(ys) && Clash(h, xs, xs)
    ensures Clash(h, ys, ys)
  {
    var a, b :| a in xs && b in xs && HashInput(h, a) != HashInput(h, b) &&
      h.sha(HashInput(h, a)) == h.sha(HashInput(h, b));
    assert a in multiset(ys) && b in multiset(ys);
  }

  /** In a chain, a row behind the tip of the first n rows is row n or earlier. */
  lemma LinkTellsPosition(h: Hasher, sorted: seq<AuditLog>, n: nat, k: nat)
    requires h.Sound() && Ascending(sorted) && Chain(h, sorted)
    requires n <= k < |sorted| && MarkedAction(sorted[0]) && !Clash(h, sorted, sorted)
    requires sorted[k].prevHash == LastHash(sorted[..n])
    ensures k == n
  {
    PrefixAscending(sorted, n);
    LastHashOfAscending(sorted[..n]);
    assert LinkedAt(h, sorted, k) && (k > 0 ==> LinkedAt(h, sorted, k - 1)) && (n > 0 ==> LinkedAt(h, sorted, n - 1));
    if 0 < n < k {
      HashesNeverRepeat(h, sorted, n - 1, k - 1);
    }
  }

  /** `sorted` is `rows` in time order, and a chain without a clash. */
  ghost predicate CleanChain(h: Hasher, rows: seq<AuditLog>, sorted: seq<AuditLog>) {
    && multiset(rows) == multiset(sorted) && |rows| == |sorted|
    && Ascending(sorted) && Chain(h, sorted)
    && (sorted != [] ==> MarkedAction(sorted[0]))
    && !Clash(h, sorted, sorted)
  }

  /** Row j sits in the sorted list behind the rows already known to be in place. */
  lemma PlaceOf(rows: seq<AuditLog>, sorted: seq<AuditLog>, j: nat) returns (k: nat)
    requires multiset(rows) == multiset(sorted) && |rows| == |sorted| && j < |rows|
    requires TimesDiffer(rows) && forall i :: 0 <= i < j ==> rows[i] == sorted[i]
    ensures j <= k < |sorted| && sorted[k] == rows[j]
  {
    assert rows[j] in multiset(sorted);
    k :| 0 <= k < |sorted| && sorted[k] == rows[j];
  }

  /** If the ledger passes, insertion followed the clock up to row n, one row at a time. */
  lemma {:induction false} PassingRowsAreInOrder(
    h: Hasher, rows: seq<AuditLog>, seen: seq<nat>, clock: nat, sorted: seq<AuditLog>, n: nat)
    requires h.Sound() && RowsOk(h, rows, seen, clock) && n <= |rows|
    requires CleanChain(h, rows, sorted)
    ensures forall k :: 0 <= k < n ==> rows[k] == sorted[k] && seen[k] == k
  {
    if n > 0 {
      var j := n - 1;
      PassingRowsAreInOrder(h, rows, seen, clock, sorted, j);
      assert RowOk(h, rows, seen, j);
      var k := PlaceOf(rows, sorted, j);
      assert rows[..seen[j]] == sorted[..seen[j]];
      LinkTellsPosition(h, sorted, seen[j], k);
    }
  }

  lemma PassingIsSerialized(h: Hasher, w: World)
    requires h.Sound() && Inv(h, w) && CleanChain(h, w.rows, Chronological(w.rows))
    ensures Serialized(w)
  {
    PassingRowsAreInOrder(h, w.rows, w.seen, w.clock, Chronological(w.rows), |w.rows|);
  }

  /** Over every interleaving of any number of appenders: as long as all rows fit the
      check's window and the oldest row has a marked action, the ledger passes when appends
      took effect one at a time in clock order, and only then unless rows collide. */
  lemma PassesIffSerialized(h: Hasher, steps: seq<Step>, ws: seq<World>, n: nat, w: World)
    requires h.Sound() && History(h, steps, ws) && n < |ws| && w == ws[n]
    requires |w.rows| <= CHECK_LIMIT
    requires w.rows != [] ==> MarkedAction(Chronological(w.rows)[0])
    ensures |w.seen| == |w.rows|
    ensures Serialized(w) ==> Passes(h, w.rows)
    ensures Passes(h, w.rows) ==> Serialized(w) || Clash(h, w.rows, w.rows)
  {
    EveryRunKeepsInv(h, steps, ws, n);
    var sorted := Chronological(w.rows);
    ChronologicalIsStrict(w.rows);
    if Serialized(w) {
      SerializedIsChain(h, w);
      AscendingPassesIff(h, w.rows);
    } else if Clash(h, sorted, sorted) {
      ClashCarriesOver(h, sorted, w.rows);
    } else if Passes(h, w.rows) {
      PassingIsSerialized(h, w);
    }
  }

  /** Two stored rows that selected the same previous hash: the check fails. */
  lemma ForkedLedgerFails(h: Hasher, steps: seq<Step>, ws: seq<World>, n: nat, w: World, i: nat, j: nat)
    requires h.Sound() && History(h, steps, ws) && n < |ws| && w == ws[n]
    requires |w.rows| <= CHECK_LIMIT
    requires i < j < |w.rows| && w.rows[i].prevHash == w.rows[j].prevHash
    requires MarkedAction(Chronological(w.rows)[0])
    ensures !Passes(h, w.rows) || Clash(h, w.rows, w.rows)
  {
    EveryRunKeepsInv(h, steps, ws, n);
    var sorted := Chronological(w.rows);
    assert w.rows[i] in multiset(sorted) && w.rows[j] in multiset(sorted);
    var a :| 0 <= a < |sorted| && sorted[a] == w.rows[i];
    var b :| 0 <= b < |sorted| && sorted[b] == w.rows[j];
    ForkBreaksChain(h, sorted, if a < b then a else b, if a < b then b else a);
    if Clash(h, sorted, sorted) {
      ClashCarriesOver(h, sorted, w.rows);
    }
  }

  // ---- Sections that do not overlap --------------------------------------------

  /** Every append starts while no other is under way. */
  ghost predicate WithoutOverlap(steps: seq<Step>, ws: seq<World>)
    requires |ws| == |steps| + 1
  {
    forall i {:trigger steps[i]} :: 0 <= i < |steps| && steps[i].ReadClock? ==> ws[i].flights == map[]
  }

  ghost predicate AtMostOneFlight(w: World) {
    && (forall p, q :: p in w.flights && q in w.flights ==> p == q)
    && (forall p, k :: p in w.flights && 0 <= k < |w.rows| ==>
          w.rows[k].createdAt < w.flights[p].entry.createdAt)
    && (forall p :: p in w.flights && w.flights[p].Selected? ==> w.flights[p].seen == |w.rows|)
  }

  lemma NoOverlapStep(h: Hasher, v: World, s: Step)
    requires Inv(h, v) && Serialized(v) && AtMostOneFlight(v)
    requires Enabled(v, s) && (s.ReadClock? ==> v.flights == map[])
    ensures var w := Next(h, v, s); Inv(h, w) && Serialized(w) && AtMostOneFlight(w)
  {
    StepKeepsInv(h, v, s);
    if s.Insert? {
      var f, w := v.flights[s.p], Next(h, v, s);
      assert w.flights == map[];
      if |w.rows| > |v.rows| {
        SerializedGrows(v.rows, v.seen, w.rows[|v.rows|]);
      }
    }
  }

  lemma SerializedGrows(rows: seq<AuditLog>, seen: seq<nat>, r: AuditLog)
    requires |rows| == |seen| && SerializedRows(rows, seen)
    requires forall k :: 0 <= k < |rows| ==> rows[k].createdAt < r.createdAt
    ensures SerializedRows(rows + [r], seen + [|rows|])
  {
  }

  lemma {:induction false} NoOverlapSerializes(h: Hasher, steps: seq<Step>, ws: seq<World>, n: nat)
    requires History(h, steps, ws) && WithoutOverlap(steps, ws) && n < |ws|
    ensures Inv(h, ws[n]) && Serialized(ws[n]) && AtMostOneFlight(ws[n])
  {
    if n > 0 {
      NoOverlapSerializes(h, steps, ws, n - 1);
      NoOverlapStep(h, ws[n - 1], steps[n - 1]);
    }
  }

  /** Appends whose three steps never overlap leave a ledger that passes exactly while it has
      at most 500 rows. */
  lemma NoOverlapPassesIffSmall(h: Hasher, steps: seq<Step>, ws: seq<World>, n: nat)
    requires h.Sound() && History(h, steps, ws) && WithoutOverlap(steps, ws) && n < |ws|
    ensures Passes(h, ws[n].rows) <==> |ws[n].rows| <= CHECK_LIMIT
  {
    NoOverlapSerializes(h, steps, ws, n);
    SerializedIsChain(h, ws[n]);
    ChainPassesIffSmall(h, ws[n].rows);
  }
}
