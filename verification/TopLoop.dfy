/** The update loop of irtop (internal/irtop/model.go) and the runtime around it: user
    keys, and outstanding refresh and tick commands that finish in any order. Rendering and
    the view-name tables are not modelled: a configuration holds its parsed default view.
    A client is known by the configuration it was built from. */
module TopLoop {
  import opened Base

  datatype View =
    | Overview | Certificates | Enrollments | Tokens | CAHealth
    | Security | Telemetry | AuditLog | Server | Help

  datatype Config = Config(server: string, token: string, caFile: string, insecureSkipVerify: bool, refresh: int,
                           defaultView: View)
  datatype Profile = Profile(name: string, config: Config)

  /** A client built by NewClientChecked. */
  datatype Client = Client(config: Config)

  /** The parts of a snapshot that the loop looks at. `updatedAt` is 0 for Go's zero time;
      `fetchedBy` marks the client a snapshot came from. */
  datatype Snapshot = Snapshot(
    overviewStatus: string, serverStatus: string, certificates: nat, enrollments: nat, tokens: nat,
    chainStatus: string, roots: nat, securityStatus: string, exporterStatus: string, audit: nat,
    updatedAt: nat, fetchedBy: Option<Client>)

  const NO_SNAPSHOT := Snapshot("", "", 0, 0, 0, "", 0, "", "", 0, 0, None)

  predicate SnapshotEmpty(s: Snapshot) {
    s.overviewStatus == "" && s.serverStatus == "" && s.certificates == 0 && s.enrollments == 0 && s.tokens == 0 &&
    s.chainStatus == "" && s.roots == 0 && s.securityStatus == "" && s.exporterStatus == "" && s.audit == 0
  }

  datatype LoadState = Loading | Loaded | Empty | Failed

  datatype Model = Model(
    client: Option<Client>, profiles: seq<Profile>, activeProfile: int, profileCursor: int, selecting: bool,
    refresh: int, view: View, snapshot: Snapshot, err: Option<string>, state: LoadState)

  /** A command handed to the runtime. A refresh has captured its client and index. */
  datatype Cmd = Refresh(client: Option<Client>, index: int) | Tick | Quit

  datatype Key =
    | KeyQ | KeyP | KeyPrev | KeyNext | KeyHelp | KeyEsc | KeyR
    | KeyUp | KeyDown | KeyEnter | KeyView(view: View) | KeyOther

  /** `built` says whether a client can be built should the key switch profiles. */
  datatype Msg =
    | Resize
    | Pressed(key: Key, built: bool)
    | Ticked
    | Fetched(index: int, snapshot: Snapshot, err: Option<string>)

  const DEFAULT_REFRESH := 5_000_000_000

  const BUILD_ERROR := "client cannot be built"

  // ---- The model's functions ------------------------------------------------------

  function NewModel(client: Option<Client>, refresh: int, initial: View): Model {
    Model(client, [], 0, 0, false, if refresh <= 0 then DEFAULT_REFRESH else refresh, initial, NO_SNAPSHOT, None,
          Loading)
  }

  function NewProfileModel(profiles: seq<Profile>, requested: int, built: bool): Model {
    if profiles == [] then
      NewModel(None, DEFAULT_REFRESH, Overview).(err := Some("no irtop profiles configured"), state := Failed)
    else
      var active := if requested < 0 || requested >= |profiles| then 0 else requested;
      var cfg := profiles[active].config;
      var m := NewModel(if built then Some(Client(cfg)) else None, cfg.refresh, cfg.defaultView)
               .(profiles := profiles, activeProfile := active, profileCursor := active);
      if built then m else m.(err := Some(BUILD_ERROR), state := Failed)
  }

  function RefreshNow(m: Model): Cmd {
    Refresh(m.client, m.activeProfile)
  }

  function Init(m: Model): seq<Cmd> {
    [RefreshNow(m), Tick]
  }

  function ActivateProfile(m: Model, index: int, built: bool): (Model, seq<Cmd>) {
    if index < 0 || index >= |m.profiles| || index == m.activeProfile then (m, [])
    else
      var cfg := m.profiles[index].config;
      var switched := m.(
        client := if built then Some(Client(cfg)) else None,
        activeProfile := index, profileCursor := index,
        refresh := cfg.refresh, view := cfg.defaultView,
        snapshot := NO_SNAPSHOT, err := if built then None else Some(BUILD_ERROR));
      if !built then (switched.(state := Failed), [])
      else
        var loading := switched.(state := Loading);
        (loading, [RefreshNow(loading)])
  }

  /** Go's (i + n) % n for an index in range and n > 0. */
  function Wrap(i: int, n: int): (r: int)
    requires n > 0
    ensures 0 <= r < n
  {
    i % n
  }

  function UpdateProfileSelector(m: Model, key: Key, built: bool): (Model, seq<Cmd>) {
    match key
    case KeyQ => (m, [Quit])
    case KeyEsc => (m.(selecting := false), [])
    case KeyP => (m.(selecting := false), [])
    case KeyUp =>
      (if |m.profiles| > 0 then m.(profileCursor := Wrap(m.profileCursor - 1 + |m.profiles|, |m.profiles|)) else m, [])
    case KeyDown =>
      (if |m.profiles| > 0 then m.(profileCursor := Wrap(m.profileCursor + 1, |m.profiles|)) else m, [])
    case KeyEnter => ActivateProfile(m.(selecting := false), m.profileCursor, built)
    case _ => (m, [])
  }

  function UpdateKey(m: Model, key: Key, built: bool): (Model, seq<Cmd>) {
    if m.selecting then UpdateProfileSelector(m, key, built)
    else
      match key
      case KeyQ => (m, [Quit])
      case KeyP => (if |m.profiles| > 1 then m.(selecting := true, profileCursor := m.activeProfile) else m, [])
      case KeyPrev =>
        if |m.profiles| > 1 then ActivateProfile(m, Wrap(m.activeProfile - 1 + |m.profiles|, |m.profiles|), built)
        else (m, [])
      case KeyNext =>
        if |m.profiles| > 1 then ActivateProfile(m, Wrap(m.activeProfile + 1, |m.profiles|), built) else (m, [])
      case KeyHelp => (m.(view := if m.view == Help then Overview else Help), [])
      case KeyEsc => (m.(view := if m.view == Help then Overview else Help), [])
      case KeyR => (m, [RefreshNow(m)])
      case KeyView(v) => (m.(view := v), [])
      case _ => (m, [])
  }

  function UpdateFetched(m: Model, index: int, snapshot: Snapshot, err: Option<string>): Model {
    if index != m.activeProfile then m
    else if err.None? then
      m.(err := None, snapshot := snapshot, state := if SnapshotEmpty(snapshot) then Empty else Loaded)
    else if m.snapshot.updatedAt == 0 then m.(err := err, state := Failed)
    else m.(err := err)
  }

  function Update(m: Model, msg: Msg): (Model, seq<Cmd>) {
    match msg
    case Resize => (m, [])
    case Pressed(key, built) => UpdateKey(m, key, built)
    case Ticked => (m, [RefreshNow(m), Tick])
    case Fetched(index, snapshot, err) => (UpdateFetched(m, index, snapshot, err), [])
  }

  // ---- The runtime ------------------------------------------------------------------

  datatype World = World(model: Model, pending: multiset<Cmd>, quit: bool)

  /** What a refresh can come back with: a nil client only ever fails; a client's reply
      carries its mark, and a successful one a non-zero time. */
  predicate PossibleReply(client: Option<Client>, snapshot: Snapshot, err: Option<string>) {
    match client
    case None => err.Some? && snapshot == NO_SNAPSHOT
    case Some(_) => snapshot.fetchedBy == client && (err.None? ==> snapshot.updatedAt > 0)
  }

  datatype Event =
    | Resized
    | Typed(key: Key, built: bool)
    | TickFires
    | RefreshReturns(client: Option<Client>, index: int, snapshot: Snapshot, err: Option<string>)

  predicate Enabled(w: World, e: Event) {
    !w.quit &&
    match e
    case Resized => true
    case Typed(_, _) => true
    case TickFires => Tick in w.pending
    case RefreshReturns(client, index, snapshot, err) =>
      Refresh(client, index) in w.pending && PossibleReply(client, snapshot, err)
  }

  function MsgOf(e: Event): Msg {
    match e
    case Resized => Resize
    case Typed(key, built) => Pressed(key, built)
    case TickFires => Ticked
    case RefreshReturns(_, index, snapshot, err) => Fetched(index, snapshot, err)
  }

  function Taken(pending: multiset<Cmd>, e: Event): multiset<Cmd> {
    match e
    case TickFires => pending - multiset{Tick}
    case RefreshReturns(client, index, _, _) => pending - multiset{Refresh(client, index)}
    case _ => pending
  }

  function Next(w: World, e: Event): World {
    var (m, cmds) := Update(w.model, MsgOf(e));
    World(m, Taken(w.pending, e) + (multiset(cmds) - multiset{Quit}), Quit in cmds)
  }

  function Started(profiles: seq<Profile>, requested: int, built: bool): World {
    var m := NewProfileModel(profiles, requested, built);
    World(m, multiset(Init(m)), false)
  }

  /** The worlds that the events lead through. */
  ghost predicate History(start: World, events: seq<Event>, ws: seq<World>) {
    && |ws| == |events| + 1 && ws[0] == start
    && forall i {:trigger events[i]} :: 0 <= i < |events| ==>
      Enabled(ws[i], events[i]) && ws[i + 1] == Next(ws[i], events[i])
  }

  // ---- Invariants ---------------------------------------------------------------------

  /** The client belongs to the profile with this index. */
  predicate Matches(profiles: seq<Profile>, client: Option<Client>, index: int) {
    client.Some? ==> 0 <= index < |profiles| && client.value.config == profiles[index].config
  }

  predicate InRange(m: Model) {
    if m.profiles == [] then m.activeProfile == 0 && m.profileCursor == 0 && !m.selecting
    else 0 <= m.activeProfile < |m.profiles| && 0 <= m.profileCursor < |m.profiles|
  }

  /** What is on display was fetched with the active profile's configuration. */
  predicate RightSource(m: Model) {
    m.snapshot != NO_SNAPSHOT ==>
      m.snapshot.fetchedBy.Some? && Matches(m.profiles, m.snapshot.fetchedBy, m.activeProfile)
  }

  predicate StateTellsTheTruth(m: Model) {
    match m.state
    case Loading => m.err.None? && m.snapshot == NO_SNAPSHOT
    case Failed => m.err.Some? && m.snapshot == NO_SNAPSHOT
    case Loaded => m.snapshot.updatedAt > 0 && !SnapshotEmpty(m.snapshot)
    case Empty => m.snapshot.updatedAt > 0 && SnapshotEmpty(m.snapshot)
  }

  ghost predicate Inv(w: World) {
    var m := w.model;
    && InRange(m) && Matches(m.profiles, m.client, m.activeProfile)
    && RightSource(m) && StateTellsTheTruth(m)
    && (forall c :: c in w.pending && c.Refresh? ==> Matches(m.profiles, c.client, c.index))
    && Quit !in w.pending
    && (!w.quit ==> w.pending[Tick] == 1)
  }

  lemma StartKeepsInv(profiles: seq<Profile>, requested: int, built: bool)
    ensures Inv(Started(profiles, requested, built))
  {
    var m := NewProfileModel(profiles, requested, built);
    assert multiset(Init(m)) == multiset{RefreshNow(m), Tick};
  }

  lemma ActivateKeepsModel(m: Model, index: int, built: bool)
    requires InRange(m) && RightSource(m) && StateTellsTheTruth(m) && Matches(m.profiles, m.client, m.activeProfile)
    ensures var (n, cmds) := ActivateProfile(m, index, built);
            && n.profiles == m.profiles
            && InRange(n) && RightSource(n) && StateTellsTheTruth(n) && Matches(n.profiles, n.client, n.activeProfile)
            && Tick !in cmds && Quit !in cmds && forall c :: c in cmds ==> c == RefreshNow(n)
  {
  }

  lemma SelectorKeepsModel(m: Model, key: Key, built: bool)
    requires InRange(m) && RightSource(m) && StateTellsTheTruth(m) && Matches(m.profiles, m.client, m.activeProfile)
    ensures var (n, cmds) := UpdateProfileSelector(m, key, built);
            && n.profiles == m.profiles
            && InRange(n) && RightSource(n) && StateTellsTheTruth(n) && Matches(n.profiles, n.client, n.activeProfile)
            && Tick !in cmds && (Quit in cmds ==> cmds == [Quit])
            && forall c :: c in cmds ==> c == RefreshNow(n) || c == Quit
  {
    if key == KeyEnter {
      ActivateKeepsModel(m.(selecting := false), m.profileCursor, built);
    }
  }

  lemma KeyKeepsModel(m: Model, key: Key, built: bool)
    requires InRange(m) && RightSource(m) && StateTellsTheTruth(m) && Matches(m.profiles, m.client, m.activeProfile)
    ensures var (n, cmds) := UpdateKey(m, key, built);
            && n.profiles == m.profiles
            && InRange(n) && RightSource(n) && StateTellsTheTruth(n) && Matches(n.profiles, n.client, n.activeProfile)
            && Tick !in cmds && (Quit in cmds ==> cmds == [Quit])
            && forall c :: c in cmds ==> c == RefreshNow(n) || c == Quit
  {
    if m.selecting {
      SelectorKeepsModel(m, key, built);
    } else {
      PlainKeyKeepsModel(m, key, built);
    }
  }

  lemma PlainKeyKeepsModel(m: Model, key: Key, built: bool)
    requires InRange(m) && RightSource(m) && StateTellsTheTruth(m) && Matches(m.profiles, m.client, m.activeProfile)
    requires !m.selecting
    ensures var (n, cmds) := UpdateKey(m, key, built);
            && n.profiles == m.profiles
            && InRange(n) && RightSource(n) && StateTellsTheTruth(n) && Matches(n.profiles, n.client, n.activeProfile)
            && Tick !in cmds && (Quit in cmds ==> cmds == [Quit])
            && forall c :: c in cmds ==> c == RefreshNow(n) || c == Quit
  {
    if |m.profiles| > 1 && (key == KeyPrev || key == KeyNext) {
      SwitchKeyKeepsModel(m, key, built);
    }
  }

  lemma SwitchKeyKeepsModel(m: Model, key: Key, built: bool)
    requires InRange(m) && RightSource(m) && StateTellsTheTruth(m) && Matches(m.profiles, m.client, m.activeProfile)
    requires !m.selecting && |m.profiles| > 1 && (key == KeyPrev || key == KeyNext)
    ensures var (n, cmds) := UpdateKey(m, key, built);
            && n.profiles == m.profiles
            && InRange(n) && RightSource(n) && StateTellsTheTruth(n) && Matches(n.profiles, n.client, n.activeProfile)
            && Tick !in cmds && Quit !in cmds && forall c :: c in cmds ==> c == RefreshNow(n)
  {
    var step := if key == KeyPrev then m.activeProfile - 1 + |m.profiles| else m.activeProfile + 1;
    ActivateKeepsModel(m, Wrap(step, |m.profiles|), built);
  }

  /** Commands of one update join the pending ones. */
  lemma PendingAfter(pending: multiset<Cmd>, cmds: seq<Cmd>, profiles: seq<Profile>)
    requires forall c :: c in pending && c.Refresh? ==> Matches(profiles, c.client, c.index)
    requires forall c :: c in cmds && c.Refresh? ==> Matches(profiles, c.client, c.index)
    requires Quit !in pending && (Quit in cmds ==> cmds == [Quit])
    ensures var after := pending + (multiset(cmds) - multiset{Quit});
            && (forall c :: c in after && c.Refresh? ==> Matches(profiles, c.client, c.index))
            && Quit !in after
            && after[Tick] == pending[Tick] + multiset(cmds)[Tick]
  {
    assert cmds == [Quit] ==> multiset(cmds) == multiset{Quit};
    forall c | c in multiset(cmds) ensures c in cmds {
    }
  }

  lemma FetchedKeepsModel(m: Model, client: Option<Client>, index: int, snapshot: Snapshot, err: Option<string>)
    requires InRange(m) && RightSource(m) && StateTellsTheTruth(m) && Matches(m.profiles, m.client, m.activeProfile)
    requires Matches(m.profiles, client, index) && PossibleReply(client, snapshot, err)
    ensures var n := UpdateFetched(m, index, snapshot, err);
            && n.profiles == m.profiles
            && InRange(n) && RightSource(n) && StateTellsTheTruth(n) && Matches(n.profiles, n.client, n.activeProfile)
  {
  }

  ghost predicate ModelInv(m: Model) {
    InRange(m) && RightSource(m) && StateTellsTheTruth(m) && Matches(m.profiles, m.client, m.activeProfile)
  }

  lemma TypedKeepsInv(w: World, key: Key, built: bool)
    requires Inv(w) && !w.quit
    ensures Inv(Next(w, Typed(key, built)))
  {
    var (n, cmds) := UpdateKey(w.model, key, built);
    KeyKeepsModel(w.model, key, built);
    JoinKeepsInv(w, n, cmds);
  }

  lemma JoinKeepsInv(w: World, n: Model, cmds: seq<Cmd>)
    requires Inv(w) && !w.quit && ModelInv(n) && n.profiles == w.model.profiles
    requires Tick !in cmds && (Quit in cmds ==> cmds == [Quit])
    requires forall c :: c in cmds ==> c == RefreshNow(n) || c == Quit
    ensures Inv(World(n, w.pending + (multiset(cmds) - multiset{Quit}), Quit in cmds))
  {
    assert Tick !in multiset(cmds);
    PendingAfter(w.pending, cmds, w.model.profiles);
  }

  lemma TickKeepsInv(w: World)
    requires Inv(w) && Enabled(w, TickFires)
    ensures Inv(Next(w, TickFires))
  {
    var cmds := [RefreshNow(w.model), Tick];
    assert multiset(cmds) == multiset{RefreshNow(w.model), Tick};
    PendingAfter(w.pending - multiset{Tick}, cmds, w.model.profiles);
  }

  lemma ReturnKeepsInv(w: World, client: Option<Client>, index: int, snapshot: Snapshot, err: Option<string>)
    requires Inv(w) && Enabled(w, RefreshReturns(client, index, snapshot, err))
    ensures Inv(Next(w, RefreshReturns(client, index, snapshot, err)))
  {
    var cmd := Refresh(client, index);
    assert Matches(w.model.profiles, cmd.client, cmd.index);
    FetchedKeepsModel(w.model, client, index, snapshot, err);
    PendingAfter(w.pending - multiset{cmd}, [], w.model.profiles);
  }

  lemma NextKeepsInv(w: World, e: Event)
    requires Inv(w) && Enabled(w, e)
    ensures Inv(Next(w, e))
  {
    match e
    case Resized => PendingAfter(w.pending, [], w.model.profiles);
    case Typed(key, built) => TypedKeepsInv(w, key, built);
    case TickFires => TickKeepsInv(w);
    case RefreshReturns(client, index, snapshot, err) => ReturnKeepsInv(w, client, index, snapshot, err);
  }

  lemma EveryRunKeepsInv(
    profiles: seq<Profile>, requested: int, built: bool, events: seq<Event>, ws: seq<World>, n: nat)
    requires History(Started(profiles, requested, built), events, ws) && n < |ws|
    ensures Inv(ws[n])
  {
    StartKeepsInv(profiles, requested, built);
    HistoryKeepsInv(Started(profiles, requested, built), events, ws, n);
  }

  lemma {:induction false} HistoryKeepsInv(start: World, events: seq<Event>, ws: seq<World>, n: nat)
    requires Inv(start) && History(start, events, ws) && n < |ws|
    ensures Inv(ws[n])
  {
    if n > 0 {
      HistoryKeepsInv(start, events, ws, n - 1);
      NextKeepsInv(ws[n - 1], events[n - 1]);
    }
  }

  lemma {:induction false} EveryRunKeepsProfiles(
    profiles: seq<Profile>, requested: int, built: bool, events: seq<Event>, ws: seq<World>, n: nat)
    requires History(Started(profiles, requested, built), events, ws) && n < |ws|
    ensures ws[n].model.profiles == profiles
  {
    if n > 0 {
      EveryRunKeepsProfiles(profiles, requested, built, events, ws, n - 1);
      ProfilesStay(ws[n - 1].model, MsgOf(events[n - 1]));
    }
  }

  lemma ProfilesStay(m: Model, msg: Msg)
    ensures Update(m, msg).0.profiles == m.profiles
  {
  }

  // ---- What every run shows --------------------------------------------------------------

  /** Whatever order replies arrive in and however profiles were switched meanwhile, the
      snapshot on display is none or came from a client of the active profile. */
  lemma SnapshotComesFromActiveProfile(
    profiles: seq<Profile>, requested: int, built: bool, events: seq<Event>, ws: seq<World>, n: nat)
    requires History(Started(profiles, requested, built), events, ws) && n < |ws|
    ensures var m := ws[n].model;
            m.snapshot == NO_SNAPSHOT ||
            (0 <= m.activeProfile < |profiles| &&
             m.snapshot.fetchedBy == Some(Client(profiles[m.activeProfile].config)))
  {
    EveryRunKeepsInv(profiles, requested, built, events, ws, n);
    EveryRunKeepsProfiles(profiles, requested, built, events, ws, n);
  }

  /** Until it quits, a started loop has exactly one tick outstanding, and its state says
      what it holds. */
  lemma LoopStaysAliveAndTruthful(
    profiles: seq<Profile>, requested: int, built: bool, events: seq<Event>, ws: seq<World>, n: nat)
    requires History(Started(profiles, requested, built), events, ws) && n < |ws| && !ws[n].quit
    ensures var m := ws[n].model;
            && ws[n].pending[Tick] == 1
            && (m.state.Loading? ==> m.err.None? && m.snapshot == NO_SNAPSHOT)
            && (m.state.Failed? ==> m.err.Some? && m.snapshot == NO_SNAPSHOT)
            && (m.state.Loaded? || m.state.Empty? ==>
                  m.snapshot.updatedAt > 0 && (m.state.Empty? <==> SnapshotEmpty(m.snapshot)))
            && (profiles != [] ==> 0 <= m.activeProfile < |profiles| && 0 <= m.profileCursor < |profiles|)
  {
    EveryRunKeepsInv(profiles, requested, built, events, ws, n);
    EveryRunKeepsProfiles(profiles, requested, built, events, ws, n);
  }

  // ---- Replies for other profiles ----------------------------------------------------------

  /** The delivery of a reply that was asked for under another profile. */
  predicate Stale(w: World, e: Event) {
    e.RefreshReturns? && e.index != w.model.activeProfile
  }

  function WithoutStale(events: seq<Event>, ws: seq<World>): seq<Event>
    requires |events| <= |ws|
  {
    if events == [] then []
    else
      var n := |events| - 1;
      WithoutStale(events[..n], ws) + (if Stale(ws[n], events[n]) then [] else [events[n]])
  }

  /** The same to a user, with no fewer commands outstanding. */
  ghost predicate LooksLike(v: World, w: World) {
    v.model == w.model && v.quit == w.quit && w.pending <= v.pending
  }

  lemma StaleChangesNothing(v: World, w: World, e: Event)
    requires LooksLike(v, w) && Enabled(w, e) && Stale(w, e)
    ensures LooksLike(v, Next(w, e))
  {
    StaleReplyIsDropped(w.model, e.index, e.snapshot, e.err);
  }

  lemma SameEventSameLook(v: World, w: World, e: Event)
    requires LooksLike(v, w) && Enabled(w, e)
    ensures Enabled(v, e) && LooksLike(Next(v, e), Next(w, e))
  {
  }

  /** Replies for other profiles can be struck from any history: what is left is a history
      that leads to the same model. */
  lemma {:induction false} StaleRepliesDoNotMatter(start: World, events: seq<Event>, ws: seq<World>)
    returns (vs: seq<World>)
    requires History(start, events, ws)
    ensures History(start, WithoutStale(events, ws), vs)
    ensures vs[|vs| - 1].model == ws[|ws| - 1].model && vs[|vs| - 1].quit == ws[|ws| - 1].quit
  {
    var kept;
    kept, vs := StrikeStale(start, events, ws, |events|);
    assert events[..|events|] == events;
  }

  lemma {:induction false} StrikeStale(start: World, events: seq<Event>, ws: seq<World>, n: nat)
    returns (kept: seq<Event>, vs: seq<World>)
    requires History(start, events, ws) && n <= |events|
    ensures kept == WithoutStale(events[..n], ws) && History(start, kept, vs)
    ensures LooksLike(vs[|kept|], ws[n])
  {
    if n == 0 {
      kept, vs := [], [start];
    } else {
      var before, us := StrikeStale(start, events, ws, n - 1);
      HistoryStep(start, events, ws, n - 1);
      kept, vs := StrikeOne(start, before, us, ws[n - 1], events[n - 1]);
      WithoutStaleOneMore(events, ws, n - 1);
    }
  }

  lemma HistoryStep(start: World, events: seq<Event>, ws: seq<World>, i: nat)
    requires History(start, events, ws) && i < |events|
    ensures Enabled(ws[i], events[i]) && ws[i + 1] == Next(ws[i], events[i])
  {
  }

  lemma StrikeOne(start: World, kept: seq<Event>, vs: seq<World>, w: World, e: Event)
    returns (kept': seq<Event>, vs': seq<World>)
    requires History(start, kept, vs) && LooksLike(vs[|kept|], w) && Enabled(w, e)
    ensures kept' == kept + if Stale(w, e) then [] else [e]
    ensures History(start, kept', vs') && LooksLike(vs'[|kept'|], Next(w, e))
  {
    if Stale(w, e) {
      StaleChangesNothing(vs[|kept|], w, e);
      kept', vs' := kept, vs;
    } else {
      SameEventSameLook(vs[|kept|], w, e);
      HistoryGrows(start, kept, vs, e);
      kept', vs' := kept + [e], vs + [Next(vs[|kept|], e)];
    }
  }

  lemma {:induction false} WithoutStaleOneMore(events: seq<Event>, ws: seq<World>, n: nat)
    requires n < |events| <= |ws|
    ensures WithoutStale(events[..n + 1], ws) ==
            WithoutStale(events[..n], ws) + if Stale(ws[n], events[n]) then [] else [events[n]]
  {
    assert events[..n + 1][..n] == events[..n];
  }

  lemma HistoryGrows(start: World, events: seq<Event>, ws: seq<World>, e: Event)
    requires History(start, events, ws) && Enabled(ws[|events|], e)
    ensures History(start, events + [e], ws + [Next(ws[|events|], e)])
  {
    var longer, after := events + [e], ws + [Next(ws[|events|], e)];
    forall i {:trigger longer[i]} | 0 <= i < |longer|
      ensures Enabled(after[i], longer[i]) && after[i + 1] == Next(after[i], longer[i])
    {
      if i < |events| {
        assert longer[i] == events[i];
      }
    }
  }

  /** A reply that was asked for under another profile changes nothing at all. */
  lemma StaleReplyIsDropped(m: Model, index: int, snapshot: Snapshot, err: Option<string>)
    requires index != m.activeProfile
    ensures Update(m, Fetched(index, snapshot, err)) == (m, [])
  {
  }

  // ---- Switching profiles -----------------------------------------------------------------

  /** Switching to another profile forgets everything of the old one: it leaves the model
      that a fresh start on the new profile would build, and refreshes it when it can.
      The one difference is that a fresh start replaces a non-positive refresh interval
      by the default and a switch does not. */
  lemma SwitchEqualsFreshStartIff(m: Model, index: nat, built: bool)
    requires index < |m.profiles| && index != m.activeProfile
    ensures var (n, cmds) := ActivateProfile(m, index, built);
            var anew := NewProfileModel(m.profiles, index, built);
            && n.(refresh := anew.refresh) == anew.(selecting := m.selecting)
            && (n.refresh == anew.refresh <==> m.profiles[index].config.refresh > 0)
            && cmds == (if built then [Refresh(anew.client, index)] else [])
  {
  }

  function Typing(m: Model, keys: seq<Key>, built: bool): Model {
    if keys == [] then m else Update(Typing(m, keys[..|keys| - 1], built), Pressed(keys[|keys| - 1], built)).0
  }

  function Times(key: Key, n: nat): (keys: seq<Key>)
    ensures |keys| == n
  {
    seq(n, i => key)
  }

  /** A press of "]" or "[" goes to the next or the previous profile, cyclically. */
  lemma SwitchOnce(m: Model, built: bool)
    requires InRange(m) && |m.profiles| > 1 && !m.selecting
    ensures var n := Update(m, Pressed(KeyNext, built)).0;
            n.activeProfile == Wrap(m.activeProfile + 1, |m.profiles|) && n.profiles == m.profiles &&
            !n.selecting && InRange(n)
    ensures var n := Update(m, Pressed(KeyPrev, built)).0;
            n.activeProfile == Wrap(m.activeProfile - 1 + |m.profiles|, |m.profiles|) &&
            n.profiles == m.profiles && !n.selecting && InRange(n)
  {
  }

  /** Nothing but the active profile may differ, as far as switching is concerned. */
  predicate Switched(m: Model, n: Model, active: int) {
    n.activeProfile == active && n.profiles == m.profiles && !n.selecting && InRange(n)
  }

  lemma {:induction false} PressAgain(m: Model, key: Key, n: nat, built: bool, active: int)
    requires n > 0 && |m.profiles| > 1 && (key == KeyNext || key == KeyPrev)
    requires Switched(m, Typing(m, Times(key, n - 1), built), active)
    ensures Switched(m, Typing(m, Times(key, n), built),
              if key == KeyNext then Wrap(active + 1, |m.profiles|) else Wrap(active - 1 + |m.profiles|, |m.profiles|))
  {
    assert Times(key, n)[..n - 1] == Times(key, n - 1);
    SwitchOnce(Typing(m, Times(key, n - 1), built), built);
  }

  /** The profile after n single steps with this key. */
  function Landing(key: Key, active: int, n: nat, count: int): int
    requires count > 0
  {
    if n == 0 then active
    else
      var before := Landing(key, active, n - 1, count);
      if key == KeyNext then Wrap(before + 1, count) else Wrap(before - 1 + count, count)
  }

  lemma {:induction false} PressingLands(m: Model, key: Key, n: nat, built: bool)
    requires InRange(m) && |m.profiles| > 1 && !m.selecting && (key == KeyNext || key == KeyPrev)
    ensures Switched(m, Typing(m, Times(key, n), built), Landing(key, m.activeProfile, n, |m.profiles|))
  {
    if n > 0 {
      PressingLands(m, key, n - 1, built);
      PressAgain(m, key, n, built, Landing(key, m.activeProfile, n - 1, |m.profiles|));
    }
  }

  /** Single steps add up, but for whole turns. */
  lemma {:induction false} LandingForward(active: int, n: nat, count: int) returns (turns: int)
    requires count > 1 && 0 <= active < count
    ensures 0 <= Landing(KeyNext, active, n, count) < count
    ensures active + n == turns * count + Landing(KeyNext, active, n, count)
  {
    if n == 0 {
      turns := 0;
    } else {
      turns := LandingForward(active, n - 1, count);
      var before := Landing(KeyNext, active, n - 1, count);
      WrapAround(before, count);
      if before + 1 == count {
        OneMoreTurn(turns, count);
        turns := turns + 1;
      }
    }
  }

  lemma {:induction false} LandingBack(active: int, n: nat, count: int) returns (turns: int)
    requires count > 1 && 0 <= active < count
    ensures 0 <= Landing(KeyPrev, active, n, count) < count
    ensures active - n == turns * count + Landing(KeyPrev, active, n, count)
  {
    if n == 0 {
      turns := 0;
    } else {
      turns := LandingBack(active, n - 1, count);
      var before := Landing(KeyPrev, active, n - 1, count);
      WrapAround(before, count);
      if before == 0 {
        OneMoreTurn(turns - 1, count);
        turns := turns - 1;
      }
    }
  }

  lemma OneMoreTurn(turns: int, count: int)
    ensures (turns + 1) * count == turns * count + count
  {
  }

  /** One step forward or back from a valid index. */
  lemma WrapAround(i: int, count: int)
    requires count > 1 && 0 <= i < count
    ensures Wrap(i + 1, count) == if i + 1 == count then 0 else i + 1
    ensures Wrap(i - 1 + count, count) == if i == 0 then count - 1 else i - 1
  {
    if i + 1 == count {
      ModUnique(i + 1, 1, 0, count);
    } else {
      ModUnique(i + 1, 0, i + 1, count);
    }
    if i == 0 {
      ModUnique(i - 1 + count, 0, count - 1, count);
    } else {
      ModUnique(i - 1 + count, 1, i - 1, count);
    }
  }

  /** n presses of "]" go n profiles on, cyclically. */
  lemma {:induction false} SwitchingForward(m: Model, n: nat, built: bool)
    requires InRange(m) && |m.profiles| > 1 && !m.selecting
    ensures Switched(m, Typing(m, Times(KeyNext, n), built), (m.activeProfile + n) % |m.profiles|)
  {
    PressingLands(m, KeyNext, n, built);
    var turns := LandingForward(m.activeProfile, n, |m.profiles|);
    ModUnique(m.activeProfile + n, turns, Landing(KeyNext, m.activeProfile, n, |m.profiles|), |m.profiles|);
  }

  /** n presses of "[" go n profiles back. */
  lemma {:induction false} SwitchingBack(m: Model, n: nat, built: bool)
    requires InRange(m) && |m.profiles| > 1 && !m.selecting
    ensures Switched(m, Typing(m, Times(KeyPrev, n), built), (m.activeProfile - n) % |m.profiles|)
  {
    PressingLands(m, KeyPrev, n, built);
    var turns := LandingBack(m.activeProfile, n, |m.profiles|);
    ModUnique(m.activeProfile - n, turns, Landing(KeyPrev, m.activeProfile, n, |m.profiles|), |m.profiles|);
  }

  lemma ModUnique(a: int, q: int, r: int, n: int)
    requires n > 0 && 0 <= r < n && a == q * n + r
    ensures a % n == r
  {
    var q', r' := a / n, a % n;
    assert a == q' * n + r';
    assert (q - q') * n == q * n - q' * n == r' - r;
    assert (q' - q) * n == -((q - q') * n);
    if q > q' {
      MultipleIsLarge(q - q', n);
    } else if q < q' {
      MultipleIsLarge(q' - q, n);
    }
  }

  lemma MultipleIsLarge(d: int, n: int)
    requires d >= 1 && n > 0
    ensures d * n >= n
  {
    assert d * n == n + (d - 1) * n;
  }

  /** Opening the selector and leaving it with esc or p costs nothing but the cursor. */
  lemma {:induction false} SelectorCancels(m: Model, moves: seq<Key>, leave: Key, built: bool)
    requires InRange(m) && |m.profiles| > 1 && !m.selecting && MovesOnly(moves)
    requires leave == KeyEsc || leave == KeyP
    ensures var n := Typing(m, [KeyP] + moves + [leave], built); n == m.(profileCursor := n.profileCursor)
  {
    var keys := [KeyP] + moves + [leave];
    assert keys[..|keys| - 1] == [KeyP] + moves;
    SelectorMoves(m, moves, built);
  }

  predicate MovesOnly(keys: seq<Key>) {
    forall i :: 0 <= i < |keys| ==> keys[i] == KeyUp || keys[i] == KeyDown
  }

  lemma {:induction false} SelectorMoves(m: Model, moves: seq<Key>, built: bool)
    requires InRange(m) && |m.profiles| > 1 && !m.selecting && MovesOnly(moves)
    ensures var n := Typing(m, [KeyP] + moves, built); n == m.(selecting := true, profileCursor := n.profileCursor)
  {
    var keys := [KeyP] + moves;
    if moves == [] {
      assert keys[..|keys| - 1] == [];
    } else {
      assert keys[..|keys| - 1] == [KeyP] + moves[..|moves| - 1];
      SelectorMoves(m, moves[..|moves| - 1], built);
    }
  }
}
