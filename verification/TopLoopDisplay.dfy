/** What irtop displays, told from the events of a run alone: which reply is on display, what
    an error leaves, and what keys and ticks ask for. */
module TopLoopDisplay {
  import opened Base
  import opened TopLoop

  /** A reply for the active profile is delivered. */
  predicate Answers(w: World, e: Event) {
    e.RefreshReturns? && e.index == w.model.activeProfile
  }

  predicate Succeeds(w: World, e: Event) {
    Answers(w, e) && e.err.None?
  }

  predicate Switches(w: World, v: World) {
    w.model.activeProfile != v.model.activeProfile
  }

  /** Nothing but the time and the origin of the snapshot is set. */
  predicate SaysNothing(s: Snapshot) {
    s == NO_SNAPSHOT.(updatedAt := s.updatedAt, fetchedBy := s.fetchedBy)
  }

  // ---- One event ----------------------------------------------------------------------

  /** A reply for the active profile: a successful one is shown and clears the error; a failed
      one stores its error and keeps a snapshot that is held. Nothing else changes. */
  lemma ReplyIsShown(w: World, e: Event)
    requires Enabled(w, e) && Answers(w, e)
    ensures var m, n := w.model, Next(w, e).model;
            && n == m.(snapshot := n.snapshot, err := n.err, state := n.state)
            && n.err == e.err
            && n.snapshot == (if e.err.None? then e.snapshot else m.snapshot)
            && (e.err.None? ==> n.state == if SaysNothing(e.snapshot) then Empty else Loaded)
            && (e.err.Some? ==> n.state == if m.snapshot.updatedAt == 0 then Failed else m.state)
            && !Next(w, e).quit
  {
  }

  /** A switch forgets what is on display; a key that does not switch leaves it. */
  lemma KeysShowNothing(m: Model, key: Key, built: bool)
    ensures var n := UpdateKey(m, key, built).0;
            if n.activeProfile != m.activeProfile then n.snapshot == NO_SNAPSHOT
            else n.snapshot == m.snapshot && n.err == m.err && n.state == m.state
  {
  }

  /** No other event changes the display, but for a switch, which clears it. */
  lemma OthersShowNothing(w: World, e: Event)
    requires Enabled(w, e) && !Answers(w, e)
    ensures var m, n := w.model, Next(w, e).model;
            if n.activeProfile != m.activeProfile then n.snapshot == NO_SNAPSHOT
            else n.snapshot == m.snapshot && n.err == m.err && n.state == m.state
  {
    if e.Typed? {
      KeysShowNothing(w.model, e.key, e.built);
    }
  }

  // ---- Whole runs -----------------------------------------------------------------------

  /** Event k neither shows a reply nor switches. */
  ghost predicate Idle(events: seq<Event>, ws: seq<World>, k: nat)
    requires k < |events| < |ws|
  {
    !Succeeds(ws[k], events[k]) && !Switches(ws[k], ws[k + 1])
  }

  /** From event i up to n, n not counted, no reply succeeds and no switch is made. */
  ghost predicate Undisturbed(events: seq<Event>, ws: seq<World>, i: nat, n: nat)
    requires n <= |events| < |ws|
  {
    forall k :: i <= k < n ==> Idle(events, ws, k)
  }

  /** What one event of a run does to the display. */
  ghost predicate ShowsRight(m: Model, n: Model, w: World, e: Event) {
    if Answers(w, e) then
      && n.activeProfile == m.activeProfile && n.err == e.err
      && n.snapshot == (if e.err.None? then e.snapshot else m.snapshot)
      && (e.err.None? ==> n.state == if SaysNothing(e.snapshot) then Empty else Loaded)
      && (e.err.Some? ==> n.state == if m.snapshot.updatedAt == 0 then Failed else m.state)
    else if n.activeProfile != m.activeProfile then n.snapshot == NO_SNAPSHOT
    else n.snapshot == m.snapshot && n.err == m.err && n.state == m.state
  }

  lemma EveryEventShowsRight(start: World, events: seq<Event>, ws: seq<World>, n: nat)
    requires History(start, events, ws) && n < |events|
    ensures ShowsRight(ws[n].model, ws[n + 1].model, ws[n], events[n])
    ensures Succeeds(ws[n], events[n]) ==> events[n].snapshot.updatedAt > 0
  {
    HistoryStep(start, events, ws, n);
    if Answers(ws[n], events[n]) {
      ReplyIsShown(ws[n], events[n]);
    } else {
      OthersShowNothing(ws[n], events[n]);
    }
  }

  lemma IdleStep(start: World, events: seq<Event>, ws: seq<World>, k: nat)
    requires History(start, events, ws) && k < |events| && Idle(events, ws, k)
    ensures ws[k + 1].model.snapshot == ws[k].model.snapshot
    ensures ws[k].model.snapshot.updatedAt > 0 ==> ws[k + 1].model.state == ws[k].model.state
  {
    EveryEventShowsRight(start, events, ws, k);
  }

  lemma ReplyStep(start: World, events: seq<Event>, ws: seq<World>, i: nat)
    requires History(start, events, ws) && i < |events| && Succeeds(ws[i], events[i])
    ensures ws[i + 1].model.snapshot == events[i].snapshot && events[i].snapshot.updatedAt > 0
    ensures ws[i + 1].model.state == if SaysNothing(events[i].snapshot) then Empty else Loaded
  {
    EveryEventShowsRight(start, events, ws, i);
  }

  /** After the last successful reply for the active profile since the last switch, exactly its
      snapshot is on display, and the state says whether it is empty. */
  lemma {:induction false} LastReplyIsOnDisplay(start: World, events: seq<Event>, ws: seq<World>, i: nat, n: nat)
    requires History(start, events, ws) && i < n < |ws|
    requires Succeeds(ws[i], events[i]) && Undisturbed(events, ws, i + 1, n)
    ensures ws[n].model.snapshot == events[i].snapshot && events[i].snapshot.updatedAt > 0
    ensures ws[n].model.state == if SaysNothing(events[i].snapshot) then Empty else Loaded
  {
    if i + 1 == n {
      ReplyStep(start, events, ws, i);
    } else {
      LastReplyIsOnDisplay(start, events, ws, i, n - 1);
      assert Idle(events, ws, n - 1);
      IdleStep(start, events, ws, n - 1);
    }
  }

  /** Where nothing is on display, nothing is until a reply succeeds. */
  lemma {:induction false} NothingStaysOnDisplay(start: World, events: seq<Event>, ws: seq<World>, s: nat, n: nat)
    requires History(start, events, ws) && s <= n < |ws|
    requires ws[s].model.snapshot == NO_SNAPSHOT && Undisturbed(events, ws, s, n)
    ensures ws[n].model.snapshot == NO_SNAPSHOT
  {
    if s < n {
      NothingStaysOnDisplay(start, events, ws, s, n - 1);
      assert Idle(events, ws, n - 1);
      IdleStep(start, events, ws, n - 1);
    }
  }

  /** From a start or a switch on, nothing is on display until a reply succeeds. */
  lemma NothingOnDisplay(
    profiles: seq<Profile>, requested: int, built: bool, events: seq<Event>, ws: seq<World>, s: nat, n: nat)
    requires History(Started(profiles, requested, built), events, ws) && s <= n < |ws|
    requires s == 0 || Switches(ws[s - 1], ws[s])
    requires Undisturbed(events, ws, s, n)
    ensures ws[n].model.snapshot == NO_SNAPSHOT
  {
    if s > 0 {
      EveryEventShowsRight(Started(profiles, requested, built), events, ws, s - 1);
    }
    NothingStaysOnDisplay(Started(profiles, requested, built), events, ws, s, n);
  }

  /** The last successful reply, if any, since the start or the switch just before s. */
  ghost predicate IsLast(events: seq<Event>, ws: seq<World>, n: nat, last: Option<nat>, s: nat)
    requires n <= |events| < |ws|
  {
    match last
    case Some(i) => i < n && Succeeds(ws[i], events[i]) && Undisturbed(events, ws, i + 1, n)
    case None => s <= n && (s == 0 || Switches(ws[s - 1], ws[s])) && Undisturbed(events, ws, s, n)
  }

  lemma LastOneMore(events: seq<Event>, ws: seq<World>, n: nat, last: Option<nat>, s: nat)
    requires n < |events| < |ws| && IsLast(events, ws, n, last, s)
    ensures Succeeds(ws[n], events[n]) ==> IsLast(events, ws, n + 1, Some(n), s)
    ensures Switches(ws[n], ws[n + 1]) ==> IsLast(events, ws, n + 1, None, n + 1)
    ensures Idle(events, ws, n) ==> IsLast(events, ws, n + 1, last, s)
  {
  }

  lemma {:induction false} SomethingIsLast(events: seq<Event>, ws: seq<World>, n: nat)
    returns (last: Option<nat>, s: nat)
    requires n <= |events| < |ws|
    ensures IsLast(events, ws, n, last, s)
  {
    if n == 0 {
      last, s := None, 0;
    } else {
      var before, t := SomethingIsLast(events, ws, n - 1);
      LastOneMore(events, ws, n - 1, before, t);
      if Succeeds(ws[n - 1], events[n - 1]) {
        last, s := Some(n - 1), t;
      } else if Switches(ws[n - 1], ws[n]) {
        last, s := None, n;
      } else {
        last, s := before, t;
      }
    }
  }

  /** At any point of any run the display is exactly that of the last successful reply since the
      start or the last switch, or nothing if there was none. */
  lemma DisplayIsDetermined(
    profiles: seq<Profile>, requested: int, built: bool, events: seq<Event>, ws: seq<World>, n: nat)
    returns (last: Option<nat>, s: nat)
    requires History(Started(profiles, requested, built), events, ws) && n < |ws|
    ensures IsLast(events, ws, n, last, s)
    ensures ws[n].model.snapshot == if last.Some? then events[last.value].snapshot else NO_SNAPSHOT
  {
    var start := Started(profiles, requested, built);
    last, s := SomethingIsLast(events, ws, n);
    if last.Some? {
      LastReplyIsOnDisplay(start, events, ws, last.value, n);
    } else {
      NothingOnDisplay(profiles, requested, built, events, ws, s, n);
    }
  }

  /** Event k brings no reply for the active profile and no switch. */
  ghost predicate Unanswered(events: seq<Event>, ws: seq<World>, k: nat)
    requires k < |events| < |ws|
  {
    !Answers(ws[k], events[k]) && !Switches(ws[k], ws[k + 1])
  }

  lemma ErrorStep(start: World, events: seq<Event>, ws: seq<World>, k: nat)
    requires History(start, events, ws) && k < |events|
    ensures Answers(ws[k], events[k]) ==> ws[k + 1].model.err == events[k].err
    ensures Unanswered(events, ws, k) ==> ws[k + 1].model.err == ws[k].model.err
  {
    EveryEventShowsRight(start, events, ws, k);
  }

  /** The error on display is the one of the last reply for the active profile since the last
      switch, or none if that reply succeeded. */
  lemma {:induction false} LastErrorIsKept(start: World, events: seq<Event>, ws: seq<World>, i: nat, n: nat)
    requires History(start, events, ws) && i < n < |ws| && Answers(ws[i], events[i])
    requires forall k :: i < k < n ==> Unanswered(events, ws, k)
    ensures ws[n].model.err == events[i].err
  {
    if i + 1 == n {
      ErrorStep(start, events, ws, i);
    } else {
      LastErrorIsKept(start, events, ws, i, n - 1);
      assert Unanswered(events, ws, n - 1);
      ErrorStep(start, events, ws, n - 1);
    }
  }

  /** A failed reply leads to the failed state exactly when no snapshot is held. */
  lemma FailedReplyFailsIff(
    profiles: seq<Profile>, requested: int, built: bool, events: seq<Event>, ws: seq<World>, n: nat)
    requires History(Started(profiles, requested, built), events, ws) && n < |events|
    requires Answers(ws[n], events[n]) && events[n].err.Some?
    ensures ws[n + 1].model.err == events[n].err && ws[n + 1].model.snapshot == ws[n].model.snapshot
    ensures ws[n + 1].model.state.Failed? <==> ws[n].model.snapshot == NO_SNAPSHOT
  {
    EveryRunKeepsInv(profiles, requested, built, events, ws, n);
    HistoryStep(Started(profiles, requested, built), events, ws, n);
    ReplyIsShown(ws[n], events[n]);
  }

  // ---- What is asked for ------------------------------------------------------------------

  /** A start, each tick and the refresh key ask for one refresh with the client and the index
      of the active profile; a tick also asks for the next one. */
  lemma RefreshesAreAsked(w: World, built: bool)
    requires !w.quit
    ensures var ask := Refresh(w.model.client, w.model.activeProfile);
            && (Tick in w.pending ==> Next(w, TickFires) == World(w.model, w.pending + multiset{ask}, false))
            && (!w.model.selecting ==>
                  Next(w, Typed(KeyR, built)) == World(w.model, w.pending + multiset{ask}, false))
  {
    if Tick in w.pending {
      TickAsks(w);
    }
    if !w.model.selecting {
      KeyAsks(w, built);
    }
  }

  lemma TickAsks(w: World)
    requires !w.quit && Tick in w.pending
    ensures Next(w, TickFires) ==
            World(w.model, w.pending + multiset{Refresh(w.model.client, w.model.activeProfile)}, false)
  {
    var ask := Refresh(w.model.client, w.model.activeProfile);
    assert multiset([ask, Tick]) == multiset{ask, Tick};
    assert multiset{ask, Tick} - multiset{Quit} == multiset{ask, Tick};
  }

  lemma KeyAsks(w: World, built: bool)
    requires !w.quit && !w.model.selecting
    ensures Next(w, Typed(KeyR, built)) ==
            World(w.model, w.pending + multiset{Refresh(w.model.client, w.model.activeProfile)}, false)
  {
    var ask := Refresh(w.model.client, w.model.activeProfile);
    assert multiset([ask]) == multiset{ask};
    assert multiset{ask} - multiset{Quit} == multiset{ask};
  }

  /** A run starts on the requested profile, or the first if there is no such one, with its
      view and its client, and with one refresh and one tick under way. */
  lemma StartAsks(profiles: seq<Profile>, requested: int, built: bool)
    requires profiles != []
    ensures var w := Started(profiles, requested, built);
            var active := if 0 <= requested < |profiles| then requested else 0;
            && w.model.activeProfile == w.model.profileCursor == active && w.model.profiles == profiles
            && w.model.view == profiles[active].config.defaultView && !w.model.selecting
            && w.model.client == (if built then Some(Client(profiles[active].config)) else None)
            && (w.model.state.Loading? <==> built) && (w.model.err.None? <==> built)
            && w.pending == multiset{Refresh(w.model.client, active), Tick}
  {
    var w := Started(profiles, requested, built);
    assert multiset([Refresh(w.model.client, w.model.activeProfile), Tick]) ==
           multiset{Refresh(w.model.client, w.model.activeProfile), Tick};
  }

  /** The quit key ends the run from every screen and changes nothing else. */
  lemma QuitKeyQuits(w: World, built: bool)
    requires !w.quit && Quit !in w.pending
    ensures Next(w, Typed(KeyQ, built)) == World(w.model, w.pending, true)
  {
    assert multiset([Quit]) - multiset{Quit} == multiset{};
  }

  /** The help key leads to the help view and, pressed again, always to the overview. */
  lemma {:induction false} HelpTwiceIsOverview(m: Model, built: bool)
    requires !m.selecting && m.view != Help
    ensures Typing(m, [KeyHelp], built) == m.(view := Help)
    ensures Typing(m, [KeyHelp, KeyHelp], built) == m.(view := Overview)
  {
    assert [KeyHelp][..0] == [] && [KeyHelp, KeyHelp][..1] == [KeyHelp];
  }

  /** A view's key leads to it, and escape goes where the help key goes; in the selector a view's
      key does nothing and escape only closes it. */
  lemma {:induction false} ViewKeys(m: Model, v: View, built: bool)
    ensures Typing(m, [KeyView(v)], built) == if m.selecting then m else m.(view := v)
    ensures !m.selecting ==> Typing(m, [KeyEsc], built) == Typing(m, [KeyHelp], built)
    ensures m.selecting ==> Typing(m, [KeyEsc], built) == m.(selecting := false)
  {
    assert [KeyView(v)][..0] == [] && [KeyEsc][..0] == [] && [KeyHelp][..0] == [];
  }

  // ---- Picking a profile ------------------------------------------------------------------

  lemma {:induction false} SelectorOpens(m: Model, key: Key, built: bool)
    requires InRange(m) && |m.profiles| > 1 && !m.selecting
    ensures Typing(m, [KeyP] + Times(key, 0), built) == m.(selecting := true, profileCursor := m.activeProfile)
  {
    assert [KeyP] + Times(key, 0) == [KeyP] && [KeyP][..0] == [];
  }

  lemma {:induction false} OneMoreKey(m: Model, keys: seq<Key>, key: Key, built: bool)
    ensures Typing(m, keys + [key], built) == Update(Typing(m, keys, built), Pressed(key, built)).0
  {
    assert (keys + [key])[..|keys|] == keys;
  }

  lemma ArrowMoves(m: Model, down: bool, built: bool)
    requires m.selecting && m.profiles != []
    ensures Update(m, Pressed(if down then KeyDown else KeyUp, built)).0 ==
            m.(profileCursor := if down then Wrap(m.profileCursor + 1, |m.profiles|)
                                else Wrap(m.profileCursor - 1 + |m.profiles|, |m.profiles|))
  {
  }

  /** n presses of an arrow in the selector move only the cursor. */
  lemma {:induction false} SelectorLands(m: Model, down: bool, n: nat, built: bool)
    requires InRange(m) && |m.profiles| > 1 && !m.selecting
    ensures Typing(m, [KeyP] + Times(if down then KeyDown else KeyUp, n), built) ==
            m.(selecting := true,
               profileCursor := Landing(if down then KeyNext else KeyPrev, m.activeProfile, n, |m.profiles|))
  {
    var key := if down then KeyDown else KeyUp;
    if n == 0 {
      SelectorOpens(m, key, built);
    } else {
      var before := [KeyP] + Times(key, n - 1);
      SelectorLands(m, down, n - 1, built);
      assert [KeyP] + Times(key, n) == before + [key];
      OneMoreKey(m, before, key, built);
      ArrowMoves(Typing(m, before, built), down, built);
    }
  }

  /** Opening the selector, going n profiles down or up and pressing enter activates the
      profile n further on or back, cyclically, and closes the selector. */
  lemma SelectorPicks(m: Model, down: bool, n: nat, built: bool)
    requires InRange(m) && |m.profiles| > 1 && !m.selecting
    ensures var v := Typing(m, [KeyP] + Times(if down then KeyDown else KeyUp, n) + [KeyEnter], built);
            && v.activeProfile == (if down then m.activeProfile + n else m.activeProfile - n) % |m.profiles|
            && !v.selecting && v.profiles == m.profiles
  {
    var count := |m.profiles|;
    var keys := [KeyP] + Times(if down then KeyDown else KeyUp, n);
    assert (keys + [KeyEnter])[..|keys|] == keys;
    SelectorLands(m, down, n, built);
    if down {
      var turns := LandingForward(m.activeProfile, n, count);
      ModUnique(m.activeProfile + n, turns, Landing(KeyNext, m.activeProfile, n, count), count);
    } else {
      var turns := LandingBack(m.activeProfile, n, count);
      ModUnique(m.activeProfile - n, turns, Landing(KeyPrev, m.activeProfile, n, count), count);
    }
  }
}
