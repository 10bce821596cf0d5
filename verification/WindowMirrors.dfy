/**
 Opening and closing window mirrors on one actor. Between two awaits nothing else runs, so
 every stretch of code from one await to the next is one step; any mix of calls interleaves
 at the awaits.
 */
module WindowMirrors {
  import opened Wrappers
  import opened MirrorSessions
  import opened RecentStates

  type CallId = nat

  datatype Mirror = Mirror(lease: Lease, pid: int, requestID: Option<string>)

  datatype Slot = Slot(lease: Lease, requestID: Option<string>)

  /** Where an open call waits: for the list of windows, for its own startup, for another call's startup. */
  datatype Waiting =
    | ForContent(window: Window, slot: Lease, armed: bool, pid: Option<int>, requestID: Option<string>)
    | ForStartup(window: Window, slot: Lease, session: Lease)
    | ForExisting(window: Window, session: Lease, armed: bool)

  /**
   `startups` are the startup tasks under way, and `hooks` what a closing panel or a destroyed window
   closes, both by the lease of the session they were made for.
   */
  datatype State = State(
    sessions: map<Window, Session>,
    mirrors: map<Window, Mirror>,
    opening: map<Window, Slot>,
    calls: map<CallId, Waiting>,
    startups: map<Lease, Window>,
    hooks: map<Lease, Window>,
    used: set<Lease>)

  const INITIAL := State(map[], map[], map[], map[], map[], map[], {})

  predicate Usable(w: Window) {
    0 < w <= MAX_WINDOW
  }

  predicate CanReserve(s: State, w: Window) {
    Usable(w) && w !in s.mirrors && w !in s.opening && |s.mirrors.Keys + s.opening.Keys| < LIMIT
  }

  predicate OwnerFits(mirror: Mirror, requestID: Option<string>) {
    requestID.Some? ==> mirror.requestID == requestID
  }

  predicate PidFits(mirror: Mirror, pid: Option<int>) {
    pid.Some? ==> pid == Some(mirror.pid)
  }

  predicate MayJoin(s: State, w: Window, pid: Option<int>, requestID: Option<string>) {
    w in s.mirrors && OwnerFits(s.mirrors[w], requestID) && PidFits(s.mirrors[w], pid)
  }

  datatype Action =
    | Open(call: CallId, window: Window, pid: Option<int>, requestID: Option<string>, armed: bool, trusted: bool, slot: Lease)
    | ContentArrives(call: CallId, owner: Option<int>, session: Lease)
    | ContentFails(call: CallId)
    | StartupEnds(session: Lease, started: bool, presents: bool, presented: bool)
    | Resume(call: CallId, startupThrew: bool)
    | Close(window: Window, requestID: Option<string>)
    | CloseAll(requestID: Option<string>)
    | FrameArrives(window: Window, session: Lease, error: Option<string>, now: Option<int>)
    | Minimize(window: Window, presented: bool)
    | PanelClosed(session: Lease)

  predicate Enabled(s: State, a: Action) {
    match a
    case Open(call, _, _, _, _, _, slot) => call !in s.calls && slot !in s.used
    case ContentArrives(call, _, session) => call in s.calls && s.calls[call].ForContent? && session !in s.used
    case ContentFails(call) => call in s.calls && s.calls[call].ForContent?
    case StartupEnds(session, _, _, _) => session in s.startups
    case Resume(call, _) => call in s.calls && !s.calls[call].ForContent? && s.calls[call].session !in s.startups
    case _ => true
  }

  function Step(s: State, a: Action): State
    requires Enabled(s, a)
  {
    match a
    case Open(call, w, pid, requestID, armed, trusted, slot) =>
      if MayJoin(s, w, pid, requestID) && Usable(w) then
        s.(calls := s.calls[call := ForExisting(w, s.mirrors[w].lease, armed)])
      else if trusted && CanReserve(s, w) then
        s.(opening := s.opening[w := Slot(slot, requestID)],
           calls := s.calls[call := ForContent(w, slot, armed, pid, requestID)],
           used := s.used + {slot})
      else s
    case ContentArrives(call, owner, session) => Arrived(s, call, owner, session)
    case ContentFails(call) => EndCall(s, call)
    case StartupEnds(session, started, presents, presented) => StartupEnded(s, session, started, presents, presented)
    case Resume(call, threw) =>
      var waiting := s.calls[call];
      var s' := EndCall(s, call);
      if waiting.ForExisting? && !threw && !waiting.armed
      then s'.(sessions := Presented(s.sessions, waiting.window, waiting.session))
      else s'
    case Close(w, requestID) => CloseOne(s, w, requestID)
    case CloseAll(requestID) => ClosedAll(s, requestID)
    case FrameArrives(w, session, error, now) => s.(sessions := FrameHandled(s.sessions, w, session, error, now))
    case Minimize(w, presented) => s.(sessions := MinimizeHandled(s.sessions, s.mirrors, w, presented))
    case PanelClosed(session) =>
      if session in s.hooks then CloseOne(s, s.hooks[session], None) else s
  }

  /** A call ends; its slot goes with it if it is still its own. */
  function EndCall(s: State, call: CallId): State
    requires call in s.calls
  {
    var waiting := s.calls[call];
    s.(calls := s.calls - {call},
       opening := if !waiting.ForExisting? then WithoutSlot(s.opening, waiting.window, waiting.slot) else s.opening)
  }

  function WithoutSlot(opening: map<Window, Slot>, w: Window, slot: Lease): map<Window, Slot> {
    if w in opening && opening[w].lease == slot then opening - {w} else opening
  }

  /** What comes of the list of windows: a session, unless the slot was lost or the window is wrong. */
  function ArrivalOutcome(sessions: map<Window, Session>, opening: Slots, c: Waiting, owner: Option<int>, session: Lease): BeginResult
    requires c.ForContent?
  {
    if !(c.window in opening && opening[c.window].lease == c.slot) then Refused("pip_open_cancelled")
    else if owner.None? then Refused("pip_window_not_found")
    else if c.pid.Some? && c.pid != owner then Refused("pip_window_identity_changed")
    else BeginOutcome(sessions, c.window, owner.value, c.armed, session, LIMIT)
  }

  function Arrived(s: State, call: CallId, owner: Option<int>, session: Lease): State
    requires call in s.calls && s.calls[call].ForContent?
  {
    var c := s.calls[call];
    var begun := ArrivalOutcome(s.sessions, s.opening, c, owner, session);
    if begun.Refused? then EndCall(s, call)
    else
      s.(sessions := s.sessions[c.window := begun.session],
         mirrors := s.mirrors[c.window := Mirror(begun.session.lease, begun.session.pid, c.requestID)],
         calls := s.calls[call := ForStartup(c.window, c.slot, begun.session.lease)],
         startups := s.startups[begun.session.lease := c.window],
         hooks := s.hooks[begun.session.lease := c.window],
         used := s.used + {session})
  }

  /** The startup task: present the mirror, or close its window if the session is still its own. */
  function StartupEnded(s: State, session: Lease, started: bool, presents: bool, presented: bool): State
    requires session in s.startups
  {
    var w := s.startups[session];
    var s' := s.(startups := s.startups - {session});
    if !Contains(s.sessions, w, session) then s'
    else if started && (!presents || presented)
    then (if presents then s'.(sessions := Presented(s.sessions, w, session)) else s')
    else CloseOne(s', w, None)
  }

  function FrameHandled(sessions: map<Window, Session>, w: Window, session: Lease, error: Option<string>, now: Option<int>): map<Window, Session> {
    var marred := if error.Some? then Marred(sessions, w, session, error.value) else sessions;
    if now.Some? then Framed(marred, w, session, now.value) else marred
  }

  function MinimizeHandled(sessions: map<Window, Session>, mirrors: map<Window, Mirror>, w: Window, presented: bool): map<Window, Session> {
    if w !in mirrors then sessions
    else if presented then Presented(sessions, w, mirrors[w].lease)
    else Marred(sessions, w, mirrors[w].lease, "pip_privacy_registry_unavailable")
  }

  function OwnedBy(mirrors: map<Window, Mirror>, opening: Slots, w: Window): Option<string> {
    if w in mirrors && mirrors[w].requestID.Some? then mirrors[w].requestID
    else if w in opening then opening[w].requestID
    else None
  }

  function OwnerOf(s: State, w: Window): Option<string> {
    OwnedBy(s.mirrors, s.opening, w)
  }

  predicate MayClose(s: State, w: Window, requestID: Option<string>) {
    requestID.Some? ==> OwnerOf(s, w) == requestID
  }

  function Leases(mirrors: map<Window, Mirror>, windows: set<Window>): set<Lease> {
    set w | w in windows && w in mirrors :: mirrors[w].lease
  }

  /** A mirror that is closed loses its hook. */
  function CloseOne(s: State, w: Window, requestID: Option<string>): State {
    if !MayClose(s, w, requestID) then s
    else s.(opening := s.opening - {w}, mirrors := s.mirrors - {w},
            sessions := if w in s.mirrors then s.sessions - {w} else s.sessions,
            hooks := s.hooks - Leases(s.mirrors, {w}))
  }

  function ClosedAll(s: State, requestID: Option<string>): State {
    var ids := set w | w in s.mirrors.Keys + s.opening.Keys && MayClose(s, w, requestID);
    s.(opening := s.opening - ids, mirrors := s.mirrors - ids, sessions := s.sessions - (ids * s.mirrors.Keys),
       hooks := s.hooks - Leases(s.mirrors, ids))
  }

  predicate CanRun(s: State, run: seq<Action>)
    decreases run
  {
    run == [] || (Enabled(s, run[0]) && CanRun(Step(s, run[0]), run[1..]))
  }

  function Run(s: State, run: seq<Action>): State
    requires CanRun(s, run)
    decreases run
  {
    if run == [] then s else Run(Step(s, run[0]), run[1..])
  }

  // ---------------------------------------------------------------- the invariant

  type Calls = map<CallId, Waiting>

  type Slots = map<Window, Slot>

  /** Every mirror has its session, and only mirrors have one. */
  ghost predicate Paired(mirrors: map<Window, Mirror>, sessions: map<Window, Session>) {
    && mirrors.Keys == sessions.Keys
    && forall w :: w in mirrors ==> mirrors[w].lease == sessions[w].lease && sessions[w].windowID == w && Usable(w)
  }

  ghost predicate Bounded(mirrors: map<Window, Mirror>, opening: Slots) {
    |mirrors.Keys + opening.Keys| <= LIMIT
  }

  predicate Owns(calls: Calls, opening: Slots, call: CallId, w: Window) {
    call in calls && !calls[call].ForExisting? && calls[call].window == w && w in opening && calls[call].slot == opening[w].lease
  }

  /** Slots of different calls differ, were handed out before, and are for usable windows. */
  ghost predicate OwnSlots(calls: Calls, used: set<Lease>) {
    && (forall c :: c in calls && !calls[c].ForExisting? ==> calls[c].slot in used && Usable(calls[c].window))
    && (forall c, d :: c in calls && d in calls && c != d && !calls[c].ForExisting? && !calls[d].ForExisting? ==>
          calls[c].slot != calls[d].slot)
  }

  /** No slot outlives the call that reserved it. */
  ghost predicate Held(calls: Calls, opening: Slots) {
    forall w :: w in opening ==> exists c :: Owns(calls, opening, c, w)
  }

  /** While the call that reserved a window waits for the list of windows, there is no mirror yet. */
  ghost predicate Vacant(calls: Calls, opening: Slots, mirrors: map<Window, Mirror>) {
    forall c, w :: Owns(calls, opening, c, w) && calls[c].ForContent? ==> w !in mirrors
  }

  /** Whatever carries a lease was given it before. */
  ghost predicate Leased(sessions: map<Window, Session>, startups: map<Lease, Window>, used: set<Lease>) {
    && (forall w :: w in sessions ==> sessions[w].lease in used)
    && (forall l :: l in startups ==> l in used)
  }

  /** The hooks are those of the mirrors there are, each for the window and the lease of its own mirror. */
  ghost predicate Hooked(hooks: map<Lease, Window>, mirrors: map<Window, Mirror>) {
    && (forall l :: l in hooks ==> hooks[l] in mirrors && mirrors[hooks[l]].lease == l)
    && (forall w :: w in mirrors ==> mirrors[w].lease in hooks && hooks[mirrors[w].lease] == w)
  }

  ghost predicate Inv(s: State) {
    && Paired(s.mirrors, s.sessions) && Bounded(s.mirrors, s.opening)
    && OwnSlots(s.calls, s.used) && Held(s.calls, s.opening) && Vacant(s.calls, s.opening, s.mirrors)
    && Leased(s.sessions, s.startups, s.used) && Hooked(s.hooks, s.mirrors)
  }

  lemma InvInitial()
    ensures Inv(INITIAL)
  {
  }

  /** Taking windows away from the slots and the mirrors keeps what is said of them. */
  lemma TakenAway(s: State, slots: set<Window>, mirrored: set<Window>)
    requires Inv(s)
    ensures Held(s.calls, s.opening - slots) && Vacant(s.calls, s.opening - slots, s.mirrors - mirrored)
    ensures Bounded(s.mirrors - mirrored, s.opening - slots)
    ensures Paired(s.mirrors - mirrored, s.sessions - mirrored) && Leased(s.sessions - mirrored, s.startups, s.used)
    ensures Hooked(s.hooks - Leases(s.mirrors, mirrored), s.mirrors - mirrored)
  {
    HooksTaken(s.hooks, s.mirrors, mirrored);
    var opening, mirrors := s.opening - slots, s.mirrors - mirrored;
    SubsetSize(mirrors.Keys + opening.Keys, s.mirrors.Keys + s.opening.Keys);
    forall w | w in opening ensures exists c :: Owns(s.calls, opening, c, w) {
      var c :| Owns(s.calls, s.opening, c, w);
      assert Owns(s.calls, opening, c, w);
    }
    forall c, w | Owns(s.calls, opening, c, w) && s.calls[c].ForContent? ensures w !in mirrors {
      assert Owns(s.calls, s.opening, c, w);
    }
  }

  lemma HooksTaken(hooks: map<Lease, Window>, mirrors: map<Window, Mirror>, windows: set<Window>)
    requires Hooked(hooks, mirrors)
    ensures Hooked(hooks - Leases(mirrors, windows), mirrors - windows)
  {
    forall l | l in hooks && hooks[l] in windows ensures l in Leases(mirrors, windows) {
      var w := hooks[l];
      HookOf(hooks, mirrors, l);
      assert w in windows && w in mirrors && mirrors[w].lease == l;
    }
  }

  lemma HookOf(hooks: map<Lease, Window>, mirrors: map<Window, Mirror>, lease: Lease)
    requires Hooked(hooks, mirrors) && lease in hooks
    ensures hooks[lease] in mirrors && mirrors[hooks[lease]].lease == lease
  {
  }

  /** What a call that ends leaves to the others. */
  lemma EndHeld(calls: Calls, opening: Slots, mirrors: map<Window, Mirror>, used: set<Lease>, call: CallId)
    requires OwnSlots(calls, used) && Held(calls, opening) && Vacant(calls, opening, mirrors) && call in calls
    ensures var opening' := if calls[call].ForExisting? then opening else WithoutSlot(opening, calls[call].window, calls[call].slot);
      Held(calls - {call}, opening') && Vacant(calls - {call}, opening', mirrors)
  {
    var calls', opening' := calls - {call}, if calls[call].ForExisting? then opening else WithoutSlot(opening, calls[call].window, calls[call].slot);
    forall w | w in opening' ensures exists d :: Owns(calls', opening', d, w) {
      var d :| Owns(calls, opening, d, w);
      assert d != call;
      assert Owns(calls', opening', d, w);
    }
    forall d, w | Owns(calls', opening', d, w) && calls'[d].ForContent? ensures w !in mirrors {
      assert Owns(calls, opening, d, w);
    }
  }

  lemma EndCallKeeps(s: State, call: CallId)
    requires Inv(s) && call in s.calls
    ensures Inv(EndCall(s, call))
  {
    var t := EndCall(s, call);
    SubsetSize(t.mirrors.Keys + t.opening.Keys, s.mirrors.Keys + s.opening.Keys);
    EndHeld(s.calls, s.opening, s.mirrors, s.used, call);
  }

  /** A call that reserves nothing can begin at any time. */
  lemma JoinKeeps(s: State, call: CallId, waiting: Waiting)
    requires Inv(s) && call !in s.calls && waiting.ForExisting?
    ensures Inv(s.(calls := s.calls[call := waiting]))
  {
    var calls := s.calls[call := waiting];
    forall w | w in s.opening ensures exists c :: Owns(calls, s.opening, c, w) {
      var c :| Owns(s.calls, s.opening, c, w);
      assert Owns(calls, s.opening, c, w);
    }
    forall c, w | Owns(calls, s.opening, c, w) && calls[c].ForContent? ensures w !in s.mirrors {
      assert Owns(s.calls, s.opening, c, w);
    }
  }

  function Reserved(s: State, call: CallId, waiting: Waiting): State
    requires waiting.ForContent?
  {
    s.(opening := s.opening[waiting.window := Slot(waiting.slot, waiting.requestID)],
       calls := s.calls[call := waiting],
       used := s.used + {waiting.slot})
  }

  /** Slots after a call reserves a window: it holds the new one, and the others are held as before. */
  lemma HeldReserved(calls: Calls, opening: Slots, call: CallId, waiting: Waiting, slot: Slot)
    requires Held(calls, opening) && call !in calls && waiting.ForContent? && slot.lease == waiting.slot
    ensures Held(calls[call := waiting], opening[waiting.window := slot])
  {
    var calls', opening' := calls[call := waiting], opening[waiting.window := slot];
    forall v | v in opening' ensures exists c :: Owns(calls', opening', c, v) {
      if v == waiting.window {
        assert Owns(calls', opening', call, v);
      } else {
        var c :| Owns(calls, opening, c, v);
        assert Owns(calls', opening', c, v);
      }
    }
  }

  lemma VacantReserved(calls: Calls, opening: Slots, mirrors: map<Window, Mirror>, call: CallId, waiting: Waiting, slot: Slot)
    requires Vacant(calls, opening, mirrors) && waiting.ForContent? && waiting.window !in mirrors
    ensures Vacant(calls[call := waiting], opening[waiting.window := slot], mirrors)
  {
  }

  lemma OwnReserved(calls: Calls, used: set<Lease>, call: CallId, waiting: Waiting)
    requires OwnSlots(calls, used) && waiting.ForContent? && waiting.slot !in used && Usable(waiting.window)
    ensures OwnSlots(calls[call := waiting], used + {waiting.slot})
  {
  }

  lemma BoundedReserved(opening: Slots, mirrors: map<Window, Mirror>, w: Window, slot: Slot)
    requires |mirrors.Keys + opening.Keys| < LIMIT
    ensures Bounded(mirrors, opening[w := slot])
  {
    assert mirrors.Keys + opening[w := slot].Keys == mirrors.Keys + opening.Keys + {w};
  }

  lemma ReserveKeeps(s: State, call: CallId, waiting: Waiting)
    requires Inv(s) && call !in s.calls && waiting.ForContent? && waiting.slot !in s.used && CanReserve(s, waiting.window)
    ensures Inv(Reserved(s, call, waiting))
  {
    OwnReserved(s.calls, s.used, call, waiting);
    BoundedReserved(s.opening, s.mirrors, waiting.window, Slot(waiting.slot, waiting.requestID));
    HeldReserved(s.calls, s.opening, call, waiting, Slot(waiting.slot, waiting.requestID));
    VacantReserved(s.calls, s.opening, s.mirrors, call, waiting, Slot(waiting.slot, waiting.requestID));
  }

  lemma OpenKeeps(s: State, a: Action)
    requires Inv(s) && Enabled(s, a) && a.Open?
    ensures Inv(Step(s, a))
  {
    var w := a.window;
    if MayJoin(s, w, a.pid, a.requestID) && Usable(w) {
      JoinKeeps(s, a.call, ForExisting(w, s.mirrors[w].lease, a.armed));
    } else if a.trusted && CanReserve(s, w) {
      ReserveKeeps(s, a.call, ForContent(w, a.slot, a.armed, a.pid, a.requestID));
    }
  }

  /**
   When the list of windows arrives for a call that still holds its slot, `begin` starts a new
   session unless the owner's process id is not positive: there is always room for it, and no
   session of that window is in the way.
   */
  lemma BeginHasRoom(s: State, call: CallId, pid: int, armed: bool, lease: Lease)
    requires Inv(s) && call in s.calls && s.calls[call].ForContent? && Owns(s.calls, s.opening, call, s.calls[call].window)
    ensures |s.sessions| < LIMIT && s.calls[call].window !in s.sessions
    ensures var begun := BeginOutcome(s.sessions, s.calls[call].window, pid, armed, lease, LIMIT);
      (if pid > 0 then begun.Begun? && begun.session.lease == lease else begun == Refused("pip_invalid_pid"))
  {
    var w := s.calls[call].window;
    assert w !in s.mirrors && w in s.opening;
    assert s.mirrors.Keys + {w} <= s.mirrors.Keys + s.opening.Keys;
    SubsetSize(s.mirrors.Keys + {w}, s.mirrors.Keys + s.opening.Keys);
    assert |s.mirrors.Keys + {w}| == |s.mirrors.Keys| + 1;
    assert |s.sessions| == |s.sessions.Keys|;
  }

  /** The state after a session begins for the window of `call`. */
  function Started(s: State, call: CallId, session: Session): State
    requires call in s.calls && s.calls[call].ForContent?
  {
    var c := s.calls[call];
    s.(sessions := s.sessions[c.window := session],
       mirrors := s.mirrors[c.window := Mirror(session.lease, session.pid, c.requestID)],
       calls := s.calls[call := ForStartup(c.window, c.slot, session.lease)],
       startups := s.startups[session.lease := c.window],
       hooks := s.hooks[session.lease := c.window],
       used := s.used + {session.lease})
  }

  /** A call goes on to wait for its startup; it keeps its slot, and nobody else waits to start on its window. */
  lemma SlotKept(calls: Calls, used: set<Lease>, opening: Slots, mirrors: map<Window, Mirror>, call: CallId, lease: Lease, mirror: Mirror)
    requires OwnSlots(calls, used) && Held(calls, opening) && Vacant(calls, opening, mirrors)
    requires call in calls && calls[call].ForContent? && Owns(calls, opening, call, calls[call].window)
    ensures Held(calls[call := ForStartup(calls[call].window, calls[call].slot, lease)], opening)
    ensures Vacant(calls[call := ForStartup(calls[call].window, calls[call].slot, lease)], opening, mirrors[calls[call].window := mirror])
  {
    var w := calls[call].window;
    var calls' := calls[call := ForStartup(w, calls[call].slot, lease)];
    forall v | v in opening ensures exists c :: Owns(calls', opening, c, v) {
      var c :| Owns(calls, opening, c, v);
      assert Owns(calls', opening, c, v);
    }
    forall c, v | Owns(calls', opening, c, v) && calls'[c].ForContent? ensures v !in mirrors[w := mirror] {
      assert c != call && Owns(calls, opening, c, v);
    }
  }

  /** A new lease has no hook yet, so the hooks of other mirrors stay as they are. */
  lemma HookSet(hooks: map<Lease, Window>, mirrors: map<Window, Mirror>, w: Window, mirror: Mirror)
    requires Hooked(hooks, mirrors) && w !in mirrors && mirror.lease !in hooks
    ensures Hooked(hooks[mirror.lease := w], mirrors[w := mirror])
  {
  }

  /** A lease not given yet has no hook. */
  lemma NoHook(s: State, lease: Lease)
    requires Paired(s.mirrors, s.sessions) && Leased(s.sessions, s.startups, s.used) && Hooked(s.hooks, s.mirrors) && lease !in s.used
    ensures lease !in s.hooks
  {
    if lease in s.hooks {
      HookOf(s.hooks, s.mirrors, lease);
      SessionOf(s.mirrors, s.sessions, s.hooks[lease]);
    }
  }

  lemma SessionOf(mirrors: map<Window, Mirror>, sessions: map<Window, Session>, w: Window)
    requires Paired(mirrors, sessions) && w in mirrors
    ensures w in sessions && sessions[w].lease == mirrors[w].lease
  {
  }

  lemma PairedStarted(mirrors: map<Window, Mirror>, sessions: map<Window, Session>, mirror: Mirror, session: Session)
    requires Paired(mirrors, sessions) && mirror.lease == session.lease && Usable(session.windowID)
    ensures Paired(mirrors[session.windowID := mirror], sessions[session.windowID := session])
  {
  }

  lemma LeasedStarted(sessions: map<Window, Session>, startups: map<Lease, Window>, used: set<Lease>, session: Session)
    requires Leased(sessions, startups, used)
    ensures Leased(sessions[session.windowID := session], startups[session.lease := session.windowID], used + {session.lease})
  {
  }

  lemma OwnStarted(calls: Calls, used: set<Lease>, call: CallId, lease: Lease)
    requires OwnSlots(calls, used) && call in calls && calls[call].ForContent?
    ensures OwnSlots(calls[call := ForStartup(calls[call].window, calls[call].slot, lease)], used + {lease})
  {
  }

  lemma StartedKeeps(s: State, call: CallId, session: Session)
    requires Inv(s) && call in s.calls && s.calls[call].ForContent? && session.lease !in s.used
    requires Owns(s.calls, s.opening, call, s.calls[call].window) && session.windowID == s.calls[call].window
    ensures Inv(Started(s, call, session))
  {
    var t := Started(s, call, session);
    var w := session.windowID;
    var mirror := Mirror(session.lease, session.pid, s.calls[call].requestID);
    assert t.mirrors.Keys + t.opening.Keys == s.mirrors.Keys + s.opening.Keys;
    NoHook(s, session.lease);
    HookSet(s.hooks, s.mirrors, w, mirror);
    PairedStarted(s.mirrors, s.sessions, mirror, session);
    LeasedStarted(s.sessions, s.startups, s.used, session);
    OwnStarted(s.calls, s.used, call, session.lease);
    SlotKept(s.calls, s.used, s.opening, s.mirrors, call, session.lease, mirror);
  }

  lemma ArrivedIs(s: State, call: CallId, owner: Option<int>, session: Lease)
    requires call in s.calls && s.calls[call].ForContent?
    ensures var begun := ArrivalOutcome(s.sessions, s.opening, s.calls[call], owner, session);
      && (begun.Refused? ==> Arrived(s, call, owner, session) == EndCall(s, call))
      && (begun.Begun? ==> Arrived(s, call, owner, session) == Started(s, call, begun.session))
      && (begun.Begun? ==> begun.session.windowID == s.calls[call].window && begun.session.lease == session)
      && (!begun.Refused? ==> Owns(s.calls, s.opening, call, s.calls[call].window) && owner.Some?)
  {
  }

  lemma ArrivedKeeps(s: State, call: CallId, owner: Option<int>, session: Lease)
    requires Inv(s) && call in s.calls && s.calls[call].ForContent? && session !in s.used
    ensures Inv(Arrived(s, call, owner, session))
  {
    var begun := ArrivalOutcome(s.sessions, s.opening, s.calls[call], owner, session);
    ArrivedIs(s, call, owner, session);
    if begun.Refused? {
      EndCallKeeps(s, call);
    } else {
      BeginHasRoom(s, call, owner.value, s.calls[call].armed, session);
      StartedKeeps(s, call, begun.session);
    }
  }

  /** Only keys of the map matter when keys are taken out of it. */
  lemma LeaveOut(sessions: map<Window, Session>, windows: set<Window>, keys: set<Window>)
    requires sessions.Keys == keys
    ensures sessions - (windows * keys) == sessions - windows
    ensures windows !! keys ==> sessions - windows == sessions
  {
  }

  lemma CloseKeeps(s: State, w: Window, requestID: Option<string>)
    requires Inv(s)
    ensures Inv(CloseOne(s, w, requestID))
  {
    if MayClose(s, w, requestID) {
      TakenAway(s, {w}, {w});
      LeaveOut(s.sessions, {w}, s.mirrors.Keys);
    }
  }

  lemma CloseAllKeeps(s: State, requestID: Option<string>)
    requires Inv(s)
    ensures Inv(ClosedAll(s, requestID))
  {
    var ids := set w | w in s.mirrors.Keys + s.opening.Keys && MayClose(s, w, requestID);
    TakenAway(s, ids, ids);
    LeaveOut(s.sessions, ids, s.mirrors.Keys);
  }

  /** Only the state, the frame time and the error of sessions differ. */
  ghost predicate Redrawn(was: map<Window, Session>, now: map<Window, Session>) {
    now.Keys == was.Keys && forall w :: w in was ==> now[w].lease == was[w].lease && now[w].windowID == was[w].windowID
  }

  lemma RedrawnKeeps(s: State, sessions: map<Window, Session>)
    requires Inv(s) && Redrawn(s.sessions, sessions)
    ensures Inv(s.(sessions := sessions))
  {
  }

  lemma SessionUpdates(sessions: map<Window, Session>, w: Window, lease: Lease, error: string, now: int)
    ensures Redrawn(sessions, Presented(sessions, w, lease))
    ensures Redrawn(sessions, Framed(sessions, w, lease, now))
    ensures Redrawn(sessions, Marred(sessions, w, lease, error))
  {
  }

  lemma FrameRedraws(sessions: map<Window, Session>, w: Window, session: Lease, error: Option<string>, now: Option<int>)
    ensures Redrawn(sessions, FrameHandled(sessions, w, session, error, now))
  {
    SessionUpdates(sessions, w, session, error.GetOr(""), 0);
    var marred := if error.Some? then Marred(sessions, w, session, error.value) else sessions;
    SessionUpdates(marred, w, session, "", now.GetOr(0));
  }

  lemma FrameKeeps(s: State, w: Window, session: Lease, error: Option<string>, now: Option<int>)
    requires Inv(s)
    ensures Inv(Step(s, FrameArrives(w, session, error, now)))
  {
    FrameRedraws(s.sessions, w, session, error, now);
    RedrawnKeeps(s, FrameHandled(s.sessions, w, session, error, now));
  }

  lemma MinimizeKeeps(s: State, a: Action)
    requires Inv(s) && a.Minimize?
    ensures Inv(Step(s, a))
  {
    if a.window in s.mirrors {
      SessionUpdates(s.sessions, a.window, s.mirrors[a.window].lease, "pip_privacy_registry_unavailable", 0);
      RedrawnKeeps(s, Step(s, a).sessions);
    }
  }

  lemma StartupOver(s: State, session: Lease)
    requires Inv(s)
    ensures Inv(s.(startups := s.startups - {session}))
  {
  }

  lemma StartupKeeps(s: State, a: Action)
    requires Inv(s) && Enabled(s, a) && a.StartupEnds?
    ensures Inv(Step(s, a))
  {
    var w := s.startups[a.session];
    var t := s.(startups := s.startups - {a.session});
    StartupOver(s, a.session);
    CloseKeeps(t, w, None);
    SessionUpdates(t.sessions, w, a.session, "", 0);
    RedrawnKeeps(t, Presented(t.sessions, w, a.session));
  }

  lemma ResumeKeeps(s: State, a: Action)
    requires Inv(s) && Enabled(s, a) && a.Resume?
    ensures Inv(Step(s, a))
  {
    var t := EndCall(s, a.call);
    var waiting := s.calls[a.call];
    EndCallKeeps(s, a.call);
    SessionUpdates(t.sessions, waiting.window, waiting.session, "", 0);
    RedrawnKeeps(t, Presented(t.sessions, waiting.window, waiting.session));
  }

  /** Every step keeps the invariant. */
  lemma InvStep(s: State, a: Action)
    requires Inv(s) && Enabled(s, a)
    ensures Inv(Step(s, a))
  {
    match a
    case Open(_, _, _, _, _, _, _) => OpenKeeps(s, a);
    case ContentArrives(call, owner, session) => ArrivedKeeps(s, call, owner, session);
    case ContentFails(call) => EndCallKeeps(s, call);
    case StartupEnds(_, _, _, _) => StartupKeeps(s, a);
    case Resume(_, _) => ResumeKeeps(s, a);
    case Close(w, requestID) => CloseKeeps(s, w, requestID);
    case CloseAll(requestID) => CloseAllKeeps(s, requestID);
    case FrameArrives(w, session, error, now) => FrameKeeps(s, w, session, error, now);
    case Minimize(_, _) => MinimizeKeeps(s, a);
    case PanelClosed(session) =>
      if session in s.hooks {
        CloseKeeps(s, s.hooks[session], None);
      }
  }

  lemma {:induction false} InvRun(s: State, run: seq<Action>)
    requires Inv(s) && CanRun(s, run)
    ensures Inv(Run(s, run))
    decreases run
  {
    if run != [] {
      InvStep(s, run[0]);
      InvRun(Step(s, run[0]), run[1..]);
    }
  }

  // ---------------------------------------------------------------- what the invariant gives

  /** After any run, mirrors and sessions are of the same windows, and with the slots they are at most eight. */
  lemma MirrorsMatchSessions(run: seq<Action>)
    requires CanRun(INITIAL, run)
    ensures var s := Run(INITIAL, run);
      s.mirrors.Keys == s.sessions.Keys && |s.mirrors.Keys + s.opening.Keys| <= 8 && |s.sessions| <= 8
  {
    var s := Run(INITIAL, run);
    InvInitial();
    InvRun(INITIAL, run);
    SubsetSize(s.sessions.Keys, s.mirrors.Keys + s.opening.Keys);
  }

  /** Once no call is under way, no window is left reserved. */
  lemma NoSlotLeaks(run: seq<Action>)
    requires CanRun(INITIAL, run) && Run(INITIAL, run).calls == map[]
    ensures Run(INITIAL, run).opening == map[]
  {
    InvInitial();
    InvRun(INITIAL, run);
    NoCallNoSlot(Run(INITIAL, run));
  }

  lemma SomeHolder(calls: Calls, opening: Slots, w: Window)
    requires Held(calls, opening) && w in opening
    ensures exists c :: c in calls && Owns(calls, opening, c, w)
  {
  }

  lemma NoCallNoSlot(s: State)
    requires Inv(s) && s.calls == map[]
    ensures s.opening == map[]
  {
    forall w ensures w !in s.opening {
      if w in s.opening {
        SomeHolder(s.calls, s.opening, w);
      }
    }
  }

  /** The lease an action acts with, if it is one that acts for a session begun earlier. */
  function ActsFor(s: State, a: Action): Option<Lease>
    requires Enabled(s, a)
  {
    match a
    case FrameArrives(_, session, _, _) => Some(session)
    case StartupEnds(session, _, _, _) => Some(session)
    case PanelClosed(session) => Some(session)
    case Resume(call, _) => Some(s.calls[call].session)
    case _ => None
  }

  /** A window keeps its session and its mirror. */
  ghost predicate Untouched(s: State, t: State, w: Window) {
    && w in s.sessions && w in t.sessions && t.sessions[w] == s.sessions[w]
    && w in s.mirrors && w in t.mirrors && t.mirrors[w] == s.mirrors[w]
  }

  lemma StaleStartup(s: State, a: Action, w: Window)
    requires Paired(s.mirrors, s.sessions) && a.StartupEnds? && Enabled(s, a)
    requires w in s.sessions && a.session != s.sessions[w].lease
    ensures Untouched(s, Step(s, a), w)
  {
  }

  lemma StaleUpdate(s: State, session: Lease, v: Window, error: Option<string>, now: Option<int>, w: Window)
    requires Paired(s.mirrors, s.sessions) && w in s.sessions && session != s.sessions[w].lease
    ensures Untouched(s, s.(sessions := Presented(s.sessions, v, session)), w)
    ensures Untouched(s, s.(sessions := FrameHandled(s.sessions, v, session, error, now)), w)
  {
  }

  lemma StaleResume(s: State, call: CallId, w: Window)
    requires Paired(s.mirrors, s.sessions) && call in s.calls && !s.calls[call].ForContent?
    requires w in s.sessions && s.calls[call].session != s.sessions[w].lease
    ensures forall threw :: Enabled(s, Resume(call, threw)) ==> Untouched(s, Step(s, Resume(call, threw)), w)
  {
  }

  /** A hook closes the mirror it was made for: the step itself tests no lease. */
  lemma StalePanel(s: State, session: Lease, w: Window)
    requires Paired(s.mirrors, s.sessions) && Hooked(s.hooks, s.mirrors) && w in s.sessions && session != s.sessions[w].lease
    ensures Untouched(s, Step(s, PanelClosed(session)), w)
  {
    if session in s.hooks {
      HookOf(s.hooks, s.mirrors, session);
      SessionOf(s.mirrors, s.sessions, s.hooks[session]);
      CloseLeaves(s, s.hooks[session], w);
    } else {
      SessionOf(s.mirrors, s.sessions, w);
    }
  }

  lemma CloseLeaves(s: State, v: Window, w: Window)
    requires s.mirrors.Keys == s.sessions.Keys && w in s.sessions && v != w
    ensures Untouched(s, CloseOne(s, v, None), w)
  {
  }

  lemma StaleStep(s: State, a: Action, w: Window)
    requires Inv(s) && Enabled(s, a) && w in s.sessions
    requires ActsFor(s, a).Some? && ActsFor(s, a).value != s.sessions[w].lease
    ensures Untouched(s, Step(s, a), w)
  {
    match a
    case StartupEnds(_, _, _, _) => StaleStartup(s, a, w);
    case PanelClosed(session) => StalePanel(s, session, w);
    case Resume(call, threw) => StaleResume(s, call, w);
    case FrameArrives(v, session, error, now) => StaleUpdate(s, session, v, error, now, w);
  }

  /** All actions act for sessions with other leases. */
  predicate ActsForOthers(s: State, run: seq<Action>, lease: Lease)
    requires CanRun(s, run)
    decreases run
  {
    run == [] || (ActsFor(s, run[0]).Some? && ActsFor(s, run[0]).value != lease && ActsForOthers(Step(s, run[0]), run[1..], lease))
  }

  lemma {:induction false} StaleRun(s: State, run: seq<Action>, w: Window)
    requires Inv(s) && CanRun(s, run) && w in s.sessions && ActsForOthers(s, run, s.sessions[w].lease)
    ensures Untouched(s, Run(s, run), w)
    decreases run
  {
    if run != [] {
      StaleStep(s, run[0], w);
      InvStep(s, run[0]);
      StaleRun(Step(s, run[0]), run[1..], w);
    }
  }

  /**
   After any run: whatever acts for other sessions, and however much of it, leaves a session and
   its mirror as they are. This covers everything late that is left of earlier sessions of the window.
   */
  lemma StaleLeaseHarmless(run: seq<Action>, late: seq<Action>, w: Window)
    requires CanRun(INITIAL, run) && CanRun(Run(INITIAL, run), late)
    requires w in Run(INITIAL, run).sessions && ActsForOthers(Run(INITIAL, run), late, Run(INITIAL, run).sessions[w].lease)
    ensures Untouched(Run(INITIAL, run), Run(Run(INITIAL, run), late), w)
  {
    InvInitial();
    InvRun(INITIAL, run);
    StaleRun(Run(INITIAL, run), late, w);
  }

  /** After any run, the hooks are exactly those of the mirrors there are. */
  lemma HooksMatchMirrors(run: seq<Action>)
    requires CanRun(INITIAL, run)
    ensures Hooked(Run(INITIAL, run).hooks, Run(INITIAL, run).mirrors)
  {
    InvInitial();
    InvRun(INITIAL, run);
  }

  ghost predicate Gone(s: State, lease: Lease) {
    lease in s.used && forall w :: w in s.sessions ==> s.sessions[w].lease != lease
  }

  /** Sessions of a state that were sessions before, perhaps changed, or carry a lease just given. */
  ghost predicate Descend(s: State, t: State, lease: Lease) {
    s.used <= t.used && forall w :: w in t.sessions ==> t.sessions[w].lease == lease || (w in s.sessions && s.sessions[w].lease == t.sessions[w].lease)
  }

  lemma ArrivedDescends(s: State, call: CallId, owner: Option<int>, session: Lease)
    requires Inv(s) && call in s.calls && s.calls[call].ForContent? && session !in s.used
    ensures Descend(s, Arrived(s, call, owner, session), session)
  {
    var c := s.calls[call];
    if Owns(s.calls, s.opening, call, c.window) && owner.Some? {
      BeginHasRoom(s, call, owner.value, c.armed, session);
    }
  }

  lemma StartupDescends(s: State, a: Action, lease: Lease)
    requires a.StartupEnds? && Enabled(s, a)
    ensures Descend(s, Step(s, a), lease)
  {
  }

  lemma CloseDescends(s: State, w: Window, requestID: Option<string>, lease: Lease)
    ensures Descend(s, CloseOne(s, w, requestID), lease)
    ensures Descend(s, ClosedAll(s, requestID), lease)
  {
  }

  lemma DescendGone(s: State, t: State, lease: Lease, other: Lease)
    requires Gone(s, lease) && Descend(s, t, other) && other != lease
    ensures Gone(t, lease)
  {
  }

  lemma GoneStep(s: State, a: Action, lease: Lease)
    requires Inv(s) && Enabled(s, a) && Gone(s, lease)
    ensures Gone(Step(s, a), lease)
  {
    var other := if a.ContentArrives? then a.session else lease + 1;
    StepDescends(s, a, other);
    DescendGone(s, Step(s, a), lease, other);
  }

  lemma OtherDescends(s: State, a: Action, other: Lease)
    requires Enabled(s, a) && (a.Open? || a.ContentFails? || a.Resume? || a.FrameArrives? || a.Minimize?)
    ensures Descend(s, Step(s, a), other)
  {
    match a
    case Open(_, _, _, _, _, _, _) =>
    case ContentFails(_) =>
    case Resume(_, _) =>
    case FrameArrives(_, _, _, _) =>
    case Minimize(_, _) =>
  }

  lemma StepDescends(s: State, a: Action, other: Lease)
    requires Inv(s) && Enabled(s, a) && (a.ContentArrives? ==> other == a.session)
    ensures Descend(s, Step(s, a), other)
  {
    match a
    case ContentArrives(call, owner, session) => ArrivedDescends(s, call, owner, session);
    case StartupEnds(_, _, _, _) => StartupDescends(s, a, other);
    case Close(w, requestID) => CloseDescends(s, w, requestID, other);
    case CloseAll(requestID) => CloseDescends(s, 0, requestID, other);
    case PanelClosed(session) =>
      if session in s.hooks {
        CloseDescends(s, s.hooks[session], None, other);
      }
    case _ => OtherDescends(s, a, other);
  }

  /** A session that has ended never comes back: its lease is given to no later session. */
  lemma {:induction false} GoneForGood(s: State, run: seq<Action>, lease: Lease)
    requires Inv(s) && CanRun(s, run) && Gone(s, lease)
    ensures Gone(Run(s, run), lease)
    decreases run
  {
    if run != [] {
      InvStep(s, run[0]);
      GoneStep(s, run[0], lease);
      GoneForGood(Step(s, run[0]), run[1..], lease);
    }
  }

  /** No two windows have sessions with the same lease. */
  lemma OneWindow(s: State, v: Window, w: Window)
    requires Inv(s) && v in s.sessions && w in s.sessions && s.sessions[v].lease == s.sessions[w].lease
    ensures v == w
  {
    assert s.hooks[s.mirrors[v].lease] == v && s.hooks[s.mirrors[w].lease] == w;
  }

  lemma FailedGone(s: State, session: Lease, presents: bool)
    requires Inv(s) && session in s.startups && Contains(s.sessions, s.startups[session], session)
    ensures var w := s.startups[session];
      var t := Step(s, StartupEnds(session, false, presents, false));
      && t.sessions == s.sessions - {w} && t.mirrors == s.mirrors - {w} && t.opening == s.opening - {w}
      && session !in t.hooks && Gone(t, session)
  {
    forall v | v in s.sessions && s.sessions[v].lease == session ensures v == s.startups[session] {
      OneWindow(s, v, s.startups[session]);
    }
  }

  /**
   After any run: a startup that fails while its session lasts takes mirror, session, slot and hook of
   the window with it, and whatever happens next, no session has its lease again.
   */
  lemma FailedStartupClears(run: seq<Action>, session: Lease, presents: bool, rest: seq<Action>)
    requires CanRun(INITIAL, run) && session in Run(INITIAL, run).startups
    requires var s := Run(INITIAL, run);
      && Contains(s.sessions, s.startups[session], session)
      && CanRun(Step(s, StartupEnds(session, false, presents, false)), rest)
    ensures var s := Run(INITIAL, run);
      var w, t := s.startups[session], Step(s, StartupEnds(session, false, presents, false));
      && t.sessions == s.sessions - {w} && t.mirrors == s.mirrors - {w} && t.opening == s.opening - {w} && session !in t.hooks
      && Gone(Run(t, rest), session)
  {
    var s := Run(INITIAL, run);
    InvInitial();
    InvRun(INITIAL, run);
    FailedGone(s, session, presents);
    InvStep(s, StartupEnds(session, false, presents, false));
    GoneForGood(Step(s, StartupEnds(session, false, presents, false)), rest, session);
  }

  // ---------------------------------------------------------------- the actor's own methods

  datatype Opened = Joined | Reserving | Declined(reason: string)

  /** What closing `ids` on behalf of `requestID` removes. */
  function Closing(mirrors: map<Window, Mirror>, opening: Slots, ids: set<Window>, requestID: Option<string>): set<Window> {
    set w | w in ids && (w in mirrors || w in opening) && (requestID.Some? ==> OwnedBy(mirrors, opening, w) == requestID)
  }

  /** Both ways of closing remove exactly the closing windows, with the hooks of their mirrors. */
  lemma CloseRemovesClosing(s: State, w: Window, requestID: Option<string>)
    requires s.sessions.Keys == s.mirrors.Keys
    ensures var gone := Closing(s.mirrors, s.opening, {w}, requestID);
      CloseOne(s, w, requestID) == s.(opening := s.opening - gone, mirrors := s.mirrors - gone, sessions := s.sessions - gone,
                                      hooks := s.hooks - Leases(s.mirrors, gone))
    ensures var gone := Closing(s.mirrors, s.opening, s.mirrors.Keys + s.opening.Keys, requestID);
      ClosedAll(s, requestID) == s.(opening := s.opening - gone, mirrors := s.mirrors - gone, sessions := s.sessions - gone,
                                    hooks := s.hooks - Leases(s.mirrors, gone))
  {
    var ids := set w | w in s.mirrors.Keys + s.opening.Keys && MayClose(s, w, requestID);
    assert ids == Closing(s.mirrors, s.opening, s.mirrors.Keys + s.opening.Keys, requestID);
    LeaveOut(s.sessions, ids, s.mirrors.Keys);
    var gone := Closing(s.mirrors, s.opening, {w}, requestID);
    if gone == {w} {
      LeaveOut(s.sessions, {w}, s.mirrors.Keys);
    } else {
      assert gone == {};
      assert CloseOne(s, w, requestID).opening == s.opening - gone;
      assert CloseOne(s, w, requestID).mirrors == s.mirrors - gone;
      assert CloseOne(s, w, requestID).sessions == s.sessions - gone;
      assert CloseOne(s, w, requestID).hooks == s.hooks - Leases(s.mirrors, gone);
    }
  }

  /** What the actor holds. */
  datatype Actor = Actor(sessions: map<Window, Session>, mirrors: map<Window, Mirror>, opening: Slots, hooks: map<Lease, Window>) {
    /** Without windows, their sessions and their hooks. */
    function Without(windows: set<Window>): Actor {
      Actor(sessions - windows, mirrors - windows, opening - windows, hooks - Leases(mirrors, windows))
    }

    /** The windows that closing `ids` one by one removes. */
    function ClosedOf(ids: seq<Window>, requestID: Option<string>): set<Window> {
      Closing(mirrors, opening, (set id | id in ids), requestID)
    }
  }

  class Mirrors {
    const sessions: Sessions
    var mirrors: map<Window, Mirror>
    var opening: Slots
    var hooks: map<Lease, Window>

    predicate Valid()
      reads this, sessions
    {
      sessions.limit == LIMIT && sessions.sessions.Keys == mirrors.Keys
    }

    function View(): Actor
      reads this, sessions
    {
      Actor(sessions.sessions, mirrors, opening, hooks)
    }

    constructor ()
      ensures Valid() && fresh(sessions) && View() == Actor(map[], map[], map[], map[])
    {
      sessions := new Sessions(LIMIT);
      mirrors, opening, hooks := map[], map[], map[];
    }

    /** An open call up to its first await. */
    method Open(w: Window, pid: Option<int>, requestID: Option<string>, trusted: bool, slot: Lease) returns (r: Opened)
      modifies this`opening
      ensures r.Joined? <==> Usable(w) && w in mirrors && OwnerFits(mirrors[w], requestID) && PidFits(mirrors[w], pid)
      ensures r.Reserving? <==> trusted && Usable(w) && w !in mirrors && w !in old(opening) && |mirrors.Keys + old(opening).Keys| < LIMIT
      ensures opening == if r.Reserving? then old(opening)[w := Slot(slot, requestID)] else old(opening)
      ensures r == Declined("pip_invalid_window_id") <==> !Usable(w)
      ensures r == Declined("pip_owner_conflict") <==> Usable(w) && w in mirrors && !OwnerFits(mirrors[w], requestID)
      ensures r == Declined("pip_window_identity_changed") <==>
        Usable(w) && w in mirrors && OwnerFits(mirrors[w], requestID) && !PidFits(mirrors[w], pid)
      ensures r == Declined("screen_recording_missing") <==> Usable(w) && w !in mirrors && !trusted
      ensures r == Declined("pip_open_in_progress") <==> Usable(w) && w !in mirrors && trusted && w in old(opening)
      ensures r == Declined("pip_session_limit") <==>
        Usable(w) && w !in mirrors && trusted && w !in old(opening) && |mirrors.Keys + old(opening).Keys| >= LIMIT
    {
      if w <= 0 || w > MAX_WINDOW {
        return Declined("pip_invalid_window_id");
      }
      if w in mirrors {
        if requestID.Some? && mirrors[w].requestID != requestID {
          return Declined("pip_owner_conflict");
        }
        if pid.Some? && pid.value != mirrors[w].pid {
          return Declined("pip_window_identity_changed");
        }
        return Joined;
      }
      if !trusted {
        return Declined("screen_recording_missing");
      }
      if w in opening {
        return Declined("pip_open_in_progress");
      }
      if |mirrors.Keys + opening.Keys| >= LIMIT {
        return Declined("pip_session_limit");
      }
      opening := opening[w := Slot(slot, requestID)];
      r := Reserving;
    }

    /** The call `c` goes on with the list of windows: its session begins and gets a mirror with a hook. */
    method Begin(c: Waiting, owner: Option<int>, lease: Lease) returns (r: BeginResult)
      requires Valid() && c.ForContent?
      modifies this`mirrors, this`hooks, sessions
      ensures Valid() && r == ArrivalOutcome(old(sessions.sessions), opening, c, owner, lease)
      ensures r.Refused? ==> sessions.sessions == old(sessions.sessions) && mirrors == old(mirrors) && hooks == old(hooks)
      ensures !r.Refused? ==>
        && sessions.sessions == old(sessions.sessions)[c.window := r.session]
        && mirrors == old(mirrors)[c.window := Mirror(r.session.lease, r.session.pid, c.requestID)]
        && hooks == old(hooks)[r.session.lease := c.window]
    {
      if !(c.window in opening && opening[c.window].lease == c.slot) {
        return Refused("pip_open_cancelled");
      }
      if owner.None? {
        return Refused("pip_window_not_found");
      }
      if c.pid.Some? && c.pid != owner {
        return Refused("pip_window_identity_changed");
      }
      r := sessions.Begin(c.window, owner.value, c.armed, lease);
      if !r.Refused? {
        mirrors := mirrors[c.window := Mirror(r.session.lease, r.session.pid, c.requestID)];
        hooks := hooks[r.session.lease := c.window];
      }
    }

    /** What the stream of a session delivers: an error, a picture at `now`, or both. */
    method Receive(w: Window, session: Lease, error: Option<string>, now: Option<int>)
      modifies sessions
      ensures sessions.sessions == FrameHandled(old(sessions.sessions), w, session, error, now)
    {
      if Contains(sessions.sessions, w, session) {
        if error.Some? {
          sessions.Fail(w, session, error.value);
        }
        if now.Some? {
          sessions.Frame(w, session, now.value);
        }
      }
    }

    /** The window was minimized: its mirror is shown, or marked if that fails. */
    method HandleMinimize(w: Window, presented: bool)
      modifies sessions
      ensures sessions.sessions == MinimizeHandled(old(sessions.sessions), mirrors, w, presented)
    {
      if w in mirrors {
        if presented {
          sessions.Present(w, mirrors[w].lease);
        } else {
          sessions.Fail(w, mirrors[w].lease, "pip_privacy_registry_unavailable");
        }
      }
    }

    /** Close one window; `closed` says whether that ended a mirror or a reservation. */
    method CloseIt(id: Window, requestID: Option<string>) returns (closed: bool)
      requires Valid()
      modifies this, sessions
      ensures Valid() && (closed <==> id in Closing(old(mirrors), old(opening), {id}, requestID))
      ensures View() == old(View()).Without(if closed then {id} else {})
    {
      if requestID.Some? && OwnedBy(mirrors, opening, id) != requestID {
        return false;
      }
      closed := id in opening || id in mirrors;
      if id in opening {
        opening := opening - {id};
      }
      if id in mirrors {
        hooks := hooks - {mirrors[id].lease};
        mirrors := mirrors - {id};
        var _ := sessions.Close(id);
      }
    }

    /** Close `ids` one by one; `count` is how many mirrors or reservations that ended. */
    method Close(ids: seq<Window>, requestID: Option<string>) returns (count: nat)
      requires Valid()
      modifies this, sessions
      ensures Valid()
      ensures var gone := old(View()).ClosedOf(ids, requestID);
        View() == old(View()).Without(gone) && count == |gone|
    {
      count := 0;
      ghost var was := View();
      for i := 0 to |ids|
        invariant Valid() && ClosedSoFar(was, View(), ids[..i], requestID, count)
      {
        ghost var now := View();
        var closed := CloseIt(ids[i], requestID);
        CloseNext(was, now, View(), ids, i, requestID, count, closed);
        if closed {
          count := count + 1;
        }
      }
      assert ids[..|ids|] == ids;
    }

    /** The panel of a session closes, or its window is destroyed: its hook closes the window, if the hook is still set. */
    method PanelClosed(session: Lease)
      requires Valid()
      modifies this, sessions
      ensures Valid()
      ensures View() == old(View()).Without(if session in old(hooks) then old(View()).ClosedOf([old(hooks)[session]], None) else {})
    {
      if session in hooks {
        var _ := Close([hooks[session]], None);
      }
    }
  }

  ghost predicate ClosedSoFar(was: Actor, now: Actor, ids: seq<Window>, requestID: Option<string>, count: nat) {
    now == was.Without(was.ClosedOf(ids, requestID)) && count == |was.ClosedOf(ids, requestID)|
  }

  /** One more window is closed exactly if nothing closed it before and it may be closed now. */
  lemma CloseNext(was: Actor, now: Actor, next: Actor, ids: seq<Window>, i: nat, requestID: Option<string>, count: nat, closed: bool)
    requires i < |ids| && ClosedSoFar(was, now, ids[..i], requestID, count)
    requires next == now.Without(if closed then {ids[i]} else {})
    requires closed <==> ids[i] in Closing(now.mirrors, now.opening, {ids[i]}, requestID)
    ensures ClosedSoFar(was, next, ids[..i + 1], requestID, if closed then count + 1 else count)
  {
    var gone := was.ClosedOf(ids[..i], requestID);
    OneMore(was, ids, i, requestID);
    WithoutBoth(was, gone, if closed then {ids[i]} else {});
  }

  lemma OneMore(was: Actor, ids: seq<Window>, i: nat, requestID: Option<string>)
    requires i < |ids|
    ensures var gone := was.ClosedOf(ids[..i], requestID);
      var now := ids[i] in Closing(was.mirrors - gone, was.opening - gone, {ids[i]}, requestID);
      && (now ==> ids[i] !in gone)
      && was.ClosedOf(ids[..i + 1], requestID) == gone + (if now then {ids[i]} else {})
  {
  }

  lemma WithoutBoth(was: Actor, a: set<Window>, b: set<Window>)
    requires a !! b
    ensures was.Without(a).Without(b) == was.Without(a + b)
  {
  }
}
