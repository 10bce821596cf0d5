/**
 What the steps of opening and closing window mirrors come to: whose mirror it is that a window
 has, what a request may close, and what each step changes.
 */
module WindowMirrorSteps {
  import opened Wrappers
  import opened MirrorSessions
  import opened WindowMirrors

  // ---------------------------------------------------------------- whose mirror it is

  /** The last open call numbered `call` in `past` is `past[i]`, and `waiting` goes back to it. */
  ghost predicate OpenedAt(past: seq<Action>, i: nat, call: CallId, waiting: Waiting) {
    && i < |past| && past[i].Open? && past[i].call == call && waiting.ForContent?
    && past[i].window == waiting.window && past[i].pid == waiting.pid && past[i].requestID == waiting.requestID
    && forall k :: i < k < |past| && past[k].Open? ==> past[k].call != call
  }

  /** The mirror began with the list of windows at `past[j]`, for the open call at `past[i]`. */
  ghost predicate BegunAt(past: seq<Action>, i: nat, j: nat, w: Window, mirror: Mirror) {
    && i < j < |past| && past[i].Open? && past[i].window == w && past[i].requestID == mirror.requestID
    && (past[i].pid.Some? ==> past[i].pid.value == mirror.pid)
    && past[j] == ContentArrives(past[i].call, Some(mirror.pid), mirror.lease)
    && forall k :: i < k < j && past[k].Open? ==> past[k].call != past[i].call
  }

  ghost predicate CallsTold(past: seq<Action>, calls: Calls) {
    forall c :: c in calls && calls[c].ForContent? ==> exists i :: OpenedAt(past, i, c, calls[c])
  }

  ghost predicate MirrorsTold(past: seq<Action>, mirrors: map<Window, Mirror>) {
    forall w :: w in mirrors ==> exists i, j :: BegunAt(past, i, j, w, mirrors[w])
  }

  /** A reservation belongs to the request of the call that made it, and so does the mirror that follows. */
  ghost predicate Agreed(calls: Calls, opening: Slots, mirrors: map<Window, Mirror>) {
    && (forall w :: w in opening && w in mirrors ==> opening[w].requestID == mirrors[w].requestID)
    && (forall c, w :: Owns(calls, opening, c, w) && calls[c].ForContent? ==> opening[w].requestID == calls[c].requestID)
  }

  ghost predicate Told(past: seq<Action>, s: State) {
    CallsTold(past, s.calls) && MirrorsTold(past, s.mirrors) && Agreed(s.calls, s.opening, s.mirrors)
  }

  lemma MirrorsToldOn(past: seq<Action>, a: Action, was: map<Window, Mirror>, mirrors: map<Window, Mirror>)
    requires MirrorsTold(past, was) && forall w :: w in mirrors ==> w in was && mirrors[w] == was[w]
    ensures MirrorsTold(past + [a], mirrors)
  {
    forall w | w in mirrors ensures exists i, j :: BegunAt(past + [a], i, j, w, mirrors[w]) {
      var i, j :| BegunAt(past, i, j, w, was[w]);
      BegunOn(past, a, i, j, w, was[w]);
    }
  }

  lemma BegunOn(past: seq<Action>, a: Action, i: nat, j: nat, w: Window, mirror: Mirror)
    requires BegunAt(past, i, j, w, mirror)
    ensures BegunAt(past + [a], i, j, w, mirror)
  {
  }

  lemma CallsToldOn(past: seq<Action>, a: Action, was: Calls, calls: Calls)
    requires CallsTold(past, was)
    requires forall c :: c in calls && calls[c].ForContent? ==> c in was && calls[c] == was[c] && (a.Open? ==> a.call != c)
    ensures CallsTold(past + [a], calls)
  {
    forall c | c in calls && calls[c].ForContent? ensures exists i :: OpenedAt(past + [a], i, c, calls[c]) {
      var i :| OpenedAt(past, i, c, was[c]);
      OpenedOn(past, a, i, c, was[c]);
    }
  }

  lemma OpenedOn(past: seq<Action>, a: Action, i: nat, call: CallId, waiting: Waiting)
    requires OpenedAt(past, i, call, waiting) && (a.Open? ==> a.call != call)
    ensures OpenedAt(past + [a], i, call, waiting)
  {
  }

  /** Fewer calls, slots and mirrors, and nothing new. */
  ghost predicate Less(s: State, t: State) {
    && (forall c :: c in t.calls ==> c in s.calls && t.calls[c] == s.calls[c])
    && (forall w :: w in t.opening ==> w in s.opening && t.opening[w] == s.opening[w])
    && (forall w :: w in t.mirrors ==> w in s.mirrors && t.mirrors[w] == s.mirrors[w])
  }

  lemma LessTold(past: seq<Action>, a: Action, s: State, t: State)
    requires Told(past, s) && Less(s, t) && !a.Open?
    ensures Told(past + [a], t)
  {
    CallsToldOn(past, a, s.calls, t.calls);
    MirrorsToldOn(past, a, s.mirrors, t.mirrors);
    forall c, w | Owns(t.calls, t.opening, c, w) && t.calls[c].ForContent? ensures t.opening[w].requestID == t.calls[c].requestID {
      assert Owns(s.calls, s.opening, c, w);
    }
  }

  lemma EndCallLess(s: State, call: CallId)
    requires call in s.calls
    ensures Less(s, EndCall(s, call))
  {
  }

  lemma CloseLess(s: State, w: Window, requestID: Option<string>)
    ensures Less(s, CloseOne(s, w, requestID)) && Less(s, ClosedAll(s, requestID))
  {
  }

  lemma StartupLess(s: State, a: Action)
    requires Enabled(s, a) && a.StartupEnds?
    ensures Less(s, Step(s, a))
  {
  }

  lemma ResumeLess(s: State, a: Action)
    requires Enabled(s, a) && a.Resume?
    ensures Less(s, Step(s, a))
  {
    EndCallLess(s, a.call);
  }

  lemma OtherLess(s: State, a: Action)
    requires Enabled(s, a) && !a.Open? && !a.ContentArrives?
    ensures Less(s, Step(s, a))
  {
    match a
    case ContentFails(call) => EndCallLess(s, call);
    case StartupEnds(_, _, _, _) => StartupLess(s, a);
    case Resume(_, _) => ResumeLess(s, a);
    case Close(w, requestID) => CloseLess(s, w, requestID);
    case CloseAll(requestID) => CloseLess(s, 0, requestID);
    case FrameArrives(_, _, _, _) =>
    case Minimize(_, _) =>
    case PanelClosed(session) =>
      if session in s.hooks {
        CloseLess(s, s.hooks[session], None);
      }
  }

  lemma JoinTold(past: seq<Action>, a: Action, s: State, calls: Calls)
    requires Told(past, s) && a.Open? && a.call !in s.calls
    requires forall c :: c in calls ==> calls[c].ForExisting? || (c in s.calls && calls[c] == s.calls[c])
    ensures Told(past + [a], s.(calls := calls))
  {
    CallsToldOn(past, a, s.calls, calls);
    MirrorsToldOn(past, a, s.mirrors, s.mirrors);
    forall c, w | Owns(calls, s.opening, c, w) && calls[c].ForContent? ensures s.opening[w].requestID == calls[c].requestID {
      assert Owns(s.calls, s.opening, c, w);
    }
  }

  lemma ReserveTold(past: seq<Action>, a: Action, s: State, waiting: Waiting)
    requires Told(past, s) && Inv(s) && a.Open? && a.call !in s.calls && CanReserve(s, a.window) && a.slot !in s.used
    requires waiting == ForContent(a.window, a.slot, a.armed, a.pid, a.requestID)
    ensures Told(past + [a], Reserved(s, a.call, waiting))
  {
    var t := Reserved(s, a.call, waiting);
    MirrorsToldOn(past, a, s.mirrors, s.mirrors);
    CallsToldOn(past, a, s.calls, s.calls);
    assert OpenedAt(past + [a], |past|, a.call, waiting);
    forall c | c in t.calls && t.calls[c].ForContent? ensures exists i :: OpenedAt(past + [a], i, c, t.calls[c]) {
      if c != a.call {
        var i :| OpenedAt(past + [a], i, c, s.calls[c]);
      }
    }
    ReserveAgreed(s, a.call, waiting);
  }

  lemma ReserveAgreed(s: State, call: CallId, waiting: Waiting)
    requires OwnSlots(s.calls, s.used) && Agreed(s.calls, s.opening, s.mirrors) && waiting.ForContent? && waiting.slot !in s.used
    requires waiting.window !in s.mirrors
    ensures var t := Reserved(s, call, waiting); Agreed(t.calls, t.opening, t.mirrors)
  {
    var t := Reserved(s, call, waiting);
    forall c, w | Owns(t.calls, t.opening, c, w) && t.calls[c].ForContent? ensures t.opening[w].requestID == t.calls[c].requestID {
      if c != call {
        assert Owns(s.calls, s.opening, c, w);
      }
    }
  }

  lemma OpenIs(s: State, a: Action) returns (t: State)
    requires Enabled(s, a) && a.Open?
    ensures t == Step(s, a)
    ensures a.call !in s.calls && a.slot !in s.used
    ensures (CanReserve(s, a.window) && t == Reserved(s, a.call, ForContent(a.window, a.slot, a.armed, a.pid, a.requestID)))
      || (t == s.(calls := t.calls) && forall c :: c in t.calls ==> t.calls[c].ForExisting? || (c in s.calls && t.calls[c] == s.calls[c]))
  {
    t := Step(s, a);
  }

  lemma OpenTold(past: seq<Action>, s: State, a: Action)
    requires Told(past, s) && Inv(s) && Enabled(s, a) && a.Open?
    ensures Told(past + [a], Step(s, a))
  {
    var t := OpenIs(s, a);
    if CanReserve(s, a.window) && t == Reserved(s, a.call, ForContent(a.window, a.slot, a.armed, a.pid, a.requestID)) {
      ReserveTold(past, a, s, ForContent(a.window, a.slot, a.armed, a.pid, a.requestID));
    } else {
      JoinTold(past, a, s, t.calls);
    }
  }

  lemma StartedTold(past: seq<Action>, s: State, call: CallId, session: Session)
    requires Told(past, s) && call in s.calls && s.calls[call].ForContent? && Owns(s.calls, s.opening, call, s.calls[call].window)
    requires session.windowID == s.calls[call].window && (s.calls[call].pid.Some? ==> s.calls[call].pid.value == session.pid)
    requires OwnSlots(s.calls, s.used)
    ensures Told(past + [ContentArrives(call, Some(session.pid), session.lease)], Started(s, call, session))
  {
    var a, t, w := ContentArrives(call, Some(session.pid), session.lease), Started(s, call, session), session.windowID;
    CallsToldOn(past, a, s.calls, t.calls);
    MirrorsToldOn(past, a, s.mirrors, s.mirrors);
    var i :| OpenedAt(past, i, call, s.calls[call]);
    assert BegunAt(past + [a], i, |past|, w, t.mirrors[w]);
    StartedAgreed(s, call, session);
  }

  lemma StartedAgreed(s: State, call: CallId, session: Session)
    requires OwnSlots(s.calls, s.used) && Agreed(s.calls, s.opening, s.mirrors)
    requires call in s.calls && s.calls[call].ForContent? && Owns(s.calls, s.opening, call, s.calls[call].window)
    ensures var t := Started(s, call, session); Agreed(t.calls, t.opening, t.mirrors)
  {
    var t := Started(s, call, session);
    forall c, w | Owns(t.calls, t.opening, c, w) && t.calls[c].ForContent? ensures t.opening[w].requestID == t.calls[c].requestID {
      assert Owns(s.calls, s.opening, c, w);
    }
  }

  lemma ArrivedTold(past: seq<Action>, s: State, a: Action)
    requires Told(past, s) && Inv(s) && Enabled(s, a) && a.ContentArrives?
    ensures Told(past + [a], Step(s, a))
  {
    var c := s.calls[a.call];
    var begun := ArrivalOutcome(s.sessions, s.opening, c, a.owner, a.session);
    ArrivedIs(s, a.call, a.owner, a.session);
    if begun.Refused? {
      LessTold(past, a, s, EndCall(s, a.call));
    } else {
      BeginHasRoom(s, a.call, a.owner.value, c.armed, a.session);
      ArrivedPid(s, a.call, a.owner, a.session);
      StartedTold(past, s, a.call, begun.session);
    }
  }

  lemma ArrivedPid(s: State, call: CallId, owner: Option<int>, session: Lease)
    requires call in s.calls && s.calls[call].ForContent?
    ensures var begun := ArrivalOutcome(s.sessions, s.opening, s.calls[call], owner, session);
      begun.Begun? ==> owner == Some(begun.session.pid) && (s.calls[call].pid.Some? ==> s.calls[call].pid == owner)
  {
  }

  lemma ToldStep(past: seq<Action>, s: State, a: Action)
    requires Told(past, s) && Inv(s) && Enabled(s, a)
    ensures Told(past + [a], Step(s, a))
  {
    if a.Open? {
      OpenTold(past, s, a);
    } else if a.ContentArrives? {
      ArrivedTold(past, s, a);
    } else {
      OtherLess(s, a);
      LessTold(past, a, s, Step(s, a));
    }
  }

  lemma {:induction false} ToldRun(past: seq<Action>, s: State, run: seq<Action>)
    requires Told(past, s) && Inv(s) && CanRun(s, run)
    ensures Told(past + run, Run(s, run))
    decreases run
  {
    if run == [] {
      assert past + run == past;
    } else {
      ToldStep(past, s, run[0]);
      InvStep(s, run[0]);
      ToldRun(past + [run[0]], Step(s, run[0]), run[1..]);
      assert past + [run[0]] + run[1..] == past + run;
    }
  }

  lemma ToldFromStart(run: seq<Action>)
    requires CanRun(INITIAL, run)
    ensures Told(run, Run(INITIAL, run))
  {
    InvInitial();
    ToldRun([], INITIAL, run);
    assert [] + run == run;
  }

  /** After any run: a mirror has the request of the open call it began for, and the process that owned the window then. */
  lemma MirrorOfItsOpen(run: seq<Action>, w: Window) returns (i: nat, j: nat)
    requires CanRun(INITIAL, run) && w in Run(INITIAL, run).mirrors
    ensures BegunAt(run, i, j, w, Run(INITIAL, run).mirrors[w])
  {
    ToldFromStart(run);
    i, j :| BegunAt(run, i, j, w, Run(INITIAL, run).mirrors[w]);
  }

  /**
   After any run, closing for a request takes a mirror, with its session and its hook, exactly if it was
   opened for that request; a reservation without a mirror likewise. Closing for no request takes either.
   */
  lemma CloseTakes(run: seq<Action>, requestID: Option<string>, v: Window, w: Window)
    requires CanRun(INITIAL, run)
    ensures var s := Run(INITIAL, run);
      Taken(s, CloseOne(s, v, requestID), w, v == w, requestID) && Taken(s, ClosedAll(s, requestID), w, true, requestID)
  {
    ToldFromStart(run);
    InvInitial();
    InvRun(INITIAL, run);
    CloseOneTakes(Run(INITIAL, run), requestID, v, w);
    CloseAllTakes(Run(INITIAL, run), requestID, w);
  }

  /** Closing took the window's mirror or reservation, exactly if it was meant and is the request's own. */
  ghost predicate Taken(s: State, t: State, w: Window, meant: bool, requestID: Option<string>) {
    && (w in s.mirrors ==>
          var gone := meant && (requestID.None? || requestID == s.mirrors[w].requestID);
          && (w !in t.mirrors <==> gone) && (w !in t.sessions <==> gone) && (s.mirrors[w].lease !in t.hooks <==> gone)
          && (w in s.opening ==> (w !in t.opening <==> gone)))
    && (w in s.opening && w !in s.mirrors ==>
          (w !in t.opening <==> meant && (requestID.None? || requestID == s.opening[w].requestID)))
    && (w in t.mirrors ==> w in s.mirrors && t.mirrors[w] == s.mirrors[w])
    && (w in t.sessions ==> w in s.sessions && t.sessions[w] == s.sessions[w])
    && (w in t.opening ==> w in s.opening && t.opening[w] == s.opening[w])
  }

  lemma HookGone(s: State, windows: set<Window>, w: Window)
    requires Hooked(s.hooks, s.mirrors) && w in s.mirrors
    ensures s.mirrors[w].lease in s.hooks - Leases(s.mirrors, windows) <==> w !in windows
  {
    var lease := s.mirrors[w].lease;
    if lease in Leases(s.mirrors, windows) {
      var v :| v in windows && v in s.mirrors && s.mirrors[v].lease == lease;
      assert s.hooks[lease] == v == w;
    }
  }

  lemma CloseOneTakes(s: State, requestID: Option<string>, v: Window, w: Window)
    requires Inv(s) && Agreed(s.calls, s.opening, s.mirrors)
    ensures Taken(s, CloseOne(s, v, requestID), w, v == w, requestID)
  {
    if w in s.mirrors {
      HookGone(s, {v}, w);
    }
  }

  lemma CloseAllTakes(s: State, requestID: Option<string>, w: Window)
    requires Inv(s) && Agreed(s.calls, s.opening, s.mirrors)
    ensures Taken(s, ClosedAll(s, requestID), w, true, requestID)
  {
    var ids := set w | w in s.mirrors.Keys + s.opening.Keys && MayClose(s, w, requestID);
    if w in s.mirrors {
      HookGone(s, ids, w);
    }
  }

  // ---------------------------------------------------------------- what each step does

  /** A mirror the call may use: of the request it names, if it names one, and of the process it names. */
  predicate Requested(m: Mirror, pid: Option<int>, requestID: Option<string>) {
    (requestID == None || m.requestID == requestID) && (pid == None || pid == Some(m.pid))
  }

  predicate IsWindow(w: Window) {
    1 <= w && w <= 4_294_967_295
  }

  /** A call waits for a mirror that is there, if it is one it may use; */
  lemma OpenJoins(s: State, a: Action)
    requires Enabled(s, a) && a.Open? && IsWindow(a.window) && a.window in s.mirrors && Requested(s.mirrors[a.window], a.pid, a.requestID)
    ensures Step(s, a) == s.(calls := s.calls[a.call := ForExisting(a.window, s.mirrors[a.window].lease, a.armed)])
  {
  }

  /** it reserves a window without a mirror, if it may record and there are fewer than eight; */
  lemma OpenReserves(s: State, a: Action)
    requires Enabled(s, a) && a.Open? && IsWindow(a.window) && a.window !in s.mirrors && a.window !in s.opening && a.trusted
    requires |s.mirrors.Keys + s.opening.Keys| < 8
    ensures var t := Step(s, a);
      && t.opening == s.opening[a.window := Slot(a.slot, a.requestID)]
      && t.calls == s.calls[a.call := ForContent(a.window, a.slot, a.armed, a.pid, a.requestID)]
      && t.sessions == s.sessions && t.mirrors == s.mirrors && t.hooks == s.hooks && t.startups == s.startups && t.used == s.used + {a.slot}
  {
  }

  /** and else it ends at once. */
  lemma OpenDeclined(s: State, a: Action)
    requires Enabled(s, a) && a.Open?
    requires !(IsWindow(a.window) && a.window in s.mirrors && Requested(s.mirrors[a.window], a.pid, a.requestID))
    requires !(IsWindow(a.window) && a.window !in s.mirrors && a.window !in s.opening && a.trusted && |s.mirrors.Keys + s.opening.Keys| < 8)
    ensures Step(s, a) == s
  {
  }

  /** A call is gone, with its reservation if that is still its own; nothing else changed. */
  ghost predicate Ended(s: State, t: State, call: CallId)
    requires call in s.calls
  {
    var c := s.calls[call];
    var own := !c.ForExisting? && c.window in s.opening && s.opening[c.window].lease == c.slot;
    && call !in t.calls && (forall d :: d != call ==> (d in t.calls <==> d in s.calls) && (d in s.calls ==> t.calls[d] == s.calls[d]))
    && (forall w :: w in t.opening <==> w in s.opening && !(own && w == c.window)) && (forall w :: w in t.opening ==> t.opening[w] == s.opening[w])
    && t.mirrors == s.mirrors && t.hooks == s.hooks && t.startups == s.startups
  }

  lemma EndCallExactly(s: State, call: CallId)
    requires call in s.calls
    ensures Ended(s, EndCall(s, call), call) && EndCall(s, call).sessions == s.sessions
  {
  }

  /** The window list begins a session for a call that still holds its reservation if the window is there, and its process is the one asked for; else the call ends. */
  lemma ArrivedExactly(s: State, call: CallId, owner: Option<int>, lease: Lease)
    requires Inv(s) && Enabled(s, ContentArrives(call, owner, lease))
    ensures var c, t := s.calls[call], Step(s, ContentArrives(call, owner, lease));
      if c.window in s.opening && s.opening[c.window].lease == c.slot && owner.Some? && owner.value > 0 && (c.pid == None || c.pid == owner)
      then
        && t.sessions == s.sessions[c.window := Session(c.window, owner.value, lease, if c.armed then Armed else Opening, None, None)]
        && t.mirrors == s.mirrors[c.window := Mirror(lease, owner.value, c.requestID)]
        && t.calls == s.calls[call := ForStartup(c.window, c.slot, lease)] && t.opening == s.opening
        && t.startups == s.startups[lease := c.window] && t.hooks == s.hooks[lease := c.window] && lease in t.used
      else Ended(s, t, call) && t.sessions == s.sessions
  {
    var c := s.calls[call];
    ArrivedIs(s, call, owner, lease);
    EndCallExactly(s, call);
    if Owns(s.calls, s.opening, call, c.window) && owner.Some? {
      BeginHasRoom(s, call, owner.value, c.armed, lease);
    }
  }

  /** A session is shown, all else about it and every other one as before; `shown` says whether it is at all. */
  ghost predicate ShownIn(was: map<Window, Session>, now: map<Window, Session>, w: Window, lease: Lease, shown: bool) {
    && now.Keys == was.Keys
    && forall v :: v in was ==>
         var r := was[v];
         now[v] == if shown && v == w && r.lease == lease then Session(r.windowID, r.pid, r.lease, Shown, r.lastFrameAt, r.error) else r
  }

  /** Mirror, session, reservation and hook of a window are gone; all others are as they were. */
  ghost predicate WindowGone(s: State, t: State, w: Window) {
    && w !in t.mirrors && w !in t.sessions && w !in t.opening && (forall l :: l in t.hooks <==> l in s.hooks && s.hooks[l] != w)
    && (forall v :: v != w ==> (v in t.mirrors <==> v in s.mirrors) && (v in t.sessions <==> v in s.sessions) && (v in t.opening <==> v in s.opening))
    && (forall v :: v in t.mirrors ==> t.mirrors[v] == s.mirrors[v]) && (forall v :: v in t.sessions ==> t.sessions[v] == s.sessions[v])
    && (forall v :: v in t.opening ==> t.opening[v] == s.opening[v]) && (forall l :: l in t.hooks ==> t.hooks[l] == s.hooks[l])
    && t.calls == s.calls
  }

  lemma ClosedGone(s: State, w: Window)
    requires Inv(s)
    ensures WindowGone(s, CloseOne(s, w, None), w)
  {
    forall l ensures l in Leases(s.mirrors, {w}) <==> w in s.mirrors && s.mirrors[w].lease == l {
      if w in s.mirrors {
        assert w in {w};
      }
    }
    forall l | l in s.hooks ensures s.hooks[l] == w <==> l in Leases(s.mirrors, {w}) {
      HookOf(s.hooks, s.mirrors, l);
    }
  }

  /** A startup that ends after its session changes nothing else. */
  lemma StartupOfEnded(s: State, lease: Lease, started: bool, presents: bool, presented: bool)
    requires lease in s.startups && !(s.startups[lease] in s.sessions && s.sessions[s.startups[lease]].lease == lease)
    ensures Step(s, StartupEnds(lease, started, presents, presented)) == s.(startups := s.startups - {lease})
  {
  }

  /** One that succeeds shows its session if it is to, and if that works; */
  lemma StartupSucceeds(s: State, lease: Lease, presents: bool, presented: bool)
    requires lease in s.startups && s.startups[lease] in s.sessions && s.sessions[s.startups[lease]].lease == lease && (presents ==> presented)
    ensures var t := Step(s, StartupEnds(lease, true, presents, presented));
      && t == s.(startups := s.startups - {lease}, sessions := t.sessions)
      && ShownIn(s.sessions, t.sessions, s.startups[lease], lease, presents)
  {
  }

  lemma StartupCloses(s: State, lease: Lease, started: bool, presents: bool, presented: bool)
    requires lease in s.startups && s.startups[lease] in s.sessions && s.sessions[s.startups[lease]].lease == lease
    requires !started || (presents && !presented)
    ensures Step(s, StartupEnds(lease, started, presents, presented)) == CloseOne(s.(startups := s.startups - {lease}), s.startups[lease], None)
  {
  }

  /** and one that fails, or cannot show it, closes the window. */
  lemma StartupFails(s: State, lease: Lease, started: bool, presents: bool, presented: bool)
    requires Inv(s) && lease in s.startups && s.startups[lease] in s.sessions && s.sessions[s.startups[lease]].lease == lease
    requires !started || (presents && !presented)
    ensures var s' := s.(startups := s.startups - {lease});
      WindowGone(s', Step(s, StartupEnds(lease, started, presents, presented)), s.startups[lease])
  {
    StartupOver(s, lease);
    StartupCloses(s, lease, started, presents, presented);
    ClosedGone(s.(startups := s.startups - {lease}), s.startups[lease]);
  }

  /** A call that waited goes on: one that waited for another's startup shows the mirror, unless that failed or it is to wait for minimizing. */
  lemma ResumeExactly(s: State, call: CallId, threw: bool)
    requires Enabled(s, Resume(call, threw))
    ensures var c, t := s.calls[call], Step(s, Resume(call, threw));
      Ended(s, t, call) && ShownIn(s.sessions, t.sessions, c.window, c.session, c.ForExisting? && threw == false && c.armed == false)
  {
    EndCallExactly(s, call);
  }

  /** A frame and an error arrive at their session, and change nothing else. */
  lemma FrameExactly(s: State, w: Window, lease: Lease, error: Option<string>, now: Option<int>, v: Window)
    requires v in s.sessions
    ensures var t, r := Step(s, FrameArrives(w, lease, error, now)), s.sessions[v];
      && t.sessions.Keys == s.sessions.Keys && t == s.(sessions := t.sessions)
      && t.sessions[v] ==
           if v == w && r.lease == lease
           then Session(r.windowID, r.pid, r.lease, r.state, if now == None then r.lastFrameAt else now,
                        if now != None then None else if error != None then error else r.error)
           else r
  {
  }

  /** A minimized window's session is shown, or marked. */
  lemma MinimizeExactly(s: State, w: Window, presented: bool, v: Window)
    requires Inv(s) && v in s.sessions
    ensures var t, r := Step(s, Minimize(w, presented)), s.sessions[v];
      && t.sessions.Keys == s.sessions.Keys && t == s.(sessions := t.sessions)
      && t.sessions[v] ==
           if v != w then r
           else if presented then Session(r.windowID, r.pid, r.lease, Shown, r.lastFrameAt, r.error)
           else Session(r.windowID, r.pid, r.lease, r.state, r.lastFrameAt, Some("pip_privacy_registry_unavailable"))
  {
    SessionOf(s.mirrors, s.sessions, v);
  }

  /** A panel whose hook is set closes its window; any other does nothing. */
  lemma PanelExactly(s: State, lease: Lease)
    requires Inv(s)
    ensures var t := Step(s, PanelClosed(lease)); if lease in s.hooks then WindowGone(s, t, s.hooks[lease]) else t == s
  {
    if lease in s.hooks {
      ClosedGone(s, s.hooks[lease]);
    }
  }

  lemma RunCons(s: State, a: Action, rest: seq<Action>)
    requires Enabled(s, a) && CanRun(Step(s, a), rest)
    ensures CanRun(s, [a] + rest) && Run(s, [a] + rest) == Run(Step(s, a), rest)
  {
    assert ([a] + rest)[1..] == rest;
  }

  lemma RunTwo(s: State, a: Action, b: Action)
    requires Enabled(s, a) && Enabled(Step(s, a), b)
    ensures CanRun(s, [a, b]) && Run(s, [a, b]) == Step(Step(s, a), b)
  {
    RunCons(Step(s, a), b, []);
    RunCons(s, a, [b]);
    assert [b] + [] == [b] && [a] + [b] == [a, b];
  }

  lemma {:induction false} RunOn(s: State, first: seq<Action>, second: seq<Action>)
    requires CanRun(s, first) && CanRun(Run(s, first), second)
    ensures CanRun(s, first + second) && Run(s, first + second) == Run(Run(s, first), second)
    decreases first
  {
    if first == [] {
      assert first + second == second;
    } else {
      RunOn(Step(s, first[0]), first[1..], second);
      RunCons(s, first[0], first[1..] + second);
      assert [first[0]] + (first[1..] + second) == first + second;
    }
  }

  /** An open call for a window without a mirror, with room and leave to record, that names its process. */
  predicate Opens(s: State, a: Action, pid: int) {
    && a.Open? && !a.armed && a.trusted && IsWindow(a.window) && a.window !in s.mirrors && a.window !in s.opening
    && |s.mirrors.Keys + s.opening.Keys| < 8 && a.pid == Some(pid) && pid > 0
  }

  /** The call has got its window's session, and waits for the startup. */
  ghost predicate Waits(s: State, t: State, a: Action, pid: int, lease: Lease)
    requires a.Open?
  {
    && t.sessions == s.sessions[a.window := Session(a.window, pid, lease, Opening, None, None)]
    && t.mirrors == s.mirrors[a.window := Mirror(lease, pid, a.requestID)] && t.opening == s.opening[a.window := Slot(a.slot, a.requestID)]
    && t.calls == s.calls[a.call := ForStartup(a.window, a.slot, lease)] && t.startups == s.startups[lease := a.window]
  }

  lemma ArrivesThere(s: State, t: State, a: Action, pid: int, lease: Lease)
    requires a.Open? && !a.armed && a.pid == Some(pid) && pid > 0 && Inv(t) && Enabled(t, ContentArrives(a.call, Some(pid), lease))
    requires t.opening == s.opening[a.window := Slot(a.slot, a.requestID)]
    requires t.calls == s.calls[a.call := ForContent(a.window, a.slot, a.armed, a.pid, a.requestID)]
    requires t.sessions == s.sessions && t.mirrors == s.mirrors && t.startups == s.startups
    ensures Waits(s, Step(t, ContentArrives(a.call, Some(pid), lease)), a, pid, lease)
  {
    ArrivedExactly(t, a.call, Some(pid), lease);
  }

  lemma ReservedArrives(s: State, a: Action, pid: int, lease: Lease)
    requires Inv(s) && Enabled(s, a) && Opens(s, a, pid) && lease !in s.used && lease != a.slot
    ensures Enabled(Step(s, a), ContentArrives(a.call, Some(pid), lease))
    ensures Waits(s, Step(Step(s, a), ContentArrives(a.call, Some(pid), lease)), a, pid, lease)
  {
    OpenReserves(s, a);
    InvStep(s, a);
    ArrivesThere(s, Step(s, a), a, pid, lease);
  }

  /** The call has ended with a mirror that is shown, and its reservation with it. */
  ghost predicate IsOpen(s: State, t: State, a: Action, pid: int, lease: Lease)
    requires a.Open?
  {
    && t.mirrors == s.mirrors[a.window := Mirror(lease, pid, a.requestID)] && t.opening == s.opening && t.calls == s.calls
    && t.sessions == s.sessions[a.window := Session(a.window, pid, lease, Shown, None, None)]
  }

  lemma StartedResumes(s: State, t: State, a: Action, pid: int, lease: Lease)
    requires a.Open? && Waits(s, t, a, pid, lease) && a.call !in s.calls && a.window !in s.opening
    ensures var c, d := StartupEnds(lease, true, true, true), Resume(a.call, false);
      Enabled(t, c) && Enabled(Step(t, c), d) && IsOpen(s, Step(Step(t, c), d), a, pid, lease)
  {
    var c, d := StartupEnds(lease, true, true, true), Resume(a.call, false);
    StartupSucceeds(t, lease, true, true);
    var t' := Step(t, c);
    assert t'.sessions == s.sessions[a.window := Session(a.window, pid, lease, Shown, None, None)];
    ResumeExactly(t', a.call, false);
    var u := Step(t', d);
    assert u.calls == s.calls && u.opening == s.opening && u.sessions == t'.sessions;
  }

  /** A whole open call that nothing interrupts ends with a mirror of its request that is shown, and with nothing reserved. */
  lemma OpenWorks(s: State, a: Action, pid: int, lease: Lease)
    requires Inv(s) && Enabled(s, a) && Opens(s, a, pid) && lease !in s.used && lease != a.slot
    ensures var run := [a, ContentArrives(a.call, Some(pid), lease)] + [StartupEnds(lease, true, true, true), Resume(a.call, false)];
      CanRun(s, run) && IsOpen(s, Run(s, run), a, pid, lease)
  {
    var b, c, d := ContentArrives(a.call, Some(pid), lease), StartupEnds(lease, true, true, true), Resume(a.call, false);
    ReservedArrives(s, a, pid, lease);
    RunTwo(s, a, b);
    var t := Run(s, [a, b]);
    StartedResumes(s, t, a, pid, lease);
    RunTwo(t, c, d);
    RunOn(s, [a, b], [c, d]);
  }

  // ---------------------------------------------------------------- the actor's closing as steps

  /** What the actor holds in a state. */
  function ActorOf(s: State): Actor {
    Actor(s.sessions, s.mirrors, s.opening, s.hooks)
  }

  /** The actor that closes one window, or lists all that have a mirror or a reservation and closes them, takes the step of the state machine. */
  lemma ClosingSteps(s: State, w: Window, ids: seq<Window>, requestID: Option<string>)
    requires s.sessions.Keys == s.mirrors.Keys && forall v :: v in ids <==> v in s.mirrors || v in s.opening
    ensures ActorOf(s).Without(ActorOf(s).ClosedOf([w], requestID)) == ActorOf(CloseOne(s, w, requestID))
    ensures ActorOf(s).Without(ActorOf(s).ClosedOf(ids, requestID)) == ActorOf(ClosedAll(s, requestID))
  {
    CloseRemovesClosing(s, w, requestID);
    assert (set id | id in [w]) == {w};
    var listed := set id | id in ids;
    forall v: Window ensures v in listed <==> v in s.mirrors.Keys + s.opening.Keys {
      assert v in ids <==> v in s.mirrors || v in s.opening;
    }
    assert listed == s.mirrors.Keys + s.opening.Keys;
    assert ActorOf(s).ClosedOf([w], requestID) == Closing(s.mirrors, s.opening, {w}, requestID);
    assert ActorOf(s).ClosedOf(ids, requestID) == Closing(s.mirrors, s.opening, s.mirrors.Keys + s.opening.Keys, requestID);
  }
}
