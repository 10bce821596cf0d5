/**
 Sessions of mirrored windows. A window number may be reused by the system, so every session
 carries a lease, and whatever arrives late must present the lease of its own session.
 */
module MirrorSessions {
  import opened Wrappers

  type Window = int
  type Lease = nat

  const LIMIT := 8
  const MAX_WINDOW := 0xFFFF_FFFF

  datatype Presence = Armed | Opening | Shown

  datatype Session = Session(windowID: Window, pid: int, lease: Lease, state: Presence, lastFrameAt: Option<int>, error: Option<string>)

  datatype BeginResult = Begun(session: Session) | Existing(session: Session) | Refused(reason: string)

  function BeginOutcome(sessions: map<Window, Session>, w: Window, pid: int, armed: bool, lease: Lease, limit: nat): BeginResult {
    if w <= 0 || w > MAX_WINDOW then Refused("pip_invalid_window_id")
    else if pid <= 0 then Refused("pip_invalid_pid")
    else if w in sessions then
      (if sessions[w].pid == pid then Existing(sessions[w]) else Refused("pip_window_identity_changed"))
    else if |sessions| >= limit then Refused("pip_session_limit")
    else Begun(Session(w, pid, lease, if armed then Armed else Opening, None, None))
  }

  predicate Contains(sessions: map<Window, Session>, w: Window, lease: Lease) {
    w in sessions && sessions[w].lease == lease
  }

  function Presented(sessions: map<Window, Session>, w: Window, lease: Lease): map<Window, Session> {
    if Contains(sessions, w, lease) then sessions[w := sessions[w].(state := Shown)] else sessions
  }

  function Framed(sessions: map<Window, Session>, w: Window, lease: Lease, now: int): map<Window, Session> {
    if Contains(sessions, w, lease) then sessions[w := sessions[w].(lastFrameAt := Some(now), error := None)] else sessions
  }

  function Marred(sessions: map<Window, Session>, w: Window, lease: Lease, error: string): map<Window, Session> {
    if Contains(sessions, w, lease) then sessions[w := sessions[w].(error := Some(error))] else sessions
  }

  /** What `begin` answers: the session there is, a new one, or the first reason against it. */
  lemma BeginExactly(sessions: map<Window, Session>, w: Window, pid: int, armed: bool, lease: Lease, limit: nat)
    ensures var r := BeginOutcome(sessions, w, pid, armed, lease, limit);
      var window := 1 <= w && w <= 4_294_967_295;
      && (r == Refused("pip_invalid_window_id") <==> !window)
      && (r == Refused("pip_invalid_pid") <==> window && pid < 1)
      && (r == Refused("pip_window_identity_changed") <==> window && pid >= 1 && w in sessions && sessions[w].pid != pid)
      && (r == Refused("pip_session_limit") <==> window && pid >= 1 && w !in sessions && limit <= |sessions|)
      && (r.Existing? <==> window && pid >= 1 && w in sessions && sessions[w].pid == pid) && (r.Existing? ==> r.session == sessions[w])
      && (r.Begun? <==> window && pid >= 1 && w !in sessions && |sessions| < limit)
      && (r.Begun? ==>
            && r.session.windowID == w && r.session.pid == pid && r.session.lease == lease
            && r.session.state == (if armed then Armed else Opening) && r.session.lastFrameAt == None && r.session.error == None)
  {
  }

  /** Showing, a frame and a failure change their one field, or two, of the session that has the lease, and nothing else. */
  lemma UpdatesExactly(sessions: map<Window, Session>, w: Window, lease: Lease, now: int, error: string, v: Window)
    requires v in sessions
    ensures var shown, framed, marred := Presented(sessions, w, lease), Framed(sessions, w, lease, now), Marred(sessions, w, lease, error);
      var s, own := sessions[v], v == w && sessions[v].lease == lease;
      && shown.Keys == sessions.Keys && framed.Keys == sessions.Keys && marred.Keys == sessions.Keys
      && shown[v] == (if own then Session(s.windowID, s.pid, s.lease, Shown, s.lastFrameAt, s.error) else s)
      && framed[v] == (if own then Session(s.windowID, s.pid, s.lease, s.state, Some(now), None) else s)
      && marred[v] == (if own then Session(s.windowID, s.pid, s.lease, s.state, s.lastFrameAt, Some(error)) else s)
  {
  }

  class Sessions {
    var sessions: map<Window, Session>
    const limit: nat

    constructor (limit: nat)
      ensures sessions == map[] && this.limit == limit
    {
      sessions := map[];
      this.limit := limit;
    }

    method Begin(w: Window, pid: int, armed: bool, lease: Lease) returns (r: BeginResult)
      modifies this
      ensures r == BeginOutcome(old(sessions), w, pid, armed, lease, limit)
      ensures sessions == if r.Begun? then old(sessions)[w := r.session] else old(sessions)
    {
      if w <= 0 || w > MAX_WINDOW {
        return Refused("pip_invalid_window_id");
      }
      if pid <= 0 {
        return Refused("pip_invalid_pid");
      }
      if w in sessions {
        if sessions[w].pid != pid {
          return Refused("pip_window_identity_changed");
        }
        return Existing(sessions[w]);
      }
      if |sessions| >= limit {
        return Refused("pip_session_limit");
      }
      r := Begun(Session(w, pid, lease, if armed then Armed else Opening, None, None));
      sessions := sessions[w := r.session];
    }

    method Present(w: Window, lease: Lease)
      modifies this
      ensures sessions == Presented(old(sessions), w, lease)
    {
      if Contains(sessions, w, lease) {
        sessions := sessions[w := sessions[w].(state := Shown)];
      }
    }

    method Frame(w: Window, lease: Lease, now: int)
      modifies this
      ensures sessions == Framed(old(sessions), w, lease, now)
    {
      if Contains(sessions, w, lease) {
        sessions := sessions[w := sessions[w].(lastFrameAt := Some(now))];
        sessions := sessions[w := sessions[w].(error := None)];
      }
    }

    method Fail(w: Window, lease: Lease, error: string)
      modifies this
      ensures sessions == Marred(old(sessions), w, lease, error)
    {
      if Contains(sessions, w, lease) {
        sessions := sessions[w := sessions[w].(error := Some(error))];
      }
    }

    method Close(w: Window) returns (closed: Option<Session>)
      modifies this
      ensures sessions == old(sessions) - {w}
      ensures closed == if w in old(sessions) then Some(old(sessions)[w]) else None
    {
      closed := if w in sessions then Some(sessions[w]) else None;
      sessions := sessions - {w};
    }
  }
}
