/** The tables of the activity store, as finite maps from row identifiers to rows. */
module ActivityDatabase {
  import opened Wrappers

  type SessionId = string
  type EventId = string
  type SnapshotId = string
  type FrameId = string

  /** One row of the event table; `content` stands for its projected columns. */
  datatype Event = Event(session: SessionId, content: string)

  datatype Tier = Hot | Warm | Cold

  datatype Snapshot = Snapshot(session: SessionId, capture: Option<string>, capturedAt: int, hasFile: bool, bytes: nat, tier: Tier)

  /** The text recognised on one snapshot; a snapshot has at most one. */
  datatype Frame = Frame(session: SessionId, snapshot: SnapshotId, text: string)

  /** Everything an analysis is computed from. */
  datatype Inputs = Inputs(apps: seq<string>, events: seq<string>, ocrTexts: seq<string>)

  datatype Analysis = Analysis(inputs: Inputs, result: string)

  /** The analysis columns of a session row. */
  datatype Outcome =
    | Pending
    | Skipped(details: string)
    | Failed(details: string)
    | Saved(analysis: Analysis)

  datatype Session = Session(
    startedAt: int,
    endedAt: Option<int>,
    eventCount: int,
    snapshotCount: int,
    apps: seq<string>,
    outcome: Outcome)

  datatype Database = Database(
    revision: nat,
    sessions: map<SessionId, Session>,
    events: map<EventId, Event>,
    snapshots: map<SnapshotId, Snapshot>,
    frames: map<FrameId, Frame>)

  function EventsOf(db: Database, s: SessionId): map<EventId, Event> {
    map e | e in db.events && db.events[e].session == s :: db.events[e]
  }

  function FramesOf(db: Database, s: SessionId): map<FrameId, Frame> {
    map f | f in db.frames && db.frames[f].session == s :: db.frames[f]
  }

  function SnapshotsOf(db: Database, s: SessionId): map<SnapshotId, Snapshot> {
    map p | p in db.snapshots && db.snapshots[p].session == s :: db.snapshots[p]
  }

  /** Every row belongs to an existing session and every frame to an existing snapshot. */
  ghost predicate Referential(db: Database) {
    && (forall e :: e in db.events ==> db.events[e].session in db.sessions)
    && (forall p :: p in db.snapshots ==> db.snapshots[p].session in db.sessions)
    && (forall f :: f in db.frames ==> db.frames[f].session in db.sessions && db.frames[f].snapshot in db.snapshots)
  }

  function AddApp(apps: seq<string>, app: string): seq<string> {
    if app in apps then apps else apps + [app]
  }

  function AddApps(apps: seq<string>, more: seq<string>): seq<string>
    decreases more
  {
    if more == [] then apps else AddApps(AddApp(apps, more[0]), more[1..])
  }

  /** An input of the session changed: queue it again and forget its analysis. */
  function ResetSession(db: Database, s: SessionId): Database {
    if s in db.sessions then db.(sessions := db.sessions[s := db.sessions[s].(outcome := Pending)]) else db
  }
}
