/**
 The activity store as an optimistic-concurrency database. Each transaction is one atomic
 step; an analysis reads a snapshot in one step, waits for a model, and commits in another.
 */
module ActivityStore {
  import opened Wrappers
  import opened ActivityDatabase

  /**
   How the rows of one session are listed for a prompt: order, columns and limits. The
   results below hold for every such listing.
   */
  datatype Listing = Listing(
    events: (map<EventId, Event>, map<FrameId, Frame>) -> seq<string>,
    texts: map<FrameId, Frame> -> seq<string>)

  function InputsOf(q: Listing, db: Database, s: SessionId): Inputs
    requires s in db.sessions
  {
    Inputs(db.sessions[s].apps, q.events(EventsOf(db, s), FramesOf(db, s)), q.texts(FramesOf(db, s)))
  }

  /** What a reader of an ended session takes away, for comparison at commit time. */
  datatype Captured = Captured(id: SessionId, session: Session, inputs: Inputs, revision: nat)

  function Capture(q: Listing, db: Database, s: SessionId): Option<Captured> {
    if s in db.sessions && db.sessions[s].endedAt.Some?
    then Some(Captured(s, db.sessions[s], InputsOf(q, db, s), db.revision))
    else None
  }

  // ---------------------------------------------------------------- the transactions

  datatype NewSnapshot = NewSnapshot(id: SnapshotId, capturedAt: int, bytes: nat, text: string, frame: FrameId)

  datatype NewEvent = NewEvent(
    id: EventId, content: string, app: Option<string>, capture: Option<string>, fallback: bool, snapshot: Option<NewSnapshot>)

  predicate AlreadyCaptured(db: Database, capture: Option<string>) {
    capture.Some? && exists p :: p in db.snapshots && db.snapshots[p].capture == capture
  }

  function StoredRows(db: Database, s: SessionId, e: NewEvent): Database {
    match e.snapshot
    case None => db.(events := db.events[e.id := Event(s, e.content)])
    case Some(shot) =>
      db.(snapshots := db.snapshots[shot.id := Snapshot(s, e.capture, shot.capturedAt, true, shot.bytes, Hot)],
          frames := if shot.text == "" then db.frames else db.frames[shot.frame := Frame(s, shot.id, shot.text)])
  }

  function Counted(row: Session, e: NewEvent): Session {
    row.(eventCount := row.eventCount + (if e.fallback then 0 else 1),
         snapshotCount := row.snapshotCount + (if e.snapshot.Some? then 1 else 0),
         apps := if e.app.Some? then AddApp(row.apps, e.app.value) else row.apps,
         outcome := Pending)
  }

  /**
   Insert an event, or a snapshot with its text. A capture stored before changes nothing; an
   unknown session violates a foreign key.
   */
  function InsertEvent(db: Database, s: SessionId, e: NewEvent): Database {
    if AlreadyCaptured(db, e.capture) || s !in db.sessions then db
    else StoredRows(db, s, e).(sessions := db.sessions[s := Counted(db.sessions[s], e)])
  }

  /**
   Replace the text of a snapshot. The snapshot's session is looked up before the
   transaction begins: `seen` is the session found then.
   */
  function UpdateOcr(db: Database, shot: SnapshotId, seen: SessionId, text: string, frame: FrameId): Database {
    var rest := map f | f in db.frames && db.frames[f].snapshot != shot :: db.frames[f];
    if text == "" then ResetSession(db.(frames := rest), seen)
    else if seen !in db.sessions || shot !in db.snapshots then db
    else ResetSession(db.(frames := rest[frame := Frame(seen, shot, text)]), seen)
  }

  datatype Change =
    | Analysed(result: string)
    | MarkPending
    | MarkSkipped(details: string)
    | MarkFailed(details: string)

  /** The outcome written for a change; an analysis is computed from what was captured. */
  function OutcomeOf(c: Captured, change: Change): Outcome {
    match change
    case Analysed(result) => Saved(Analysis(c.inputs, result))
    case MarkPending => Pending
    case MarkSkipped(details) => Skipped(details)
    case MarkFailed(details) => Failed(details)
  }

  function CommitIfCurrent(q: Listing, db: Database, c: Captured, change: Change): Database {
    if Capture(q, db, c.id) == Some(c)
    then db.(sessions := db.sessions[c.id := c.session.(outcome := OutcomeOf(c, change))])
    else db
  }

  function EndSession(db: Database, s: SessionId, at: int): Database {
    if s in db.sessions && db.sessions[s].endedAt.None?
    then db.(sessions := db.sessions[s := db.sessions[s].(endedAt := Some(at))])
    else db
  }

  /** Rows cannot be moved to a session that no longer exists: that violates a foreign key. */
  predicate PairAllowed(db: Database, left: SessionId, right: SessionId) {
    left in db.sessions || (EventsOf(db, right) == map[] && SnapshotsOf(db, right) == map[] && FramesOf(db, right) == map[])
  }

  /** Absorb `right` into `left`, with the end and the applications the caller had read. */
  function MergePair(db: Database, left: SessionId, right: SessionId, endedAt: Option<int>, apps: seq<string>): Database {
    if !PairAllowed(db, left, right) then db
    else
      var events := map e | e in db.events ::
        if db.events[e].session == right then db.events[e].(session := left) else db.events[e];
      var snapshots := map p | p in db.snapshots ::
        if db.snapshots[p].session == right then db.snapshots[p].(session := left) else db.snapshots[p];
      var frames := map f | f in db.frames ::
        if db.frames[f].session == right then db.frames[f].(session := left) else db.frames[f];
      var sessions :=
        if left !in db.sessions then db.sessions
        else
          var count := SnapshotTotal(db.sessions, left, right);
          var row := db.sessions[left];
          db.sessions[left := row.(
            endedAt := endedAt,
            eventCount := |(set e | e in events && events[e].session == left)|,
            snapshotCount := count,
            apps := apps,
            outcome := Pending)];
      Database(db.revision, sessions - {right}, events, snapshots, frames)
  }

  /** The sum the aggregate query computes over the one or two rows with these identifiers. */
  function SnapshotTotal(sessions: map<SessionId, Session>, left: SessionId, right: SessionId): int {
    (if left in sessions then sessions[left].snapshotCount else 0) +
    (if right in sessions && right != left then sessions[right].snapshotCount else 0)
  }

  function RetryFailed(db: Database): Database {
    db.(sessions := map s | s in db.sessions ::
      if db.sessions[s].endedAt.Some? && db.sessions[s].outcome.Failed? then db.sessions[s].(outcome := Pending) else db.sessions[s])
  }

  /** Deleting a session cascades to its rows and renews the revision. */
  function WithoutSession(db: Database, s: SessionId): Database {
    if s in db.sessions && db.sessions[s].endedAt.Some? then
      var gone := SnapshotsOf(db, s);
      Database(
        db.revision + 1,
        db.sessions - {s},
        map e | e in db.events && db.events[e].session != s :: db.events[e],
        map p | p in db.snapshots && db.snapshots[p].session != s :: db.snapshots[p],
        map f | f in db.frames && db.frames[f].session != s && db.frames[f].snapshot !in gone :: db.frames[f])
    else db
  }

  function Clear(db: Database): Database {
    Database(db.revision + 1, map[], map[], map[], map[])
  }

  function WithoutText(db: Database, shot: SnapshotId): Database {
    db.(frames := map f | f in db.frames && db.frames[f].snapshot != shot :: db.frames[f])
  }

  /** Retention removes a snapshot row; its text goes with it. No session is reset. */
  function DeleteSnapshot(db: Database, shot: SnapshotId): Database {
    WithoutText(db, shot).(snapshots := db.snapshots - {shot})
  }

  // ---------------------------------------------------------------- freshness

  /** Every saved analysis was computed from exactly what its session holds now. */
  ghost predicate Fresh(q: Listing, db: Database) {
    forall s :: s in db.sessions && db.sessions[s].outcome.Saved? ==> FreshAt(q, db, s)
  }

  ghost predicate FreshAt(q: Listing, db: Database, s: SessionId)
    requires s in db.sessions && db.sessions[s].outcome.Saved?
  {
    db.sessions[s].outcome.analysis.inputs == InputsOf(q, db, s)
  }

  /** A session's analysis and its inputs are as they were. */
  ghost predicate Untouched(db: Database, db': Database, s: SessionId)
    requires s in db'.sessions
  {
    && s in db.sessions
    && db'.sessions[s].apps == db.sessions[s].apps
    && db'.sessions[s].outcome == db.sessions[s].outcome
    && EventsOf(db', s) == EventsOf(db, s)
    && FramesOf(db', s) == FramesOf(db, s)
  }

  lemma FreshIfUntouched(q: Listing, db: Database, db': Database)
    requires Fresh(q, db)
    requires forall s :: s in db'.sessions && db'.sessions[s].outcome.Saved? ==> Untouched(db, db', s)
    ensures Fresh(q, db')
  {
  }

  // ---------------------------------------------------------------- every run

  datatype Pair = Pair(left: SessionId, right: SessionId, endedAt: Option<int>, apps: seq<string>)

  function MergePairs(db: Database, pairs: seq<Pair>): Database
    decreases pairs
  {
    if pairs == [] then db
    else MergePairs(MergePair(db, pairs[0].left, pairs[0].right, pairs[0].endedAt, pairs[0].apps), pairs[1..])
  }

  predicate PairsAllowed(db: Database, pairs: seq<Pair>)
    decreases pairs
  {
    pairs == [] ||
    (PairAllowed(db, pairs[0].left, pairs[0].right) &&
     PairsAllowed(MergePair(db, pairs[0].left, pairs[0].right, pairs[0].endedAt, pairs[0].apps), pairs[1..]))
  }

  datatype Action =
    | Start(id: SessionId, at: int)
    | End(id: SessionId, at: int)
    | Insert(id: SessionId, event: NewEvent)
    | LookUp(look: nat, shot: SnapshotId)
    | Ocr(look: nat, text: string, frame: FrameId)
    | Read(task: nat, id: SessionId)
    | Commit(task: nat, change: Change)
    | Merge(pairs: seq<Pair>)
    | Retry
    | Delete(id: SessionId)
    | Wipe

  /** A snapshot whose text is about to be rewritten, and the session it was seen to belong to. */
  datatype Look = Look(shot: SnapshotId, seen: SessionId)

  /**
   The database, what running analyses hold, what text updates have looked up, and the
   identifiers given to sessions and snapshots so far.
   */
  datatype State = State(
    db: Database, tasks: map<nat, Captured>, looks: map<nat, Look>, sessions: set<SessionId>, snapshots: set<SnapshotId>)

  const EMPTY := State(Database(0, map[], map[], map[], map[]), map[], map[], {}, {})

  /** Some text of the snapshot belongs to another session, which has a saved analysis. */
  ghost predicate AnalysedElsewhere(db: Database, shot: SnapshotId, seen: SessionId) {
    exists f :: f in db.frames && db.frames[f].snapshot == shot && db.frames[f].session != seen
      && db.frames[f].session in db.sessions && db.sessions[db.frames[f].session].outcome.Saved?
  }

  /** A text update that writes nothing, or takes no text from an analysed session it does not reset. */
  ghost predicate OcrSafe(db: Database, shot: SnapshotId, seen: SessionId, text: string) {
    (text != "" && (seen !in db.sessions || shot !in db.snapshots)) || !AnalysedElsewhere(db, shot, seen)
  }

  /** Identifiers of new rows are new. The one guard is on text updates; what lies outside it is `OcrExact`. */
  ghost predicate Enabled(s: State, a: Action) {
    match a
    case Start(id, _) => id !in s.sessions
    case Insert(_, e) => e.id !in s.db.events
        && (e.snapshot.Some? ==> e.snapshot.value.id !in s.snapshots && e.snapshot.value.frame !in s.db.frames)
    case Ocr(look, text, frame) => look in s.looks && frame !in s.db.frames && OcrSafe(s.db, s.looks[look].shot, s.looks[look].seen, text)
    case Merge(pairs) => forall i :: 0 <= i < |pairs| ==> pairs[i].left != pairs[i].right
    case _ => true
  }

  function Step(q: Listing, s: State, a: Action): State {
    match a
    case Start(id, at) =>
      s.(db := s.db.(sessions := s.db.sessions[id := Session(at, None, 0, 0, [], Pending)]), sessions := s.sessions + {id})
    case End(id, at) => s.(db := EndSession(s.db, id, at))
    case Insert(id, e) =>
      s.(db := InsertEvent(s.db, id, e), snapshots := s.snapshots + if e.snapshot.Some? then {e.snapshot.value.id} else {})
    case LookUp(look, shot) =>
      if shot in s.db.snapshots then s.(looks := s.looks[look := Look(shot, s.db.snapshots[shot].session)]) else s
    case Ocr(look, text, frame) =>
      if look in s.looks then s.(db := UpdateOcr(s.db, s.looks[look].shot, s.looks[look].seen, text, frame)) else s
    case Read(task, id) =>
      var c := Capture(q, s.db, id);
      if c.Some? then s.(tasks := s.tasks[task := c.value]) else s
    case Commit(task, change) => if task in s.tasks then s.(db := CommitIfCurrent(q, s.db, s.tasks[task], change)) else s
    case Merge(pairs) => if PairsAllowed(s.db, pairs) then s.(db := MergePairs(s.db, pairs)) else s
    case Retry => s.(db := RetryFailed(s.db))
    case Delete(id) => s.(db := WithoutSession(s.db, id))
    case Wipe => s.(db := Clear(s.db))
  }

  ghost predicate CanRun(q: Listing, s: State, run: seq<Action>)
    decreases run
  {
    run == [] || (Enabled(s, run[0]) && CanRun(q, Step(q, s, run[0]), run[1..]))
  }

  ghost function Run(q: Listing, s: State, run: seq<Action>): State
    decreases run
  {
    if run == [] then s else Run(q, Step(q, s, run[0]), run[1..])
  }

  /** A snapshot's text is filed under the snapshot's own session. */
  ghost predicate Filed(db: Database) {
    forall f :: f in db.frames ==>
      db.frames[f].snapshot in db.snapshots && db.frames[f].session == db.snapshots[db.frames[f].snapshot].session
  }

  ghost predicate Inv(q: Listing, db: Database) {
    Fresh(q, db) && Filed(db) && Referential(db)
  }

  /**
   A session that a text update has looked up still holds the snapshot, or one of them is gone:
   snapshots move only when a merge removes the session they leave.
   */
  ghost predicate Looked(s: State) {
    && s.db.sessions.Keys <= s.sessions && s.db.snapshots.Keys <= s.snapshots
    && forall l :: l in s.looks ==> LookedAt(s, s.looks[l])
  }

  ghost predicate LookedAt(s: State, l: Look) {
    && l.seen in s.sessions && l.shot in s.snapshots
    && (l.seen in s.db.sessions && l.shot in s.db.snapshots ==> s.db.snapshots[l.shot].session == l.seen)
  }

  lemma InsertKeeps(q: Listing, db: Database, s: SessionId, e: NewEvent)
    requires Inv(q, db) && e.id !in db.events
    requires e.snapshot.Some? ==> e.snapshot.value.id !in db.snapshots && e.snapshot.value.frame !in db.frames
    ensures Inv(q, InsertEvent(db, s, e))
  {
    var db' := InsertEvent(db, s, e);
    InsertElsewhere(db, s, e);
    FreshIfUntouched(q, db, db');
  }

  lemma InsertElsewhere(db: Database, s: SessionId, e: NewEvent)
    requires e.id !in db.events && (e.snapshot.Some? ==> e.snapshot.value.frame !in db.frames)
    ensures forall x :: x in InsertEvent(db, s, e).sessions && (x != s || InsertEvent(db, s, e) == db) ==> Untouched(db, InsertEvent(db, s, e), x)
  {
  }

  /** The other sessions keep their rows, unless the update takes text from them. */
  lemma OcrElsewhere(db: Database, shot: SnapshotId, seen: SessionId, text: string, frame: FrameId, x: SessionId)
    requires frame !in db.frames && x in db.sessions && x != seen
    requires UpdateOcr(db, shot, seen, text, frame) == db || forall f :: f in db.frames && db.frames[f].snapshot == shot ==> db.frames[f].session != x
    ensures Untouched(db, UpdateOcr(db, shot, seen, text, frame), x)
  {
    var db' := UpdateOcr(db, shot, seen, text, frame);
    assert FramesOf(db', x) == FramesOf(db, x);
  }

  lemma OcrConsistent(db: Database, shot: SnapshotId, seen: SessionId, text: string, frame: FrameId)
    requires Filed(db) && Referential(db) && (seen in db.sessions && shot in db.snapshots ==> db.snapshots[shot].session == seen)
    ensures Filed(UpdateOcr(db, shot, seen, text, frame)) && Referential(UpdateOcr(db, shot, seen, text, frame))
  {
  }

  lemma OcrFresh(q: Listing, db: Database, shot: SnapshotId, seen: SessionId, text: string, frame: FrameId)
    requires Fresh(q, db) && frame !in db.frames && OcrSafe(db, shot, seen, text)
    ensures Fresh(q, UpdateOcr(db, shot, seen, text, frame))
  {
    var db' := UpdateOcr(db, shot, seen, text, frame);
    forall x | x in db'.sessions && db'.sessions[x].outcome.Saved?
      ensures Untouched(db, db', x)
    {
      if db' != db {
        OcrElsewhere(db, shot, seen, text, frame, x);
      }
    }
    FreshIfUntouched(q, db, db');
  }

  lemma CommitKeeps(q: Listing, db: Database, c: Captured, change: Change)
    requires Inv(q, db)
    ensures Inv(q, CommitIfCurrent(q, db, c, change))
  {
  }

  lemma MergeElsewhere(db: Database, p: Pair)
    requires Referential(db) && p.left != p.right
    ensures var db' := MergePair(db, p.left, p.right, p.endedAt, p.apps);
      forall x :: x in db'.sessions && x != p.left && x != p.right ==> Untouched(db, db', x)
  {
  }

  lemma MergeConsistent(db: Database, p: Pair)
    requires Filed(db) && Referential(db) && p.left != p.right
    ensures var db' := MergePair(db, p.left, p.right, p.endedAt, p.apps); Filed(db') && Referential(db')
  {
    var db' := MergePair(db, p.left, p.right, p.endedAt, p.apps);
    if p.left !in db.sessions && EventsOf(db, p.right) == map[] && SnapshotsOf(db, p.right) == map[] && FramesOf(db, p.right) == map[] {
      assert forall e :: e in db.events ==> e !in EventsOf(db, p.right);
      assert forall x :: x in db.snapshots ==> x !in SnapshotsOf(db, p.right);
      assert forall f :: f in db.frames ==> f !in FramesOf(db, p.right);
    }
  }

  lemma MergeKeeps(q: Listing, db: Database, p: Pair)
    requires Inv(q, db) && p.left != p.right
    ensures Inv(q, MergePair(db, p.left, p.right, p.endedAt, p.apps))
  {
    MergeElsewhere(db, p);
    MergeConsistent(db, p);
    FreshIfUntouched(q, db, MergePair(db, p.left, p.right, p.endedAt, p.apps));
  }

  lemma {:induction false} MergesKeep(q: Listing, db: Database, pairs: seq<Pair>)
    requires Inv(q, db) && forall i :: 0 <= i < |pairs| ==> pairs[i].left != pairs[i].right
    ensures Inv(q, MergePairs(db, pairs))
    decreases pairs
  {
    if pairs != [] {
      MergeKeeps(q, db, pairs[0]);
      MergesKeep(q, MergePair(db, pairs[0].left, pairs[0].right, pairs[0].endedAt, pairs[0].apps), pairs[1..]);
    }
  }

  lemma DeleteKeeps(q: Listing, db: Database, s: SessionId)
    requires Inv(q, db)
    ensures Inv(q, WithoutSession(db, s))
  {
    DeleteElsewhere(db, s);
    FreshIfUntouched(q, db, WithoutSession(db, s));
  }

  lemma DeleteElsewhere(db: Database, s: SessionId)
    requires Filed(db)
    ensures forall x :: x in WithoutSession(db, s).sessions ==> Untouched(db, WithoutSession(db, s), x)
  {
    var db' := WithoutSession(db, s);
    forall x | x in db'.sessions
      ensures FramesOf(db', x) == FramesOf(db, x) && EventsOf(db', x) == EventsOf(db, x)
    {
    }
  }

  lemma DatabaseKeeps(q: Listing, s: State, a: Action)
    requires Inv(q, s.db) && Looked(s) && Enabled(s, a)
    ensures Inv(q, Step(q, s, a).db)
  {
    match a
    case Start(_, _) => FreshIfUntouched(q, s.db, Step(q, s, a).db);
    case End(_, _) => FreshIfUntouched(q, s.db, Step(q, s, a).db);
    case Insert(id, e) => InsertKeeps(q, s.db, id, e);
    case LookUp(_, _) =>
    case Ocr(look, text, frame) =>
      assert LookedAt(s, s.looks[look]);
      OcrFresh(q, s.db, s.looks[look].shot, s.looks[look].seen, text, frame);
      OcrConsistent(s.db, s.looks[look].shot, s.looks[look].seen, text, frame);
    case Read(_, _) =>
    case Commit(task, change) => if task in s.tasks { CommitKeeps(q, s.db, s.tasks[task], change); }
    case Merge(pairs) => MergesKeep(q, s.db, pairs);
    case Retry => FreshIfUntouched(q, s.db, Step(q, s, a).db);
    case Delete(id) => DeleteKeeps(q, s.db, id);
    case Wipe =>
  }

  /** No row appears, and a snapshot that has moved has left a session that is gone. */
  ghost predicate Fewer(db: Database, db': Database) {
    && db'.sessions.Keys <= db.sessions.Keys && db'.snapshots.Keys <= db.snapshots.Keys
    && forall p :: p in db'.snapshots ==>
         db'.snapshots[p].session == db.snapshots[p].session || db.snapshots[p].session !in db'.sessions
  }

  lemma FewerOn(a: Database, b: Database, c: Database)
    requires Fewer(a, b) && Fewer(b, c)
    ensures Fewer(a, c)
  {
  }

  lemma MergeFewer(db: Database, p: Pair)
    requires p.left != p.right
    ensures Fewer(db, MergePair(db, p.left, p.right, p.endedAt, p.apps))
  {
  }

  lemma {:induction false} MergesFewer(db: Database, pairs: seq<Pair>)
    requires forall i :: 0 <= i < |pairs| ==> pairs[i].left != pairs[i].right
    ensures Fewer(db, MergePairs(db, pairs))
    decreases pairs
  {
    if pairs != [] {
      var next := MergePair(db, pairs[0].left, pairs[0].right, pairs[0].endedAt, pairs[0].apps);
      MergeFewer(db, pairs[0]);
      MergesFewer(next, pairs[1..]);
      FewerOn(db, next, MergePairs(next, pairs[1..]));
    }
  }

  lemma FewerLooked(s: State, s': State)
    requires Looked(s) && Fewer(s.db, s'.db)
    requires s'.looks == s.looks && s'.sessions == s.sessions && s'.snapshots == s.snapshots
    ensures Looked(s')
  {
    forall l | l in s'.looks ensures LookedAt(s', s'.looks[l]) {
      assert LookedAt(s, s.looks[l]);
    }
  }

  lemma LookedInsert(q: Listing, s: State, a: Action)
    requires Looked(s) && Enabled(s, a) && (a.Insert? || a.Start?)
    ensures Looked(Step(q, s, a))
  {
    var s' := Step(q, s, a);
    forall l | l in s'.looks ensures LookedAt(s', s'.looks[l]) {
      assert LookedAt(s, s.looks[l]);
    }
  }

  lemma LookedUp(q: Listing, s: State, a: Action)
    requires Looked(s) && a.LookUp? && Referential(s.db)
    ensures Looked(Step(q, s, a))
  {
    var s' := Step(q, s, a);
    forall l | l in s'.looks ensures LookedAt(s', s'.looks[l]) {
      assert l in s.looks ==> LookedAt(s, s.looks[l]);
    }
  }

  lemma LookedStep(q: Listing, s: State, a: Action)
    requires Looked(s) && Referential(s.db) && Enabled(s, a)
    ensures Looked(Step(q, s, a))
  {
    match a
    case Start(_, _) => LookedInsert(q, s, a);
    case Insert(_, _) => LookedInsert(q, s, a);
    case LookUp(_, _) => LookedUp(q, s, a);
    case Merge(pairs) => MergesFewer(s.db, pairs); FewerLooked(s, Step(q, s, a));
    case _ => FewerLooked(s, Step(q, s, a));
  }

  /** Every step keeps analyses fresh, rows consistent, and look-ups explained. */
  lemma StepKeeps(q: Listing, s: State, a: Action)
    requires Inv(q, s.db) && Looked(s) && Enabled(s, a)
    ensures Inv(q, Step(q, s, a).db) && Looked(Step(q, s, a))
  {
    DatabaseKeeps(q, s, a);
    LookedStep(q, s, a);
  }

  /** Whatever the interleaving, a saved analysis is never older than its session's contents. */
  lemma {:induction false} AlwaysFresh(q: Listing, s: State, run: seq<Action>)
    requires Inv(q, s.db) && Looked(s) && CanRun(q, s, run)
    ensures Inv(q, Run(q, s, run).db) && Looked(Run(q, s, run))
    decreases run
  {
    if run != [] {
      StepKeeps(q, s, run[0]);
      AlwaysFresh(q, Step(q, s, run[0]), run[1..]);
    }
  }

  // ---------------------------------------------------------------- late commits

  lemma {:induction false} MergesKeepRevision(db: Database, pairs: seq<Pair>)
    ensures MergePairs(db, pairs).revision == db.revision
    decreases pairs
  {
    if pairs != [] {
      MergesKeepRevision(MergePair(db, pairs[0].left, pairs[0].right, pairs[0].endedAt, pairs[0].apps), pairs[1..]);
    }
  }

  lemma RevisionStep(q: Listing, s: State, a: Action)
    ensures Step(q, s, a).db.revision >= s.db.revision
  {
    if a.Merge? {
      MergesKeepRevision(s.db, a.pairs);
    }
  }

  lemma {:induction false} RevisionMonotone(q: Listing, s: State, run: seq<Action>)
    ensures Run(q, s, run).db.revision >= s.db.revision
    decreases run
  {
    if run != [] {
      RevisionStep(q, s, run[0]);
      RevisionMonotone(q, Step(q, s, run[0]), run[1..]);
    }
  }

  /** What was captured before a clear or a deletion is never committed after it, however late. */
  lemma ClearStopsCommits(q: Listing, s: State, a: Action, run: seq<Action>, c: Captured, change: Change)
    requires c.revision <= s.db.revision
    requires a == Wipe || (a.Delete? && a.id in s.db.sessions && s.db.sessions[a.id].endedAt.Some?)
    ensures var db := Run(q, Step(q, s, a), run).db; CommitIfCurrent(q, db, c, change) == db
  {
    RevisionMonotone(q, Step(q, s, a), run);
  }

  /** Of two analyses that captured the same state, the second to finish writes nothing unless the first changed nothing. */
  lemma RaceLost(q: Listing, db: Database, c: Captured, first: Change, second: Change)
    requires Capture(q, db, c.id) == Some(c)
    ensures var db' := CommitIfCurrent(q, db, c, first);
      && db'.sessions[c.id].outcome == OutcomeOf(c, first)
      && (OutcomeOf(c, first) != c.session.outcome ==> CommitIfCurrent(q, db', c, second) == db')
  {
  }

  // ---------------------------------------------------------------- where freshness ends

  /** A listing with one line for every event and every recognised text, as the store's is. */
  ghost predicate OneLineEach(q: Listing) {
    forall events, frames :: |q.events(events, frames)| == |events| + |frames|
  }

  /** Some text of the snapshot belongs to a session with a saved analysis. */
  ghost predicate TextAnalysed(db: Database, shot: SnapshotId) {
    exists f :: f in db.frames && db.frames[f].snapshot == shot
      && db.frames[f].session in db.sessions && db.sessions[db.frames[f].session].outcome.Saved?
  }

  lemma FewerFrames(db: Database, shot: SnapshotId, f: FrameId)
    requires f in db.frames && db.frames[f].snapshot == shot
    ensures var s := db.frames[f].session; |FramesOf(WithoutText(db, shot), s)| < |FramesOf(db, s)|
  {
    var s := db.frames[f].session;
    var before, after := FramesOf(db, s), FramesOf(WithoutText(db, shot), s);
    assert after.Keys <= before.Keys - {f};
    assert before.Keys - {f} == after.Keys + (before.Keys - {f} - after.Keys);
    assert |after.Keys| <= |before.Keys - {f}|;
  }

  /** Text that vanishes without a reset leaves a stale analysis exactly when an analysed session held it. */
  lemma WithoutTextExact(q: Listing, db: Database, shot: SnapshotId)
    requires Inv(q, db) && OneLineEach(q)
    ensures Fresh(q, WithoutText(db, shot)) <==> !TextAnalysed(db, shot)
  {
    var db' := WithoutText(db, shot);
    if TextAnalysed(db, shot) {
      var f :| f in db.frames && db.frames[f].snapshot == shot
        && db.frames[f].session in db.sessions && db.sessions[db.frames[f].session].outcome.Saved?;
      var s := db.frames[f].session;
      FewerFrames(db, shot, f);
      assert EventsOf(db', s) == EventsOf(db, s);
      assert FreshAt(q, db, s);
      assert |InputsOf(q, db', s).events| != |InputsOf(q, db, s).events|;
      assert !FreshAt(q, db', s);
    } else {
      forall s | s in db'.sessions && db'.sessions[s].outcome.Saved?
        ensures Untouched(db, db', s)
      {
        assert FramesOf(db', s) == FramesOf(db, s);
      }
      FreshIfUntouched(q, db, db');
    }
  }

  /** Retention keeps every analysis fresh exactly when no analysed session loses recognised text. */
  lemma RetentionExact(q: Listing, db: Database, shot: SnapshotId)
    requires Inv(q, db) && OneLineEach(q)
    ensures Fresh(q, DeleteSnapshot(db, shot)) <==> !TextAnalysed(db, shot)
  {
    WithoutTextExact(q, db, shot);
    forall s | s in db.sessions && db.sessions[s].outcome.Saved?
      ensures FreshAt(q, DeleteSnapshot(db, shot), s) <==> FreshAt(q, WithoutText(db, shot), s)
    {
      SameRows(DeleteSnapshot(db, shot), WithoutText(db, shot), s);
    }
  }

  lemma SameRows(db: Database, db': Database, s: SessionId)
    requires db.events == db'.events && db.frames == db'.frames
    ensures EventsOf(db, s) == EventsOf(db', s) && FramesOf(db, s) == FramesOf(db', s)
  {
  }

  /** Text taken from a session that is not reset leaves its analysis stale. */
  lemma TakenStale(q: Listing, db: Database, shot: SnapshotId, seen: SessionId, text: string, frame: FrameId, f: FrameId)
    requires Fresh(q, db) && OneLineEach(q) && frame !in db.frames
    requires f in db.frames && db.frames[f].snapshot == shot && db.frames[f].session != seen
    requires db.frames[f].session in db.sessions && db.sessions[db.frames[f].session].outcome.Saved?
    requires text == "" || (seen in db.sessions && shot in db.snapshots)
    ensures !Fresh(q, UpdateOcr(db, shot, seen, text, frame))
  {
    var s := db.frames[f].session;
    var db' := UpdateOcr(db, shot, seen, text, frame);
    FewerFrames(db, shot, f);
    assert FramesOf(db', s) == FramesOf(WithoutText(db, shot), s);
    assert EventsOf(db', s) == EventsOf(db, s);
    assert FreshAt(q, db, s);
    assert |InputsOf(q, db', s).events| != |InputsOf(q, db, s).events|;
    assert !FreshAt(q, db', s);
  }

  /**
   The session of a snapshot is looked up before the transaction that rewrites its text. For
   whatever session was seen then, the update keeps analyses fresh exactly when it writes
   nothing or no text of the snapshot belongs to another, analysed session.
   */
  lemma OcrExact(q: Listing, db: Database, shot: SnapshotId, seen: SessionId, text: string, frame: FrameId)
    requires Inv(q, db) && OneLineEach(q) && frame !in db.frames
    ensures Fresh(q, UpdateOcr(db, shot, seen, text, frame)) <==> OcrSafe(db, shot, seen, text)
  {
    if OcrSafe(db, shot, seen, text) {
      OcrFresh(q, db, shot, seen, text, frame);
    } else {
      var f :| f in db.frames && db.frames[f].snapshot == shot && db.frames[f].session != seen
        && db.frames[f].session in db.sessions && db.sessions[db.frames[f].session].outcome.Saved?;
      TakenStale(q, db, shot, seen, text, frame, f);
    }
  }

  function LineEach(events: map<EventId, Event>, frames: map<FrameId, Frame>): seq<string> {
    seq(|events| + |frames|, _ => "line")
  }

  const EXAMPLE_FRAMES: map<FrameId, Frame> := map["f" := Frame("s", "p", "text")]

  const EXAMPLE_SAVED := Saved(Analysis(Inputs([], LineEach(map[], EXAMPLE_FRAMES), []), "result"))

  const EXAMPLE_LISTING := Listing(LineEach, _ => [])

  /** One session with a saved analysis, holding the text of one snapshot. */
  const EXAMPLE := Database(
    0,
    map["s" := Session(0, Some(3), 0, 1, [], EXAMPLE_SAVED)],
    map[],
    map["p" := Snapshot("s", None, 0, true, 1, Hot)],
    EXAMPLE_FRAMES)

  /** Both losses do leave a stale analysis in the example. */
  lemma StaleExample(frame: FrameId)
    requires frame != "f"
    ensures var q := EXAMPLE_LISTING;
      Inv(q, EXAMPLE) && !Fresh(q, DeleteSnapshot(EXAMPLE, "p")) && !Fresh(q, UpdateOcr(EXAMPLE, "p", "gone", "", frame))
  {
    var q := EXAMPLE_LISTING;
    assert EventsOf(EXAMPLE, "s") == map[];
    assert FramesOf(EXAMPLE, "s") == EXAMPLE_FRAMES;
    assert FreshAt(q, EXAMPLE, "s");
    assert EXAMPLE.frames["f"].snapshot == "p";
    RetentionExact(q, EXAMPLE, "p");
    assert AnalysedElsewhere(EXAMPLE, "p", "gone");
    OcrExact(q, EXAMPLE, "p", "gone", "", frame);
  }

  const EXAMPLE_SHOT := NewEvent("e", "", None, None, true, Some(NewSnapshot("p", 0, 1, "text", "f")))

  /** Two sessions, a snapshot in the second one, and a text update that has looked it up. */
  const EXAMPLE_START: seq<Action> :=
    [Start("s", 0), End("s", 1), Start("gone", 2), Insert("gone", EXAMPLE_SHOT), End("gone", 3), LookUp(0, "p")]

  /** The second session is merged into the first, which is then analysed. */
  const EXAMPLE_END: seq<Action> := [Merge([Pair("s", "gone", Some(3), [])]), Read(0, "s"), Commit(0, Analysed("result"))]

  lemma RunCons(q: Listing, s: State, a: Action, rest: seq<Action>)
    requires Enabled(s, a) && CanRun(q, Step(q, s, a), rest)
    ensures CanRun(q, s, [a] + rest) && Run(q, s, [a] + rest) == Run(q, Step(q, s, a), rest)
  {
    assert ([a] + rest)[1..] == rest;
  }

  const ROW := Session(0, Some(1), 0, 0, [], Pending)

  /** The example after its first actions, the two sessions still apart. */
  const EXAMPLE_APART := State(
    Database(0, map["s" := ROW, "gone" := Session(2, Some(3), 0, 1, [], Pending)], map[],
             map["p" := Snapshot("gone", None, 0, true, 1, Hot)], map["f" := Frame("gone", "p", "text")]),
    map[], map[0 := Look("p", "gone")], {"s", "gone"}, {"p"})

  /** And after the merge. */
  const EXAMPLE_MERGED := EXAMPLE_APART.(db := EXAMPLE.(
    sessions := map["s" := EXAMPLE.sessions["s"].(outcome := Pending)]))

  const EXAMPLE_TWO := State(
    Database(0, map["s" := ROW, "gone" := Session(2, None, 0, 0, [], Pending)], map[], map[], map[]),
    map[], map[], {"s", "gone"}, {})

  lemma ExampleSessions(rest: seq<Action>)
    requires CanRun(EXAMPLE_LISTING, EXAMPLE_TWO, rest)
    ensures var q, run := EXAMPLE_LISTING, [Start("s", 0), End("s", 1), Start("gone", 2)] + rest;
      CanRun(q, EMPTY, run) && Run(q, EMPTY, run) == Run(q, EXAMPLE_TWO, rest)
  {
    var q := EXAMPLE_LISTING;
    var s1 := Step(q, EMPTY, Start("s", 0));
    var s2 := Step(q, s1, End("s", 1));
    assert s2.db.sessions == map["s" := ROW];
    assert Step(q, s2, Start("gone", 2)) == EXAMPLE_TWO;
    RunCons(q, s2, Start("gone", 2), rest);
    RunCons(q, s1, End("s", 1), [Start("gone", 2)] + rest);
    RunCons(q, EMPTY, Start("s", 0), [End("s", 1)] + ([Start("gone", 2)] + rest));
    assert [Start("s", 0), End("s", 1), Start("gone", 2)] + rest == [Start("s", 0)] + ([End("s", 1)] + ([Start("gone", 2)] + rest));
  }

  lemma ExampleInsert()
    ensures Enabled(EXAMPLE_TWO, Insert("gone", EXAMPLE_SHOT))
    ensures Step(EXAMPLE_LISTING, EXAMPLE_TWO, Insert("gone", EXAMPLE_SHOT)) == EXAMPLE_SHOWN
  {
  }

  const EXAMPLE_SHOWN := EXAMPLE_APART.(
    db := EXAMPLE_APART.db.(sessions := map["s" := ROW, "gone" := Session(2, None, 0, 1, [], Pending)]), looks := map[])

  lemma ExampleLooks(rest: seq<Action>)
    requires CanRun(EXAMPLE_LISTING, EXAMPLE_APART, rest)
    ensures var q, run := EXAMPLE_LISTING, [End("gone", 3), LookUp(0, "p")] + rest;
      CanRun(q, EXAMPLE_SHOWN, run) && Run(q, EXAMPLE_SHOWN, run) == Run(q, EXAMPLE_APART, rest)
  {
    var q := EXAMPLE_LISTING;
    var s := Step(q, EXAMPLE_SHOWN, End("gone", 3));
    assert s.db.sessions == EXAMPLE_APART.db.sessions;
    assert Step(q, s, LookUp(0, "p")) == EXAMPLE_APART;
    RunCons(q, s, LookUp(0, "p"), rest);
    RunCons(q, EXAMPLE_SHOWN, End("gone", 3), [LookUp(0, "p")] + rest);
    assert [End("gone", 3), LookUp(0, "p")] + rest == [End("gone", 3)] + ([LookUp(0, "p")] + rest);
  }

  lemma ExampleStarts(rest: seq<Action>)
    requires CanRun(EXAMPLE_LISTING, EXAMPLE_APART, rest)
    ensures var q := EXAMPLE_LISTING;
      CanRun(q, EMPTY, EXAMPLE_START + rest) && Run(q, EMPTY, EXAMPLE_START + rest) == Run(q, EXAMPLE_APART, rest)
  {
    var last := [End("gone", 3), LookUp(0, "p")] + rest;
    ExampleInsert();
    ExampleLooks(rest);
    RunCons(EXAMPLE_LISTING, EXAMPLE_TWO, Insert("gone", EXAMPLE_SHOT), last);
    ExampleSessions([Insert("gone", EXAMPLE_SHOT)] + last);
    Assembled(Start("s", 0), End("s", 1), Start("gone", 2), Insert("gone", EXAMPLE_SHOT), End("gone", 3), LookUp(0, "p"), rest);
  }

  lemma Assembled(a: Action, b: Action, c: Action, d: Action, e: Action, f: Action, rest: seq<Action>)
    ensures [a, b, c] + ([d] + ([e, f] + rest)) == [a, b, c, d, e, f] + rest
  {
  }

  lemma ExamplePair()
    ensures MergePair(EXAMPLE_APART.db, "s", "gone", Some(3), []) == EXAMPLE_MERGED.db
  {
    var db' := MergePair(EXAMPLE_APART.db, "s", "gone", Some(3), []);
    assert db'.events == map[];
    assert db'.frames == EXAMPLE.frames;
    assert db'.snapshots == EXAMPLE.snapshots;
    assert db'.sessions["s"] == EXAMPLE_MERGED.db.sessions["s"];
    assert db'.sessions == EXAMPLE_MERGED.db.sessions;
  }

  lemma ExampleMerges()
    ensures Enabled(EXAMPLE_APART, EXAMPLE_END[0]) && Step(EXAMPLE_LISTING, EXAMPLE_APART, EXAMPLE_END[0]) == EXAMPLE_MERGED
  {
    var pairs := [Pair("s", "gone", Some(3), [])];
    assert pairs[1..] == [];
    ExamplePair();
    assert MergePairs(EXAMPLE_APART.db, pairs) == EXAMPLE_MERGED.db;
  }

  lemma ExampleCommits()
    ensures var q := EXAMPLE_LISTING;
      var s := Step(q, Step(q, EXAMPLE_MERGED, EXAMPLE_END[1]), EXAMPLE_END[2]);
      s.db == EXAMPLE && s.looks == EXAMPLE_APART.looks
  {
    var q, db := EXAMPLE_LISTING, EXAMPLE_MERGED.db;
    assert EventsOf(db, "s") == map[];
    assert FramesOf(db, "s") == EXAMPLE_FRAMES;
    assert InputsOf(q, db, "s") == EXAMPLE_SAVED.analysis.inputs;
  }

  lemma RunThree(q: Listing, s: State, a: Action, b: Action, c: Action)
    requires Enabled(s, a) && Enabled(Step(q, s, a), b) && Enabled(Step(q, Step(q, s, a), b), c)
    ensures CanRun(q, s, [a, b, c]) && Run(q, s, [a, b, c]) == Step(q, Step(q, Step(q, s, a), b), c)
  {
    RunCons(q, Step(q, Step(q, s, a), b), c, []);
    RunCons(q, Step(q, s, a), b, [c]);
    RunCons(q, s, a, [b, c]);
    assert [c] + [] == [c] && [b] + [c] == [b, c] && [a] + [b, c] == [a, b, c];
  }

  lemma ExampleEnds()
    ensures var q, s := EXAMPLE_LISTING, EXAMPLE_APART;
      CanRun(q, s, EXAMPLE_END) && Run(q, s, EXAMPLE_END).db == EXAMPLE && Run(q, s, EXAMPLE_END).looks == map[0 := Look("p", "gone")]
  {
    ExampleMerges();
    ExampleCommits();
    RunThree(EXAMPLE_LISTING, EXAMPLE_APART, EXAMPLE_END[0], EXAMPLE_END[1], EXAMPLE_END[2]);
    assert EXAMPLE_END == [EXAMPLE_END[0], EXAMPLE_END[1], EXAMPLE_END[2]];
  }

  /** The example is reached from the empty store, with the text update that comes too late still waiting. */
  lemma ExampleReached()
    ensures var q, run := EXAMPLE_LISTING, EXAMPLE_START + EXAMPLE_END;
      CanRun(q, EMPTY, run) && Run(q, EMPTY, run).db == EXAMPLE && Run(q, EMPTY, run).looks == map[0 := Look("p", "gone")]
  {
    ExampleEnds();
    ExampleStarts(EXAMPLE_END);
  }

  // ---------------------------------------------------------------- the store's methods

  class Store {
    var revision: nat
    var sessions: map<SessionId, Session>
    var events: map<EventId, Event>
    var snapshots: map<SnapshotId, Snapshot>
    var frames: map<FrameId, Frame>
    const listing: Listing

    function Current(): Database
      reads this
    {
      Database(revision, sessions, events, snapshots, frames)
    }

    constructor (listing: Listing, revision: nat)
      ensures this.listing == listing && Inv(listing, Current())
    {
      this.listing, this.revision := listing, revision;
      sessions, events, snapshots, frames := map[], map[], map[], map[];
    }

    method ResetSessionAnalysis(s: SessionId)
      modifies this`sessions
      ensures Current() == ResetSession(old(Current()), s)
    {
      if s in sessions {
        sessions := sessions[s := sessions[s].(outcome := Pending)];
      }
    }

    method StoreRows(s: SessionId, e: NewEvent)
      modifies this`events, this`snapshots, this`frames
      ensures Current() == StoredRows(old(Current()), s, e)
    {
      if e.snapshot.None? {
        events := events[e.id := Event(s, e.content)];
      } else {
        var shot := e.snapshot.value;
        snapshots := snapshots[shot.id := Snapshot(s, e.capture, shot.capturedAt, true, shot.bytes, Hot)];
        if shot.text != "" {
          frames := frames[shot.frame := Frame(s, shot.id, shot.text)];
        }
      }
    }

    method RecordEvent(s: SessionId, e: NewEvent)
      modifies this
      ensures Current() == InsertEvent(old(Current()), s, e)
    {
      if AlreadyCaptured(Current(), e.capture) || s !in sessions {
        return;
      }
      StoreRows(s, e);
      var row := sessions[s];
      if e.app.Some? {
        row := row.(apps := AddApp(row.apps, e.app.value));
      }
      row := row.(eventCount := row.eventCount + if e.fallback then 0 else 1,
                  snapshotCount := row.snapshotCount + if e.snapshot.Some? then 1 else 0);
      sessions := sessions[s := row];
      ResetSessionAnalysis(s);
    }

    method UpdateSnapshotOcr(shot: SnapshotId, seen: SessionId, text: string, frame: FrameId) returns (committed: bool)
      modifies this
      ensures Current() == UpdateOcr(old(Current()), shot, seen, text, frame)
      ensures committed <==> text == "" || (old(seen in sessions) && old(shot in snapshots))
    {
      if text != "" && (seen !in sessions || shot !in snapshots) {
        return false;
      }
      frames := map f | f in frames && frames[f].snapshot != shot :: frames[f];
      if text != "" {
        frames := frames[frame := Frame(seen, shot, text)];
      }
      ResetSessionAnalysis(seen);
      committed := true;
    }

    method ReadAnalysisSnapshot(s: SessionId) returns (c: Option<Captured>)
      ensures c == Capture(listing, Current(), s)
    {
      if s !in sessions || sessions[s].endedAt.None? {
        return None;
      }
      c := Some(Captured(s, sessions[s], InputsOf(listing, Current(), s), revision));
    }

    method CommitAnalysisIfCurrent(c: Captured, change: Change) returns (committed: bool)
      modifies this`sessions
      ensures Current() == CommitIfCurrent(listing, old(Current()), c, change)
      ensures committed <==> Capture(listing, old(Current()), c.id) == Some(c)
    {
      var current := ReadAnalysisSnapshot(c.id);
      if current != Some(c) {
        return false;
      }
      sessions := sessions[c.id := sessions[c.id].(outcome := OutcomeOf(c, change))];
      committed := true;
    }

    /** Queue every ended, failed session again, one row at a time. */
    method RetryFailedAnalysis() returns (count: nat)
      modifies this`sessions
      ensures Current() == RetryFailed(old(Current()))
      ensures count == |(set s | s in old(sessions) && old(sessions)[s].endedAt.Some? && old(sessions)[s].outcome.Failed?)|
    {
      var rows := set s | s in sessions && sessions[s].endedAt.Some? && sessions[s].outcome.Failed?;
      var rest := rows;
      count := |rows|;
      while rest != {}
        invariant rest <= rows && sessions.Keys == old(sessions).Keys
        invariant forall s :: s in sessions ==>
          sessions[s] == if s in rows && s !in rest then old(sessions)[s].(outcome := Pending) else old(sessions)[s]
      {
        var s :| s in rest;
        ResetSessionAnalysis(s);
        rest := rest - {s};
      }
      forall s | s in sessions
        ensures sessions[s] == RetryFailed(old(Current())).sessions[s]
      {
        assert s in rows <==> old(sessions)[s].endedAt.Some? && old(sessions)[s].outcome.Failed?;
      }
    }

    method DeleteSession(s: SessionId) returns (deleted: bool)
      modifies this
      ensures Current() == WithoutSession(old(Current()), s)
      ensures deleted <==> old(s in sessions && sessions[s].endedAt.Some?)
    {
      if s !in sessions || sessions[s].endedAt.None? {
        return false;
      }
      revision := revision + 1;
      var gone := SnapshotsOf(Current(), s);
      frames := map f | f in frames && frames[f].session != s && frames[f].snapshot !in gone :: frames[f];
      snapshots := map p | p in snapshots && snapshots[p].session != s :: snapshots[p];
      events := map e | e in events && events[e].session != s :: events[e];
      sessions := sessions - {s};
      deleted := true;
    }
  }
}
