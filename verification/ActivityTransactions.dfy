/**
 What each transaction of the activity store does to the rows, table by table; and, over every
 run, that the counters of a session count its rows.
 */
module ActivityTransactions {
  import opened Wrappers
  import opened ActivityDatabase
  import opened ActivityStore

  /** Apart from `k`, a table is as it was. */
  ghost predicate SameBut<V>(was: map<string, V>, now: map<string, V>, k: string) {
    forall x :: x != k ==> (x in now <==> x in was) && (x in was ==> now[x] == was[x])
  }

  // ---------------------------------------------------------------- deleting

  predicate TakenBy(db: Database, s: SessionId, shot: SnapshotId) {
    shot in db.snapshots && db.snapshots[shot].session == s
  }

  /** An ended session is gone with everything filed under it or under one of its snapshots; all else is as it was. */
  lemma DeletedExactly(db: Database, s: SessionId)
    requires s in db.sessions && db.sessions[s].endedAt.Some?
    ensures var db' := WithoutSession(db, s);
      && db'.revision > db.revision
      && s !in db'.sessions && SameBut(db.sessions, db'.sessions, s)
      && (forall e :: e in db'.events <==> e in db.events && db.events[e].session != s)
      && (forall e :: e in db'.events ==> db'.events[e] == db.events[e])
      && (forall p :: p in db'.snapshots <==> p in db.snapshots && db.snapshots[p].session != s)
      && (forall p :: p in db'.snapshots ==> db'.snapshots[p] == db.snapshots[p])
      && (forall f :: f in db'.frames <==> f in db.frames && db.frames[f].session != s && !TakenBy(db, s, db.frames[f].snapshot))
      && (forall f :: f in db'.frames ==> db'.frames[f] == db.frames[f])
  {
  }

  /** A session that is unknown or not ended is not deleted. */
  lemma NotDeleted(db: Database, s: SessionId)
    requires s in db.sessions ==> db.sessions[s].endedAt == None
    ensures WithoutSession(db, s) == db
  {
  }

  /** Clearing leaves no row of any table. */
  lemma ClearedExactly(db: Database)
    ensures var db' := Clear(db);
      db'.sessions == map[] && db'.events == map[] && db'.snapshots == map[] && db'.frames == map[] && db'.revision > db.revision
  {
  }

  /** Retention takes a snapshot's row and its text, and nothing else. */
  lemma RetainedExactly(db: Database, shot: SnapshotId)
    ensures var db' := DeleteSnapshot(db, shot);
      && db'.revision == db.revision && db'.sessions == db.sessions && db'.events == db.events
      && shot !in db'.snapshots && SameBut(db.snapshots, db'.snapshots, shot)
      && (forall f :: f in db'.frames <==> f in db.frames && db.frames[f].snapshot != shot)
      && (forall f :: f in db'.frames ==> db'.frames[f] == db.frames[f])
  {
  }

  // ---------------------------------------------------------------- recording

  /** A capture is recorded once: with a snapshot of it there already, or without the session, nothing changes. */
  lemma NotRecorded(db: Database, s: SessionId, e: NewEvent)
    requires s !in db.sessions || (e.capture.Some? && exists p :: p in db.snapshots && db.snapshots[p].capture == e.capture)
    ensures InsertEvent(db, s, e) == db
  {
  }

  /** Otherwise its session counts it, has its application, and waits for analysis. */
  lemma RecordedSession(db: Database, s: SessionId, e: NewEvent)
    requires s in db.sessions && (e.capture.Some? ==> forall p :: p in db.snapshots ==> db.snapshots[p].capture != e.capture)
    ensures var db' := InsertEvent(db, s, e);
      && db'.revision == db.revision && s in db'.sessions && SameBut(db.sessions, db'.sessions, s)
      && var was, now := db.sessions[s], db'.sessions[s];
      && now.startedAt == was.startedAt && now.endedAt == was.endedAt && now.outcome == Pending
      && now.eventCount - was.eventCount == (if e.fallback then 0 else 1)
      && now.snapshotCount - was.snapshotCount == (if e.snapshot == None then 0 else 1)
      && (forall a :: a in now.apps <==> a in was.apps || e.app == Some(a))
      && was.apps <= now.apps && |now.apps| <= |was.apps| + 1 && (e.app.Some? && e.app.value in was.apps ==> now.apps == was.apps)
  {
  }

  /** And there is one more event, or one more snapshot with its text, if it has one. */
  lemma RecordedRows(db: Database, s: SessionId, e: NewEvent)
    requires s in db.sessions && (e.capture.Some? ==> forall p :: p in db.snapshots ==> db.snapshots[p].capture != e.capture)
    ensures var db' := InsertEvent(db, s, e);
      match e.snapshot
      case None =>
        && e.id in db'.events && db'.events[e.id].session == s && db'.events[e.id].content == e.content
        && SameBut(db.events, db'.events, e.id) && db'.snapshots == db.snapshots && db'.frames == db.frames
      case Some(shot) =>
        && db'.events == db.events && shot.id in db'.snapshots && SameBut(db.snapshots, db'.snapshots, shot.id)
        && var row := db'.snapshots[shot.id];
        && row.session == s && row.capture == e.capture && row.capturedAt == shot.capturedAt && row.hasFile
        && row.bytes == shot.bytes && row.tier == Hot
        && SameBut(db.frames, db'.frames, shot.frame)
        && (if shot.text == "" then db'.frames == db.frames
            else shot.frame in db'.frames && db'.frames[shot.frame].session == s
                 && db'.frames[shot.frame].snapshot == shot.id && db'.frames[shot.frame].text == shot.text)
  {
  }

  /** A text update replaces the texts of the snapshot, and queues the session looked up again. */
  lemma TextReplaced(db: Database, shot: SnapshotId, seen: SessionId, text: string, frame: FrameId)
    requires frame !in db.frames && (text != "" ==> seen in db.sessions && shot in db.snapshots)
    ensures var db' := UpdateOcr(db, shot, seen, text, frame);
      && db'.revision == db.revision && db'.events == db.events && db'.snapshots == db.snapshots
      && (forall f :: f in db'.frames <==> (f in db.frames && db.frames[f].snapshot != shot) || (f == frame && text != ""))
      && (forall f :: f in db'.frames && f != frame ==> db'.frames[f] == db.frames[f])
      && (text != "" ==> db'.frames[frame].session == seen && db'.frames[frame].snapshot == shot && db'.frames[frame].text == text)
      && Requeued(db, db', seen)
  {
  }

  /** The session waits for analysis; nothing else about sessions changed. */
  ghost predicate Requeued(db: Database, db': Database, s: SessionId) {
    && db'.sessions.Keys == db.sessions.Keys && SameBut(db.sessions, db'.sessions, s)
    && (s in db.sessions ==>
          var was, now := db.sessions[s], db'.sessions[s];
          && now.outcome == Pending && now.startedAt == was.startedAt && now.endedAt == was.endedAt && now.apps == was.apps
          && now.eventCount == was.eventCount && now.snapshotCount == was.snapshotCount)
  }

  /** A text for a session or a snapshot that is gone is refused. */
  lemma TextRefused(db: Database, shot: SnapshotId, seen: SessionId, text: string, frame: FrameId)
    requires text != "" && (seen !in db.sessions || shot !in db.snapshots)
    ensures UpdateOcr(db, shot, seen, text, frame) == db
  {
  }

  /** Ending a session sets its end, once, and nothing else. */
  lemma EndedExactly(db: Database, s: SessionId, at: int)
    ensures var db' := EndSession(db, s, at);
      && db'.revision == db.revision && db'.events == db.events && db'.snapshots == db.snapshots && db'.frames == db.frames
      && db'.sessions.Keys == db.sessions.Keys && SameBut(db.sessions, db'.sessions, s)
      && (s in db.sessions ==>
            var was, now := db.sessions[s], db'.sessions[s];
            && now.endedAt == (if was.endedAt == None then Some(at) else was.endedAt)
            && now.startedAt == was.startedAt && now.apps == was.apps && now.outcome == was.outcome
            && now.eventCount == was.eventCount && now.snapshotCount == was.snapshotCount)
  {
  }

  // ---------------------------------------------------------------- analysing

  /** What a reader takes away is the row, the inputs and the revision, of ended sessions only. */
  lemma CapturedExactly(q: Listing, db: Database, s: SessionId)
    ensures var c := Capture(q, db, s);
      && (c.Some? <==> s in db.sessions && db.sessions[s].endedAt != None)
      && (c.Some? ==>
            && c.value.id == s && c.value.session == db.sessions[s] && c.value.revision == db.revision
            && c.value.inputs.apps == db.sessions[s].apps
            && c.value.inputs.events == q.events(map e | e in db.events && db.events[e].session == s :: db.events[e],
                                                 map f | f in db.frames && db.frames[f].session == s :: db.frames[f])
            && c.value.inputs.ocrTexts == q.texts(map f | f in db.frames && db.frames[f].session == s :: db.frames[f]))
  {
    if s in db.sessions {
      assert EventsOf(db, s) == map e | e in db.events && db.events[e].session == s :: db.events[e];
      assert FramesOf(db, s) == map f | f in db.frames && db.frames[f].session == s :: db.frames[f];
    }
  }

  /** A commit changes the outcome of its session alone, if the session is as it was captured, and nothing otherwise. */
  lemma CommittedExactly(q: Listing, db: Database, c: Captured, change: Change)
    ensures var db' := CommitIfCurrent(q, db, c, change);
      if c.id in db.sessions && db.sessions[c.id].endedAt != None && c.session == db.sessions[c.id]
         && c.inputs == InputsOf(q, db, c.id) && c.revision == db.revision
      then
        && db'.revision == db.revision && db'.events == db.events && db'.snapshots == db.snapshots && db'.frames == db.frames
        && db'.sessions.Keys == db.sessions.Keys && SameBut(db.sessions, db'.sessions, c.id)
        && var was, now := db.sessions[c.id], db'.sessions[c.id];
        && now.startedAt == was.startedAt && now.endedAt == was.endedAt && now.apps == was.apps
        && now.eventCount == was.eventCount && now.snapshotCount == was.snapshotCount
        && match change
           case Analysed(result) => now.outcome.Saved? && now.outcome.analysis.inputs == c.inputs && now.outcome.analysis.result == result
           case MarkPending => now.outcome == Pending
           case MarkSkipped(details) => now.outcome == Skipped(details)
           case MarkFailed(details) => now.outcome == Failed(details)
      else db' == db
  {
  }

  /** Exactly the ended, failed sessions wait again, unchanged otherwise. */
  lemma RetriedExactly(db: Database)
    ensures var db' := RetryFailed(db);
      && db'.revision == db.revision && db'.events == db.events && db'.snapshots == db.snapshots && db'.frames == db.frames
      && db'.sessions.Keys == db.sessions.Keys
      && (forall s :: s in db.sessions ==>
            if db.sessions[s].endedAt != None && db.sessions[s].outcome.Failed?
            then Requeued(db, db.(sessions := db.sessions[s := db'.sessions[s]]), s) else db'.sessions[s] == db.sessions[s])
  {
  }

  // ---------------------------------------------------------------- merging two sessions

  /** Where rows of a session are filed after the merge. */
  function Moved(left: SessionId, right: SessionId, s: SessionId): SessionId {
    if s == right then left else s
  }

  function Refiled(left: SessionId, right: SessionId, row: Snapshot): Snapshot {
    Snapshot(Moved(left, right, row.session), row.capture, row.capturedAt, row.hasFile, row.bytes, row.tier)
  }

  /** The rows of the absorbed session are filed under the other; all other rows are as they were. */
  lemma MergedRows(db: Database, left: SessionId, right: SessionId, endedAt: Option<int>, apps: seq<string>)
    requires left in db.sessions
    ensures var db' := MergePair(db, left, right, endedAt, apps);
      && db'.revision == db.revision
      && db'.events.Keys == db.events.Keys && db'.snapshots.Keys == db.snapshots.Keys && db'.frames.Keys == db.frames.Keys
      && (forall e :: e in db.events ==> db'.events[e] == Event(Moved(left, right, db.events[e].session), db.events[e].content))
      && (forall p :: p in db.snapshots ==> db'.snapshots[p] == Refiled(left, right, db.snapshots[p]))
      && (forall f :: f in db.frames ==> db'.frames[f] == Frame(Moved(left, right, db.frames[f].session), db.frames[f].snapshot, db.frames[f].text))
  {
  }

  /** The absorbed session is gone, and the other has the end and the applications given, both counts, and no analysis. */
  lemma MergedSessions(db: Database, left: SessionId, right: SessionId, endedAt: Option<int>, apps: seq<string>)
    requires left in db.sessions && left != right
    ensures var db' := MergePair(db, left, right, endedAt, apps);
      && left in db'.sessions && right !in db'.sessions
      && (forall x :: x != left && x != right ==> (x in db'.sessions <==> x in db.sessions) && (x in db.sessions ==> db'.sessions[x] == db.sessions[x]))
      && var was, now := db.sessions[left], db'.sessions[left];
      && now.startedAt == was.startedAt && now.endedAt == endedAt && now.apps == apps && now.outcome == Pending
      && now.snapshotCount == was.snapshotCount + (if right in db.sessions then db.sessions[right].snapshotCount else 0)
      && now.eventCount == |set e | e in db.events && (db.events[e].session == left || db.events[e].session == right)|
  {
    var db' := MergePair(db, left, right, endedAt, apps);
    assert (set e | e in db'.events && db'.events[e].session == left) ==
           (set e | e in db.events && (db.events[e].session == left || db.events[e].session == right));
  }

  /** Without the session it would be merged into, a session with rows is not merged. */
  lemma MergeRefused(db: Database, left: SessionId, right: SessionId, endedAt: Option<int>, apps: seq<string>)
    requires left !in db.sessions
    requires (exists e :: e in db.events && db.events[e].session == right) || (exists p :: p in db.snapshots && db.snapshots[p].session == right)
      || (exists f :: f in db.frames && db.frames[f].session == right)
    ensures MergePair(db, left, right, endedAt, apps) == db
  {
    assert forall e :: e in EventsOf(db, right) <==> e in db.events && db.events[e].session == right;
    assert forall p :: p in SnapshotsOf(db, right) <==> p in db.snapshots && db.snapshots[p].session == right;
    assert forall f :: f in FramesOf(db, right) <==> f in db.frames && db.frames[f].session == right;
  }

  /** One without rows just goes. */
  lemma MergeOfNothing(db: Database, left: SessionId, right: SessionId, endedAt: Option<int>, apps: seq<string>)
    requires left !in db.sessions
    requires (forall e :: e in db.events ==> db.events[e].session != right) && (forall p :: p in db.snapshots ==> db.snapshots[p].session != right)
      && (forall f :: f in db.frames ==> db.frames[f].session != right)
    ensures MergePair(db, left, right, endedAt, apps) == db.(sessions := db.sessions - {right})
  {
    var db' := MergePair(db, left, right, endedAt, apps);
    assert EventsOf(db, right) == map[] && SnapshotsOf(db, right) == map[] && FramesOf(db, right) == map[];
    assert db'.events == db.events && db'.snapshots == db.snapshots && db'.frames == db.frames;
  }

  /** The steps of a run are these transactions, on what was looked up or captured before; a merge is done whole or not at all. */
  lemma StepsAreTransactions(q: Listing, s: State, a: Action)
    ensures var db, db' := s.db, Step(q, s, a).db;
      match a
      case Start(id, at) => db' == db.(sessions := db.sessions[id := Session(at, None, 0, 0, [], Pending)])
      case End(id, at) => db' == EndSession(db, id, at)
      case Insert(id, event) => db' == InsertEvent(db, id, event)
      case LookUp(look, shot) =>
        db' == db && (shot in db.snapshots ==> Step(q, s, a).looks == s.looks[look := Look(shot, db.snapshots[shot].session)])
      case Ocr(look, text, frame) => look in s.looks ==> db' == UpdateOcr(db, s.looks[look].shot, s.looks[look].seen, text, frame)
      case Read(task, id) => db' == db && (Capture(q, db, id).Some? ==> Step(q, s, a).tasks == s.tasks[task := Capture(q, db, id).value])
      case Commit(task, change) => task in s.tasks ==> db' == CommitIfCurrent(q, db, s.tasks[task], change)
      case Merge(pairs) => db' == MergePairs(db, pairs) || (db' == db && !PairsAllowed(db, pairs))
      case Retry => db' == RetryFailed(db)
      case Delete(id) => db' == WithoutSession(db, id)
      case Wipe => db' == Clear(db)
  {
  }

  /** A merge of pairs is refused exactly if on its way rows would be moved to a session that is gone. */
  lemma {:induction false} PairsRefused(db: Database, pairs: seq<Pair>)
    ensures PairsAllowed(db, pairs) <==>
      forall k :: 0 <= k < |pairs| ==> MovesNothing(MergePairs(db, pairs[..k]), pairs[k].right) || pairs[k].left in MergePairs(db, pairs[..k]).sessions
    decreases pairs
  {
    if pairs != [] {
      var next := MergePair(db, pairs[0].left, pairs[0].right, pairs[0].endedAt, pairs[0].apps);
      PairsRefused(next, pairs[1..]);
      NothingFiled(db, pairs[0].right);
      assert pairs[..0] == [];
      forall k | 0 < k < |pairs| ensures MergePairs(db, pairs[..k]) == MergePairs(next, pairs[1..][..k - 1]) && pairs[k] == pairs[1..][k - 1] {
        assert pairs[..k][1..] == pairs[1..][..k - 1];
      }
      if PairsAllowed(next, pairs[1..]) {
        forall k | 0 < k < |pairs|
          ensures MovesNothing(MergePairs(db, pairs[..k]), pairs[k].right) || pairs[k].left in MergePairs(db, pairs[..k]).sessions
        {
          assert pairs[k] == pairs[1..][k - 1];
        }
      }
    }
  }

  /** No row is filed under the session. */
  ghost predicate MovesNothing(db: Database, s: SessionId) {
    (forall e :: e in db.events ==> db.events[e].session != s) && (forall p :: p in db.snapshots ==> db.snapshots[p].session != s)
    && (forall f :: f in db.frames ==> db.frames[f].session != s)
  }

  lemma NothingFiled(db: Database, s: SessionId)
    ensures EventsOf(db, s) == map[] && SnapshotsOf(db, s) == map[] && FramesOf(db, s) == map[] <==> MovesNothing(db, s)
  {
    assert forall e :: e in EventsOf(db, s) <==> e in db.events && db.events[e].session == s;
    assert forall p :: p in SnapshotsOf(db, s) <==> p in db.snapshots && db.snapshots[p].session == s;
    assert forall f :: f in FramesOf(db, s) <==> f in db.frames && db.frames[f].session == s;
  }

  // ---------------------------------------------------------------- the counters

  /** The identifiers of the rows that are filed under a session. */
  function EventIds(db: Database, s: SessionId): set<EventId> {
    set e | e in db.events && db.events[e].session == s
  }

  function SnapshotIds(db: Database, s: SessionId): set<SnapshotId> {
    set p | p in db.snapshots && db.snapshots[p].session == s
  }

  ghost predicate CountsTrue(db: Database) {
    forall s :: s in db.sessions ==> CountsAt(db, s)
  }

  ghost predicate CountsAt(db: Database, s: SessionId)
    requires s in db.sessions
  {
    db.sessions[s].eventCount == |EventIds(db, s)| && db.sessions[s].snapshotCount == |SnapshotIds(db, s)|
  }

  /** A session and its rows are the same, as far as they are counted. */
  ghost predicate CountedAlike(db: Database, db': Database, s: SessionId)
    requires s in db'.sessions
  {
    && s in db.sessions && db'.sessions[s].eventCount == db.sessions[s].eventCount
    && db'.sessions[s].snapshotCount == db.sessions[s].snapshotCount
    && EventIds(db', s) == EventIds(db, s) && SnapshotIds(db', s) == SnapshotIds(db, s)
  }

  /** A screenshot is counted as a snapshot only, and anything else as an event only. */
  predicate Separate(a: Action) {
    a.Insert? ==> (a.event.fallback <==> a.event.snapshot.Some?)
  }

  lemma InsertedElsewhere(db: Database, s: SessionId, e: NewEvent, x: SessionId)
    requires e.id !in db.events && (e.snapshot.Some? ==> e.snapshot.value.id !in db.snapshots)
    requires x in db.sessions && (x != s || InsertEvent(db, s, e) == db)
    ensures CountedAlike(db, InsertEvent(db, s, e), x)
  {
    var db' := InsertEvent(db, s, e);
    assert EventIds(db', x) == EventIds(db, x) && SnapshotIds(db', x) == SnapshotIds(db, x);
  }

  lemma InsertedEvents(db: Database, s: SessionId, e: NewEvent)
    requires s in db.sessions && e.id !in db.events && InsertEvent(db, s, e) != db
    ensures EventIds(InsertEvent(db, s, e), s) == EventIds(db, s) + if e.snapshot.Some? then {} else {e.id}
  {
    assert InsertEvent(db, s, e).events == if e.snapshot.Some? then db.events else db.events[e.id := Event(s, e.content)];
  }

  lemma InsertedSnapshots(db: Database, s: SessionId, e: NewEvent)
    requires s in db.sessions && InsertEvent(db, s, e) != db
    ensures SnapshotIds(InsertEvent(db, s, e), s) == SnapshotIds(db, s) + if e.snapshot.Some? then {e.snapshot.value.id} else {}
  {
    var db' := InsertEvent(db, s, e);
    if e.snapshot.Some? {
      var shot := e.snapshot.value;
      assert db'.snapshots == db.snapshots[shot.id := Snapshot(s, e.capture, shot.capturedAt, true, shot.bytes, Hot)];
    } else {
      assert db'.snapshots == db.snapshots;
    }
  }

  lemma InsertedCounters(db: Database, s: SessionId, e: NewEvent)
    requires s in db.sessions && InsertEvent(db, s, e) != db
    ensures var db' := InsertEvent(db, s, e);
      && s in db'.sessions
      && db'.sessions[s].eventCount == db.sessions[s].eventCount + (if e.fallback then 0 else 1)
      && db'.sessions[s].snapshotCount == db.sessions[s].snapshotCount + (if e.snapshot.Some? then 1 else 0)
  {
  }

  lemma InsertedHere(db: Database, s: SessionId, e: NewEvent)
    requires s in db.sessions && CountsAt(db, s) && e.id !in db.events && (e.snapshot.Some? ==> e.snapshot.value.id !in db.snapshots)
    requires (e.fallback <==> e.snapshot.Some?) && InsertEvent(db, s, e) != db
    ensures s in InsertEvent(db, s, e).sessions && CountsAt(InsertEvent(db, s, e), s)
  {
    InsertedEvents(db, s, e);
    InsertedSnapshots(db, s, e);
    InsertedCounters(db, s, e);
  }

  lemma InsertCounts(db: Database, s: SessionId, e: NewEvent)
    requires CountsTrue(db) && e.id !in db.events && (e.snapshot.Some? ==> e.snapshot.value.id !in db.snapshots)
    requires e.fallback <==> e.snapshot.Some?
    ensures CountsTrue(InsertEvent(db, s, e))
  {
    forall x | x in InsertEvent(db, s, e).sessions ensures CountsAt(InsertEvent(db, s, e), x) {
      if x != s || InsertEvent(db, s, e) == db {
        InsertedElsewhere(db, s, e, x);
      } else {
        InsertedHere(db, s, e);
      }
    }
  }

  lemma MergedElsewhere(db: Database, p: Pair, x: SessionId)
    requires p.left != p.right && x != p.left && x in MergePair(db, p.left, p.right, p.endedAt, p.apps).sessions
    ensures CountedAlike(db, MergePair(db, p.left, p.right, p.endedAt, p.apps), x)
  {
    var db' := MergePair(db, p.left, p.right, p.endedAt, p.apps);
    assert EventIds(db', x) == EventIds(db, x) && SnapshotIds(db', x) == SnapshotIds(db, x);
  }

  lemma MergeCounts(db: Database, p: Pair)
    requires CountsTrue(db) && Referential(db) && p.left != p.right
    ensures CountsTrue(MergePair(db, p.left, p.right, p.endedAt, p.apps))
  {
    var db' := MergePair(db, p.left, p.right, p.endedAt, p.apps);
    forall x | x in db'.sessions ensures CountsAt(db', x) {
      if x != p.left {
        MergedElsewhere(db, p, x);
      } else {
        MergedCount(db, p);
      }
    }
  }

  lemma MergedIds(db: Database, p: Pair)
    requires p.left != p.right && p.left in db.sessions
    ensures SnapshotIds(MergePair(db, p.left, p.right, p.endedAt, p.apps), p.left) == SnapshotIds(db, p.left) + SnapshotIds(db, p.right)
  {
    MergedRows(db, p.left, p.right, p.endedAt, p.apps);
  }

  lemma MergedCount(db: Database, p: Pair)
    requires CountsTrue(db) && Referential(db) && p.left != p.right && p.left in db.sessions
    ensures var db' := MergePair(db, p.left, p.right, p.endedAt, p.apps); p.left in db'.sessions && CountsAt(db', p.left)
  {
    MergedIds(db, p);
    MergedSessions(db, p.left, p.right, p.endedAt, p.apps);
    assert SnapshotIds(db, p.left) !! SnapshotIds(db, p.right);
    if p.right !in db.sessions {
      assert SnapshotIds(db, p.right) == {};
    }
  }

  lemma {:induction false} MergesCount(q: Listing, db: Database, pairs: seq<Pair>)
    requires CountsTrue(db) && Inv(q, db) && forall i :: 0 <= i < |pairs| ==> pairs[i].left != pairs[i].right
    ensures CountsTrue(MergePairs(db, pairs))
    decreases pairs
  {
    if pairs != [] {
      MergeCounts(db, pairs[0]);
      MergeKeeps(q, db, pairs[0]);
      MergesCount(q, MergePair(db, pairs[0].left, pairs[0].right, pairs[0].endedAt, pairs[0].apps), pairs[1..]);
    }
  }

  lemma DeleteCounts(db: Database, s: SessionId)
    requires CountsTrue(db)
    ensures CountsTrue(WithoutSession(db, s))
  {
    var db' := WithoutSession(db, s);
    forall x | x in db'.sessions ensures CountedAlike(db, db', x) {
      assert EventIds(db', x) == EventIds(db, x) && SnapshotIds(db', x) == SnapshotIds(db, x);
    }
  }

  lemma StartCounts(db: Database, id: SessionId, row: Session)
    requires CountsTrue(db) && Referential(db) && id !in db.sessions && row.eventCount == 0 && row.snapshotCount == 0
    ensures CountsTrue(db.(sessions := db.sessions[id := row]))
  {
    var db' := db.(sessions := db.sessions[id := row]);
    assert EventIds(db', id) == {} && SnapshotIds(db', id) == {};
    forall x | x in db.sessions ensures CountedAlike(db, db', x) {
      assert EventIds(db', x) == EventIds(db, x) && SnapshotIds(db', x) == SnapshotIds(db, x);
    }
  }

  lemma SameRowsCount(db: Database, db': Database)
    requires CountsTrue(db) && db'.events == db.events && db'.snapshots == db.snapshots
    requires forall x :: x in db'.sessions ==> x in db.sessions && db'.sessions[x].eventCount == db.sessions[x].eventCount
                                               && db'.sessions[x].snapshotCount == db.sessions[x].snapshotCount
    ensures CountsTrue(db')
  {
    forall x | x in db'.sessions ensures CountsAt(db', x) {
      assert EventIds(db', x) == EventIds(db, x) && SnapshotIds(db', x) == SnapshotIds(db, x);
    }
  }

  /** A transaction that changes neither these rows nor counters. */
  lemma OtherCounts(q: Listing, s: State, a: Action)
    requires CountsTrue(s.db) && (a.End? || a.LookUp? || a.Ocr? || a.Read? || a.Commit? || a.Retry?)
    ensures CountsTrue(Step(q, s, a).db)
  {
    match a
    case End(_, _) => SameRowsCount(s.db, Step(q, s, a).db);
    case LookUp(_, _) =>
    case Ocr(_, _, _) => SameRowsCount(s.db, Step(q, s, a).db);
    case Read(_, _) =>
    case Commit(_, _) => SameRowsCount(s.db, Step(q, s, a).db);
    case Retry => SameRowsCount(s.db, Step(q, s, a).db);
  }

  lemma CountsStep(q: Listing, s: State, a: Action)
    requires CountsTrue(s.db) && Inv(q, s.db) && Looked(s) && Enabled(s, a) && Separate(a)
    ensures CountsTrue(Step(q, s, a).db)
  {
    match a
    case Start(id, at) => StartCounts(s.db, id, Session(at, None, 0, 0, [], Pending));
    case Insert(id, e) => InsertCounts(s.db, id, e);
    case Merge(pairs) => MergesCount(q, s.db, pairs);
    case Delete(id) => DeleteCounts(s.db, id);
    case Wipe => ClearedExactly(s.db);
    case _ => OtherCounts(q, s, a);
  }

  /** Over every run: each session's counters are the numbers of its events and of its snapshots. */
  lemma {:induction false} CountsRun(q: Listing, s: State, run: seq<Action>)
    requires CountsTrue(s.db) && Inv(q, s.db) && Looked(s) && CanRun(q, s, run)
    requires forall i :: 0 <= i < |run| ==> Separate(run[i])
    ensures CountsTrue(Run(q, s, run).db)
    decreases run
  {
    if run != [] {
      CountsStep(q, s, run[0]);
      StepKeeps(q, s, run[0]);
      CountsRun(q, Step(q, s, run[0]), run[1..]);
    }
  }
}
