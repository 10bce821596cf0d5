/**
 Many threads ask for an application's accessibility attributes to be switched on while
 they walk its element tree. One registry lock guards the table of entries; one lock per
 entry guards the attribute reads and writes. Every attribute access is a step of its own,
 so that calls for the same process interleave wherever the locks let them.
 */
module AccessibilityEnablement {
  import opened Wrappers

  type Pid = int
  type Thread = nat
  type EntryId = nat

  datatype Attributes = Attributes(enhanced: bool, manual: bool)

  const ENABLED := Attributes(true, true)

  /** The attributes of every process. */
  type Settings = m: imap<Pid, Attributes> | forall pid :: pid in m
    ghost witness imap pid: Pid | true :: ENABLED

  datatype Entry = Entry(holders: int, active: int, saved: Attributes, owner: Option<Thread>)

  const UNUSED := Entry(0, 0, Attributes(false, false), None)

  /** How far a call has come. From ReadEnhanced to CountUp and from CountDown to Unlock it holds its entry's lock. */
  datatype Stage =
    | Registered
    | ReadEnhanced | ReadManual | WriteEnhanced | WriteManual | CountUp
    | Running
    | CountDown | RestoreEnhanced | RestoreManual | Unlock
    | Released

  predicate HoldsLock(stage: Stage) {
    !stage.Registered? && !stage.Running? && !stage.Released?
  }

  predicate CountsAsActive(stage: Stage) {
    stage.Running? || stage.CountDown?
  }

  datatype Call = Call(pid: Pid, entry: EntryId, stage: Stage)

  /**
   `heap` holds every entry object ever allocated and `entries` the registry's table.
   `baseline` is a history variable: per process, the values last read before switching on.
   */
  datatype State = State(
    entries: map<Pid, EntryId>,
    heap: map<EntryId, Entry>,
    calls: map<Thread, Call>,
    system: Settings,
    baseline: Settings)

  datatype Action =
    | Register(thread: Thread, pid: Pid, id: EntryId)
    | Advance(thread: Thread, readable: bool)
    | Wake(thread: Thread)

  /** A thread that needs its entry's lock waits until nobody owns it. */
  predicate Enabled(s: State, a: Action) {
    if a.Register? then
      a.thread !in s.calls && a.id !in s.heap
    else
      && a.thread in s.calls
      && s.calls[a.thread].entry in s.heap
      && Ready(a, s.calls[a.thread].stage, s.heap[s.calls[a.thread].entry].owner)
  }

  predicate Ready(a: Action, stage: Stage, owner: Option<Thread>) {
    match a
    case Register(_, _, _) => false
    case Advance(_, _) => stage.Registered? || stage.Running? ==> owner.None?
    case Wake(_) => stage.Running?
  }

  function TargetPid(s: State, a: Action): Pid
    requires Enabled(s, a)
  {
    if a.Register? then a.pid else s.calls[a.thread].pid
  }

  function Target(s: State, a: Action): EntryId
    requires Enabled(s, a)
  {
    if a.Register? then (if a.pid in s.entries then s.entries[a.pid] else a.id) else s.calls[a.thread].entry
  }

  /** What one action can see and change: its thread's call, its entry and its process. */
  datatype Local = Local(stage: Option<Stage>, entry: Entry, now: Attributes, base: Attributes)

  function View(s: State, t: Thread, pid: Pid, e: EntryId): Local {
    Local(StageOf(s.calls, t), EntryOf(s.heap, e), s.system[pid], s.baseline[pid])
  }

  function StageOf(calls: map<Thread, Call>, t: Thread): Option<Stage> {
    if t in calls then Some(calls[t].stage) else None
  }

  function EntryOf(heap: map<EntryId, Entry>, e: EntryId): Entry {
    if e in heap then heap[e] else UNUSED
  }

  function Step(s: State, a: Action): State
    requires Enabled(s, a)
  {
    var pid, e := TargetPid(s, a), Target(s, a);
    Apply(s, a.thread, pid, e, Move(a, View(s, a.thread, pid, e)))
  }

  function Apply(s: State, t: Thread, pid: Pid, e: EntryId, l: Local): State {
    State(
      if l.entry.holders == 0 then s.entries - {pid} else s.entries[pid := e],
      s.heap[e := l.entry],
      Place(s.calls, t, pid, e, l.stage),
      s.system[pid := l.now],
      s.baseline[pid := l.base])
  }

  function Place(calls: map<Thread, Call>, t: Thread, pid: Pid, e: EntryId, stage: Option<Stage>): map<Thread, Call> {
    if stage.Some? then calls[t := Call(pid, e, stage.value)] else calls - {t}
  }

  /** The first section holds the entry; a wake-up writes the enhanced attribute from inside the body. */
  function Move(a: Action, l: Local): Local
    requires !a.Register? ==> l.stage.Some?
  {
    match a
    case Register(_, _, _) => l.(stage := Some(Registered), entry := l.entry.(holders := l.entry.holders + 1))
    case Advance(t, readable) => Operate(t, l.stage.value, readable, l)
    case Wake(_) => l.(now := l.now.(enhanced := true))
  }

  /** The next operation of a call: the second section, the body's end, the third section, the fourth. */
  function Operate(t: Thread, stage: Stage, readable: bool, l: Local): Local {
    var entry := l.entry;
    match stage
    case Registered =>
      l.(stage := Some(if entry.active == 0 then ReadEnhanced else CountUp), entry := entry.(owner := Some(t)))
    case ReadEnhanced =>
      var seen := readable && l.now.enhanced;
      Local(Some(ReadManual), entry.(saved := entry.saved.(enhanced := seen)), l.now, l.base.(enhanced := seen))
    case ReadManual =>
      var seen := readable && l.now.manual;
      Local(Some(WriteEnhanced), entry.(saved := entry.saved.(manual := seen)), l.now, l.base.(manual := seen))
    case WriteEnhanced => l.(stage := Some(WriteManual), now := l.now.(enhanced := true))
    case WriteManual => l.(stage := Some(CountUp), now := l.now.(manual := true))
    case CountUp => l.(stage := Some(Running), entry := entry.(active := entry.active + 1, owner := None))
    case Running => l.(stage := Some(CountDown), entry := entry.(owner := Some(t)))
    case CountDown =>
      l.(stage := Some(if entry.active == 1 then RestoreEnhanced else Unlock),
         entry := entry.(active := entry.active - 1))
    case RestoreEnhanced => l.(stage := Some(RestoreManual), now := l.now.(enhanced := entry.saved.enhanced))
    case RestoreManual => l.(stage := Some(Unlock), now := l.now.(manual := entry.saved.manual))
    case Unlock => l.(stage := Some(Released), entry := entry.(owner := None))
    case Released => l.(stage := None, entry := entry.(holders := entry.holders - 1))
  }

  // ---------------------------------------------------------------- the invariant

  /** The threads whose call refers to an entry, from registering to unregistering. */
  ghost function Holders(calls: map<Thread, Call>, e: EntryId): set<Thread> {
    set t | t in calls && calls[t].entry == e
  }

  /** The threads an entry counts as active. */
  ghost function Active(calls: map<Thread, Call>, e: EntryId): set<Thread> {
    set t | t in calls && calls[t].entry == e && CountsAsActive(calls[t].stage)
  }

  /** All calls for a process share the table's entry, which lives exactly as long as one refers to it. */
  ghost predicate Shared(s: State) {
    && (forall t :: t in s.calls ==> s.calls[t].pid in s.entries && s.entries[s.calls[t].pid] == s.calls[t].entry)
    && (forall p :: p in s.entries ==> s.entries[p] in s.heap && s.heap[s.entries[p]].holders > 0)
    && (forall p, q :: p in s.entries && q in s.entries && s.entries[p] == s.entries[q] ==> p == q)
  }

  ghost predicate Counted(s: State) {
    forall e :: e in s.heap ==>
      s.heap[e].holders == |Holders(s.calls, e)| && s.heap[e].active == |Active(s.calls, e)|
  }

  ghost predicate Exclusive(s: State) {
    && (forall t :: t in s.calls && HoldsLock(s.calls[t].stage) ==> EntryOf(s.heap, s.calls[t].entry).owner == Some(t))
    && (forall e :: e in s.heap && s.heap[e].owner.Some? ==>
          var t := s.heap[e].owner.value;
          t in s.calls && s.calls[t].entry == e && HoldsLock(s.calls[t].stage))
  }

  /** What the attributes of a process are, given how far the lock's owner has come. */
  ghost predicate AttributesFit(entry: Entry, owner: Option<Stage>, now: Attributes, base: Attributes) {
    if owner.None? || owner.value.Unlock? then
      if entry.active > 0 then now == ENABLED && entry.saved == base else now == base
    else
      match owner.value
      case ReadEnhanced => entry.active == 0 && now == base
      case ReadManual => entry.active == 0 && entry.saved.enhanced == base.enhanced && now.manual == base.manual
      case WriteEnhanced => entry.active == 0 && entry.saved == base
      case WriteManual => entry.active == 0 && entry.saved == base && now.enhanced
      case CountUp => entry.saved == base && now == ENABLED
      case CountDown => entry.saved == base && now == ENABLED
      case RestoreEnhanced => entry.active == 0 && entry.saved == base
      case RestoreManual => entry.active == 0 && entry.saved == base && now.enhanced == base.enhanced
      case _ => false
  }

  ghost function OwnerStage(s: State, e: EntryId): Option<Stage> {
    var owner := EntryOf(s.heap, e).owner;
    if owner.Some? then StageOf(s.calls, owner.value) else None
  }

  ghost predicate FitsAt(s: State, p: Pid) {
    if p in s.entries
    then AttributesFit(EntryOf(s.heap, s.entries[p]), OwnerStage(s, s.entries[p]), s.system[p], s.baseline[p])
    else s.system[p] == s.baseline[p]
  }

  ghost predicate Inv(s: State) {
    Shared(s) && Counted(s) && Exclusive(s) && forall p :: FitsAt(s, p)
  }

  // ---------------------------------------------------------------- one step

  function Bit(b: bool): int { if b then 1 else 0 }

  predicate Counting(stage: Option<Stage>) {
    stage.Some? && CountsAsActive(stage.value)
  }

  lemma HoldersAtTarget(calls: map<Thread, Call>, t: Thread, pid: Pid, e: EntryId, stage: Option<Stage>)
    requires t in calls ==> calls[t].entry == e
    ensures |Holders(Place(calls, t, pid, e, stage), e)| == |Holders(calls, e)| + Bit(stage.Some?) - Bit(t in calls)
  {
    var before := Holders(calls, e);
    assert t in before <==> t in calls;
    if stage.Some? {
      assert Holders(Place(calls, t, pid, e, stage), e) == before + {t};
    } else {
      assert Holders(Place(calls, t, pid, e, stage), e) == before - {t};
    }
  }

  lemma ActiveAtTarget(calls: map<Thread, Call>, t: Thread, pid: Pid, e: EntryId, stage: Option<Stage>)
    requires t in calls ==> calls[t].entry == e
    ensures |Active(Place(calls, t, pid, e, stage), e)| == |Active(calls, e)| + Bit(Counting(stage)) - Bit(Counting(StageOf(calls, t)))
  {
    var before := Active(calls, e);
    assert t in before <==> Counting(StageOf(calls, t));
    if Counting(stage) {
      assert Active(Place(calls, t, pid, e, stage), e) == before + {t};
    } else {
      assert Active(Place(calls, t, pid, e, stage), e) == before - {t};
    }
  }

  lemma CountsElsewhere(calls: map<Thread, Call>, t: Thread, pid: Pid, e: EntryId, stage: Option<Stage>, x: EntryId)
    requires x != e && (t in calls ==> calls[t].entry == e)
    ensures Holders(Place(calls, t, pid, e, stage), x) == Holders(calls, x)
    ensures Active(Place(calls, t, pid, e, stage), x) == Active(calls, x)
  {
  }

  /** Both counters move exactly with the call's stage. */
  lemma MoveCounts(a: Action, l: Local)
    requires if a.Register? then l.stage.None? else l.stage.Some? && Ready(a, l.stage.value, l.entry.owner)
    ensures var l' := Move(a, l);
      && l'.entry.holders == l.entry.holders + Bit(l'.stage.Some?) - Bit(l.stage.Some?)
      && l'.entry.active == l.entry.active + Bit(Counting(l'.stage)) - Bit(Counting(l.stage))
  {
  }

  lemma CountedApply(s: State, t: Thread, pid: Pid, e: EntryId, l: Local)
    requires Counted(s) && (t in s.calls ==> s.calls[t].entry == e)
    requires e !in s.heap ==> Holders(s.calls, e) == {} && Active(s.calls, e) == {}
    requires var v := View(s, t, pid, e);
      && l.entry.holders == v.entry.holders + Bit(l.stage.Some?) - Bit(v.stage.Some?)
      && l.entry.active == v.entry.active + Bit(Counting(l.stage)) - Bit(Counting(v.stage))
    ensures Counted(Apply(s, t, pid, e, l))
  {
    var s' := Apply(s, t, pid, e, l);
    HoldersAtTarget(s.calls, t, pid, e, l.stage);
    ActiveAtTarget(s.calls, t, pid, e, l.stage);
    forall x | x in s'.heap && x != e
      ensures s'.heap[x].holders == |Holders(s'.calls, x)| && s'.heap[x].active == |Active(s'.calls, x)|
    {
      CountsElsewhere(s.calls, t, pid, e, l.stage, x);
    }
  }

  lemma CountedStep(s: State, a: Action)
    requires Inv(s) && Enabled(s, a)
    ensures Counted(Step(s, a))
  {
    var t, pid, e := a.thread, TargetPid(s, a), Target(s, a);
    MoveCounts(a, View(s, t, pid, e));
    CountedApply(s, t, pid, e, Move(a, View(s, t, pid, e)));
  }

  /** The thread, the process and the entry of a step belong together before it. */
  ghost predicate Linked(s: State, t: Thread, pid: Pid, e: EntryId) {
    && (t in s.calls ==> pid in s.entries && s.calls[t].pid == pid && s.calls[t].entry == e)
    && (pid in s.entries ==> s.entries[pid] == e)
    && (pid !in s.entries ==> e !in s.heap && forall p :: p in s.entries ==> s.entries[p] != e)
  }

  lemma CallsKeepEntries(s: State, t: Thread, pid: Pid, e: EntryId, l: Local)
    requires Shared(s) && Linked(s, t, pid, e)
    requires l.entry.holders == 0 ==> Holders(Place(s.calls, t, pid, e, l.stage), e) == {}
    ensures var s' := Apply(s, t, pid, e, l);
      forall u :: u in s'.calls ==> s'.calls[u].pid in s'.entries && s'.entries[s'.calls[u].pid] == s'.calls[u].entry
  {
    var s' := Apply(s, t, pid, e, l);
    forall u | u in s'.calls
      ensures s'.calls[u].pid in s'.entries && s'.entries[s'.calls[u].pid] == s'.calls[u].entry
    {
      if l.entry.holders == 0 {
        assert u !in Holders(s'.calls, e);
      }
    }
  }

  lemma SharedApply(s: State, t: Thread, pid: Pid, e: EntryId, l: Local)
    requires Shared(s) && Linked(s, t, pid, e) && l.entry.holders >= 0
    requires l.entry.holders == 0 ==> Holders(Place(s.calls, t, pid, e, l.stage), e) == {}
    ensures Shared(Apply(s, t, pid, e, l))
  {
    CallsKeepEntries(s, t, pid, e, l);
  }

  lemma SharedStep(s: State, a: Action)
    requires Inv(s) && Enabled(s, a)
    ensures Shared(Step(s, a))
  {
    var t, pid, e := a.thread, TargetPid(s, a), Target(s, a);
    CountedStep(s, a);
    assert Step(s, a).heap[e].holders == |Holders(Step(s, a).calls, e)|;
    SharedApply(s, t, pid, e, Move(a, View(s, t, pid, e)));
  }

  /** An operation takes the lock, keeps it, or gives it up; no operation disturbs another owner. */
  lemma MoveLocks(a: Action, l: Local)
    requires if a.Register? then l.stage.None? else l.stage.Some? && Ready(a, l.stage.value, l.entry.owner)
    requires l.stage.Some? && HoldsLock(l.stage.value) ==> l.entry.owner == Some(a.thread)
    ensures var l' := Move(a, l);
      if l'.stage.Some? && HoldsLock(l'.stage.value) then l'.entry.owner == Some(a.thread) && (l.entry.owner.None? || l.entry.owner == l'.entry.owner)
      else if l.stage.Some? && HoldsLock(l.stage.value) then l'.entry.owner == None
      else l'.entry.owner == l.entry.owner
  {
  }

  lemma ExclusiveApply(s: State, t: Thread, pid: Pid, e: EntryId, l: Local)
    requires Shared(s) && Exclusive(s) && Linked(s, t, pid, e)
    requires var v := View(s, t, pid, e);
      if l.stage.Some? && HoldsLock(l.stage.value) then l.entry.owner == Some(t) && (v.entry.owner.None? || v.entry.owner == l.entry.owner)
      else if v.stage.Some? && HoldsLock(v.stage.value) then l.entry.owner == None
      else l.entry.owner == v.entry.owner
    ensures Exclusive(Apply(s, t, pid, e, l))
  {
    var s' := Apply(s, t, pid, e, l);
    forall u | u in s'.calls && HoldsLock(s'.calls[u].stage)
      ensures EntryOf(s'.heap, s'.calls[u].entry).owner == Some(u)
    {
      assert u != t ==> s'.calls[u] == s.calls[u];
    }
  }

  lemma ExclusiveStep(s: State, a: Action)
    requires Inv(s) && Enabled(s, a)
    ensures Exclusive(Step(s, a))
  {
    var t, pid, e := a.thread, TargetPid(s, a), Target(s, a);
    MoveLocks(a, View(s, t, pid, e));
    ExclusiveApply(s, t, pid, e, Move(a, View(s, t, pid, e)));
  }

  lemma ActiveWhile(s: State, t: Thread)
    requires Shared(s) && Counted(s) && t in s.calls && CountsAsActive(s.calls[t].stage)
    ensures s.heap[s.calls[t].entry].active > 0
  {
    assert t in Active(s.calls, s.calls[t].entry);
  }

  /** The attribute condition depends on one action's local view only. */
  lemma FitsLocally(a: Action, l: Local, owner: Option<Stage>)
    requires !a.Register? ==> l.stage.Some? && Ready(a, l.stage.value, l.entry.owner)
    requires l.entry.owner.None? ==> owner.None?
    requires !a.Register? && HoldsLock(l.stage.value) ==> owner == l.stage
    requires l.entry.active >= 0 && (Counting(l.stage) ==> l.entry.active > 0)
    requires AttributesFit(l.entry, owner, l.now, l.base)
    ensures var l' := Move(a, l);
      AttributesFit(l'.entry, if l'.stage.Some? && HoldsLock(l'.stage.value) then l'.stage else if a.Advance? && HoldsLock(l.stage.value) then None else owner, l'.now, l'.base)
  {
  }

  lemma FitsElsewhere(s: State, a: Action, p: Pid)
    requires Inv(s) && Enabled(s, a) && p != TargetPid(s, a)
    ensures FitsAt(Step(s, a), p)
  {
    var t, pid, e := a.thread, TargetPid(s, a), Target(s, a);
    var l := Move(a, View(s, t, pid, e));
    var s' := Apply(s, t, pid, e, l);
    assert FitsAt(s, p);
    if p in s.entries {
      var x := s.entries[p];
      assert x != e && s'.heap[x] == s.heap[x];
      if s.heap[x].owner.Some? {
        assert s.heap[x].owner.value != t;
      }
      assert OwnerStage(s', x) == OwnerStage(s, x);
    }
  }

  lemma OwnerStageStep(s: State, a: Action)
    requires Inv(s) && Enabled(s, a)
    ensures var v := View(s, a.thread, TargetPid(s, a), Target(s, a));
      var l' := Move(a, v);
      OwnerStage(Step(s, a), Target(s, a)) ==
        if l'.stage.Some? && HoldsLock(l'.stage.value) then l'.stage
        else if a.Advance? && HoldsLock(v.stage.value) then None
        else OwnerStage(s, Target(s, a))
  {
    MoveLocks(a, View(s, a.thread, TargetPid(s, a), Target(s, a)));
  }

  lemma FitsHere(s: State, a: Action)
    requires Inv(s) && Enabled(s, a)
    ensures FitsAt(Step(s, a), TargetPid(s, a))
  {
    var t, pid, e := a.thread, TargetPid(s, a), Target(s, a);
    var v := View(s, t, pid, e);
    var s' := Step(s, a);
    assert FitsAt(s, pid);
    if Counting(v.stage) {
      ActiveWhile(s, t);
    }
    FitsLocally(a, v, OwnerStage(s, e));
    OwnerStageStep(s, a);
    if s'.heap[e].holders == 0 {
      NothingHeld(s, a);
    }
  }

  lemma NothingHeld(s: State, a: Action)
    requires Inv(s) && Enabled(s, a) && Step(s, a).heap[Target(s, a)].holders == 0
    ensures var entry := Step(s, a).heap[Target(s, a)]; entry.active == 0 && entry.owner.None?
  {
    var s', e := Step(s, a), Target(s, a);
    CountedStep(s, a);
    ExclusiveStep(s, a);
    assert Holders(s'.calls, e) == {};
    forall t | t in s'.calls
      ensures s'.calls[t].entry != e
    {
      assert t !in Holders(s'.calls, e);
    }
    assert Active(s'.calls, e) == {};
  }

  /** Every action of every thread keeps the invariant. */
  lemma InvStep(s: State, a: Action)
    requires Inv(s) && Enabled(s, a)
    ensures Inv(Step(s, a))
  {
    SharedStep(s, a);
    CountedStep(s, a);
    ExclusiveStep(s, a);
    FitsHere(s, a);
    forall p | p != TargetPid(s, a)
      ensures FitsAt(Step(s, a), p)
    {
      FitsElsewhere(s, a, p);
    }
  }

  // ---------------------------------------------------------------- every run

  ghost predicate Initial(s: State) {
    s.entries == map[] && s.heap == map[] && s.calls == map[] && s.baseline == s.system
  }

  predicate CanRun(s: State, run: seq<Action>)
    decreases run
  {
    run == [] || (Enabled(s, run[0]) && CanRun(Step(s, run[0]), run[1..]))
  }

  function Run(s: State, run: seq<Action>): State
    requires CanRun(s, run)
    decreases run
  {
    if run == [] then s else Run(Step(s, run[0]), run[1..])
  }

  lemma {:induction false} InvRun(s: State, run: seq<Action>)
    requires Inv(s) && CanRun(s, run)
    ensures Inv(Run(s, run))
    decreases run
  {
    if run != [] {
      InvStep(s, run[0]);
      InvRun(Step(s, run[0]), run[1..]);
    }
  }

  lemma InvInitial(s: State)
    requires Initial(s)
    ensures Inv(s)
  {
  }

  /** While any body runs, both attributes of its process are on. */
  lemma BodyRunsEnabled(s: State, run: seq<Action>, t: Thread)
    requires Initial(s) && CanRun(s, run)
    requires StageOf(Run(s, run).calls, t) == Some(Running)
    ensures var s' := Run(s, run); s'.system[s'.calls[t].pid] == ENABLED
  {
    InvInitial(s);
    InvRun(s, run);
    var s' := Run(s, run);
    ActiveWhile(s', t);
    assert FitsAt(s', s'.calls[t].pid);
  }

  /** Calls for one process share one entry; the table keeps it exactly while a call refers to it. */
  lemma OneEntryPerProcess(s: State, run: seq<Action>, t: Thread, pid: Pid)
    requires Initial(s) && CanRun(s, run)
    ensures var s' := Run(s, run);
      && (forall u :: t in s'.calls && u in s'.calls ==>
            (s'.calls[t].entry == s'.calls[u].entry <==> s'.calls[t].pid == s'.calls[u].pid))
      && (pid in s'.entries <==> exists u :: u in s'.calls && s'.calls[u].pid == pid)
  {
    InvInitial(s);
    InvRun(s, run);
    var s' := Run(s, run);
    if pid in s'.entries {
      assert Holders(s'.calls, s'.entries[pid]) != {};
      var u :| u in Holders(s'.calls, s'.entries[pid]);
      assert s'.entries[s'.calls[u].pid] == s'.entries[pid];
    }
  }

  /** At most one thread at a time is inside the attribute sections of a process. */
  lemma SectionsExclusive(s: State, run: seq<Action>, t: Thread, u: Thread)
    requires Initial(s) && CanRun(s, run)
    requires var c := Run(s, run).calls;
      t in c && u in c && c[t].pid == c[u].pid && HoldsLock(c[t].stage) && HoldsLock(c[u].stage)
    ensures t == u
  {
    InvInitial(s);
    InvRun(s, run);
  }

  /** Whether some read of the enhanced attribute of `pid` failed during a run. */
  predicate MissedEnhanced(s: State, run: seq<Action>, pid: Pid)
    requires CanRun(s, run)
    decreases run
  {
    run != [] && (Misses(s, run[0], pid, ReadEnhanced) || MissedEnhanced(Step(s, run[0]), run[1..], pid))
  }

  predicate MissedManual(s: State, run: seq<Action>, pid: Pid)
    requires CanRun(s, run)
    decreases run
  {
    run != [] && (Misses(s, run[0], pid, ReadManual) || MissedManual(Step(s, run[0]), run[1..], pid))
  }

  predicate Misses(s: State, a: Action, pid: Pid, read: Stage) {
    a.Advance? && !a.readable && a.thread in s.calls && s.calls[a.thread].pid == pid && s.calls[a.thread].stage == read
  }

  lemma MoveBaseline(a: Action, l: Local)
    requires !a.Register? ==> l.stage.Some?
    requires a.Advance? && l.stage.value.ReadEnhanced? ==> l.now.enhanced == l.base.enhanced
    requires a.Advance? && l.stage.value.ReadManual? ==> l.now.manual == l.base.manual
    ensures var base := Move(a, l).base;
      && base.enhanced == (l.base.enhanced && !(a.Advance? && !a.readable && l.stage.value.ReadEnhanced?))
      && base.manual == (l.base.manual && !(a.Advance? && !a.readable && l.stage.value.ReadManual?))
  {
  }

  lemma BaselineStep(s: State, a: Action, pid: Pid)
    requires Inv(s) && Enabled(s, a)
    ensures var before, after := s.baseline[pid], Step(s, a).baseline[pid];
      && after.enhanced == (before.enhanced && !Misses(s, a, pid, ReadEnhanced))
      && after.manual == (before.manual && !Misses(s, a, pid, ReadManual))
  {
    assert FitsAt(s, TargetPid(s, a));
    if TargetPid(s, a) == pid {
      MoveBaseline(a, View(s, a.thread, pid, Target(s, a)));
    }
  }

  lemma {:induction false} BaselineRun(s: State, run: seq<Action>, pid: Pid)
    requires Inv(s) && CanRun(s, run)
    ensures var before, after := s.baseline[pid], Run(s, run).baseline[pid];
      && after.enhanced == (before.enhanced && !MissedEnhanced(s, run, pid))
      && after.manual == (before.manual && !MissedManual(s, run, pid))
    decreases run
  {
    if run != [] {
      BaselineStep(s, run[0], pid);
      InvStep(s, run[0]);
      BaselineRun(Step(s, run[0]), run[1..], pid);
    }
  }

  /** No call for `pid` is between its first attribute read and its last attribute write. */
  ghost predicate Quiet(s: State, pid: Pid) {
    forall t :: t in s.calls && s.calls[t].pid == pid ==> s.calls[t].stage.Registered? || s.calls[t].stage.Released?
  }

  lemma QuietFits(s: State, pid: Pid)
    requires Inv(s) && Quiet(s, pid)
    ensures s.system[pid] == s.baseline[pid]
  {
    assert FitsAt(s, pid);
    if pid in s.entries {
      var e := s.entries[pid];
      forall t | t in s.calls && s.calls[t].entry == e
        ensures s.calls[t].pid == pid
      {
        assert s.entries[s.calls[t].pid] == e;
      }
      assert Active(s.calls, e) == {};
    }
  }

  /**
   Whenever no call for a process is active, each attribute has the value it had before the
   whole run, except that it is off once a read of it has failed.
   */
  lemma AttributesRestored(s: State, run: seq<Action>, pid: Pid)
    requires Initial(s) && CanRun(s, run) && Quiet(Run(s, run), pid)
    ensures var before, after := s.system[pid], Run(s, run).system[pid];
      && after.enhanced == (before.enhanced && !MissedEnhanced(s, run, pid))
      && after.manual == (before.manual && !MissedManual(s, run, pid))
  {
    InvInitial(s);
    InvRun(s, run);
    BaselineRun(s, run, pid);
    QuietFits(Run(s, run), pid);
  }

  // ---------------------------------------------------------------- the sections as code

  /** The local effect of consecutive operations of one thread. */
  function MoveAll(t: Thread, flags: seq<bool>, l: Local): Local {
    if flags == [] || l.stage.None? then l else MoveAll(t, flags[1..], Operate(t, l.stage.value, flags[0], l))
  }

  function Advances(t: Thread, flags: seq<bool>): seq<Action> {
    seq(|flags|, i requires 0 <= i < |flags| => Advance(t, flags[i]))
  }

  /** Every operation in the list finds the call under way and the lock free or its own. */
  predicate Unblocked(t: Thread, flags: seq<bool>, l: Local) {
    flags == [] ||
    (l.stage.Some? && l.entry.holders > 0 && Ready(Advance(t, flags[0]), l.stage.value, l.entry.owner)
     && Unblocked(t, flags[1..], Operate(t, l.stage.value, flags[0], l)))
  }

  /** Consecutive operations of one thread act on its local view alone. */
  lemma {:induction false} SectionRun(s: State, t: Thread, pid: Pid, e: EntryId, flags: seq<bool>)
    requires t in s.calls && s.calls[t].pid == pid && s.calls[t].entry == e && e in s.heap
    requires flags != [] && Unblocked(t, flags, View(s, t, pid, e))
    ensures CanRun(s, Advances(t, flags))
    ensures Run(s, Advances(t, flags)) == Apply(s, t, pid, e, MoveAll(t, flags, View(s, t, pid, e)))
    decreases flags
  {
    var a := Advance(t, flags[0]);
    var l := Operate(t, View(s, t, pid, e).stage.value, flags[0], View(s, t, pid, e));
    var s' := Apply(s, t, pid, e, l);
    assert Advances(t, flags)[0] == a && Advances(t, flags)[1..] == Advances(t, flags[1..]);
    assert Enabled(s, a) && Step(s, a) == s';
    if |flags| > 1 {
      assert View(s', t, pid, e) == l;
      SectionRun(s', t, pid, e, flags[1..]);
      var l' := MoveAll(t, flags[1..], l);
      ApplyTwice(s, t, pid, e, l, l');
    } else {
      assert Advances(t, flags[1..]) == [];
    }
  }

  lemma UpdateTwice<K, V>(m: map<K, V>, k: K, v: V, v': V)
    ensures m[k := v][k := v'] == m[k := v'] && m[k := v] - {k} == m - {k}
  {
  }

  lemma ApplyTwice(s: State, t: Thread, pid: Pid, e: EntryId, l: Local, l': Local)
    requires l.entry.holders != 0 && l.stage.Some?
    ensures Apply(Apply(s, t, pid, e, l), t, pid, e, l') == Apply(s, t, pid, e, l')
  {
    UpdateTwice(s.entries, pid, e, e);
    UpdateTwice(s.heap, e, l.entry, l'.entry);
    UpdateTwice(s.calls, t, Call(pid, e, l.stage.value), Call(pid, e, l'.stage.GetOr(Released)));
    assert s.system[pid := l.now][pid := l'.now] == s.system[pid := l'.now];
    assert s.baseline[pid := l.base][pid := l'.base] == s.baseline[pid := l'.base];
  }

  /** The operations of the second section: all of them for the first active call, else only the count. */
  function EnterFlags(active: int, enhancedReadable: bool, manualReadable: bool): seq<bool> {
    if active == 0 then [true, enhancedReadable, manualReadable, true, true, true] else [true, true]
  }

  /** The operations of the third section. */
  function LeaveFlags(active: int): seq<bool> {
    if active == 1 then [true, true, true, true, true] else [true, true, true]
  }

  lemma MoveNext(t: Thread, flag: bool, rest: seq<bool>, l: Local)
    requires l.stage.Some? && l.entry.holders > 0 && Ready(Advance(t, flag), l.stage.value, l.entry.owner)
    requires Unblocked(t, rest, Operate(t, l.stage.value, flag, l))
    ensures Unblocked(t, [flag] + rest, l)
    ensures MoveAll(t, [flag] + rest, l) == MoveAll(t, rest, Operate(t, l.stage.value, flag, l))
  {
  }

  /** What the second section does to the local view. */
  function Entered(enhancedReadable: bool, manualReadable: bool, l: Local): Local {
    if l.entry.active == 0 then
      var seen := Attributes(enhancedReadable && l.now.enhanced, manualReadable && l.now.manual);
      Local(Some(Running), l.entry.(saved := seen, active := 1), ENABLED, seen)
    else
      l.(stage := Some(Running), entry := l.entry.(active := l.entry.active + 1))
  }

  /** What the third section does to the local view. */
  function Left(l: Local): Local {
    Local(Some(Released), l.entry.(active := l.entry.active - 1), if l.entry.active == 1 then l.entry.saved else l.now, l.base)
  }

  lemma CountsUp(t: Thread, l: Local)
    requires l.stage == Some(CountUp) && l.entry.holders > 0
    ensures Unblocked(t, [true], l)
    ensures MoveAll(t, [true], l) == l.(stage := Some(Running), entry := l.entry.(active := l.entry.active + 1, owner := None))
  {
    MoveNext(t, true, [], Operate(t, CountUp, true, l));
  }

  /** Both writes and the count. */
  lemma SwitchesOn(t: Thread, l: Local)
    requires l.stage == Some(WriteEnhanced) && l.entry.holders > 0
    ensures Unblocked(t, [true, true, true], l)
    ensures MoveAll(t, [true, true, true], l)
      == Local(Some(Running), l.entry.(active := l.entry.active + 1, owner := None), ENABLED, l.base)
  {
    var l4 := Operate(t, WriteEnhanced, true, l);
    var l5 := Operate(t, WriteManual, true, l4);
    CountsUp(t, l5);
    MoveNext(t, true, [true], l4);
    MoveNext(t, true, [true, true], l);
  }

  /** The first active call: from the first read on. */
  lemma FirstEnters(t: Thread, enhancedReadable: bool, manualReadable: bool, l: Local)
    requires l.stage == Some(ReadEnhanced) && l.entry.holders > 0
    ensures var flags := [enhancedReadable, manualReadable, true, true, true];
      var seen := Attributes(enhancedReadable && l.now.enhanced, manualReadable && l.now.manual);
      && Unblocked(t, flags, l)
      && MoveAll(t, flags, l) == Local(Some(Running), l.entry.(saved := seen, active := l.entry.active + 1, owner := None), ENABLED, seen)
  {
    var l2 := Operate(t, ReadEnhanced, enhancedReadable, l);
    var l3 := Operate(t, ReadManual, manualReadable, l2);
    SwitchesOn(t, l3);
    MoveNext(t, manualReadable, [true, true, true], l2);
    MoveNext(t, enhancedReadable, [manualReadable, true, true, true], l);
  }

  lemma EnterEffect(t: Thread, enhancedReadable: bool, manualReadable: bool, l: Local)
    requires l.stage == Some(Registered) && l.entry.owner.None? && l.entry.holders > 0
    ensures var flags := EnterFlags(l.entry.active, enhancedReadable, manualReadable);
      Unblocked(t, flags, l) && MoveAll(t, flags, l) == Entered(enhancedReadable, manualReadable, l)
  {
    var l1 := Operate(t, Registered, true, l);
    if l.entry.active == 0 {
      FirstEnters(t, enhancedReadable, manualReadable, l1);
      MoveNext(t, true, [enhancedReadable, manualReadable, true, true, true], l);
    } else {
      CountsUp(t, l1);
      MoveNext(t, true, [true], l);
    }
  }

  lemma LeaveEffect(t: Thread, l: Local)
    requires l.stage == Some(Running) && l.entry.owner.None? && l.entry.holders > 0
    ensures var flags := LeaveFlags(l.entry.active);
      Unblocked(t, flags, l) && MoveAll(t, flags, l) == Left(l)
  {
    var l1 := Operate(t, Running, true, l);
    var l2 := Operate(t, CountDown, true, l1);
    if l.entry.active == 1 {
      var l3 := Operate(t, RestoreEnhanced, true, l2);
      var l4 := Operate(t, RestoreManual, true, l3);
      MoveNext(t, true, [], l4);
      MoveNext(t, true, [true], l3);
      MoveNext(t, true, [true, true], l2);
      MoveNext(t, true, [true, true, true], l1);
      MoveNext(t, true, [true, true, true, true], l);
    } else {
      MoveNext(t, true, [], l2);
      MoveNext(t, true, [true], l1);
      MoveNext(t, true, [true, true], l);
    }
  }

  ghost predicate Waiting(s: State, t: Thread, stage: Stage) {
    && StageOf(s.calls, t) == Some(stage) && s.calls[t].entry in s.heap
    && s.calls[t].pid in s.entries && s.entries[s.calls[t].pid] == s.calls[t].entry
    && s.heap[s.calls[t].entry].owner.None? && s.heap[s.calls[t].entry].holders > 0
  }

  /** Run by one thread without interruption, the operations of the second section amount to `Entered`. */
  lemma EnterRun(s: State, t: Thread, enhancedReadable: bool, manualReadable: bool)
    requires Waiting(s, t, Registered)
    ensures var c := s.calls[t];
      var run := Advances(t, EnterFlags(s.heap[c.entry].active, enhancedReadable, manualReadable));
      && CanRun(s, run)
      && Run(s, run) == Apply(s, t, c.pid, c.entry, Entered(enhancedReadable, manualReadable, View(s, t, c.pid, c.entry)))
  {
    var c := s.calls[t];
    EnterEffect(t, enhancedReadable, manualReadable, View(s, t, c.pid, c.entry));
    SectionRun(s, t, c.pid, c.entry, EnterFlags(s.heap[c.entry].active, enhancedReadable, manualReadable));
  }

  /** Run by one thread without interruption, the operations of the third section amount to `Left`. */
  lemma LeaveRun(s: State, t: Thread)
    requires Waiting(s, t, Running)
    ensures var c := s.calls[t];
      var run := Advances(t, LeaveFlags(s.heap[c.entry].active));
      CanRun(s, run) && Run(s, run) == Apply(s, t, c.pid, c.entry, Left(View(s, t, c.pid, c.entry)))
  {
    var c := s.calls[t];
    LeaveEffect(t, View(s, t, c.pid, c.entry));
    SectionRun(s, t, c.pid, c.entry, LeaveFlags(s.heap[c.entry].active));
  }

  lemma Unwritten(s: State, pid: Pid)
    ensures s.system[pid := s.system[pid]] == s.system && s.baseline[pid := s.baseline[pid]] == s.baseline
    ensures pid in s.entries ==> s.entries[pid := s.entries[pid]] == s.entries
  {
  }

  /** The registry with each section run without interruption, as the code writes them. */
  class Enablement {
    var entries: map<Pid, EntryId>
    var heap: map<EntryId, Entry>
    var calls: map<Thread, Call>
    var system: Settings
    var baseline: Settings

    function Current(): State
      reads this
    {
      State(entries, heap, calls, system, baseline)
    }

    constructor (system: Settings)
      ensures this.system == system && Initial(Current())
    {
      entries, heap, calls := map[], map[], map[];
      this.system, baseline := system, system;
    }

    method Register(t: Thread, pid: Pid, id: EntryId)
      requires Enabled(Current(), Action.Register(t, pid, id)) && Shared(Current())
      modifies this
      ensures Current() == Step(old(Current()), Action.Register(t, pid, id))
    {
      Unwritten(Current(), pid);
      var e := if pid in entries then entries[pid] else id;
      var entry := if pid in entries then heap[e] else UNUSED;
      entries := entries[pid := e];
      heap := heap[e := entry.(holders := entry.holders + 1)];
      calls := calls[t := Call(pid, e, Registered)];
    }

    method Enter(t: Thread, enhancedReadable: bool, manualReadable: bool)
      requires Waiting(Current(), t, Registered)
      modifies this
      ensures var s, c := old(Current()), old(calls[t]);
        Current() == Apply(s, t, c.pid, c.entry, Entered(enhancedReadable, manualReadable, View(s, t, c.pid, c.entry)))
    {
      Unwritten(Current(), calls[t].pid);
      var call := calls[t];
      var entry := heap[call.entry];
      if entry.active == 0 {
        var now := system[call.pid];
        entry := entry.(saved := Attributes(enhancedReadable && now.enhanced, manualReadable && now.manual));
        baseline := baseline[call.pid := entry.saved];
        system := system[call.pid := ENABLED];
      }
      heap := heap[call.entry := entry.(active := entry.active + 1)];
      calls := calls[t := Call(call.pid, call.entry, Running)];
    }

    method Leave(t: Thread)
      requires Waiting(Current(), t, Running)
      modifies this
      ensures var s, c := old(Current()), old(calls[t]);
        Current() == Apply(s, t, c.pid, c.entry, Left(View(s, t, c.pid, c.entry)))
    {
      Unwritten(Current(), calls[t].pid);
      var call := calls[t];
      var entry := heap[call.entry].(active := heap[call.entry].active - 1);
      if entry.active == 0 {
        system := system[call.pid := entry.saved];
      }
      heap := heap[call.entry := entry];
      calls := calls[t := Call(call.pid, call.entry, Released)];
    }

    method Unregister(t: Thread)
      requires t in calls && calls[t].stage.Released? && calls[t].entry in heap
      requires calls[t].pid in entries && entries[calls[t].pid] == calls[t].entry
      modifies this
      ensures Enabled(old(Current()), Advance(t, true)) && Current() == Step(old(Current()), Advance(t, true))
    {
      Unwritten(Current(), calls[t].pid);
      var call := calls[t];
      var entry := heap[call.entry].(holders := heap[call.entry].holders - 1);
      heap := heap[call.entry := entry];
      if entry.holders == 0 {
        entries := entries - {call.pid};
      }
      calls := calls - {t};
    }
  }
}
