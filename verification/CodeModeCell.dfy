/**
 One Code Mode cell: a script in a sandbox starts host operations through bridges, several at
 a time. The host closes the cell when the script returns, then waits a limited time for
 operations that are still under way.
 */
module CodeModeCell {
  import opened Wrappers
  import opened Decimal

  type OpId = nat

  /** How an operation ended: a failure is recoverable only if the tool said so. */
  datatype Outcome = Succeeded | Failed(recoverable: bool)

  /**
   A bridge operation: accepted but not begun, waiting for a refreshed tool list, executing,
   settled with its bridge still to react, or reacted to. `hard` says that the bridge took the
   failure for fatal.
   */
  datatype Stage =
    | Queued
    | Preparing
    | Executing
    | Settled(outcome: Outcome)
    | Done(outcome: Outcome, hard: bool)

  datatype Phase =
    | Open
    | Draining(ok: bool, waiting: set<OpId>)
    | Finished(ok: bool, outcomeUnknown: bool)

  datatype State = State(
    phase: Phase,
    fatal: bool,
    aborted: bool,
    operations: map<OpId, Stage>,
    childCalls: seq<string>)

  const INITIAL := State(Open, false, false, map[], [])

  /** Whether a bridge lets anything begin; `cancelled` is the call's own signal. */
  predicate Accepts(s: State, cancelled: bool) {
    s.phase.Open? && !s.fatal && !s.aborted && !cancelled
  }

  /** Operations whose bridge has not reacted yet. */
  function Pending(s: State): set<OpId> {
    set op | op in s.operations && !s.operations[op].Done?
  }

  predicate Unsettled(stage: Stage) {
    stage.Queued? || stage.Preparing? || stage.Executing?
  }

  function ChildId(parent: string, n: nat): string {
    parent + ":nested:" + Numeral(n)
  }

  datatype Action =
    | Call(op: OpId, cancelled: bool)
    | Prepare(op: OpId)
    | StartTool(op: OpId, available: bool, cancelled: bool)
    | Settle(op: OpId, outcome: Outcome)
    | React(op: OpId, cancelled: bool)
    | Deadline
    | Abort
    | Return(threw: bool)
    | Drain(stdoutLost: bool)

  predicate Enabled(s: State, a: Action) {
    match a
    case Call(op, _) => op !in s.operations
    case Prepare(op) => op in s.operations && s.operations[op].Queued?
    case StartTool(op, _, _) => op in s.operations && (s.operations[op].Queued? || s.operations[op].Preparing?)
    case Settle(op, _) => op in s.operations && Unsettled(s.operations[op])
    case React(op, _) => op in s.operations && s.operations[op].Settled?
    case Deadline => true
    case Abort => true
    case Return(_) => s.phase.Open?
    case Drain(_) => s.phase.Draining?
  }

  function Step(s: State, a: Action, parent: string): State
    requires Enabled(s, a)
  {
    match a
    case Call(op, cancelled) =>
      if Accepts(s, cancelled) then s.(operations := s.operations[op := Queued]) else s
    case Prepare(op) => s.(operations := s.operations[op := Preparing])
    case StartTool(op, available, cancelled) =>
      if Accepts(s, cancelled) && available
      then s.(operations := s.operations[op := Executing], childCalls := s.childCalls + [ChildId(parent, |s.childCalls| + 1)])
      else s.(operations := s.operations[op := Settled(Failed(false))])
    case Settle(op, outcome) => s.(operations := s.operations[op := Settled(outcome)])
    case React(op, cancelled) =>
      var outcome := s.operations[op].outcome;
      var hard := s.phase.Open? && outcome.Failed? && (!outcome.recoverable || s.aborted || cancelled);
      s.(operations := s.operations[op := Done(outcome, hard)], fatal := s.fatal || hard)
    case Deadline => if s.phase.Open? && !s.aborted then s.(fatal := true, aborted := true) else s
    case Abort => s.(aborted := true)
    case Return(threw) => s.(phase := Draining(!threw && !s.aborted && !s.fatal, Pending(s)), aborted := true)
    case Drain(stdoutLost) => s.(phase := AfterDrain(s, stdoutLost))
  }

  /** Some operation pending when the script returned is still unsettled. */
  predicate Outlives(s: State)
    requires s.phase.Draining?
  {
    exists op :: op in s.phase.waiting && op in s.operations && Unsettled(s.operations[op])
  }

  function AfterDrain(s: State, stdoutLost: bool): Phase
    requires s.phase.Draining?
  {
    if Outlives(s) then Finished(false, true)
    else Finished(s.phase.ok && s.phase.waiting == {} && !stdoutLost, false)
  }

  predicate CanRun(s: State, run: seq<Action>, parent: string)
    decreases run
  {
    run == [] || (Enabled(s, run[0]) && CanRun(Step(s, run[0], parent), run[1..], parent))
  }

  function Run(s: State, run: seq<Action>, parent: string): State
    requires CanRun(s, run, parent)
    decreases run
  {
    if run == [] then s else Run(Step(s, run[0], parent), run[1..], parent)
  }

  // ---------------------------------------------------------------- invariants

  /** Every failure the bridges took for fatal shows, until the cell has reported otherwise. */
  ghost predicate HardShows(s: State) {
    forall op :: op in s.operations && s.operations[op].Done? && s.operations[op].hard ==> s.fatal
  }

  /** A failure handled while the cell was open was either recoverable or taken for fatal. */
  ghost predicate Judged(s: State) {
    forall op :: op in s.operations && s.operations[op].Done? && s.operations[op].outcome == Failed(false) ==>
      s.operations[op].hard || (!s.phase.Open? && (s.phase.Draining? ==> op in s.phase.waiting))
  }

  /** What a successful report, provisional or final, stands for. */
  ghost predicate OkMeans(s: State) {
    match s.phase
    case Open => true
    case Draining(ok, waiting) => (ok ==> !s.fatal) && forall op :: op in s.operations && op !in waiting ==> s.operations[op].Done?
    case Finished(ok, unknown) =>
      && (ok ==> !s.fatal && !unknown && forall op :: op in s.operations ==> s.operations[op].Done? && s.operations[op].outcome != Failed(false))
  }

  ghost predicate Numbered(s: State, parent: string) {
    forall i :: 0 <= i < |s.childCalls| ==> s.childCalls[i] == ChildId(parent, i + 1)
  }

  ghost predicate Inv(s: State, parent: string) {
    HardShows(s) && Judged(s) && OkMeans(s) && Numbered(s, parent)
  }

  lemma InvStep(s: State, a: Action, parent: string)
    requires Inv(s, parent) && Enabled(s, a)
    ensures Inv(Step(s, a, parent), parent)
  {
  }

  lemma {:induction false} InvRun(s: State, run: seq<Action>, parent: string)
    requires Inv(s, parent) && CanRun(s, run, parent)
    ensures Inv(Run(s, run, parent), parent)
    decreases run
  {
    if run != [] {
      InvStep(s, run[0], parent);
      InvRun(Step(s, run[0], parent), run[1..], parent);
    }
  }

  // ---------------------------------------------------------------- what a report means

  /** The phase moves only by returning and by draining, and a finished cell stays finished. */
  lemma {:induction false} AfterReturn(s: State, run: seq<Action>, parent: string)
    requires CanRun(s, run, parent) && !s.phase.Open?
    ensures var s' := Run(s, run, parent);
      && !s'.phase.Open?
      && (s'.phase.Draining? ==> s'.phase == s.phase)
      && (s.phase.Finished? ==> s'.phase == s.phase)
      && (s'.phase.Finished? && s'.phase.ok ==> s.phase.ok && (s.phase.Draining? ==> s.phase.waiting == {}))
    decreases run
  {
    if run != [] {
      AfterReturn(Step(s, run[0], parent), run[1..], parent);
    }
  }

  /**
   A cell that reports success returned without throwing, after every operation it had started
   was settled and handled, and none of them had failed for good, caught by the script or not.
   */
  lemma OkExplained(run: seq<Action>, threw: bool, after: seq<Action>, parent: string)
    requires CanRun(INITIAL, run, parent)
    requires var s := Run(INITIAL, run, parent);
      Enabled(s, Return(threw)) && CanRun(Step(s, Return(threw), parent), after, parent)
    requires var s' := Run(Step(Run(INITIAL, run, parent), Return(threw), parent), after, parent);
      s'.phase.Finished? && s'.phase.ok
    ensures var s := Run(INITIAL, run, parent);
      && !threw && !s.fatal && !s.aborted && Pending(s) == {}
      && forall op :: op in s.operations ==>
           s.operations[op].Done? && !s.operations[op].hard && s.operations[op].outcome != Failed(false)
  {
    InvRun(INITIAL, run, parent);
    var s := Run(INITIAL, run, parent);
    AfterReturn(Step(s, Return(threw), parent), after, parent);
    forall op | op in s.operations
      ensures s.operations[op].Done?
    {
      assert op !in Pending(s);
    }
  }

  /**
   The final report: an outcome is unknown exactly when an operation pending at return outlives the drain,
   and the cell succeeded exactly when it returned without throwing, aborting or a fatal error, nothing
   was pending then, and its output was kept.
   */
  lemma UnknownExactly(s: State, threw: bool, during: seq<Action>, stdoutLost: bool, after: seq<Action>, parent: string)
    requires Enabled(s, Return(threw)) && CanRun(Step(s, Return(threw), parent), during, parent)
    requires var d := Run(Step(s, Return(threw), parent), during, parent);
      d.phase.Draining? && CanRun(Step(d, Drain(stdoutLost), parent), after, parent)
    ensures var d := Run(Step(s, Return(threw), parent), during, parent);
      var end := Run(Step(d, Drain(stdoutLost), parent), after, parent);
      && end.phase.Finished?
      && (end.phase.outcomeUnknown <==> exists op :: op in Pending(s) && op in d.operations && Unsettled(d.operations[op]))
      && (end.phase.ok <==> !threw && !s.aborted && !s.fatal && Pending(s) == {} && !stdoutLost)
  {
    AfterReturn(Step(s, Return(threw), parent), during, parent);
    var d := Run(Step(s, Return(threw), parent), during, parent);
    AfterReturn(Step(d, Drain(stdoutLost), parent), after, parent);
  }

  /** After a fatal error, an abort or the end of the cell, no tool is started any more. */
  lemma {:induction false} NoLateStart(s: State, run: seq<Action>, parent: string)
    requires CanRun(s, run, parent) && !Accepts(s, false)
    ensures Run(s, run, parent).childCalls == s.childCalls
    ensures !Accepts(Run(s, run, parent), false)
    decreases run
  {
    if run != [] {
      NoLateStart(Step(s, run[0], parent), run[1..], parent);
    }
  }

  /** Nested calls are numbered in the order they start, and no two share an identifier. */
  lemma ChildCallsDistinct(run: seq<Action>, parent: string, i: nat, j: nat)
    requires CanRun(INITIAL, run, parent) && i < j < |Run(INITIAL, run, parent).childCalls|
    ensures var calls := Run(INITIAL, run, parent).childCalls;
      calls[i] == ChildId(parent, i + 1) && calls[i] != calls[j]
  {
    InvRun(INITIAL, run, parent);
    var prefix := parent + ":nested:";
    assert ChildId(parent, i + 1)[|prefix|..] == Numeral(i + 1);
    assert ChildId(parent, j + 1)[|prefix|..] == Numeral(j + 1);
    if Numeral(i + 1) == Numeral(j + 1) {
      NumeralInjective(i + 1, j + 1);
    }
  }

  // ---------------------------------------------------------------- what has happened

  /** What can happen to a cell and to its operations. */
  datatype Event =
    | Accepted(op: OpId)
    | Prepared(op: OpId)
    | Started(op: OpId)
    | SettledAs(op: OpId, outcome: Outcome)
    | Reacted(op: OpId, hard: bool)
    | BecameFatal
    | BecameAborted

  /** The cell is open, without a fatal error and not aborted. */
  predicate IsOpen(s: State) {
    s.phase == Open && s.fatal == false && s.aborted == false
  }

  /** A failure is fatal while the cell is open, unless the tool called it recoverable and nothing is aborted. */
  predicate TakenForFatal(s: State, op: OpId, cancelled: bool) {
    s.phase == Open && op in s.operations
    && (s.operations[op] == Settled(Failed(false)) || (s.operations[op] == Settled(Failed(true)) && (s.aborted || cancelled)))
  }

  /** What an action makes happen. */
  predicate Makes(s: State, a: Action, e: Event) {
    match e
    case Accepted(op) => a == Call(op, false) && IsOpen(s)
    case Prepared(op) => a == Prepare(op)
    case Started(op) => a == StartTool(op, true, false) && IsOpen(s)
    case SettledAs(op, outcome) =>
      a == Settle(op, outcome) || (outcome == Failed(false) && a.StartTool? && a.op == op && !(a == StartTool(op, true, false) && IsOpen(s)))
    case Reacted(op, hard) => a.React? && a.op == op && (hard <==> TakenForFatal(s, op, a.cancelled))
    case BecameFatal => (a == Deadline && s.phase == Open && !s.aborted) || (a.React? && TakenForFatal(s, a.op, a.cancelled))
    case BecameAborted => a == Abort || a.Return? || (a == Deadline && s.phase == Open)
  }

  predicate Happened(s: State, run: seq<Action>, parent: string, e: Event)
    requires CanRun(s, run, parent)
    decreases run
  {
    run != [] && (Makes(s, run[0], e) || Happened(Step(s, run[0], parent), run[1..], parent, e))
  }

  /** How many tools have been started. */
  function Starts(s: State, run: seq<Action>, parent: string): nat
    requires CanRun(s, run, parent)
    decreases run
  {
    if run == [] then 0
    else (if run[0].StartTool? && Makes(s, run[0], Started(run[0].op)) then 1 else 0) + Starts(Step(s, run[0], parent), run[1..], parent)
  }

  lemma {:induction false} RunSnoc(s: State, run: seq<Action>, a: Action, parent: string)
    requires CanRun(s, run + [a], parent)
    ensures CanRun(s, run, parent) && Enabled(Run(s, run, parent), a)
    ensures Run(s, run + [a], parent) == Step(Run(s, run, parent), a, parent)
    decreases run
  {
    if run == [] {
      assert run + [a] == [a] && [a][1..] == [];
    } else {
      assert (run + [a])[1..] == run[1..] + [a];
      RunSnoc(Step(s, run[0], parent), run[1..], a, parent);
    }
  }

  lemma {:induction false} HappenedSnoc(s: State, run: seq<Action>, a: Action, parent: string, e: Event)
    requires CanRun(s, run + [a], parent) && CanRun(s, run, parent)
    ensures Happened(s, run + [a], parent, e) <==> Happened(s, run, parent, e) || Makes(Run(s, run, parent), a, e)
    decreases run
  {
    if run == [] {
      assert run + [a] == [a] && [a][1..] == [];
    } else {
      assert (run + [a])[1..] == run[1..] + [a];
      HappenedSnoc(Step(s, run[0], parent), run[1..], a, parent, e);
    }
  }

  lemma {:induction false} StartsSnoc(s: State, run: seq<Action>, a: Action, parent: string)
    requires CanRun(s, run + [a], parent) && CanRun(s, run, parent)
    ensures Starts(s, run + [a], parent) ==
      Starts(s, run, parent) + if a.StartTool? && Makes(Run(s, run, parent), a, Started(a.op)) then 1 else 0
    decreases run
  {
    if run == [] {
      assert run + [a] == [a] && [a][1..] == [];
    } else {
      assert (run + [a])[1..] == run[1..] + [a];
      StartsSnoc(Step(s, run[0], parent), run[1..], a, parent);
    }
  }

  /** The stage of an operation says what has happened to it, and the flags what has happened to the cell. */
  ghost predicate Tells(s: State, happened: iset<Event>, op: OpId) {
    && (op in s.operations <==> Accepted(op) in happened)
    && (Prepared(op) in happened || Started(op) in happened ==> op in s.operations)
    && (forall o :: SettledAs(op, o) in happened <==> op in s.operations && SettledWith(s.operations[op], o))
    && (forall h :: Reacted(op, h) in happened <==> op in s.operations && s.operations[op].Done? && s.operations[op].hard == h)
    && (op in s.operations ==>
          match s.operations[op]
          case Queued => Prepared(op) !in happened && Started(op) !in happened
          case Preparing => Prepared(op) in happened && Started(op) !in happened
          case Executing => Started(op) in happened
          case _ => true)
  }

  predicate SettledWith(stage: Stage, o: Outcome) {
    (stage.Settled? || stage.Done?) && stage.outcome == o
  }

  /** All that has happened in a run. */
  ghost function Events(run: seq<Action>, parent: string): iset<Event>
    requires CanRun(INITIAL, run, parent)
  {
    iset e | Happened(INITIAL, run, parent, e)
  }

  lemma StageStep(s: State, a: Action, parent: string, happened: iset<Event>, happened': iset<Event>, op: OpId)
    requires Enabled(s, a) && Tells(s, happened, op) && forall e :: e in happened' <==> e in happened || Makes(s, a, e)
    ensures Tells(Step(s, a, parent), happened', op)
  {
  }

  /** After any run, the stage of every operation, the flags and the number of child calls say exactly what has happened. */
  lemma {:induction false} HistoryTold(run: seq<Action>, parent: string, op: OpId)
    requires CanRun(INITIAL, run, parent)
    ensures var s := Run(INITIAL, run, parent);
      && Tells(s, Events(run, parent), op)
      && (s.fatal <==> Happened(INITIAL, run, parent, BecameFatal)) && (s.aborted <==> Happened(INITIAL, run, parent, BecameAborted))
      && |s.childCalls| == Starts(INITIAL, run, parent)
    decreases |run|
  {
    if run != [] {
      var before, a := run[..|run| - 1], run[|run| - 1];
      assert run == before + [a];
      RunSnoc(INITIAL, before, a, parent);
      HistoryTold(before, parent, op);
      var s := Run(INITIAL, before, parent);
      forall e ensures e in Events(run, parent) <==> e in Events(before, parent) || Makes(s, a, e) {
        HappenedSnoc(INITIAL, before, a, parent, e);
      }
      StageStep(s, a, parent, Events(before, parent), Events(run, parent), op);
      HappenedSnoc(INITIAL, before, a, parent, BecameFatal);
      HappenedSnoc(INITIAL, before, a, parent, BecameAborted);
      StartsSnoc(INITIAL, before, a, parent);
    }
  }

  // ---------------------------------------------------------------- the cell as code

  class Cell {
    const parent: string
    var closed: bool
    var fatal: bool
    var aborted: bool
    var detached: set<OpId>
    var ok: bool
    var outcomeUnknown: Option<bool>
    var operations: map<OpId, Stage>
    var childCalls: seq<string>

    constructor (parent: string)
      ensures this.parent == parent && Current() == INITIAL
    {
      this.parent := parent;
      closed, fatal, aborted, detached, ok, outcomeUnknown := false, false, false, {}, false, None;
      operations, childCalls := map[], [];
    }

    function Current(): State
      reads this
    {
      State(if !closed then Open else if outcomeUnknown.None? then Draining(ok, detached) else Finished(ok, outcomeUnknown.value),
            fatal, aborted, operations, childCalls)
    }

    predicate AssertOpen(cancelled: bool)
      reads this
    {
      !cancelled && !aborted && !closed && !fatal
    }

    /** The bridge: refuse, or accept an operation whose body runs later. */
    method CallBridge(op: OpId, cancelled: bool) returns (accepted: bool)
      requires Enabled(Current(), Call(op, cancelled))
      modifies this
      ensures Current() == Step(old(Current()), Call(op, cancelled), parent)
      ensures accepted <==> Accepts(old(Current()), cancelled)
    {
      accepted := AssertOpen(cancelled);
      if accepted {
        operations := operations[op := Queued];
      }
    }

    /** The last check before a tool runs, and its start. */
    method Start(op: OpId, available: bool, cancelled: bool) returns (started: bool)
      requires Enabled(Current(), StartTool(op, available, cancelled))
      modifies this
      ensures Current() == Step(old(Current()), StartTool(op, available, cancelled), parent)
      ensures started <==> Accepts(old(Current()), cancelled) && available
    {
      started := AssertOpen(cancelled) && available;
      if !started {
        operations := operations[op := Settled(Failed(false))];
        return;
      }
      childCalls := childCalls + [ChildId(parent, |childCalls| + 1)];
      operations := operations[op := Executing];
    }

    /** The bridge after its operation settled. */
    method ReactTo(op: OpId, cancelled: bool)
      requires Enabled(Current(), React(op, cancelled))
      modifies this
      ensures Current() == Step(old(Current()), React(op, cancelled), parent)
    {
      var outcome := operations[op].outcome;
      var hard := false;
      if !closed && outcome.Failed? {
        if !outcome.recoverable || aborted || cancelled {
          fatal, hard := true, true;
        }
      }
      operations := operations[op := Done(outcome, hard)];
    }

    method FailDeadline()
      modifies this
      ensures Current() == Step(old(Current()), Deadline, parent)
    {
      if closed || aborted {
        return;
      }
      fatal, aborted := true, true;
    }

    /** The script returned or threw: decide provisionally, close, remember what is pending. */
    method Close(threw: bool)
      requires Enabled(Current(), Return(threw)) && outcomeUnknown.None?
      modifies this
      ensures Current() == Step(old(Current()), Return(threw), parent)
    {
      ok := !threw && !aborted && !fatal;
      closed := true;
      detached := Pending(State(Open, fatal, aborted, operations, childCalls));
      aborted := true;
    }

    method DrainHostOperations(stdoutLost: bool)
      requires Enabled(Current(), Drain(stdoutLost))
      modifies this
      ensures Current() == Step(old(Current()), Drain(stdoutLost), parent)
    {
      var outlives := exists op :: op in detached && op in operations && Unsettled(operations[op]);
      outcomeUnknown := Some(outlives);
      if outlives || detached != {} || stdoutLost {
        ok := false;
      }
    }
  }
}
