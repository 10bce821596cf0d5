/**
 The daily summary row, which two kinds of writer share: reports (a skeleton, later replaced
 by a narrative) and summary refreshes. A report proves its ownership by a generation; a
 narrated refresh compares the whole row with the one it read.
 */
module DailyReport {
  import opened Wrappers

  type Generation = nat
  type ResultId = nat
  type Task = nat

  datatype Report = Report(markdown: string, generatedAt: int, stats: string, generation: Generation)

  /** `report` stands for the four report fields inside the statistics, `stats` for the others. */
  datatype Record = Record(summary: string, model: Option<string>, stats: string, isPartial: bool,
                           generatedAt: string, report: Option<Report>)

  datatype Row = Row(id: nat, createdAt: int, updatedAt: int, record: Record)

  /** Insert the row, or update everything but its identifier and creation time. */
  function Upsert(row: Option<Row>, record: Record, id: nat, now: int): Option<Row> {
    Some(if row.Some? then row.value.(updatedAt := now, record := record) else Row(id, now, now, record))
  }

  function GenerationOf(row: Option<Row>): Option<Generation> {
    if row.Some? && row.value.record.report.Some? then Some(row.value.record.report.value.generation) else None
  }

  /** A writer with an expected generation must find it in the row. */
  predicate Owns(row: Option<Row>, expected: Option<Generation>) {
    expected.Some? ==> GenerationOf(row) == expected
  }

  function WithReport(row: Option<Row>, report: Report, created: Record, id: nat, now: int): Option<Row> {
    var base := if row.Some? then row.value.record else created;
    Upsert(row, base.(report := Some(report)), id, now)
  }

  // ---------------------------------------------------------------- the protocol

  /** A persisted report result: its generation and, as history, the write count just after it. */
  datatype Held = Held(generation: Generation, at: nat)

  /** `writes` counts the writes and deletions of the row so far. */
  datatype State = State(
    row: Option<Row>,
    writes: nat,
    results: map<ResultId, Held>,
    snapshots: map<Task, Option<Row>>,
    used: set<Generation>)

  datatype Action =
    | Skeleton(result: ResultId, report: Report, created: Record, id: nat, now: int)
    | Narrative(source: ResultId, result: ResultId, report: Report, created: Record, id: nat, now: int)
    | Refresh(record: Record, id: nat, now: int)
    | ReadRow(task: Task)
    | CommitRow(task: Task, record: Record, id: nat, now: int)
    | DeleteAll

  /** Generations are new; a refreshed record carries no report. */
  predicate Enabled(s: State, a: Action) {
    match a
    case Skeleton(r, report, created, _, _) => r !in s.results && report.generation !in s.used && created.report.None?
    case Narrative(src, r, report, created, _, _) =>
      src in s.results && r !in s.results && report.generation !in s.used && created.report.None?
    case Refresh(record, _, _) => record.report.None?
    case ReadRow(_) => true
    case CommitRow(task, record, _, _) => task in s.snapshots && record.report.None?
    case DeleteAll => true
  }

  /** Whether an action writes or deletes the row. */
  predicate Writes(s: State, a: Action)
    requires Enabled(s, a)
  {
    match a
    case Skeleton(_, _, _, _, _) => true
    case Narrative(src, _, _, _, _, _) => Owns(s.row, Some(s.results[src].generation))
    case Refresh(_, _, _) => true
    case ReadRow(_) => false
    case CommitRow(task, _, _, _) => s.snapshots[task] == s.row
    case DeleteAll => true
  }

  function Step(s: State, a: Action): State
    requires Enabled(s, a)
  {
    if !Writes(s, a) then (if a.ReadRow? then s.(snapshots := s.snapshots[a.task := s.row]) else s)
    else
      var s' := s.(writes := s.writes + 1);
      match a
      case Skeleton(r, report, created, id, now) => Persisted(s', r, report, created, id, now)
      case Narrative(_, r, report, created, id, now) => Persisted(s', r, report, created, id, now)
      case Refresh(record, id, now) => s'.(row := Upsert(s.row, record, id, now))
      case CommitRow(_, record, id, now) => s'.(row := Upsert(s.row, record, id, now))
      case DeleteAll => s'.(row := None)
      case ReadRow(_) => s'
  }

  function Persisted(s: State, r: ResultId, report: Report, created: Record, id: nat, now: int): State {
    s.(row := WithReport(s.row, report, created, id, now),
       results := s.results[r := Held(report.generation, s.writes)],
       used := s.used + {report.generation})
  }

  predicate CanRun(s: State, run: seq<Action>)
    decreases run
  {
    run == [] || (Enabled(s, run[0]) && CanRun(Step(s, run[0]), run[1..]))
  }

  function Run(s: State, run: seq<Action>): State
    requires CanRun(s, run)
    decreases run
  {
    if run == [] then s else Run(Step(s, run[0]), run[1..])
  }

  /** Some action of the run wrote or deleted the row. */
  predicate AnyWrite(s: State, run: seq<Action>)
    requires CanRun(s, run)
    decreases run
  {
    run != [] && (Writes(s, run[0]) || AnyWrite(Step(s, run[0]), run[1..]))
  }

  /** The row carries a result's generation exactly while nothing was written since that result. */
  ghost predicate Inv(s: State) {
    && (GenerationOf(s.row).Some? ==> GenerationOf(s.row).value in s.used)
    && (forall r :: r in s.results ==> s.results[r].generation in s.used && s.results[r].at <= s.writes)
    && (forall r :: r in s.results ==>
          (GenerationOf(s.row) == Some(s.results[r].generation) <==> s.results[r].at == s.writes))
  }

  lemma InvStep(s: State, a: Action)
    requires Inv(s) && Enabled(s, a)
    ensures Inv(Step(s, a))
  {
  }

  /** Results stay as they were persisted, and the write count moves exactly with writes. */
  lemma {:induction false} RunFacts(s: State, run: seq<Action>, r: ResultId)
    requires Inv(s) && CanRun(s, run) && r in s.results
    ensures var s' := Run(s, run);
      Inv(s') && r in s'.results && s'.results[r] == s.results[r] && s'.writes >= s.writes && (s'.writes == s.writes <==> !AnyWrite(s, run))
    decreases run
  {
    if run != [] {
      InvStep(s, run[0]);
      RunFacts(Step(s, run[0]), run[1..], r);
    }
  }

  /**
   After a report was persisted as `r` and any further actions ran, a narrative of it commits
   exactly when none of them wrote or deleted the row.
   */
  lemma NarrativeCommits(s: State, a: Action, r: ResultId, run: seq<Action>)
    requires Inv(s) && Enabled(s, a) && Writes(s, a)
    requires (a.Skeleton? || a.Narrative?) && a.result == r
    requires CanRun(Step(s, a), run)
    ensures var s' := Run(Step(s, a), run);
      r in s'.results && (Owns(s'.row, Some(s'.results[r].generation)) <==> !AnyWrite(Step(s, a), run))
  {
    InvStep(s, a);
    RunFacts(Step(s, a), run, r);
  }

  /** A report takes at most one narrative. */
  lemma OneNarrative(s: State, first: Action, run: seq<Action>, second: Action)
    requires Inv(s) && first.Narrative? && second.Narrative? && first.source == second.source
    requires Enabled(s, first) && Writes(s, first)
    requires CanRun(Step(s, first), run) && Enabled(Run(Step(s, first), run), second)
    ensures !Writes(Run(Step(s, first), run), second)
  {
    InvStep(s, first);
    RunFacts(Step(s, first), run, first.source);
  }

  /** A refresh is never undone by a report persisted before it. */
  lemma RefreshWins(s: State, a: Action, r: ResultId, run: seq<Action>)
    requires Inv(s) && Enabled(s, a) && Writes(s, a) && r in s.results
    requires a.Refresh? || a.CommitRow? || a.DeleteAll?
    requires CanRun(Step(s, a), run)
    ensures var s' := Run(Step(s, a), run);
      r in s'.results && !Owns(s'.row, Some(s'.results[r].generation))
  {
    InvStep(s, a);
    RunFacts(Step(s, a), run, r);
  }

  lemma {:induction false} SnapshotKept(s: State, task: Task, run: seq<Action>)
    requires CanRun(s, run) && task in s.snapshots
    requires forall i :: 0 <= i < |run| ==> run[i] != ReadRow(task)
    ensures task in Run(s, run).snapshots && Run(s, run).snapshots[task] == s.snapshots[task]
    ensures !AnyWrite(s, run) ==> Run(s, run).row == s.row
    decreases run
  {
    if run != [] {
      SnapshotKept(Step(s, run[0]), task, run[1..]);
    }
  }

  /** A narrated refresh commits exactly over the row it had read, and always when nobody wrote. */
  lemma RefreshCommits(s: State, task: Task, run: seq<Action>, commit: Action)
    requires commit.CommitRow? && commit.task == task && CanRun(Step(s, ReadRow(task)), run)
    requires forall i :: 0 <= i < |run| ==> run[i] != ReadRow(task)
    requires Enabled(Run(Step(s, ReadRow(task)), run), commit)
    ensures var s' := Run(Step(s, ReadRow(task)), run);
      && (Writes(s', commit) <==> s'.row == s.row)
      && (!AnyWrite(Step(s, ReadRow(task)), run) ==> Writes(s', commit))
  {
    SnapshotKept(Step(s, ReadRow(task)), task, run);
  }

  // ---------------------------------------------------------------- what the row holds

  /** The part of a record that refreshes write and reports leave alone. */
  ghost predicate SameSummary(a: Record, b: Record) {
    a.summary == b.summary && a.model == b.model && a.stats == b.stats && a.isPartial == b.isPartial && a.generatedAt == b.generatedAt
  }

  /** A row that was there keeps its identifier and its creation time; a new one is created now. */
  ghost predicate Continued(row: Option<Row>, row': Option<Row>, id: nat, now: int) {
    && row'.Some? && row'.value.updatedAt == now
    && (if row.Some? then row'.value.id == row.value.id && row'.value.createdAt == row.value.createdAt
        else row'.value.id == id && row'.value.createdAt == now)
  }

  /** A refresh that writes puts its whole record into the row, so that no report is left. */
  lemma RefreshWrites(s: State, a: Action)
    requires Enabled(s, a) && (a.Refresh? || (a.CommitRow? && s.row == s.snapshots[a.task]))
    ensures var row' := Step(s, a).row;
      Continued(s.row, row', a.id, a.now) && row'.value.record == a.record && row'.value.record.report == None
  {
  }

  /** A report that writes changes the report of the row and nothing else of its record, or makes a new row around it. */
  lemma ReportWrites(s: State, a: Action)
    requires Enabled(s, a)
    requires a.Skeleton? || (a.Narrative? && s.row.Some? && s.row.value.record.report.Some?
                             && s.row.value.record.report.value.generation == s.results[a.source].generation)
    ensures var row' := Step(s, a).row;
      && Continued(s.row, row', a.id, a.now) && row'.value.record.report == Some(a.report)
      && SameSummary(row'.value.record, if s.row.Some? then s.row.value.record else a.created)
      && a.result in Step(s, a).results && Step(s, a).results[a.result].generation == a.report.generation
  {
  }

  /** Reading, a narrative whose report is no longer there, and a commit over another row write nothing; deleting takes the row. */
  lemma OthersWriteNothing(s: State, a: Action)
    requires Enabled(s, a)
    ensures a.ReadRow? ==> Step(s, a).row == s.row && Step(s, a).snapshots == s.snapshots[a.task := s.row]
    ensures a.Narrative? && GenerationOf(s.row) != Some(s.results[a.source].generation) ==> Step(s, a) == s
    ensures a.CommitRow? && s.row != s.snapshots[a.task] ==> Step(s, a) == s
    ensures a.DeleteAll? ==> Step(s, a).row == None
  {
  }

  /** Whatever reports are written after a refresh, the row keeps the summary of the refresh, and its identity, until the next one. */
  lemma {:induction false} SummaryLasts(s: State, row: Row, run: seq<Action>)
    requires CanRun(s, run) && s.row.Some? && s.row.value.id == row.id && s.row.value.createdAt == row.createdAt
    requires SameSummary(s.row.value.record, row.record)
    requires forall i :: 0 <= i < |run| ==> run[i].Skeleton? || run[i].Narrative? || run[i].ReadRow?
    ensures var row' := Run(s, run).row;
      row'.Some? && row'.value.id == row.id && row'.value.createdAt == row.createdAt && SameSummary(row'.value.record, row.record)
    decreases run
  {
    if run != [] {
      SummaryLasts(Step(s, run[0]), row, run[1..]);
    }
  }

  /** As long as it is not deleted, a row keeps its identifier and its creation time. */
  lemma {:induction false} IdentityLasts(s: State, run: seq<Action>)
    requires CanRun(s, run) && s.row.Some? && forall i :: 0 <= i < |run| ==> !run[i].DeleteAll?
    ensures var row' := Run(s, run).row;
      row'.Some? && row'.value.id == s.row.value.id && row'.value.createdAt == s.row.value.createdAt
    decreases run
  {
    if run != [] {
      IdentityLasts(Step(s, run[0]), run[1..]);
    }
  }

  // ---------------------------------------------------------------- how a narration ends

  datatype Generated = Valid(markdown: string) | Invalid | ModelFailed

  datatype Ending = Narrated | Fallback | Aborted

  /** After the model answered: commit a valid narrative, else keep the skeleton while it is current. */
  function EndingOf(row: Option<Row>, generation: Generation, answer: Generated): Ending {
    if !Owns(row, Some(generation)) then Aborted else if answer.Valid? then Narrated else Fallback
  }

  /** A narration is answered from its report exactly when nobody wrote the row while it waited. */
  lemma NarrationEnds(s: State, a: Action, run: seq<Action>, answer: Generated)
    requires Inv(s) && Enabled(s, a) && a.Skeleton? && CanRun(Step(s, a), run)
    ensures var s' := Run(Step(s, a), run);
      && a.result in s'.results
      && EndingOf(s'.row, s'.results[a.result].generation, answer) ==
           if AnyWrite(Step(s, a), run) then Aborted else if answer.Valid? then Narrated else Fallback
  {
    NarrativeCommits(s, a, a.result, run);
  }

  // ---------------------------------------------------------------- the store's methods

  class SummaryRow {
    var row: Option<Row>

    constructor ()
      ensures row == None
    {
      row := None;
    }

    method UpsertSummary(record: Record, id: nat, now: int)
      modifies this
      ensures row == Upsert(old(row), record, id, now)
    {
      if row == None {
        row := Some(Row(id, now, now, record));
      } else {
        row := Some(row.value.(updatedAt := now, record := record));
      }
    }

    /** A report write changes the report fields of the row it finds and nothing else. */
    method WriteDailyReportCache(report: Report, created: Record, expected: Option<Generation>, id: nat, now: int)
      returns (committed: bool)
      modifies this
      ensures committed <==> Owns(old(row), expected)
      ensures !committed ==> row == old(row)
      ensures committed ==> row == WithReport(old(row), report, created, id, now)
      ensures committed && old(row).Some? ==>
        row == Some(old(row).value.(updatedAt := now, record := old(row).value.record.(report := Some(report))))
    {
      var previous := row;
      if expected.Some? && GenerationOf(previous) != expected {
        return false;
      }
      var base := if previous.Some? then previous.value.record else created;
      UpsertSummary(base.(report := Some(report)), id, now);
      committed := true;
    }

    method CommitSummaryIfCurrent(snapshot: Option<Row>, record: Record, id: nat, now: int) returns (committed: bool)
      modifies this
      ensures committed <==> old(row) == snapshot
      ensures row == if committed then Upsert(snapshot, record, id, now) else old(row)
    {
      if row != snapshot {
        return false;
      }
      UpsertSummary(record, id, now);
      committed := true;
    }

    /** The end of a narration whose report owns `generation`. */
    method FinishNarrative(generation: Generation, answer: Generated, report: Report, created: Record, id: nat, now: int)
      returns (ending: Ending)
      modifies this
      ensures ending == EndingOf(old(row), generation, answer)
      ensures row == if ending.Narrated? then WithReport(old(row), report, created, id, now) else old(row)
    {
      var useFallback := false;
      if answer.Valid? {
        var committed := WriteDailyReportCache(report, created, Some(generation), id, now);
        if committed {
          return Narrated;
        }
      } else {
        useFallback := true;
      }
      ending := if useFallback && GenerationOf(row) == Some(generation) then Fallback else Aborted;
    }
  }
}
