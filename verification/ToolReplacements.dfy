/**
 Which older tool results the model no longer needs, because later results of the same turn
 supersede them. References to entries are modelled by their positions in the entry list.
 */
module ToolReplacements {
  import opened Wrappers

  datatype RangeKind = Full | Lines | Offsets

  datatype ReadRange = ReadRange(path: string, kind: RangeKind, start: int, end: int)

  predicate Covers(next: ReadRange, previous: ReadRange) {
    next.path == previous.path
    && (next.kind.Full? || (next.kind == previous.kind && next.start <= previous.start && next.end >= previous.end))
  }

  lemma CoversTransitive(a: ReadRange, b: ReadRange, c: ReadRange)
    requires Covers(a, b) && Covers(b, c)
    ensures Covers(a, c)
  {
  }

  /** A place in a file, counted in lines or in offsets. */
  datatype Position = Position(path: string, byLine: bool, at: int)

  /** A read of a range returned what stands at a position; a full read everything in its file. */
  predicate Holds(range: ReadRange, p: Position) {
    p.path == range.path && (range.kind.Full? || (range.kind.Lines? == p.byLine && range.start <= p.at <= range.end))
  }

  /** A page past the end, which returned nothing. */
  predicate Empty(range: ReadRange) {
    !range.kind.Full? && range.end < range.start
  }

  /** A range covers another exactly if it holds all positions of it, unless that has none. */
  lemma CoversPositions(next: ReadRange, previous: ReadRange)
    ensures (forall p :: Holds(previous, p) ==> Holds(next, p)) <==> Covers(next, previous) || Empty(previous)
  {
    if forall p :: Holds(previous, p) ==> Holds(next, p) {
      var byLine := if previous.kind.Full? then !next.kind.Lines? else previous.kind.Lines?;
      if !Empty(previous) && previous.kind.Full? {
        assert Holds(previous, Position(previous.path, true, next.end + 1)) && Holds(previous, Position(previous.path, false, next.end + 1));
      } else if !Empty(previous) {
        assert Holds(previous, Position(previous.path, byLine, previous.start)) && Holds(previous, Position(previous.path, byLine, previous.end));
      }
    }
  }

  /** A page that returned nothing is covered exactly if the other read spans the bounds it gives. */
  lemma CoversEmpty(next: ReadRange, previous: ReadRange)
    requires Empty(previous)
    ensures Covers(next, previous) <==>
      next.path == previous.path && (next.kind.Full? || (next.kind == previous.kind && next.start <= previous.start && previous.end <= next.end))
  {
  }

  datatype Outcome = Succeeded | Failed | Neither

  /**
   One collected tool result. `call` identifies the tool with its arguments, `signature` the
   result; `range` is what a read returned and `snapshot` the kind of Git snapshot.
   */
  datatype Entry = Entry(
    index: nat,
    step: nat,
    currentTurn: bool,
    textOnly: bool,
    call: Option<string>,
    signature: string,
    range: Option<ReadRange>,
    snapshot: Option<string>,
    semantic: bool,
    outcome: Outcome)

  datatype Reason = Duplicate | ReadCovered | SnapshotReplaced | FailureResolved

  datatype Replacement = Replacement(reason: Reason, archive: bool)

  predicate Considered(e: Entry) {
    e.currentTurn && e.textOnly
  }

  function ExactKey(e: Entry): Option<(string, string)> {
    if e.call.Some? then Some((e.call.value, e.signature)) else None
  }

  predicate SuccessfulRead(e: Entry) {
    Considered(e) && e.range.Some? && e.outcome.Succeeded?
  }

  predicate SuccessfulSnapshot(e: Entry) {
    Considered(e) && e.snapshot.Some? && e.outcome.Succeeded?
  }

  predicate FailedCall(e: Entry) {
    Considered(e) && e.call.Some? && e.semantic && e.outcome.Failed?
  }

  predicate SuccessfulCall(e: Entry) {
    Considered(e) && e.call.Some? && e.semantic && e.outcome.Succeeded?
  }

  // ---------------------------------------------------------------- why an entry is superseded

  /** Entry `j` supersedes the earlier entry `i` of another step. */
  ghost predicate Link(entries: seq<Entry>, i: nat, j: nat, reason: Reason)
    requires i < j < |entries|
  {
    var a, b := entries[i], entries[j];
    && Considered(a) && Considered(b) && a.step != b.step
    && match reason
       case Duplicate => ExactKey(b).Some? && ExactKey(a) == ExactKey(b)
         && forall m :: i < m < j && Considered(entries[m]) ==> ExactKey(entries[m]) != ExactKey(b)
       case ReadCovered => SuccessfulRead(a) && SuccessfulRead(b) && Covers(b.range.value, a.range.value)
       case SnapshotReplaced => SuccessfulSnapshot(a) && SuccessfulSnapshot(b) && a.snapshot == b.snapshot
         && forall m :: i < m < j && SuccessfulSnapshot(entries[m]) ==> entries[m].snapshot != b.snapshot
       case FailureResolved => FailedCall(a) && SuccessfulCall(b) && a.call == b.call
  }

  // ---------------------------------------------------------------- what the scan remembers

  function LastExact(entries: seq<Entry>, n: nat, key: (string, string)): Option<nat>
    requires n <= |entries|
  {
    if n == 0 then None
    else if Considered(entries[n - 1]) && ExactKey(entries[n - 1]) == Some(key) then Some(n - 1)
    else LastExact(entries, n - 1, key)
  }

  function LastSnapshot(entries: seq<Entry>, n: nat, kind: string): Option<nat>
    requires n <= |entries|
  {
    if n == 0 then None
    else if SuccessfulSnapshot(entries[n - 1]) && entries[n - 1].snapshot.value == kind then Some(n - 1)
    else LastSnapshot(entries, n - 1, kind)
  }

  function ReadsOf(entries: seq<Entry>, n: nat, path: string): seq<nat>
    requires n <= |entries|
  {
    if n == 0 then []
    else if SuccessfulRead(entries[n - 1]) && entries[n - 1].range.value.path == path
    then ReadsOf(entries, n - 1, path) + [n - 1]
    else ReadsOf(entries, n - 1, path)
  }

  function FailuresOf(entries: seq<Entry>, n: nat, call: string): seq<nat>
    requires n <= |entries|
  {
    if n == 0 then []
    else if FailedCall(entries[n - 1]) && entries[n - 1].call.value == call
    then FailuresOf(entries, n - 1, call) + [n - 1]
    else FailuresOf(entries, n - 1, call)
  }

  lemma {:induction false} LastExactIs(entries: seq<Entry>, n: nat, key: (string, string), i: nat)
    requires n <= |entries|
    ensures LastExact(entries, n, key) == Some(i) <==>
      i < n && Considered(entries[i]) && ExactKey(entries[i]) == Some(key)
      && forall m :: i < m < n && Considered(entries[m]) ==> ExactKey(entries[m]) != Some(key)
  {
    if n > 0 {
      LastExactIs(entries, n - 1, key, i);
    }
  }

  lemma {:induction false} LastSnapshotIs(entries: seq<Entry>, n: nat, kind: string, i: nat)
    requires n <= |entries|
    ensures LastSnapshot(entries, n, kind) == Some(i) <==>
      i < n && SuccessfulSnapshot(entries[i]) && entries[i].snapshot.value == kind
      && forall m :: i < m < n && SuccessfulSnapshot(entries[m]) ==> entries[m].snapshot.value != kind
  {
    if n > 0 {
      LastSnapshotIs(entries, n - 1, kind, i);
    }
  }

  lemma {:induction false} ReadsOfIs(entries: seq<Entry>, n: nat, path: string, i: nat)
    requires n <= |entries|
    ensures i in ReadsOf(entries, n, path) <==>
      i < n && SuccessfulRead(entries[i]) && entries[i].range.value.path == path
  {
    if n > 0 {
      ReadsOfIs(entries, n - 1, path, i);
    }
  }

  lemma {:induction false} FailuresOfIs(entries: seq<Entry>, n: nat, call: string, i: nat)
    requires n <= |entries|
    ensures i in FailuresOf(entries, n, call) <==>
      i < n && FailedCall(entries[i]) && entries[i].call.value == call
  {
    if n > 0 {
      FailuresOfIs(entries, n - 1, call, i);
    }
  }

  // ---------------------------------------------------------------- marks

  /** What a rule that hits an entry does to its mark: a first reason stays, and so does a request to archive. */
  function MarkedOnce(before: Option<Replacement>, hit: bool, reason: Reason, archive: bool): Option<Replacement> {
    if !hit then before
    else if before.Some? then Some(before.value.(archive := before.value.archive || archive))
    else Some(Replacement(reason, archive))
  }

  /** What entry `n` does to the mark of an earlier entry, rule after rule. */
  ghost function VisitedMark(entries: seq<Entry>, n: nat, i: nat, before: Option<Replacement>): Option<Replacement>
    requires i < n < |entries|
  {
    var m1 := MarkedOnce(before, Link(entries, i, n, Duplicate), Duplicate, false);
    var m2 := MarkedOnce(m1, Link(entries, i, n, ReadCovered), ReadCovered, true);
    var m3 := MarkedOnce(m2, Link(entries, i, n, SnapshotReplaced), SnapshotReplaced, true);
    MarkedOnce(m3, Link(entries, i, n, FailureResolved), FailureResolved, false)
  }

  /** The mark of entry `i` after the first `n` entries, rule after rule and entry after entry. */
  ghost function MarkAt(entries: seq<Entry>, n: nat, i: nat): Option<Replacement>
    requires n <= |entries|
  {
    if n <= i + 1 then None else VisitedMark(entries, n - 1, i, MarkAt(entries, n - 1, i))
  }

  /** Among the first `n` entries, some read or snapshot asks for the entry to be archived. */
  ghost predicate ArchiveAsked(entries: seq<Entry>, n: nat, i: nat)
    requires n <= |entries|
  {
    ReasonHolds(entries, n, i, ReadCovered) || ReasonHolds(entries, n, i, SnapshotReplaced)
  }

  ghost predicate ReasonHolds(entries: seq<Entry>, n: nat, i: nat, reason: Reason)
    requires n <= |entries|
  {
    exists j :: i < j < n && Link(entries, i, j, reason)
  }

  lemma ReasonExtends(entries: seq<Entry>, n: nat, i: nat, reason: Reason)
    requires i + 1 < n <= |entries|
    ensures ReasonHolds(entries, n, i, reason) <==> ReasonHolds(entries, n - 1, i, reason) || Link(entries, i, n - 1, reason)
  {
  }

  ghost predicate AnyReason(entries: seq<Entry>, n: nat, i: nat)
    requires n <= |entries|
  {
    exists reason :: ReasonHolds(entries, n, i, reason)
  }

  /** A mark says exactly what the links among the first `n` entries say. */
  ghost predicate Tells(entries: seq<Entry>, n: nat, i: nat, mark: Option<Replacement>)
    requires n <= |entries|
  {
    && (mark.Some? <==> AnyReason(entries, n, i))
    && (mark.Some? ==> ReasonHolds(entries, n, i, mark.value.reason))
    && (mark.Some? ==> (mark.value.archive <==> ArchiveAsked(entries, n, i)))
  }

  lemma VisitTells(entries: seq<Entry>, n: nat, i: nat, before: Option<Replacement>)
    requires i < n < |entries| && Tells(entries, n, i, before)
    ensures Tells(entries, n + 1, i, VisitedMark(entries, n, i, before))
  {
    ReasonExtends(entries, n + 1, i, Duplicate);
    ReasonExtends(entries, n + 1, i, ReadCovered);
    ReasonExtends(entries, n + 1, i, SnapshotReplaced);
    ReasonExtends(entries, n + 1, i, FailureResolved);
    assert before.None? ==>
      !ReasonHolds(entries, n, i, Duplicate) && !ReasonHolds(entries, n, i, ReadCovered)
      && !ReasonHolds(entries, n, i, SnapshotReplaced) && !ReasonHolds(entries, n, i, FailureResolved);
  }

  lemma {:induction false} MarkTells(entries: seq<Entry>, n: nat, i: nat)
    requires i < n <= |entries|
    ensures Tells(entries, n, i, MarkAt(entries, n, i))
    decreases n
  {
    if i < n - 1 {
      MarkTells(entries, n - 1, i);
      VisitTells(entries, n - 1, i, MarkAt(entries, n - 1, i));
    }
  }

  /** Some later entry supersedes this one. */
  ghost predicate Superseded(entries: seq<Entry>, i: nat) {
    exists reason :: ReasonHolds(entries, |entries|, i, reason)
  }

  /** The mark the scan leaves on an entry. */
  ghost function FinalMark(entries: seq<Entry>, i: nat): Option<Replacement> {
    MarkAt(entries, |entries|, i)
  }

  ghost predicate Replaced(entries: seq<Entry>, i: nat) {
    FinalMark(entries, i).Some?
  }

  /** An entry is replaced exactly when a later one supersedes it, for a reason that holds. */
  lemma ReplacedExactly(entries: seq<Entry>, i: nat)
    requires i < |entries|
    ensures Replaced(entries, i) <==> Superseded(entries, i)
    ensures Replaced(entries, i) ==>
      var mark := FinalMark(entries, i).value;
      && ReasonHolds(entries, |entries|, i, mark.reason)
      && (mark.archive <==> ReasonHolds(entries, |entries|, i, ReadCovered) || ReasonHolds(entries, |entries|, i, SnapshotReplaced))
  {
    MarkTells(entries, |entries|, i);
  }

  // ---------------------------------------------------------------- the evidence survives

  ghost predicate Linked(entries: seq<Entry>, i: nat, j: nat) {
    i < j < |entries| && exists reason :: Link(entries, i, j, reason)
  }

  /** Positions of strictly later entries, each superseding the one before it. */
  ghost predicate Chain(entries: seq<Entry>, chain: seq<nat>) {
    && chain != []
    && (forall k :: 0 <= k < |chain| ==> chain[k] < |entries|)
    && (forall k :: 0 < k < |chain| ==> Linked(entries, chain[k - 1], chain[k]))
  }

  lemma Successor(entries: seq<Entry>, i: nat) returns (j: nat, reason: Reason)
    requires i < |entries| && Superseded(entries, i)
    ensures i < j < |entries| && Link(entries, i, j, reason) && Linked(entries, i, j)
  {
    reason :| ReasonHolds(entries, |entries|, i, reason);
    j :| i < j < |entries| && Link(entries, i, j, reason);
  }

  lemma ChainExtended(entries: seq<Entry>, i: nat, rest: seq<nat>)
    requires Chain(entries, rest) && i < |entries| && Linked(entries, i, rest[0])
    ensures Chain(entries, [i] + rest)
  {
  }

  lemma {:induction false} SupersedingChain(entries: seq<Entry>, i: nat) returns (chain: seq<nat>)
    requires i < |entries|
    ensures Chain(entries, chain) && chain[0] == i && !Superseded(entries, chain[|chain| - 1])
    decreases |entries| - i
  {
    if Superseded(entries, i) {
      var j, reason := Successor(entries, i);
      var rest := SupersedingChain(entries, j);
      ChainExtended(entries, i, rest);
      chain := [i] + rest;
    } else {
      chain := [i];
    }
  }

  /** From every entry a chain of later results of other steps leads to one that is not replaced. */
  lemma EvidenceChain(entries: seq<Entry>, i: nat) returns (chain: seq<nat>)
    requires i < |entries|
    ensures Chain(entries, chain) && chain[0] == i && !Replaced(entries, chain[|chain| - 1])
    ensures Replaced(entries, i) ==> |chain| > 1
  {
    chain := SupersedingChain(entries, i);
    ReplacedExactly(entries, i);
    ReplacedExactly(entries, chain[|chain| - 1]);
  }

  /** Equal calls with equal results read the same range with the same outcome. */
  ghost predicate Deterministic(entries: seq<Entry>) {
    forall i, j | 0 <= i < |entries| && 0 <= j < |entries| ::
      ExactKey(entries[i]).Some? && ExactKey(entries[i]) == ExactKey(entries[j])
      ==> entries[i].range == entries[j].range && entries[i].outcome == entries[j].outcome
  }

  /** Reads are no Git snapshots. */
  ghost predicate ReadsAreReads(entries: seq<Entry>) {
    forall i :: 0 <= i < |entries| && entries[i].range.Some? ==> entries[i].snapshot.None?
  }

  lemma LinkCovers(entries: seq<Entry>, i: nat, j: nat, reason: Reason)
    requires Deterministic(entries) && ReadsAreReads(entries) && i < j < |entries|
    requires SuccessfulRead(entries[i]) && Link(entries, i, j, reason)
    ensures SuccessfulRead(entries[j]) && Covers(entries[j].range.value, entries[i].range.value)
  {
  }

  lemma {:induction false} CoveringSuccessor(entries: seq<Entry>, i: nat) returns (j: nat)
    requires Deterministic(entries) && ReadsAreReads(entries) && i < |entries| && SuccessfulRead(entries[i])
    ensures i <= j < |entries| && SuccessfulRead(entries[j]) && !Superseded(entries, j)
    ensures Covers(entries[j].range.value, entries[i].range.value)
    decreases |entries| - i
  {
    j := i;
    if Superseded(entries, i) {
      var next, reason := Successor(entries, i);
      LinkCovers(entries, i, next, reason);
      j := CoveringSuccessor(entries, next);
      CoversTransitive(entries[j].range.value, entries[next].range.value, entries[i].range.value);
    }
  }

  /** Every range a successful read returned stays covered by a successful read that is kept. */
  lemma RangesStayCovered(entries: seq<Entry>, i: nat) returns (j: nat)
    requires Deterministic(entries) && ReadsAreReads(entries)
    requires i < |entries| && SuccessfulRead(entries[i])
    ensures i <= j < |entries| && SuccessfulRead(entries[j]) && !Replaced(entries, j)
    ensures Covers(entries[j].range.value, entries[i].range.value)
  {
    j := CoveringSuccessor(entries, i);
    ReplacedExactly(entries, j);
  }

  /** A successful read of this turn returned what stands at `p`. */
  ghost predicate Returned(e: Entry, p: Position) {
    e.currentTurn && e.textOnly && e.outcome == Succeeded && e.range.Some? && Holds(e.range.value, p)
  }

  /**
   Everything a successful read returned was returned by one that is kept, as long as equal calls
   with equal results read the same range with the same outcome, and reads are no Git snapshots.
   */
  lemma PositionsStay(entries: seq<Entry>, i: nat, p: Position) returns (j: nat)
    requires forall i, j :: 0 <= i < |entries| && 0 <= j < |entries| && entries[i].call.Some?
               && entries[i].call == entries[j].call && entries[i].signature == entries[j].signature
               ==> entries[i].range == entries[j].range && entries[i].outcome == entries[j].outcome
    requires forall i :: 0 <= i < |entries| && entries[i].range.Some? ==> entries[i].snapshot.None?
    requires i < |entries| && Returned(entries[i], p)
    ensures i <= j < |entries| && Returned(entries[j], p) && FinalMark(entries, j) == None
  {
    j := RangesStayCovered(entries, i);
    CoversPositions(entries[j].range.value, entries[i].range.value);
  }

  // ---------------------------------------------------------------- what each reason means

  /** All that the later read spans of the earlier one's positions, and of its bounds where it has none. */
  ghost predicate Spans(next: ReadRange, previous: ReadRange) {
    && (forall p :: Holds(previous, p) ==> Holds(next, p))
    && (Empty(previous) ==>
          (next.path == previous.path
           && (next.kind.Full? || (next.kind == previous.kind && next.start <= previous.start && previous.end <= next.end))))
  }

  /** Why the later result `j` makes the earlier result `i` superfluous. */
  ghost predicate Supersedes(entries: seq<Entry>, i: nat, j: nat, reason: Reason)
    requires i < j < |entries|
  {
    var a, b := entries[i], entries[j];
    && a.currentTurn && a.textOnly && b.currentTurn && b.textOnly && a.step != b.step
    && match reason
       case Duplicate => a.call.Some? && a.call == b.call && a.signature == b.signature
         && forall m :: i < m < j && entries[m].currentTurn && entries[m].textOnly ==>
              !(entries[m].call == b.call && entries[m].signature == b.signature)
       case ReadCovered => a.outcome == Succeeded && b.outcome == Succeeded && a.range.Some? && b.range.Some?
         && Spans(b.range.value, a.range.value)
       case SnapshotReplaced => a.outcome == Succeeded && b.outcome == Succeeded && a.snapshot.Some? && a.snapshot == b.snapshot
         && forall m :: i < m < j && entries[m].currentTurn && entries[m].textOnly && entries[m].outcome == Succeeded ==>
              entries[m].snapshot != b.snapshot
       case FailureResolved => a.semantic && b.semantic && a.call.Some? && a.call == b.call && a.outcome == Failed && b.outcome == Succeeded
  }

  lemma SpansExactly(next: ReadRange, previous: ReadRange)
    ensures Spans(next, previous) <==> Covers(next, previous)
  {
    CoversPositions(next, previous);
    if Empty(previous) {
      CoversEmpty(next, previous);
    }
  }

  lemma LinkExactly(entries: seq<Entry>, i: nat, j: nat, reason: Reason)
    requires i < j < |entries|
    ensures Link(entries, i, j, reason) <==> Supersedes(entries, i, j, reason)
  {
    if entries[i].range.Some? && entries[j].range.Some? {
      SpansExactly(entries[j].range.value, entries[i].range.value);
    }
  }

  function Rank(reason: Reason): nat {
    match reason
    case Duplicate => 0
    case ReadCovered => 1
    case SnapshotReplaced => 2
    case FailureResolved => 3
  }

  /** Among the first `n` entries, `j` is the first to supersede `i`, and `reason` its first reason. */
  ghost predicate FirstBy(entries: seq<Entry>, n: nat, i: nat, j: nat, reason: Reason)
    requires n <= |entries|
  {
    && i < j < n && Link(entries, i, j, reason)
    && (forall k, r :: i < k < j ==> !Link(entries, i, k, r))
    && (forall r :: Rank(r) < Rank(reason) ==> !Link(entries, i, j, r))
  }

  lemma {:induction false} MarkFirst(entries: seq<Entry>, n: nat, i: nat) returns (j: nat)
    requires i < n <= |entries|
    ensures MarkAt(entries, n, i).Some? ==> FirstBy(entries, n, i, j, MarkAt(entries, n, i).value.reason)
    decreases n
  {
    j := n - 1;
    if i < n - 1 {
      var before := MarkAt(entries, n - 1, i);
      var k := MarkFirst(entries, n - 1, i);
      if before.Some? {
        j := k;
      } else {
        NoneBefore(entries, n - 1, i);
      }
    }
  }

  lemma NoneBefore(entries: seq<Entry>, n: nat, i: nat)
    requires i < n <= |entries| && MarkAt(entries, n, i).None?
    ensures forall k, r :: i < k < n ==> !Link(entries, i, k, r)
  {
    MarkTells(entries, n, i);
    forall k, r | i < k < n ensures !Link(entries, i, k, r) {
      assert !ReasonHolds(entries, n, i, r);
    }
  }

  /**
   What the scan leaves on a result: nothing exactly if no later one supersedes it; else the first
   reason of the first one that does; and a request to archive exactly if some read or snapshot does.
   */
  lemma MarkedExactly(entries: seq<Entry>, i: nat) returns (j: nat)
    requires i < |entries|
    ensures FinalMark(entries, i).Some? <==>
      exists j, reason :: i < j < |entries| && Supersedes(entries, i, j, reason)
    ensures FinalMark(entries, i).Some? ==>
      var reason := FinalMark(entries, i).value.reason;
      && i < j < |entries| && Supersedes(entries, i, j, reason)
      && (forall k, r :: i < k < j ==> !Supersedes(entries, i, k, r))
      && (forall r :: Rank(r) < Rank(reason) ==> !Supersedes(entries, i, j, r))
    ensures FinalMark(entries, i).Some? ==>
      (FinalMark(entries, i).value.archive <==>
        exists j :: i < j < |entries| && (Supersedes(entries, i, j, ReadCovered)
                                          || Supersedes(entries, i, j, SnapshotReplaced)))
  {
    ReplacedExactly(entries, i);
    j := MarkFirst(entries, |entries|, i);
    if FinalMark(entries, i).None? {
      NoneBefore(entries, |entries|, i);
    }
    forall k, r | i < k < |entries|
      ensures Link(entries, i, k, r) <==> Supersedes(entries, i, k, r)
    {
      LinkExactly(entries, i, k, r);
    }
  }

  // ---------------------------------------------------------------- the scan as code

  function Lookup<K, V>(m: map<K, V>, k: K): Option<V> {
    if k in m then Some(m[k]) else None
  }

  function Bucket<K>(m: map<K, seq<nat>>, k: K): seq<nat> {
    if k in m then m[k] else []
  }

  function OptionSeq(o: Option<nat>): seq<nat> {
    if o.Some? then [o.value] else []
  }

  ghost predicate Increasing(entries: seq<Entry>) {
    forall i, j :: 0 <= i < j < |entries| ==> entries[i].index < entries[j].index
  }

  ghost function Indices(entries: seq<Entry>): set<nat> {
    set i | 0 <= i < |entries| :: entries[i].index
  }

  function MarkOf(marks: map<nat, Replacement>, e: Entry): Option<Replacement> {
    Lookup(marks, e.index)
  }

  method Mark(marks: map<nat, Replacement>, index: nat, reason: Reason, archive: bool) returns (marks': map<nat, Replacement>)
    ensures marks' == marks[index := MarkedOnce(Lookup(marks, index), true, reason, archive).value]
  {
    var current := Lookup(marks, index);
    marks' := marks[index := Replacement(if current.Some? then current.value.reason else reason,
                                         (current.Some? && current.value.archive) || archive)];
  }

  /** A result of another step hits an earlier one; a covering read must also cover its range. */
  predicate Hits(next: Entry, previous: Entry, covering: bool) {
    next.step != previous.step
    && (covering ==> next.range.Some? && previous.range.Some? && Covers(next.range.value, previous.range.value))
  }

  ghost predicate Below(positions: seq<nat>, n: nat) {
    forall i :: 0 <= i < |positions| ==> positions[i] < n
  }

  /** Mark every position of `from` that entry `n` hits, one after the other. */
  method MarkHits(entries: seq<Entry>, marks: map<nat, Replacement>, from: seq<nat>, n: nat, covering: bool,
                  reason: Reason, archive: bool)
    returns (marks': map<nat, Replacement>)
    requires Increasing(entries) && n < |entries| && Below(from, n)
    ensures forall i :: 0 <= i < |entries| ==>
      MarkOf(marks', entries[i]) ==
        MarkedOnce(MarkOf(marks, entries[i]), i in from && Hits(entries[n], entries[i], covering), reason, archive)
    ensures marks'.Keys <= marks.Keys + Indices(entries)
  {
    marks' := marks;
    for k := 0 to |from|
      invariant marks'.Keys <= marks.Keys + Indices(entries)
      invariant forall i :: 0 <= i < |entries| ==>
        MarkOf(marks', entries[i]) ==
          MarkedOnce(MarkOf(marks, entries[i]), i in from[..k] && Hits(entries[n], entries[i], covering), reason, archive)
    {
      assert from[..k + 1] == from[..k] + [from[k]];
      if Hits(entries[n], entries[from[k]], covering) {
        marks' := Mark(marks', entries[from[k]].index, reason, archive);
      }
    }
    assert from[..|from|] == from;
  }

  /** Entry `n` has been visited by one rule: earlier entries are marked exactly where the rule links them. */
  ghost predicate RuleApplied(entries: seq<Entry>, n: nat, marks: map<nat, Replacement>, marks': map<nat, Replacement>,
                              reason: Reason, archive: bool)
    requires n < |entries|
  {
    forall i :: 0 <= i < |entries| ==>
      MarkOf(marks', entries[i]) == MarkedOnce(MarkOf(marks, entries[i]), i < n && Link(entries, i, n, reason), reason, archive)
  }

  method VisitExact(entries: seq<Entry>, n: nat, marks: map<nat, Replacement>, exact: map<(string, string), nat>)
    returns (marks': map<nat, Replacement>, exact': map<(string, string), nat>)
    requires Increasing(entries) && n < |entries| && forall key :: Lookup(exact, key) == LastExact(entries, n, key)
    ensures RuleApplied(entries, n, marks, marks', Duplicate, false) && marks'.Keys <= marks.Keys + Indices(entries)
    ensures forall key :: Lookup(exact', key) == LastExact(entries, n + 1, key)
  {
    marks', exact' := marks, exact;
    var key := ExactKey(entries[n]);
    if Considered(entries[n]) && key.Some? {
      var last := Lookup(exact, key.value);
      forall i: nat
        ensures last == Some(i) ==> i < n
        ensures i < n && Link(entries, i, n, Duplicate) <==> last == Some(i) && Hits(entries[n], entries[i], false)
      {
        LastExactIs(entries, n, key.value, i);
      }
      marks' := MarkHits(entries, marks, OptionSeq(last), n, false, Duplicate, false);
      exact' := exact[key.value := n];
    }
  }

  method VisitRead(entries: seq<Entry>, n: nat, marks: map<nat, Replacement>, readBuckets: map<string, seq<nat>>)
    returns (marks': map<nat, Replacement>, readBuckets': map<string, seq<nat>>)
    requires Increasing(entries) && n < |entries| && forall path :: Bucket(readBuckets, path) == ReadsOf(entries, n, path)
    ensures RuleApplied(entries, n, marks, marks', ReadCovered, true) && marks'.Keys <= marks.Keys + Indices(entries)
    ensures forall path :: Bucket(readBuckets', path) == ReadsOf(entries, n + 1, path)
  {
    marks', readBuckets' := marks, readBuckets;
    if SuccessfulRead(entries[n]) {
      var path := entries[n].range.value.path;
      var seen := Bucket(readBuckets, path);
      forall i: nat
        ensures i in seen ==> i < n
        ensures i < n && Link(entries, i, n, ReadCovered) <==> i in seen && Hits(entries[n], entries[i], true)
      {
        ReadsOfIs(entries, n, path, i);
      }
      assert Below(seen, n) by { assert forall k :: 0 <= k < |seen| ==> seen[k] in seen; }
      marks' := MarkHits(entries, marks, seen, n, true, ReadCovered, true);
      readBuckets' := readBuckets[path := seen + [n]];
    }
  }

  method VisitSnapshot(entries: seq<Entry>, n: nat, marks: map<nat, Replacement>, snapshots: map<string, nat>)
    returns (marks': map<nat, Replacement>, snapshots': map<string, nat>)
    requires Increasing(entries) && n < |entries| && forall kind :: Lookup(snapshots, kind) == LastSnapshot(entries, n, kind)
    ensures RuleApplied(entries, n, marks, marks', SnapshotReplaced, true) && marks'.Keys <= marks.Keys + Indices(entries)
    ensures forall kind :: Lookup(snapshots', kind) == LastSnapshot(entries, n + 1, kind)
  {
    marks', snapshots' := marks, snapshots;
    if SuccessfulSnapshot(entries[n]) {
      var kind := entries[n].snapshot.value;
      var last := Lookup(snapshots, kind);
      forall i: nat
        ensures last == Some(i) ==> i < n
        ensures i < n && Link(entries, i, n, SnapshotReplaced) <==> last == Some(i) && Hits(entries[n], entries[i], false)
      {
        LastSnapshotIs(entries, n, kind, i);
      }
      marks' := MarkHits(entries, marks, OptionSeq(last), n, false, SnapshotReplaced, true);
      snapshots' := snapshots[kind := n];
    }
  }

  method VisitFailure(entries: seq<Entry>, n: nat, marks: map<nat, Replacement>, failures: map<string, seq<nat>>)
    returns (marks': map<nat, Replacement>, failures': map<string, seq<nat>>)
    requires Increasing(entries) && n < |entries| && forall call :: Bucket(failures, call) == FailuresOf(entries, n, call)
    ensures RuleApplied(entries, n, marks, marks', FailureResolved, false) && marks'.Keys <= marks.Keys + Indices(entries)
    ensures forall call :: Bucket(failures', call) == FailuresOf(entries, n + 1, call)
  {
    marks', failures' := marks, failures;
    if Considered(entries[n]) && entries[n].call.Some? && entries[n].semantic {
      var call := entries[n].call.value;
      var failed := Bucket(failures, call);
      forall i: nat
        ensures i in failed ==> i < n
        ensures SuccessfulCall(entries[n]) ==>
          (i < n && Link(entries, i, n, FailureResolved) <==> i in failed && Hits(entries[n], entries[i], false))
      {
        FailuresOfIs(entries, n, call, i);
      }
      assert Below(failed, n) by { assert forall k :: 0 <= k < |failed| ==> failed[k] in failed; }
      if entries[n].outcome.Succeeded? {
        marks' := MarkHits(entries, marks, failed, n, false, FailureResolved, false);
      }
      if entries[n].outcome.Failed? {
        failures' := failures[call := failed + [n]];
      }
    }
  }

  ghost predicate MarksAre(entries: seq<Entry>, marks: map<nat, Replacement>, n: nat)
    requires n <= |entries|
  {
    marks.Keys <= Indices(entries) && forall i :: 0 <= i < |entries| ==> MarkOf(marks, entries[i]) == MarkAt(entries, n, i)
  }

  /** The four rules, one after the other, make the marks of one more entry. */
  lemma RulesApplied(entries: seq<Entry>, n: nat, m: map<nat, Replacement>, m1: map<nat, Replacement>, m2: map<nat, Replacement>,
                     m3: map<nat, Replacement>, m4: map<nat, Replacement>)
    requires n < |entries| && MarksAre(entries, m, n) && m4.Keys <= Indices(entries)
    requires RuleApplied(entries, n, m, m1, Duplicate, false) && RuleApplied(entries, n, m1, m2, ReadCovered, true)
    requires RuleApplied(entries, n, m2, m3, SnapshotReplaced, true) && RuleApplied(entries, n, m3, m4, FailureResolved, false)
    ensures MarksAre(entries, m4, n + 1)
  {
  }

  /** One pass over the results, keeping the last of each kind and the reads and failures so far. */
  method FindReplacements(entries: seq<Entry>) returns (marks: map<nat, Replacement>)
    requires Increasing(entries)
    ensures forall i :: 0 <= i < |entries| ==>
      (if entries[i].index in marks then Some(marks[entries[i].index]) else None) == FinalMark(entries, i)
    ensures marks.Keys <= set i | 0 <= i < |entries| :: entries[i].index
  {
    marks := map[];
    var exact: map<(string, string), nat> := map[];
    var readBuckets: map<string, seq<nat>> := map[];
    var snapshots: map<string, nat> := map[];
    var failures: map<string, seq<nat>> := map[];
    for n := 0 to |entries|
      invariant MarksAre(entries, marks, n)
      invariant forall key :: Lookup(exact, key) == LastExact(entries, n, key)
      invariant forall path :: Bucket(readBuckets, path) == ReadsOf(entries, n, path)
      invariant forall kind :: Lookup(snapshots, kind) == LastSnapshot(entries, n, kind)
      invariant forall call :: Bucket(failures, call) == FailuresOf(entries, n, call)
    {
      ghost var m := marks;
      marks, exact := VisitExact(entries, n, marks, exact);
      ghost var m1 := marks;
      marks, readBuckets := VisitRead(entries, n, marks, readBuckets);
      ghost var m2 := marks;
      marks, snapshots := VisitSnapshot(entries, n, marks, snapshots);
      ghost var m3 := marks;
      marks, failures := VisitFailure(entries, n, marks, failures);
      RulesApplied(entries, n, m, m1, m2, m3, marks);
    }
  }
}
