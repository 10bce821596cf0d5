/**
 Rotation of stored snapshots: files are recompressed as they age, and above the storage cap
 the oldest ones are removed, page by page, until the total is back at the low-water mark.
 */
module SnapshotRotation {
  import opened Wrappers
  import opened ActivityDatabase

  /** A snapshot row; the table is listed in the order of its time index, then of identifiers. */
  datatype Row = Row(id: SnapshotId, capturedAt: int, hasFile: bool, bytes: nat, tier: Tier)

  const PAGE := 500

  predicate Stored(r: Row) {
    r.hasFile && r.bytes > 0
  }

  function StoredRows(rows: seq<Row>): seq<Row> {
    if rows == [] then []
    else if Stored(rows[0]) then [rows[0]] + StoredRows(rows[1..])
    else StoredRows(rows[1..])
  }

  function Sum(rows: seq<Row>): nat {
    if rows == [] then 0 else rows[0].bytes + Sum(rows[1..])
  }

  function Without(rows: seq<Row>, id: SnapshotId): seq<Row> {
    if rows == [] then []
    else if rows[0].id == id then Without(rows[1..], id)
    else [rows[0]] + Without(rows[1..], id)
  }

  ghost predicate DistinctIds(rows: seq<Row>) {
    forall i, j :: 0 <= i < j < |rows| ==> rows[i].id != rows[j].id
  }

  function MaxBytes(maxStorageMb: int): nat {
    (if maxStorageMb < 1 then 1 else maxStorageMb) * 1024 * 1024
  }

  function TargetBytes(maxBytes: nat): nat {
    maxBytes * 3 / 4
  }

  // ---------------------------------------------------------------- the global rule

  /** Remove stored rows, oldest first, while more than `target` bytes remain. */
  function Evict(rows: seq<Row>, remaining: int, target: int): seq<Row>
    decreases rows
  {
    if rows == [] || remaining <= target then rows
    else if Stored(rows[0]) then Evict(rows[1..], remaining - rows[0].bytes, target)
    else [rows[0]] + Evict(rows[1..], remaining, target)
  }

  function WithoutFirst(rows: seq<Row>, k: nat): seq<Row>
    decreases rows
  {
    if rows == [] || k == 0 then rows
    else if Stored(rows[0]) then WithoutFirst(rows[1..], k - 1)
    else [rows[0]] + WithoutFirst(rows[1..], k)
  }

  lemma SumTake(first: Row, rest: seq<Row>, j: nat)
    requires 0 < j <= |rest| + 1
    ensures Sum(([first] + rest)[..j]) == first.bytes + Sum(rest[..j - 1])
  {
    assert ([first] + rest)[..j][1..] == rest[..j - 1];
  }

  /** The rule removes the shortest oldest-first prefix of the stored rows that suffices, or all of them. */
  lemma {:induction false} EvictShortestPrefix(rows: seq<Row>, remaining: int, target: int) returns (k: nat)
    ensures k <= |StoredRows(rows)| && Evict(rows, remaining, target) == WithoutFirst(rows, k)
    ensures k == |StoredRows(rows)| || remaining - Sum(StoredRows(rows)[..k]) <= target
    ensures forall j :: 0 <= j < k ==> remaining - Sum(StoredRows(rows)[..j]) > target
    decreases rows
  {
    if rows == [] || remaining <= target {
      return 0;
    }
    if Stored(rows[0]) {
      k := EvictShortestPrefix(rows[1..], remaining - rows[0].bytes, target);
      k := k + 1;
      forall j | 0 < j <= |StoredRows(rows)|
        ensures Sum(StoredRows(rows)[..j]) == rows[0].bytes + Sum(StoredRows(rows[1..])[..j - 1])
      {
        SumTake(rows[0], StoredRows(rows[1..]), j);
      }
    } else {
      k := EvictShortestPrefix(rows[1..], remaining, target);
    }
  }

  lemma {:induction false} RemovedBytes(rows: seq<Row>, k: nat)
    requires k <= |StoredRows(rows)|
    ensures Sum(WithoutFirst(rows, k)) == Sum(rows) - Sum(StoredRows(rows)[..k])
    ensures StoredRows(WithoutFirst(rows, k)) == StoredRows(rows)[k..]
    decreases rows
  {
    if rows != [] && k > 0 {
      var stored := StoredRows(rows);
      if Stored(rows[0]) {
        RemovedBytes(rows[1..], k - 1);
        assert stored[..k][1..] == StoredRows(rows[1..])[..k - 1];
      } else {
        RemovedBytes(rows[1..], k);
        assert WithoutFirst(rows, k)[1..] == WithoutFirst(rows[1..], k);
      }
    }
  }

  /** After eviction the true total is at the low-water mark, or nothing stored is left. */
  lemma EvictSuffices(rows: seq<Row>, target: int)
    ensures var kept := Evict(rows, Sum(rows), target); Sum(kept) <= target || StoredRows(kept) == []
  {
    var k := EvictShortestPrefix(rows, Sum(rows), target);
    RemovedBytes(rows, k);
  }

  /** The bytes of the stored rows before the row at `i`. */
  function BytesBefore(rows: seq<Row>, i: nat): nat
    requires i <= |rows|
  {
    if i == 0 then 0
    else BytesBefore(rows, i - 1) + if rows[i - 1].hasFile then rows[i - 1].bytes else 0
  }

  lemma {:induction false} BytesBeforeNext(rows: seq<Row>, i: nat)
    requires 0 < i <= |rows|
    ensures BytesBefore(rows, i) == (if rows[0].hasFile then rows[0].bytes else 0) + BytesBefore(rows[1..], i - 1)
    decreases i
  {
    if i > 1 {
      BytesBeforeNext(rows, i - 1);
    }
  }

  lemma {:induction false} EvictedAmong(rows: seq<Row>, remaining: int, target: int)
    ensures forall r :: r in Evict(rows, remaining, target) ==> r in rows
    ensures remaining <= target ==> Evict(rows, remaining, target) == rows
    decreases rows
  {
    if rows != [] && remaining > target {
      EvictedAmong(rows[1..], if Stored(rows[0]) then remaining - rows[0].bytes else remaining, target);
    }
  }

  /** Later rows are removed as from the rest of the list. */
  lemma EvictNext(rows: seq<Row>, remaining: int, target: int, i: nat)
    requires DistinctIds(rows) && 0 < i < |rows| && remaining > target
    ensures rows[i] in Evict(rows, remaining, target) <==>
      rows[1..][i - 1] in Evict(rows[1..], if Stored(rows[0]) then remaining - rows[0].bytes else remaining, target)
  {
    assert rows[i] != rows[0];
  }

  lemma EvictFirst(rows: seq<Row>, remaining: int, target: int)
    requires DistinctIds(rows) && rows != []
    ensures rows[0] in Evict(rows, remaining, target) <==> !(Stored(rows[0]) && remaining > target)
  {
    if Stored(rows[0]) && remaining > target {
      EvictedAmong(rows[1..], remaining - rows[0].bytes, target);
      assert rows[0] !in rows[1..];
    }
  }

  /** A row is removed exactly if it has a file with bytes, and more than the target would remain with all older ones removed. */
  lemma {:induction false} EvictedExactly(rows: seq<Row>, remaining: int, target: int, i: nat)
    requires DistinctIds(rows) && i < |rows|
    ensures rows[i] in Evict(rows, remaining, target) <==>
      !(rows[i].hasFile && rows[i].bytes > 0 && remaining - BytesBefore(rows, i) > target)
    decreases rows
  {
    if i == 0 {
      EvictFirst(rows, remaining, target);
    } else if remaining > target {
      assert DistinctIds(rows[1..]);
      EvictNext(rows, remaining, target, i);
      BytesBeforeNext(rows, i);
      EvictedExactly(rows[1..], if Stored(rows[0]) then remaining - rows[0].bytes else remaining, target, i - 1);
    }
  }

  /** Where each of some rows stands among all of them, in order. */
  ghost predicate Places(rows: seq<Row>, some: seq<Row>, places: seq<nat>) {
    && |places| == |some|
    && (forall i :: 0 <= i < |places| ==> places[i] < |rows| && rows[places[i]] == some[i])
    && (forall i, j :: 0 <= i < j < |places| ==> places[i] < places[j])
  }

  function Shifted(places: seq<nat>): seq<nat> {
    seq(|places|, i requires 0 <= i < |places| => places[i] + 1)
  }

  lemma PlacesNext(first: Row, rows: seq<Row>, some: seq<Row>, places: seq<nat>)
    requires Places(rows, some, places)
    ensures Places([first] + rows, some, Shifted(places)) && Places([first] + rows, [first] + some, [0] + Shifted(places))
  {
  }

  lemma AllPlaces(rows: seq<Row>)
    ensures Places(rows, rows, seq(|rows|, i => i))
  {
  }

  /** The rows that stay are in the order they were. */
  lemma {:induction false} EvictedInOrder(rows: seq<Row>, remaining: int, target: int) returns (places: seq<nat>)
    ensures Places(rows, Evict(rows, remaining, target), places)
    decreases rows
  {
    if rows == [] || remaining <= target {
      AllPlaces(rows);
      return seq(|rows|, i => i);
    }
    var first, later := rows[0], rows[1..];
    assert rows == [first] + later;
    if Stored(first) {
      var rest := EvictedInOrder(later, remaining - first.bytes, target);
      PlacesNext(first, later, Evict(later, remaining - first.bytes, target), rest);
      places := Shifted(rest);
    } else {
      var rest := EvictedInOrder(later, remaining, target);
      PlacesNext(first, later, Evict(later, remaining, target), rest);
      places := [0] + Shifted(rest);
    }
  }

  /** The cap is in mebibytes, at least one; the low-water mark is three quarters of it. */
  lemma CapAndTarget(maxStorageMb: int)
    ensures MaxBytes(maxStorageMb) == (if maxStorageMb > 1 then maxStorageMb else 1) * 1_048_576
    ensures 4 * TargetBytes(MaxBytes(maxStorageMb)) == 3 * MaxBytes(maxStorageMb)
  {
  }

  // ---------------------------------------------------------------- the paged loop

  ghost predicate Absent(rows: seq<Row>, id: SnapshotId) {
    forall i :: 0 <= i < |rows| ==> rows[i].id != id
  }

  /** The row with `id`, if there is one, is gone; the others are as before, in the same order. */
  ghost predicate Removed(was: seq<Row>, now: seq<Row>, id: SnapshotId) {
    Absent(now, id) &&
    if Absent(was, id) then now == was
    else exists i :: 0 <= i < |was| && was[i].id == id && now == was[..i] + was[i + 1..]
  }

  lemma {:induction false} WithoutAbsent(rows: seq<Row>, id: SnapshotId)
    requires Absent(rows, id)
    ensures Without(rows, id) == rows
  {
    if rows != [] {
      WithoutAbsent(rows[1..], id);
    }
  }

  lemma SliceOut(rows: seq<Row>, i: nat)
    requires 0 < i < |rows|
    ensures [rows[0]] + (rows[1..][..i - 1] + rows[1..][i..]) == rows[..i] + rows[i + 1..]
  {
  }

  lemma {:induction false} WithoutAt(rows: seq<Row>, i: nat)
    requires DistinctIds(rows) && i < |rows|
    ensures Without(rows, rows[i].id) == rows[..i] + rows[i + 1..]
    decreases rows
  {
    var rest := rows[1..];
    if i == 0 {
      assert rows[..0] + rows[0 + 1..] == rest;
      WithoutAbsent(rest, rows[0].id);
    } else {
      WithoutAt(rest, i - 1);
      SliceOut(rows, i);
    }
  }

  lemma OneOut(rows: seq<Row>, i: nat)
    requires DistinctIds(rows) && i < |rows|
    ensures var rest := rows[..i] + rows[i + 1..]; DistinctIds(rest) && Absent(rest, rows[i].id)
  {
  }

  /** Deleting by identifier takes out exactly one row, and keeps identifiers distinct. */
  lemma WithoutExact(rows: seq<Row>, id: SnapshotId)
    requires DistinctIds(rows)
    ensures Removed(rows, Without(rows, id), id) && DistinctIds(Without(rows, id))
  {
    if Absent(rows, id) {
      WithoutAbsent(rows, id);
    } else {
      var i :| 0 <= i < |rows| && rows[i].id == id;
      WithoutAt(rows, i);
      OneOut(rows, i);
    }
  }

  lemma {:induction false} StoredSubset(rows: seq<Row>)
    requires StoredRows(rows) != []
    ensures exists i :: 0 <= i < |rows| && rows[i] == StoredRows(rows)[0]
  {
    if !Stored(rows[0]) {
      StoredSubset(rows[1..]);
      var i :| 0 <= i < |rows[1..]| && rows[1..][i] == StoredRows(rows)[0];
      assert rows[i + 1] == StoredRows(rows)[0];
    } else {
      assert rows[0] == StoredRows(rows)[0];
    }
  }

  lemma {:induction false} NextMove(rows: seq<Row>, remaining: int, target: int)
    requires DistinctIds(rows) && StoredRows(rows) != [] && remaining > target
    ensures var first := StoredRows(rows)[0];
      && Evict(Without(rows, first.id), remaining - first.bytes, target) == Evict(rows, remaining, target)
      && StoredRows(Without(rows, first.id)) == StoredRows(rows)[1..]
      && Sum(Without(rows, first.id)) == Sum(rows) - first.bytes
      && |Without(rows, first.id)| == |rows| - 1
    decreases rows
  {
    var first := StoredRows(rows)[0];
    assert DistinctIds(rows[1..]);
    if Stored(rows[0]) {
      WithoutAbsent(rows[1..], first.id);
    } else {
      NextMove(rows[1..], remaining, target);
      StoredSubset(rows[1..]);
      var rest := Without(rows[1..], first.id);
      assert Without(rows, first.id) == [rows[0]] + rest;
      assert ([rows[0]] + rest)[1..] == rest;
      if remaining - first.bytes <= target {
        assert Evict(rest, remaining - first.bytes, target) == rest;
      }
    }
  }

  /** Deleting the oldest stored row is the next move of the rule. */
  lemma DeleteOldest(rows: seq<Row>, remaining: int, target: int)
    requires DistinctIds(rows) && StoredRows(rows) != [] && remaining > target
    ensures var first := StoredRows(rows)[0];
      && Evict(Without(rows, first.id), remaining - first.bytes, target) == Evict(rows, remaining, target)
      && StoredRows(Without(rows, first.id)) == StoredRows(rows)[1..]
      && Sum(Without(rows, first.id)) == Sum(rows) - first.bytes
      && |Without(rows, first.id)| == |rows| - 1
      && DistinctIds(Without(rows, first.id))
  {
    NextMove(rows, remaining, target);
    WithoutExact(rows, StoredRows(rows)[0].id);
  }

  class Snapshots {
    var rows: seq<Row>

    constructor (rows: seq<Row>)
      ensures this.rows == rows
    {
      this.rows := rows;
    }

    method DeleteSnapshot(id: SnapshotId)
      requires DistinctIds(rows)
      modifies this
      ensures rows == Without(old(rows), id)
      ensures Removed(old(rows), rows, id) && DistinctIds(rows)
    {
      WithoutExact(rows, id);
      rows := Without(rows, id);
    }

    /** Above the cap, delete oldest stored rows page by page down to the low-water mark. */
    method EnforceCap(maxStorageMb: int)
      requires DistinctIds(rows)
      modifies this
      ensures var maxBytes := MaxBytes(maxStorageMb);
        rows == if old(Sum(rows)) <= maxBytes then old(rows) else Evict(old(rows), old(Sum(rows)), TargetBytes(maxBytes))
    {
      var maxBytes := MaxBytes(maxStorageMb);
      var target := TargetBytes(maxBytes);
      var remaining := Sum(rows);
      if remaining <= maxBytes {
        return;
      }
      ghost var goal := Evict(rows, remaining, target);
      while remaining > target
        invariant DistinctIds(rows) && remaining == Sum(rows) && goal == Evict(rows, remaining, target)
        decreases |rows|
      {
        var stored := StoredRows(rows);
        var candidates := if |stored| > PAGE then stored[..PAGE] else stored;
        if candidates == [] {
          NothingStored(rows, remaining, target);
          break;
        }
        ghost var size := |rows|;
        for i := 0 to |candidates|
          invariant DistinctIds(rows) && remaining == Sum(rows) && goal == Evict(rows, remaining, target)
          invariant StoredRows(rows) == stored[i..] && |rows| == size - i
          invariant i == 0 ==> remaining > target
        {
          if remaining <= target {
            break;
          }
          assert StoredRows(rows)[0] == candidates[i];
          DeleteOldest(rows, remaining, target);
          DeleteSnapshot(candidates[i].id);
          remaining := remaining - candidates[i].bytes;
        }
      }
    }
  }

  lemma {:induction false} NothingStored(rows: seq<Row>, remaining: int, target: int)
    requires StoredRows(rows) == []
    ensures Evict(rows, remaining, target) == rows
    decreases rows
  {
    if rows != [] && remaining > target {
      NothingStored(rows[1..], remaining, target);
    }
  }

  // ---------------------------------------------------------------- tiers

  const DAY_MS := 86_400_000

  /** How old a snapshot of a tier must be to move on. */
  function Threshold(tier: Tier): int {
    if tier.Hot? then DAY_MS else 7 * DAY_MS
  }

  function NextTier(tier: Tier): Tier {
    if tier.Hot? then Warm else Cold
  }

  function Rank(tier: Tier): nat {
    match tier
    case Hot => 0
    case Warm => 1
    case Cold => 2
  }

  datatype FileState = Missing | Changed | Same

  /**
   What a rotation decides about a row before it encodes anything: leave it, move it on
   without encoding, or encode it and come back.
   */
  datatype Decision = Leave | MoveOn | Encode(candidate: Row)

  function Decide(row: Row, tier: Tier, now: int, file: FileState, canEncode: bool): Decision {
    if row.tier != tier || now - row.capturedAt <= Threshold(tier) then Leave
    else if !Stored(row) then MoveOn
    else if !canEncode then Leave
    else if file.Missing? then MoveOn
    else if file.Changed? then Leave
    else Encode(row)
  }

  /** What it writes after encoding: nothing when the row or its file is no longer the one it read. */
  function Commit(row: Row, candidate: Row, encoded: Option<nat>, file: FileState): Row {
    if row != candidate then row
    else if file.Missing? then row.(tier := NextTier(row.tier))
    else if file.Changed? || encoded.None? then row
    else if encoded.value >= row.bytes then row.(tier := NextTier(row.tier))
    else row.(bytes := encoded.value, tier := NextTier(row.tier))
  }

  /** One critical section of some rotation, or the removal of a row. */
  datatype Section =
    | Look(id: SnapshotId, tier: Tier, now: int, file: FileState, canEncode: bool)
    | Write(id: SnapshotId, candidate: Row, encoded: Option<nat>, file: FileState)
    | Remove(id: SnapshotId)

  /** Rotations look at hot and warm rows only, and write only rows they decided to encode. */
  predicate Allowed(a: Section) {
    match a
    case Look(_, tier, _, _, _) => !tier.Cold?
    case Write(_, candidate, _, _) => !candidate.tier.Cold?
    case Remove(_) => true
  }

  function Apply(table: map<SnapshotId, Row>, a: Section): map<SnapshotId, Row> {
    if a.id !in table then table
    else
      var row := table[a.id];
      match a
      case Look(id, tier, now, file, canEncode) =>
        if Decide(row, tier, now, file, canEncode) == MoveOn then table[id := row.(tier := NextTier(row.tier))] else table
      case Write(id, candidate, encoded, file) => table[id := Commit(row, candidate, encoded, file)]
      case Remove(id) => table - {id}
  }

  function ApplyAll(table: map<SnapshotId, Row>, sections: seq<Section>): map<SnapshotId, Row>
    decreases sections
  {
    if sections == [] then table else ApplyAll(Apply(table, sections[0]), sections[1..])
  }

  /**
   However rotations interleave, a row only moves from hot towards cold, its recorded size
   never grows, and a row whose size shrank has moved on.
   */
  lemma {:induction false} RotationMonotone(table: map<SnapshotId, Row>, sections: seq<Section>, id: SnapshotId)
    requires forall i :: 0 <= i < |sections| ==> Allowed(sections[i])
    requires id in ApplyAll(table, sections)
    ensures id in table
    ensures var before, after := table[id], ApplyAll(table, sections)[id];
      && Rank(before.tier) <= Rank(after.tier) && after.bytes <= before.bytes
      && (after.bytes < before.bytes ==> Rank(before.tier) < Rank(after.tier))
      && after.capturedAt == before.capturedAt && after.hasFile == before.hasFile
    decreases sections
  {
    if sections != [] {
      RotationMonotone(Apply(table, sections[0]), sections[1..], id);
    }
  }

  /** Only one of several rotations that encoded the same candidate publishes its file. */
  lemma OnePublishes(row: Row, first: Option<nat>, second: Option<nat>, file: FileState, file': FileState)
    requires !row.tier.Cold? && Commit(row, row, first, file) != row
    ensures Commit(Commit(row, row, first, file), row, second, file') == Commit(row, row, first, file)
  {
  }

  // ---------------------------------------------------------------- what one rotation does to a row

  /** A rotation of one row that nothing interrupts: look, encode if that was decided, and write. */
  function Rotated(row: Row, tier: Tier, now: int, canEncode: bool, before: FileState, encoded: Option<nat>, after: FileState): Row {
    match Decide(row, tier, now, before, canEncode)
    case Leave => row
    case MoveOn => row.(tier := NextTier(row.tier))
    case Encode(candidate) => Commit(row, candidate, encoded, after)
  }

  /** The row is in the tier the rotation looks through, and older than a day if hot, than a week if warm. */
  predicate Due(row: Row, tier: Tier, now: int) {
    row.tier == tier && now - row.capturedAt > if tier == Hot then 86_400_000 else 604_800_000
  }

  /**
   A row that is due moves on exactly if it has no file with bytes, or can be encoded and its file is gone, or
   is the same throughout and was encoded. Its size changes exactly if that made it smaller.
   */
  lemma RotatedExactly(row: Row, tier: Tier, now: int, canEncode: bool, before: FileState, encoded: Option<nat>, after: FileState)
    requires tier != Cold
    ensures var row' := Rotated(row, tier, now, canEncode, before, encoded, after);
      var empty := row.hasFile == false || row.bytes == 0;
      var whole := before == Same && after == Same && encoded != None;
      var moves := Due(row, tier, now) && (empty || (canEncode && (before == Missing || (before == Same && after == Missing) || whole)));
      && row'.tier == (if !moves then row.tier else if tier == Hot then Warm else Cold)
      && row'.bytes == (if moves && !empty && whole && encoded.value < row.bytes then encoded.value else row.bytes)
      && row'.id == row.id && row'.capturedAt == row.capturedAt && row'.hasFile == row.hasFile
  {
  }

  /** In the table: a look leaves the row for encoding, or does all there is to do; the write after it does the rest. */
  lemma RotatesTable(table: map<SnapshotId, Row>, id: SnapshotId, tier: Tier, now: int, canEncode: bool, before: FileState,
                     encoded: Option<nat>, after: FileState)
    requires id in table && tier != Cold
    ensures var look := Apply(table, Look(id, tier, now, before, canEncode));
      var row' := Rotated(table[id], tier, now, canEncode, before, encoded, after);
      if Due(table[id], tier, now) && table[id].hasFile && table[id].bytes > 0 && canEncode && before == Same
      then look == table && Apply(look, Write(id, table[id], encoded, after)) == table[id := row']
      else look == table[id := row']
  {
    assert table[id := table[id]] == table;
  }

  /** Nothing is written over a row that is no longer the one that was read. */
  lemma ChangedRowStays(row: Row, candidate: Row, encoded: Option<nat>, file: FileState)
    requires row != candidate
    ensures Commit(row, candidate, encoded, file) == row
  {
  }

  /** What a look at the table decides to encode. */
  function Seen(table: map<SnapshotId, Row>, a: Section): set<Row> {
    if a.Look? && a.id in table && Decide(table[a.id], a.tier, a.now, a.file, a.canEncode).Encode? then {table[a.id]} else {}
  }

  /** Looks are made no later than `time`, at tiers that are rotated, and rows are written only as some look decided to encode them. */
  predicate Decided(table: map<SnapshotId, Row>, seen: set<Row>, sections: seq<Section>, time: int)
    decreases sections
  {
    sections == [] ||
    ((sections[0].Look? ==> sections[0].now <= time && sections[0].tier != Cold)
     && (sections[0].Write? ==> sections[0].candidate in seen)
     && Decided(Apply(table, sections[0]), seen + Seen(table, sections[0]), sections[1..], time))
  }

  /** All the rows were old enough to be encoded. */
  ghost predicate AllDue(seen: set<Row>, time: int) {
    forall r :: r in seen ==> r.tier != Cold && Due(r, r.tier, time)
  }

  /** However rotations interleave, a row leaves its tier only when it is old enough at the time: a day for hot, a week for warm. */
  lemma {:induction false} MovedWhenOld(table: map<SnapshotId, Row>, seen: set<Row>, sections: seq<Section>, time: int, id: SnapshotId)
    requires AllDue(seen, time) && Decided(table, seen, sections, time)
    requires id in table && id in ApplyAll(table, sections)
    ensures var before, after := table[id], ApplyAll(table, sections)[id];
      && after.capturedAt == before.capturedAt
      && (after.tier != before.tier ==> time - before.capturedAt > if before.tier == Hot then 86_400_000 else 604_800_000)
      && (after.tier == Cold && before.tier != Cold ==> time - before.capturedAt > 604_800_000)
    decreases sections
  {
    if sections != [] {
      var next := Apply(table, sections[0]);
      OnlyRemoved(next, sections[1..], id);
      MovedWhenOld(next, seen + Seen(table, sections[0]), sections[1..], time, id);
    }
  }

  lemma {:induction false} OnlyRemoved(table: map<SnapshotId, Row>, sections: seq<Section>, id: SnapshotId)
    requires id in ApplyAll(table, sections)
    ensures id in table
    decreases sections
  {
    if sections != [] {
      OnlyRemoved(Apply(table, sections[0]), sections[1..], id);
    }
  }

  /** A section touches the row it is for and no other; removing takes just that row. */
  lemma OneRowTouched(table: map<SnapshotId, Row>, a: Section)
    ensures forall id :: id != a.id ==> (id in Apply(table, a) <==> id in table) && (id in table ==> Apply(table, a)[id] == table[id])
    ensures a.id in Apply(table, a) <==> a.id in table && !a.Remove?
  {
  }
}
