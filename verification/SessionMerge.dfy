/**
 Merging of adjacent pending sessions. The loop walks the selected rows once, growing the
 block at hand while the next row follows closely enough and shares an application.
 */
module SessionMerge {
  import opened Wrappers
  import opened ActivityDatabase
  import opened ActivityStore

  datatype Row = Row(id: SessionId, startedAt: int, endedAt: int, apps: seq<string>)

  predicate Overlap(a: seq<string>, b: seq<string>) {
    a == [] || b == [] || exists i :: 0 <= i < |a| && a[i] in b
  }

  /** The rule for absorbing the next row into a block. */
  predicate Meets(block: Row, next: Row, gap: int) {
    0 <= next.startedAt - block.endedAt <= gap && Overlap(block.apps, next.apps)
  }

  function Extend(block: Row, next: Row): Row {
    Row(block.id, block.startedAt, next.endedAt, AddApps(block.apps, next.apps))
  }

  /** The block that a run of rows has been merged into. */
  function Built(rows: seq<Row>): Row
    requires rows != []
    decreases rows
  {
    if |rows| == 1 then rows[0] else Extend(Built(rows[..|rows| - 1]), rows[|rows| - 1])
  }

  // ---------------------------------------------------------------- the greedy partition

  function Flatten(groups: seq<seq<Row>>): seq<Row>
    decreases groups
  {
    if groups == [] then [] else Flatten(groups[..|groups| - 1]) + groups[|groups| - 1]
  }

  /** Every row after the first of a group met the rule against the rows before it. */
  ghost predicate Grown(group: seq<Row>, gap: int) {
    group != [] && forall k :: 0 < k < |group| ==> Meets(Built(group[..k]), group[k], gap)
  }

  /** The group at `i` ended because the next one's first row did not meet the rule. */
  ghost predicate Stops(groups: seq<seq<Row>>, i: int, gap: int)
    requires 0 <= i < |groups| - 1 && groups[i] != [] && groups[i + 1] != []
  {
    !Meets(Built(groups[i]), groups[i + 1][0], gap)
  }

  ghost predicate Greedy(groups: seq<seq<Row>>, rows: seq<Row>, gap: int) {
    && Flatten(groups) == rows
    && (forall i :: 0 <= i < |groups| ==> Grown(groups[i], gap))
    && (forall i :: 0 <= i < |groups| - 1 ==> Stops(groups, i, gap))
  }

  // ---------------------------------------------------------------- the database

  /** One group absorbed row by row into its first session. */
  ghost function AbsorbGroup(db: Database, group: seq<Row>): Database
    decreases group
  {
    if |group| <= 1 then db
    else
      var last := |group| - 1;
      MergePair(AbsorbGroup(db, group[..last]), group[0].id, group[last].id, Some(group[last].endedAt), Built(group).apps)
  }

  ghost function AbsorbAll(db: Database, groups: seq<seq<Row>>): Database
    decreases groups
  {
    if groups == [] then db
    else AbsorbGroup(AbsorbAll(db, groups[..|groups| - 1]), groups[|groups| - 1])
  }

  /** No row on the way is moved to a session that is gone. */
  ghost predicate GroupAllowed(db: Database, group: seq<Row>)
    decreases group
  {
    |group| <= 1 ||
    (GroupAllowed(db, group[..|group| - 1]) && PairAllowed(AbsorbGroup(db, group[..|group| - 1]), group[0].id, group[|group| - 1].id))
  }

  ghost predicate AllAllowed(db: Database, groups: seq<seq<Row>>)
    decreases groups
  {
    groups == [] ||
    (AllAllowed(db, groups[..|groups| - 1]) && GroupAllowed(AbsorbAll(db, groups[..|groups| - 1]), groups[|groups| - 1]))
  }

  lemma {:induction false} BuiltFirst(rows: seq<Row>)
    requires rows != []
    ensures Built(rows).id == rows[0].id && Built(rows).startedAt == rows[0].startedAt
    ensures Built(rows).endedAt == rows[|rows| - 1].endedAt
    decreases rows
  {
    if |rows| > 1 {
      BuiltFirst(rows[..|rows| - 1]);
    }
  }

  // ---------------------------------------------------------------- what a block holds

  ghost predicate NoRepeats(apps: seq<string>) {
    forall i, j :: 0 <= i < j < |apps| ==> apps[i] != apps[j]
  }

  lemma {:induction false} AddedApps(apps: seq<string>, more: seq<string>)
    ensures forall a :: a in AddApps(apps, more) <==> a in apps || a in more
    ensures apps <= AddApps(apps, more) && (NoRepeats(apps) ==> NoRepeats(AddApps(apps, more)))
    decreases more
  {
    if more != [] {
      AddedApps(AddApp(apps, more[0]), more[1..]);
      assert more == [more[0]] + more[1..];
    }
  }

  /** Applications of some rows: all of them, none twice, those of the first row first. */
  ghost predicate AppsOf(rows: seq<Row>, apps: seq<string>)
    requires rows != []
  {
    && (forall a :: a in apps <==> exists k :: 0 <= k < |rows| && a in rows[k].apps)
    && rows[0].apps <= apps && (NoRepeats(rows[0].apps) ==> NoRepeats(apps))
  }

  /**
   The applications of a block are those of its rows, each once: the first row's in their order,
   and whatever the block had after fewer rows, in that order.
   */
  lemma {:induction false} BlockApps(rows: seq<Row>)
    requires rows != []
    ensures AppsOf(rows, Built(rows).apps)
    ensures forall k :: 0 < k <= |rows| ==> Built(rows[..k]).apps <= Built(rows).apps
    decreases rows
  {
    var last := |rows| - 1;
    assert rows[..|rows|] == rows;
    if last > 0 {
      var before := rows[..last];
      BlockApps(before);
      AddedApps(Built(before).apps, rows[last].apps);
      forall a ensures a in Built(rows).apps <==> exists k :: 0 <= k < |rows| && a in rows[k].apps {
        if k :| 0 <= k < |rows| && a in rows[k].apps {
          assert k < last ==> before[k] == rows[k];
        }
      }
      forall k | 0 < k < |rows| ensures Built(rows[..k]).apps <= Built(rows).apps {
        assert before[..k] == rows[..k];
      }
    }
  }

  /** A row shares an application with some row of the block, or has none, or the block has none. */
  ghost predicate Shares(rows: seq<Row>, next: Row) {
    || next.apps == []
    || (forall k :: 0 <= k < |rows| ==> rows[k].apps == [])
    || exists k, a :: 0 <= k < |rows| && a in rows[k].apps && a in next.apps
  }

  /** A row follows the last one of the block closely enough, and shares an application. */
  ghost predicate Follows(rows: seq<Row>, next: Row, gap: int)
    requires rows != []
  {
    var idle := next.startedAt - rows[|rows| - 1].endedAt;
    0 <= idle && idle <= gap && Shares(rows, next)
  }

  lemma MeetsExactly(rows: seq<Row>, next: Row, gap: int)
    requires rows != []
    ensures Meets(Built(rows), next, gap) <==> Follows(rows, next, gap)
  {
    BuiltFirst(rows);
    BlockApps(rows);
    OverlapIs(Built(rows).apps, next.apps);
    forall k | 0 <= k < |rows| && rows[k].apps != [] ensures Built(rows).apps != [] {
      assert rows[k].apps[0] in Built(rows).apps;
    }
    if Built(rows).apps != [] {
      assert Built(rows).apps[0] in Built(rows).apps;
    }
  }

  lemma OverlapIs(a: seq<string>, b: seq<string>)
    ensures Overlap(a, b) <==> a == [] || b == [] || exists x :: x in a && x in b
  {
    if x :| x in a && x in b {
      var i :| 0 <= i < |a| && a[i] == x;
    }
  }

  /** The partition by the rule itself: every row after the first of a group follows those before it, and no group could go on. */
  lemma GreedyExactly(groups: seq<seq<Row>>, rows: seq<Row>, gap: int)
    ensures Greedy(groups, rows, gap) <==>
      && Flatten(groups) == rows
      && (forall i :: 0 <= i < |groups| ==> groups[i] != [])
      && (forall i, k :: 0 <= i < |groups| && 0 < k < |groups[i]| ==> Follows(groups[i][..k], groups[i][k], gap))
      && (forall i :: 0 <= i < |groups| - 1 ==> !Follows(groups[i], groups[i + 1][0], gap))
  {
    forall i, k | 0 <= i < |groups| && 0 < k < |groups[i]|
      ensures Meets(Built(groups[i][..k]), groups[i][k], gap) <==> Follows(groups[i][..k], groups[i][k], gap)
    {
      MeetsExactly(groups[i][..k], groups[i][k], gap);
    }
    forall i | 0 <= i < |groups| - 1 && groups[i] != [] && groups[i + 1] != []
      ensures Stops(groups, i, gap) <==> !Follows(groups[i], groups[i + 1][0], gap)
    {
      MeetsExactly(groups[i], groups[i + 1][0], gap);
    }
  }

  lemma GrowGroup(db: Database, done: seq<seq<Row>>, current: seq<Row>, next: Row, rows: seq<Row>, gap: int)
    requires Greedy(done + [current], rows, gap) && current != [] && Meets(Built(current), next, gap)
    ensures Greedy(done + [current + [next]], rows + [next], gap)
    ensures Built(current + [next]) == Extend(Built(current), next)
    ensures var before := AbsorbAll(db, done + [current]);
      && AbsorbAll(db, done + [current + [next]]) ==
           MergePair(before, Built(current).id, next.id, Some(next.endedAt), Extend(Built(current), next).apps)
      && (AllAllowed(db, done + [current + [next]]) <==> AllAllowed(db, done + [current]) && PairAllowed(before, Built(current).id, next.id))
  {
    GrowPartition(done, current, next, rows, gap);
    GrowDatabase(db, done, current, next);
  }

  lemma GrowPartition(done: seq<seq<Row>>, current: seq<Row>, next: Row, rows: seq<Row>, gap: int)
    requires Greedy(done + [current], rows, gap) && current != [] && Meets(Built(current), next, gap)
    ensures Greedy(done + [current + [next]], rows + [next], gap)
  {
    var before, after := done + [current], done + [current + [next]];
    assert before[..|done|] == done && after[..|done|] == done;
    assert Grown(before[|done|], gap);
    forall k | 0 < k < |current + [next]|
      ensures Meets(Built((current + [next])[..k]), (current + [next])[k], gap)
    {
      assert (current + [next])[..k] == current[..k];
      assert current[..|current|] == current;
    }
    forall i | 0 <= i < |after|
      ensures Grown(after[i], gap)
    {
      assert i < |done| ==> after[i] == before[i];
    }
    forall i | 0 <= i < |after| - 1
      ensures Stops(after, i, gap)
    {
      assert Stops(before, i, gap);
    }
  }

  lemma GrowDatabase(db: Database, done: seq<seq<Row>>, current: seq<Row>, next: Row)
    requires current != []
    ensures Built(current + [next]) == Extend(Built(current), next)
    ensures var before := AbsorbAll(db, done + [current]);
      && AbsorbAll(db, done + [current + [next]]) ==
           MergePair(before, Built(current).id, next.id, Some(next.endedAt), Extend(Built(current), next).apps)
      && (AllAllowed(db, done + [current + [next]]) <==> AllAllowed(db, done + [current]) && PairAllowed(before, Built(current).id, next.id))
  {
    var before, after := done + [current], done + [current + [next]];
    assert before[..|done|] == done && after[..|done|] == done;
    assert (current + [next])[..|current|] == current;
    BuiltFirst(current);
  }

  lemma NextGroup(db: Database, done: seq<seq<Row>>, current: seq<Row>, next: Row, rows: seq<Row>, gap: int)
    requires Greedy(done + [current], rows, gap) && current != [] && !Meets(Built(current), next, gap)
    ensures Greedy(done + [current] + [[next]], rows + [next], gap)
    ensures AbsorbAll(db, done + [current] + [[next]]) == AbsorbAll(db, done + [current])
    ensures AllAllowed(db, done + [current] + [[next]]) <==> AllAllowed(db, done + [current])
  {
    var before, after := done + [current], done + [current] + [[next]];
    assert after[..|before|] == before;
    forall i | 0 <= i < |after|
      ensures Grown(after[i], gap)
    {
      assert i < |before| ==> after[i] == before[i];
    }
    forall i | 0 <= i < |after| - 1
      ensures Stops(after, i, gap)
    {
      assert i < |before| - 1 ==> Stops(before, i, gap);
    }
  }

  /** The first `p` rows are grouped and absorbed; the list holds their blocks so far and the other rows. */
  ghost predicate Progress(db0: Database, rows: seq<Row>, gap: int, db: Database, sessions: seq<Row>, index: nat,
                           done: seq<seq<Row>>, current: seq<Row>, p: nat)
  {
    && index == |done| < |sessions| && p <= |rows| && current != []
    && sessions[index] == Built(current) && sessions[index + 1..] == rows[p..]
    && Greedy(done + [current], rows[..p], gap)
    && db == AbsorbAll(db0, done + [current]) && AllAllowed(db0, done + [current])
  }

  lemma Started(db: Database, rows: seq<Row>, gap: int)
    requires rows != []
    ensures Progress(db, rows, gap, db, rows, 0, [], [rows[0]], 1)
  {
  }

  lemma Skipped(db0: Database, rows: seq<Row>, gap: int, db: Database, sessions: seq<Row>, index: nat,
                done: seq<seq<Row>>, current: seq<Row>, p: nat)
    requires Progress(db0, rows, gap, db, sessions, index, done, current, p) && index + 1 < |sessions|
    requires !Meets(sessions[index], sessions[index + 1], gap)
    ensures Progress(db0, rows, gap, db, sessions, index + 1, done + [current], [sessions[index + 1]], p + 1)
  {
    var right := sessions[index + 1];
    assert right == sessions[index + 1..][0] == rows[p];
    assert sessions[index + 2..] == sessions[index + 1..][1..] == rows[p..][1..] == rows[p + 1..];
    assert rows[..p + 1] == rows[..p] + [right];
    NextGroup(db0, done, current, right, rows[..p], gap);
  }

  lemma Absorbed(db0: Database, rows: seq<Row>, gap: int, db: Database, sessions: seq<Row>, index: nat,
                 done: seq<seq<Row>>, current: seq<Row>, p: nat)
    requires Progress(db0, rows, gap, db, sessions, index, done, current, p) && index + 1 < |sessions|
    requires Meets(sessions[index], sessions[index + 1], gap) && PairAllowed(db, sessions[index].id, sessions[index + 1].id)
    ensures var left, right := sessions[index], sessions[index + 1];
      Progress(db0, rows, gap,
               MergePair(db, left.id, right.id, Some(right.endedAt), Extend(left, right).apps),
               sessions[..index] + [Extend(left, right)] + sessions[index + 2..], index,
               done, current + [right], p + 1)
  {
    var right := sessions[index + 1];
    assert right == sessions[index + 1..][0] == rows[p];
    assert sessions[index + 2..] == sessions[index + 1..][1..] == rows[p..][1..] == rows[p + 1..];
    assert rows[..p + 1] == rows[..p] + [right];
    GrowGroup(db0, done, current, right, rows[..p], gap);
  }

  /** At a pair that is not allowed, the rows grouped so far show that the whole transaction is not. */
  lemma Violated(db0: Database, rows: seq<Row>, gap: int, db: Database, sessions: seq<Row>, index: nat,
                 done: seq<seq<Row>>, current: seq<Row>, p: nat)
    requires Progress(db0, rows, gap, db, sessions, index, done, current, p) && index + 1 < |sessions|
    requires Meets(sessions[index], sessions[index + 1], gap) && !PairAllowed(db, sessions[index].id, sessions[index + 1].id)
    ensures forall groups :: Greedy(groups, rows, gap) ==> !AllAllowed(db0, groups)
  {
    var right := sessions[index + 1];
    assert right == sessions[index + 1..][0] == rows[p];
    assert rows[..p + 1] == rows[..p] + [right];
    GrowGroup(db0, done, current, right, rows[..p], gap);
    forall groups | Greedy(groups, rows, gap) ensures !AllAllowed(db0, groups) {
      if AllAllowed(db0, groups) {
        var front := AllowedFront(db0, groups, rows, gap, p + 1);
        GreedyUnique(front, done + [current + [right]], rows[..p + 1], gap);
      }
    }
  }

  /** The partition of fewer rows, and all its pairs are allowed if those of the whole are. */
  lemma {:induction false} AllowedFront(db: Database, groups: seq<seq<Row>>, rows: seq<Row>, gap: int, n: nat) returns (front: seq<seq<Row>>)
    requires Greedy(groups, rows, gap) && AllAllowed(db, groups) && n <= |rows|
    ensures Greedy(front, rows[..n], gap) && AllAllowed(db, front)
    decreases |rows|
  {
    front := groups;
    if n == |rows| {
      assert rows[..n] == rows;
    } else {
      var fewer := WithoutLast(db, groups, rows, gap);
      front := AllowedFront(db, fewer, rows[..|rows| - 1], gap, n);
      assert rows[..|rows| - 1][..n] == rows[..n];
    }
  }

  lemma WithoutLast(db: Database, groups: seq<seq<Row>>, rows: seq<Row>, gap: int) returns (fewer: seq<seq<Row>>)
    requires Greedy(groups, rows, gap) && AllAllowed(db, groups) && rows != []
    ensures Greedy(fewer, rows[..|rows| - 1], gap) && AllAllowed(db, fewer)
  {
    var last := |groups| - 1;
    assert Grown(groups[last], gap);
    FlattenFewer(groups);
    if |groups[last]| == 1 {
      fewer := groups[..last];
      BeforeGreedy(groups, rows, gap);
    } else {
      fewer := groups[..last] + [groups[last][..|groups[last]| - 1]];
      FewerGreedy(groups, rows, gap);
      FewerAllowed(db, groups);
    }
  }

  lemma FlattenFewer(groups: seq<seq<Row>>)
    requires groups != [] && groups[|groups| - 1] != []
    ensures var rows, last := Flatten(groups), |groups| - 1;
      && rows != [] && Flatten(groups[..last] + [groups[last][..|groups[last]| - 1]]) == rows[..|rows| - 1]
      && (|groups[last]| == 1 ==> Flatten(groups[..last]) == rows[..|rows| - 1])
  {
    var last := |groups| - 1;
    assert (groups[..last] + [groups[last][..|groups[last]| - 1]])[..last] == groups[..last];
  }

  lemma FewerAllowed(db: Database, groups: seq<seq<Row>>)
    requires groups != [] && AllAllowed(db, groups) && |groups[|groups| - 1]| > 1
    ensures var last := |groups| - 1; AllAllowed(db, groups[..last] + [groups[last][..|groups[last]| - 1]])
  {
    var last := |groups| - 1;
    assert (groups[..last] + [groups[last][..|groups[last]| - 1]])[..last] == groups[..last];
  }

  lemma BeforeGreedy(groups: seq<seq<Row>>, rows: seq<Row>, gap: int)
    requires Greedy(groups, rows, gap) && groups != []
    ensures var before := groups[..|groups| - 1]; Greedy(before, Flatten(before), gap)
  {
    var before := groups[..|groups| - 1];
    forall i | 0 <= i < |before| ensures Grown(before[i], gap) {
      assert before[i] == groups[i];
    }
    forall i | 0 <= i < |before| - 1 ensures Stops(before, i, gap) {
      assert Stops(groups, i, gap);
    }
  }

  lemma FewerGreedy(groups: seq<seq<Row>>, rows: seq<Row>, gap: int)
    requires Greedy(groups, rows, gap) && groups != [] && |groups[|groups| - 1]| > 1
    ensures var group := groups[|groups| - 1];
      var fewer := groups[..|groups| - 1] + [group[..|group| - 1]];
      Greedy(fewer, Flatten(fewer), gap)
  {
    var last := |groups| - 1;
    var group := groups[last];
    var fewer := groups[..last] + [group[..|group| - 1]];
    FrontGrown(group, gap);
    forall i | 0 <= i < |fewer| ensures Grown(fewer[i], gap) {
      assert i < last ==> fewer[i] == groups[i];
    }
    forall i | 0 <= i < |fewer| - 1 ensures Stops(fewer, i, gap) {
      assert Stops(groups, i, gap);
      assert fewer[i] == groups[i] && fewer[i + 1][0] == groups[i + 1][0];
    }
  }

  lemma FrontGrown(group: seq<Row>, gap: int)
    requires Grown(group, gap) && |group| > 1
    ensures Grown(group[..|group| - 1], gap)
  {
    var front := group[..|group| - 1];
    forall k | 0 < k < |front| ensures Meets(Built(front[..k]), front[k], gap) {
      assert front[..k] == group[..k];
    }
  }

  /** What a merge leaves: the greedy partition absorbed, block by block. */
  ghost predicate IsMerge(db0: Database, rows: seq<Row>, gap: int, db: Database, merged: nat) {
    exists groups :: Greedy(groups, rows, gap) && AllAllowed(db0, groups) && db == AbsorbAll(db0, groups) && merged == |rows| - |groups|
  }

  lemma Finished(db0: Database, rows: seq<Row>, gap: int, db: Database, sessions: seq<Row>, index: nat,
                 done: seq<seq<Row>>, current: seq<Row>, p: nat, count: nat)
    requires Progress(db0, rows, gap, db, sessions, index, done, current, p) && index + 1 >= |sessions| && |sessions| + count == |rows|
    ensures IsMerge(db0, rows, gap, db, count)
  {
    assert rows[p..] == [] && rows[..p] == rows;
    assert Greedy(done + [current], rows, gap);
  }

  /**
   The loop over the selected rows: `sessions` loses an element with every merge, and its
   element at `index` is the block at hand. The rows were selected before the transaction
   began; if rows would have to be moved to a session that is gone by then, nothing is done.
   */
  method MergePendingAdjacent(db0: Database, rows: seq<Row>, gap: int)
    returns (db: Database, merged: Option<nat>)
    ensures merged.Some? ==> IsMerge(db0, rows, gap, db, merged.value)
    ensures merged.None? ==> db == db0 && forall groups :: Greedy(groups, rows, gap) ==> !AllAllowed(db0, groups)
  {
    if rows == [] {
      assert Greedy([], rows, gap);
      return db0, Some(0);
    }
    db := db0;
    var count: nat, sessions, index: nat := 0, rows, 0;
    ghost var done: seq<seq<Row>>, current, p := [], [rows[0]], 1;
    Started(db0, rows, gap);
    while index + 1 < |sessions|
      invariant Progress(db0, rows, gap, db, sessions, index, done, current, p)
      invariant |sessions| + count == |rows|
      decreases |sessions| - index
    {
      var left, right := sessions[index], sessions[index + 1];
      if !Meets(left, right, gap) {
        Skipped(db0, rows, gap, db, sessions, index, done, current, p);
        done, current, p := done + [current], [right], p + 1;
        index := index + 1;
      } else if !PairAllowed(db, left.id, right.id) {
        Violated(db0, rows, gap, db, sessions, index, done, current, p);
        return db0, None;
      } else {
        Absorbed(db0, rows, gap, db, sessions, index, done, current, p);
        current, p := current + [right], p + 1;
        var block := Extend(left, right);
        db := MergePair(db, left.id, right.id, Some(right.endedAt), block.apps);
        sessions := sessions[..index] + [block] + sessions[index + 2..];
        count := count + 1;
      }
    }
    Finished(db0, rows, gap, db, sessions, index, done, current, p, count);
    merged := Some(count);
  }

  // ---------------------------------------------------------------- only one greedy partition

  lemma {:induction false} FlattenFirst(groups: seq<seq<Row>>)
    requires groups != []
    ensures Flatten(groups) == groups[0] + Flatten(groups[1..])
    decreases groups
  {
    var last := |groups| - 1;
    if last > 0 {
      FlattenFirst(groups[..last]);
      assert groups[..last][1..] == groups[1..][..last - 1];
      assert groups[1..][last - 1] == groups[last];
    } else {
      assert groups[..0] == [] && groups[1..] == [];
    }
  }

  lemma GreedyRest(groups: seq<seq<Row>>, rows: seq<Row>, gap: int)
    requires Greedy(groups, rows, gap) && groups != []
    ensures groups[0] <= rows && Greedy(groups[1..], rows[|groups[0]|..], gap)
  {
    FlattenFirst(groups);
    forall i | 0 <= i < |groups| - 1
      ensures Grown(groups[1..][i], gap)
    {
      assert groups[1..][i] == groups[i + 1];
    }
    forall i | 0 <= i < |groups[1..]| - 1
      ensures Stops(groups[1..], i, gap)
    {
      assert Stops(groups, i + 1, gap);
    }
  }

  /** The row after the first group did not meet the rule against it. */
  lemma FirstStops(g: seq<seq<Row>>, rows: seq<Row>, gap: int)
    requires Greedy(g, rows, gap) && g != [] && |g[0]| < |rows|
    ensures g[0] != [] && g[0] == rows[..|g[0]|] && !Meets(Built(g[0]), rows[|g[0]|], gap)
  {
    GreedyRest(g, rows, gap);
    assert Grown(g[0], gap);
    if |g| > 1 {
      FlattenFirst(g[1..]);
      assert g[1..][0] == g[1] && Grown(g[1], gap) && rows[|g[0]|] == g[1][0];
      assert Stops(g, 0, gap);
    }
  }

  /** The first group of a greedy partition cannot be shorter than that of another. */
  lemma FirstNotShorter(g: seq<seq<Row>>, h: seq<seq<Row>>, rows: seq<Row>, gap: int)
    requires Greedy(g, rows, gap) && Greedy(h, rows, gap) && g != [] && h != []
    ensures |g[0]| >= |h[0]|
  {
    GreedyRest(g, rows, gap);
    GreedyRest(h, rows, gap);
    var k := |g[0]|;
    assert Grown(h[0], gap) && Grown(g[0], gap);
    if k < |h[0]| {
      assert h[0][..k] == g[0] && h[0][k] == rows[k];
      FirstStops(g, rows, gap);
    }
  }

  lemma SomeRows(g: seq<seq<Row>>, rows: seq<Row>, gap: int)
    requires Greedy(g, rows, gap) && g != []
    ensures rows != []
  {
  }

  /** The rule determines the partition. */
  lemma {:induction false} GreedyUnique(g: seq<seq<Row>>, h: seq<seq<Row>>, rows: seq<Row>, gap: int)
    requires Greedy(g, rows, gap) && Greedy(h, rows, gap)
    ensures g == h
    decreases g
  {
    if g == [] {
      if h != [] { SomeRows(h, rows, gap); }
    } else if h == [] {
      SomeRows(g, rows, gap);
    } else {
      FirstNotShorter(g, h, rows, gap);
      FirstNotShorter(h, g, rows, gap);
      GreedyRest(g, rows, gap);
      GreedyRest(h, rows, gap);
      assert g[0] == rows[..|g[0]|] == h[0];
      GreedyUnique(g[1..], h[1..], rows[|g[0]|..], gap);
      assert g == [g[0]] + g[1..] && h == [h[0]] + h[1..];
    }
  }

  // ---------------------------------------------------------------- nothing is lost

  /** The session a group's rows end up in. */
  function Home(group: seq<Row>, s: SessionId): SessionId {
    if exists i :: 0 < i < |group| && group[i].id == s then group[0].id else s
  }

  /** The session that the rows of `s` belong to after all groups are absorbed. */
  function Survivor(groups: seq<seq<Row>>, s: SessionId): SessionId
    decreases groups
  {
    if groups == [] then s else Home(groups[|groups| - 1], Survivor(groups[..|groups| - 1], s))
  }

  ghost predicate DistinctIds(rows: seq<Row>) {
    forall i, j :: 0 <= i < j < |rows| ==> rows[i].id != rows[j].id
  }

  /** The same events, snapshots and texts, each filed under its group's session. */
  ghost predicate Rehomed(db: Database, db': Database, group: seq<Row>) {
    && db'.events.Keys == db.events.Keys && db'.snapshots.Keys == db.snapshots.Keys && db'.frames.Keys == db.frames.Keys
    && (forall e :: e in db.events ==> db'.events[e] == db.events[e].(session := Home(group, db.events[e].session)))
    && (forall p :: p in db.snapshots ==> db'.snapshots[p] == db.snapshots[p].(session := Home(group, db.snapshots[p].session)))
    && (forall f :: f in db.frames ==> db'.frames[f] == db.frames[f].(session := Home(group, db.frames[f].session)))
  }

  ghost function Absorbees(group: seq<Row>): set<SessionId> {
    set i | 0 < i < |group| :: group[i].id
  }

  lemma HomeExtended(group: seq<Row>, next: Row, s: SessionId)
    requires group != [] && DistinctIds(group + [next])
    ensures Home(group + [next], s) == if Home(group, s) == next.id then group[0].id else Home(group, s)
  {
    var more := group + [next];
    assert more[|group|].id == next.id && more[0].id == group[0].id;
    forall i | 0 < i < |group|
      ensures more[i].id == group[i].id
    {
    }
  }

  lemma PairRehomes(db: Database, middle: Database, group: seq<Row>, next: Row, endedAt: Option<int>, apps: seq<string>)
    requires group != [] && DistinctIds(group + [next])
    requires Rehomed(db, middle, group) && PairAllowed(middle, group[0].id, next.id)
    ensures Rehomed(db, MergePair(middle, group[0].id, next.id, endedAt, apps), group + [next])
  {
    forall s: SessionId
      ensures Home(group + [next], s) == if Home(group, s) == next.id then group[0].id else Home(group, s)
    {
      HomeExtended(group, next, s);
    }
  }

  lemma PairKeys(db: Database, left: SessionId, right: SessionId, endedAt: Option<int>, apps: seq<string>)
    requires PairAllowed(db, left, right) && left != right
    ensures MergePair(db, left, right, endedAt, apps).sessions.Keys == db.sessions.Keys - {right}
  {
  }

  lemma AbsorbeesExtended(group: seq<Row>)
    requires |group| > 1 && DistinctIds(group)
    ensures Absorbees(group) == Absorbees(group[..|group| - 1]) + {group[|group| - 1].id}
    ensures group[0].id !in Absorbees(group)
  {
  }

  lemma {:induction false} GroupKeys(db: Database, group: seq<Row>)
    requires group != [] && DistinctIds(group) && GroupAllowed(db, group)
    ensures AbsorbGroup(db, group).sessions.Keys == db.sessions.Keys - Absorbees(group)
    ensures group[0].id in AbsorbGroup(db, group).sessions <==> group[0].id in db.sessions
    decreases group
  {
    if |group| > 1 {
      var last := |group| - 1;
      GroupKeys(db, group[..last]);
      PairKeys(AbsorbGroup(db, group[..last]), group[0].id, group[last].id, Some(group[last].endedAt), Built(group).apps);
      AbsorbeesExtended(group);
    }
  }

  lemma {:induction false} GroupRehomed(db: Database, group: seq<Row>)
    requires group != [] && DistinctIds(group) && GroupAllowed(db, group)
    ensures Rehomed(db, AbsorbGroup(db, group), group)
    decreases group
  {
    if |group| > 1 {
      var last := |group| - 1;
      var before, next := group[..last], group[last];
      GroupRehomed(db, before);
      assert group == before + [next];
      PairRehomes(db, AbsorbGroup(db, before), before, next, Some(next.endedAt), Built(group).apps);
    }
  }

  // ---------------------------------------------------------------- counts

  ghost function Total(sessions: map<SessionId, Session>): int
    decreases |sessions|
  {
    if sessions == map[] then 0
    else
      var s :| s in sessions;
      sessions[s].snapshotCount + Total(sessions - {s})
  }

  lemma {:induction false} TotalWithout(sessions: map<SessionId, Session>, s: SessionId)
    requires s in sessions
    ensures Total(sessions) == sessions[s].snapshotCount + Total(sessions - {s})
    decreases |sessions|
  {
    var t :| t in sessions && Total(sessions) == sessions[t].snapshotCount + Total(sessions - {t});
    if t != s {
      TotalWithout(sessions - {t}, s);
      TotalWithout(sessions - {s}, t);
      assert sessions - {t} - {s} == sessions - {s} - {t};
    }
  }

  lemma PairKeepsTotal(db: Database, left: SessionId, right: SessionId, endedAt: Option<int>, apps: seq<string>)
    requires left in db.sessions && left != right
    ensures Total(MergePair(db, left, right, endedAt, apps).sessions) == Total(db.sessions)
  {
    var after := MergePair(db, left, right, endedAt, apps).sessions;
    if right in db.sessions {
      TotalWithout(db.sessions, right);
    } else {
      assert db.sessions - {right} == db.sessions;
    }
    TotalWithout(db.sessions - {right}, left);
    TotalWithout(after, left);
    assert after - {left} == db.sessions - {right} - {left};
  }

  lemma {:induction false} GroupKeepsTotal(db: Database, group: seq<Row>)
    requires group != [] && DistinctIds(group) && GroupAllowed(db, group) && group[0].id in db.sessions
    ensures Total(AbsorbGroup(db, group).sessions) == Total(db.sessions)
    decreases group
  {
    if |group| > 1 {
      var last := |group| - 1;
      GroupKeepsTotal(db, group[..last]);
      GroupKeys(db, group[..last]);
      PairKeepsTotal(AbsorbGroup(db, group[..last]), group[0].id, group[last].id, Some(group[last].endedAt), Built(group).apps);
    }
  }

  /** The surviving row of a merged group: its start, its end, its applications, its event count, and no analysis. */
  lemma {:induction false} GroupRow(db: Database, group: seq<Row>)
    requires |group| > 1 && DistinctIds(group) && GroupAllowed(db, group) && group[0].id in db.sessions
    ensures group[0].id in AbsorbGroup(db, group).sessions
    ensures var db' := AbsorbGroup(db, group);
      var row := db'.sessions[group[0].id];
      && row.startedAt == db.sessions[group[0].id].startedAt
      && row.endedAt == Some(group[|group| - 1].endedAt) && row.apps == Built(group).apps && AppsOf(group, row.apps) && row.outcome == Pending
      && row.eventCount == |EventsOf(db', group[0].id)|
    decreases group
  {
    var last := |group| - 1;
    BlockApps(group);
    GroupKeys(db, group[..last]);
    if last > 1 {
      GroupRow(db, group[..last]);
    }
    var db' := AbsorbGroup(db, group);
    assert EventsOf(db', group[0].id).Keys == set e | e in db'.events && db'.events[e].session == group[0].id;
  }

  // ---------------------------------------------------------------- all groups

  ghost predicate Member(group: seq<Row>, s: SessionId) {
    exists i :: 0 <= i < |group| && group[i].id == s
  }

  /** A session and its events are the same in both states. */
  ghost predicate Alike(db: Database, db': Database, s: SessionId) {
    s in db.sessions && s in db'.sessions && db'.sessions[s] == db.sessions[s] && EventsOf(db', s).Keys == EventsOf(db, s).Keys
  }

  lemma PairElsewhere(db: Database, left: SessionId, right: SessionId, endedAt: Option<int>, apps: seq<string>, s: SessionId)
    requires PairAllowed(db, left, right) && s in db.sessions && s != left && s != right
    ensures Alike(db, MergePair(db, left, right, endedAt, apps), s)
  {
  }

  lemma AlikeOn(a: Database, b: Database, c: Database, s: SessionId)
    requires Alike(a, b, s) && Alike(b, c, s)
    ensures Alike(a, c, s)
  {
  }

  /** Absorbing a group leaves every other session and its events alone. */
  lemma {:induction false} GroupElsewhere(db: Database, group: seq<Row>, s: SessionId)
    requires group != [] && DistinctIds(group) && GroupAllowed(db, group) && !Member(group, s) && s in db.sessions
    ensures Alike(db, AbsorbGroup(db, group), s)
    decreases group
  {
    if |group| > 1 {
      var last := |group| - 1;
      var db' := AbsorbGroup(db, group[..last]);
      assert group[last].id != s && group[0].id != s;
      assert forall i :: 0 <= i < last ==> group[..last][i] == group[i];
      GroupElsewhere(db, group[..last], s);
      GroupKeys(db, group[..last]);
      PairElsewhere(db', group[0].id, group[last].id, Some(group[last].endedAt), Built(group).apps, s);
      AlikeOn(db, db', AbsorbGroup(db, group), s);
    }
  }

  /** What is true of one group once all of them are absorbed. */
  ghost predicate Settled(db: Database, db': Database, group: seq<Row>) {
    group != [] && group[0].id in db.sessions && group[0].id in db'.sessions &&
    var row := db'.sessions[group[0].id];
    if |group| == 1 then row == db.sessions[group[0].id]
    else
      && row.startedAt == db.sessions[group[0].id].startedAt
      && row.endedAt == Some(group[|group| - 1].endedAt) && row.apps == Built(group).apps && AppsOf(group, row.apps) && row.outcome == Pending
      && row.eventCount == |EventsOf(db', group[0].id)|
  }

  ghost function AllAbsorbees(groups: seq<seq<Row>>): set<SessionId>
    decreases groups
  {
    if groups == [] then {} else AllAbsorbees(groups[..|groups| - 1]) + Absorbees(groups[|groups| - 1])
  }

  ghost predicate RehomedAll(db: Database, db': Database, groups: seq<seq<Row>>) {
    && db'.events.Keys == db.events.Keys && db'.snapshots.Keys == db.snapshots.Keys && db'.frames.Keys == db.frames.Keys
    && (forall e :: e in db.events ==> db'.events[e] == db.events[e].(session := Survivor(groups, db.events[e].session)))
    && (forall p :: p in db.snapshots ==> db'.snapshots[p] == db.snapshots[p].(session := Survivor(groups, db.snapshots[p].session)))
    && (forall f :: f in db.frames ==> db'.frames[f] == db.frames[f].(session := Survivor(groups, db.frames[f].session)))
  }

  ghost predicate AllNonempty(groups: seq<seq<Row>>) {
    forall i :: 0 <= i < |groups| ==> groups[i] != []
  }

  lemma {:induction false} InFlatten(groups: seq<seq<Row>>, i: nat, j: nat) returns (k: nat)
    requires i < |groups| && j < |groups[i]|
    ensures k < |Flatten(groups)| && Flatten(groups)[k] == groups[i][j]
    ensures i == |groups| - 1 ==> k == |Flatten(groups[..|groups| - 1])| + j
    ensures i < |groups| - 1 ==> k < |Flatten(groups[..|groups| - 1])|
    decreases groups
  {
    var last := |groups| - 1;
    if i == last {
      k := |Flatten(groups[..last])| + j;
    } else {
      k := InFlatten(groups[..last], i, j);
    }
  }

  lemma {:induction false} NotAbsorbed(groups: seq<seq<Row>>, s: SessionId)
    requires s in AllAbsorbees(groups)
    ensures Member(Flatten(groups), s)
    decreases groups
  {
    var last := |groups| - 1;
    if s in Absorbees(groups[last]) {
      var j :| 0 < j < |groups[last]| && groups[last][j].id == s;
      var k := InFlatten(groups, last, j);
      assert Flatten(groups)[k].id == s;
    } else {
      NotAbsorbed(groups[..last], s);
      var k :| 0 <= k < |Flatten(groups[..last])| && Flatten(groups[..last])[k].id == s;
      assert Flatten(groups)[k].id == s;
    }
  }

  ghost predicate Apart(a: seq<Row>, b: seq<Row>) {
    forall i, j :: 0 <= i < |a| && 0 <= j < |b| ==> a[i].id != b[j].id
  }

  lemma DistinctParts(a: seq<Row>, b: seq<Row>)
    requires DistinctIds(a + b)
    ensures DistinctIds(a) && DistinctIds(b) && Apart(a, b)
  {
    var all := a + b;
    assert forall i :: 0 <= i < |a| ==> all[i] == a[i];
    forall i, j | 0 <= i < j < |b|
      ensures b[i].id != b[j].id
    {
      assert all[|a| + i].id != all[|a| + j].id;
    }
    forall i, j | 0 <= i < |a| && 0 <= j < |b|
      ensures a[i].id != b[j].id
    {
      assert all[i].id != all[|a| + j].id;
    }
  }

  lemma LastDistinct(groups: seq<seq<Row>>)
    requires groups != [] && DistinctIds(Flatten(groups))
    ensures DistinctIds(Flatten(groups[..|groups| - 1])) && DistinctIds(groups[|groups| - 1])
    ensures Apart(Flatten(groups[..|groups| - 1]), groups[|groups| - 1])
  {
    DistinctParts(Flatten(groups[..|groups| - 1]), groups[|groups| - 1]);
  }

  /** All groups can be absorbed, and their rows are different. */
  ghost predicate Absorbable(db: Database, groups: seq<seq<Row>>) {
    AllNonempty(groups) && DistinctIds(Flatten(groups)) && AllAllowed(db, groups)
  }

  /** The sessions that groups are merged into still exist. */
  ghost predicate Led(db: Database, groups: seq<seq<Row>>)
    requires AllNonempty(groups)
  {
    forall i :: 0 <= i < |groups| ==> groups[i][0].id in db.sessions
  }

  lemma {:induction false} AllKeys(db: Database, groups: seq<seq<Row>>)
    requires Absorbable(db, groups)
    ensures AbsorbAll(db, groups).sessions.Keys == db.sessions.Keys - AllAbsorbees(groups)
    decreases groups
  {
    if groups != [] {
      var before, group := groups[..|groups| - 1], groups[|groups| - 1];
      LastDistinct(groups);
      AllKeys(db, before);
      GroupKeys(AbsorbAll(db, before), group);
    }
  }

  /** The rows of a group are there after the groups before it, if they were at first. */
  lemma StillThere(db: Database, groups: seq<seq<Row>>, j: nat)
    requires groups != [] && Absorbable(db, groups) && j < |groups[|groups| - 1]|
    ensures var id := groups[|groups| - 1][j].id;
      id in AbsorbAll(db, groups[..|groups| - 1]).sessions <==> id in db.sessions
  {
    var before := groups[..|groups| - 1];
    LastDistinct(groups);
    AllKeys(db, before);
    if groups[|groups| - 1][j].id in AllAbsorbees(before) {
      NotAbsorbed(before, groups[|groups| - 1][j].id);
    }
  }

  lemma {:induction false} AllKeepTotal(db: Database, groups: seq<seq<Row>>)
    requires Absorbable(db, groups) && Led(db, groups)
    ensures Total(AbsorbAll(db, groups).sessions) == Total(db.sessions)
    decreases groups
  {
    if groups != [] {
      var before, group := groups[..|groups| - 1], groups[|groups| - 1];
      LastDistinct(groups);
      StillThere(db, groups, 0);
      AllKeepTotal(db, before);
      GroupKeepsTotal(AbsorbAll(db, before), group);
    }
  }

  lemma {:induction false} AllRehomed(db: Database, groups: seq<seq<Row>>)
    requires Absorbable(db, groups)
    ensures RehomedAll(db, AbsorbAll(db, groups), groups)
    decreases groups
  {
    if groups != [] {
      var before, group := groups[..|groups| - 1], groups[|groups| - 1];
      LastDistinct(groups);
      AllRehomed(db, before);
      GroupRehomed(AbsorbAll(db, before), group);
    }
  }

  lemma {:induction false} AllSettled(db: Database, groups: seq<seq<Row>>, i: nat)
    requires Absorbable(db, groups) && i < |groups| && groups[i][0].id in db.sessions
    ensures Settled(db, AbsorbAll(db, groups), groups[i])
    decreases groups
  {
    var before, group := groups[..|groups| - 1], groups[|groups| - 1];
    var middle := AbsorbAll(db, before);
    LastDistinct(groups);
    if i == |before| {
      StillThere(db, groups, 0);
      AllElsewhere(db, before, group[0].id);
      if |group| > 1 {
        GroupRow(middle, group);
      }
    } else {
      AllSettled(db, before, i);
      var k := InFlatten(before, i, 0);
      assert Flatten(before)[k].id == groups[i][0].id;
      GroupElsewhere(middle, group, groups[i][0].id);
      assert |EventsOf(middle, groups[i][0].id).Keys| == |EventsOf(middle, groups[i][0].id)|;
    }
  }

  /** Sessions outside the selected rows are untouched. */
  lemma {:induction false} AllElsewhere(db: Database, groups: seq<seq<Row>>, s: SessionId)
    requires Absorbable(db, groups) && s in db.sessions && !Member(Flatten(groups), s)
    ensures var db' := AbsorbAll(db, groups);
      s in db'.sessions && db'.sessions[s] == db.sessions[s]
    decreases groups
  {
    if groups != [] {
      var before, group := groups[..|groups| - 1], groups[|groups| - 1];
      LastDistinct(groups);
      assert forall i :: 0 <= i < |Flatten(before)| ==> Flatten(groups)[i] == Flatten(before)[i];
      assert forall j :: 0 <= j < |group| ==> Flatten(groups)[|Flatten(before)| + j] == group[j];
      AllElsewhere(db, before, s);
      GroupElsewhere(AbsorbAll(db, before), group, s);
    }
  }

  lemma {:induction false} SurvivorOutside(groups: seq<seq<Row>>, s: SessionId)
    requires AllNonempty(groups) && DistinctIds(Flatten(groups)) && !Member(Flatten(groups), s)
    ensures Survivor(groups, s) == s
    decreases groups
  {
    if groups != [] {
      var before, group := groups[..|groups| - 1], groups[|groups| - 1];
      LastDistinct(groups);
      assert forall i :: 0 <= i < |Flatten(before)| ==> Flatten(groups)[i] == Flatten(before)[i];
      assert forall j :: 0 <= j < |group| ==> Flatten(groups)[|Flatten(before)| + j] == group[j];
      SurvivorOutside(before, s);
    }
  }

  /** The rows of every session of a group end up in the group's first session. */
  lemma {:induction false} SurvivorFirst(groups: seq<seq<Row>>, i: nat, j: nat)
    requires AllNonempty(groups) && DistinctIds(Flatten(groups)) && i < |groups| && j < |groups[i]|
    ensures Survivor(groups, groups[i][j].id) == groups[i][0].id
    decreases groups
  {
    var before, group := groups[..|groups| - 1], groups[|groups| - 1];
    LastDistinct(groups);
    if i == |before| {
      SurvivorOutside(before, group[j].id);
      assert group[0].id == Home(group, group[j].id);
    } else {
      SurvivorFirst(before, i, j);
      var k := InFlatten(before, i, 0);
      assert Flatten(before)[k].id == groups[i][0].id;
    }
  }

  lemma {:induction false} AbsorbeeCount(groups: seq<seq<Row>>)
    requires AllNonempty(groups) && DistinctIds(Flatten(groups))
    ensures |AllAbsorbees(groups)| == |Flatten(groups)| - |groups|
    decreases groups
  {
    if groups != [] {
      var before, group := groups[..|groups| - 1], groups[|groups| - 1];
      LastDistinct(groups);
      AbsorbeeCount(before);
      GroupCount(group);
      forall s | s in AllAbsorbees(before)
        ensures s !in Absorbees(group)
      {
        NotAbsorbed(before, s);
      }
    }
  }

  lemma {:induction false} GroupCount(group: seq<Row>)
    requires group != [] && DistinctIds(group)
    ensures |Absorbees(group)| == |group| - 1
    decreases group
  {
    if |group| == 1 {
      assert Absorbees(group) == {};
    } else {
      AbsorbeesExtended(group);
      GroupCount(group[..|group| - 1]);
      assert group[|group| - 1].id !in Absorbees(group[..|group| - 1]);
    }
  }

  lemma GreedyNonempty(groups: seq<seq<Row>>, rows: seq<Row>, gap: int)
    requires Greedy(groups, rows, gap)
    ensures AllNonempty(groups)
  {
  }

  /** Taking a set of keys away removes as many as it has, exactly if all of them are there. */
  lemma RemovedCount(keys: set<SessionId>, gone: set<SessionId>)
    ensures |keys| - |keys - gone| == |gone| <==> gone <= keys
  {
    assert keys == (keys - gone) + (keys * gone);
    assert gone == (keys * gone) + (gone - keys);
    if gone <= keys {
      assert gone - keys == {};
    } else {
      assert gone - keys != {};
    }
  }

  /**
   The whole merge, whatever happened to the selected rows before it began: every event,
   snapshot and text is kept once, filed under its group's session; every group whose session
   exists has settled; if all of those exist the snapshot total is unchanged; and as many
   sessions are gone as the call reports exactly if every absorbed session still existed.
   */
  lemma MergeConserves(db: Database, rows: seq<Row>, gap: int, groups: seq<seq<Row>>)
    requires DistinctIds(rows) && Greedy(groups, rows, gap) && AllAllowed(db, groups)
    ensures var db' := AbsorbAll(db, groups);
      && AllNonempty(groups) && RehomedAll(db, db', groups)
      && (forall i :: 0 <= i < |groups| && groups[i][0].id in db.sessions ==> Settled(db, db', groups[i]))
      && (Led(db, groups) ==> Total(db'.sessions) == Total(db.sessions))
      && db'.sessions.Keys == db.sessions.Keys - AllAbsorbees(groups)
      && (|db.sessions.Keys| - |db'.sessions.Keys| == |rows| - |groups| <==> AllAbsorbees(groups) <= db.sessions.Keys)
  {
    var db' := AbsorbAll(db, groups);
    GreedyNonempty(groups, rows, gap);
    AllRehomed(db, groups);
    AllKeys(db, groups);
    AbsorbeeCount(groups);
    RemovedCount(db.sessions.Keys, AllAbsorbees(groups));
    if Led(db, groups) {
      AllKeepTotal(db, groups);
    }
    forall i | 0 <= i < |groups| && groups[i][0].id in db.sessions
      ensures Settled(db, db', groups[i])
    {
      AllSettled(db, groups, i);
    }
  }

  lemma {:induction false} GroupPermitted(db: Database, group: seq<Row>)
    requires group != [] && DistinctIds(group) && group[0].id in db.sessions
    ensures GroupAllowed(db, group)
    decreases group
  {
    if |group| > 1 {
      GroupPermitted(db, group[..|group| - 1]);
      GroupKeys(db, group[..|group| - 1]);
    }
  }

  /** As long as the sessions that groups are merged into exist, the merge is not refused. */
  lemma {:induction false} LedAllowed(db: Database, groups: seq<seq<Row>>)
    requires AllNonempty(groups) && DistinctIds(Flatten(groups)) && Led(db, groups)
    ensures AllAllowed(db, groups)
    decreases groups
  {
    if groups != [] {
      var before, group := groups[..|groups| - 1], groups[|groups| - 1];
      LastDistinct(groups);
      LedAllowed(db, before);
      AllKeys(db, before);
      if group[0].id in AllAbsorbees(before) {
        NotAbsorbed(before, group[0].id);
      }
      GroupPermitted(AbsorbAll(db, before), group);
    }
  }

  // ---------------------------------------------------------------- a second pass

  /** The rows a second pass would select: the blocks of the first one. */
  ghost function Blocks(groups: seq<seq<Row>>): (blocks: seq<Row>)
    requires AllNonempty(groups)
    ensures |blocks| == |groups|
  {
    seq(|groups|, i requires 0 <= i < |groups| => Built(groups[i]))
  }

  function Singles(rows: seq<Row>): (groups: seq<seq<Row>>)
    ensures |groups| == |rows|
  {
    seq(|rows|, i requires 0 <= i < |rows| => [rows[i]])
  }

  lemma {:induction false} FlattenSingles(rows: seq<Row>)
    ensures Flatten(Singles(rows)) == rows
    decreases rows
  {
    if rows != [] {
      var last := |rows| - 1;
      assert Singles(rows)[..last] == Singles(rows[..last]);
      FlattenSingles(rows[..last]);
    }
  }

  /** As many groups as rows means one row in every group. */
  lemma {:induction false} GroupsOfOne(groups: seq<seq<Row>>)
    requires AllNonempty(groups)
    ensures |Flatten(groups)| >= |groups|
    ensures |Flatten(groups)| == |groups| ==> groups == Singles(Flatten(groups))
    decreases groups
  {
    if groups != [] {
      var last := |groups| - 1;
      var before, group := groups[..last], groups[last];
      GroupsOfOne(before);
      if |Flatten(groups)| == |groups| {
        var flat := Flatten(groups);
        assert |group| == 1 && flat == Flatten(before) + group;
        forall i | 0 <= i < |groups| ensures groups[i] == Singles(flat)[i] {
          if i < last {
            assert groups[i] == before[i] == Singles(Flatten(before))[i] && flat[i] == Flatten(before)[i];
          } else {
            assert group == [group[0]] == [flat[last]];
          }
        }
      }
    }
  }

  /** Adjacent blocks may be merged by a second pass. */
  ghost predicate PairMeets(groups: seq<seq<Row>>, i: int, gap: int)
    requires AllNonempty(groups) && 0 <= i < |groups| - 1
  {
    Meets(Built(groups[i]), Built(groups[i + 1]), gap)
  }

  /**
   A second pass over the blocks of the first one merges nothing exactly if no block meets the
   rule against its left neighbour.
   */
  lemma SecondPassExactly(groups: seq<seq<Row>>, rows: seq<Row>, again: seq<seq<Row>>, gap: int)
    requires Greedy(groups, rows, gap) && AllNonempty(groups) && Greedy(again, Blocks(groups), gap)
    ensures |again| == |groups| <==> forall i :: 0 <= i < |groups| - 1 ==> !PairMeets(groups, i, gap)
  {
    var blocks := Blocks(groups);
    var singles := Singles(blocks);
    FlattenSingles(blocks);
    GreedyNonempty(again, blocks, gap);
    GroupsOfOne(again);
    if |again| == |groups| {
      forall i | 0 <= i < |groups| - 1 ensures !PairMeets(groups, i, gap) {
        assert Stops(again, i, gap);
        assert again[i] == [blocks[i]] && again[i + 1] == [blocks[i + 1]];
      }
    }
    if forall i :: 0 <= i < |groups| - 1 ==> !PairMeets(groups, i, gap) {
      forall i | 0 <= i < |singles| - 1 ensures Stops(singles, i, gap) {
        assert !PairMeets(groups, i, gap);
      }
      GreedyUnique(again, singles, blocks, gap);
    }
  }

  /**
   That happens exactly if the right block follows closely enough, its first session shares no
   application with the left block, and the sessions it absorbed brought one that it shares.
   */
  lemma PairMeetsExactly(groups: seq<seq<Row>>, rows: seq<Row>, i: nat, gap: int)
    requires Greedy(groups, rows, gap) && AllNonempty(groups) && i < |groups| - 1
    ensures var left, right := Built(groups[i]), groups[i + 1];
      PairMeets(groups, i, gap) <==>
        (0 <= right[0].startedAt - left.endedAt <= gap && !Overlap(left.apps, right[0].apps) && Overlap(left.apps, Built(right).apps))
  {
    assert Stops(groups, i, gap);
    BuiltFirst(groups[i + 1]);
  }

  /** One pass is not a fixed point: the middle session brings an application its left neighbour shares. */
  lemma SecondPassMerges()
    ensures var a, b, c := Row("a", 0, 1, ["x"]), Row("b", 2, 3, ["y"]), Row("c", 4, 5, ["y", "x"]);
      Greedy([[a], [b, c]], [a, b, c], 10) && Meets(Built([a]), Built([b, c]), 10)
  {
    var a, b, c := Row("a", 0, 1, ["x"]), Row("b", 2, 3, ["y"]), Row("c", 4, 5, ["y", "x"]);
    var groups := [[a], [b, c]];
    assert groups[..1] == [[a]] && groups[..1][..0] == [];
    assert Flatten(groups[..1]) == [] + [a];
    assert [b, c][..1] == [b];
    assert b.apps[0] in c.apps;
    assert Built([b, c]) == Extend(b, c);
    AddBoth("y", "x");
    assert a.apps[0] in ["y", "x"];
  }

  lemma AddBoth(y: string, x: string)
    requires x != y
    ensures AddApps([y], [y, x]) == [y, x]
  {
    assert [y, x][1..] == [x] && [x][1..] == [];
    assert AddApps([y], [x]) == AddApps([y, x], []);
  }
}
