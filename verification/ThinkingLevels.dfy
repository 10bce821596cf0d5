/**
 The six local levels of thinking, mapped to whatever values a model's provider knows, and the
 way back from such a map to the levels worth offering.
 */
module ThinkingLevels {
  import opened Wrappers
  import opened Texts

  const LEVELS := 6

  /** A level by its place in the canonical order. */
  type Level = l: int | 0 <= l < LEVELS

  function Name(l: Level): string {
    if l == 0 then "minimal" else if l == 1 then "low" else if l == 2 then "medium"
    else if l == 3 then "high" else if l == 4 then "xhigh" else "max"
  }

  /** What a map says of a level: nothing, that it is not supported, or the provider's value. */
  datatype Native = Absent | Null | Value(value: string)

  type Levels = s: seq<Native> | |s| == LEVELS witness [Absent, Absent, Absent, Absent, Absent, Absent]

  datatype LevelMap = LevelMap(off: Native, levels: Levels)

  /** Where level `l` falls among `n` values: the nearest place on an even grid. */
  function Position(l: Level, n: nat): (p: nat)
    requires n > 0
    ensures p < n && -2 <= 5 * p - l * (n - 1) <= 2
  {
    (2 * l * (n - 1) + 5) / 10
  }

  predicate Declares(m: LevelMap, v: string) {
    m.off == Value(v) || exists i :: 0 <= i < LEVELS && m.levels[i] == Value(v)
  }

  function Snapped(m: LevelMap): LevelMap {
    m.(levels := seq(LEVELS, i requires 0 <= i < LEVELS => if Declares(m, Name(i)) then Value(Name(i)) else m.levels[i]))
  }

  predicate Blank(v: string) {
    Trim(v) == ""
  }

  function NonBlank(values: seq<string>): seq<string> {
    if values == [] then []
    else NonBlank(values[..|values| - 1]) + if Blank(values[|values| - 1]) then [] else [values[|values| - 1]]
  }

  /** Without repetitions, in order of first occurrence. */
  function Distinct(values: seq<string>): seq<string> {
    if values == [] then []
    else
      var front := Distinct(values[..|values| - 1]);
      if values[|values| - 1] in front then front else front + [values[|values| - 1]]
  }

  function OffValue(supportsOff: bool): Native {
    if supportsOff then Value("none") else Absent
  }

  function Projected(natives: seq<string>, supportsOff: bool): LevelMap {
    var values := Distinct(NonBlank(natives));
    if values == [] then LevelMap(OffValue(supportsOff), seq(LEVELS, i => Absent))
    else Snapped(LevelMap(OffValue(supportsOff), seq(LEVELS, i requires 0 <= i < LEVELS => Value(values[Position(i, |values|)]))))
  }

  /** The values of a map that are not blank, by level. */
  function ValuesOf(levels: seq<Native>): (values: seq<string>)
    ensures forall i :: 0 <= i < |values| ==> !Blank(values[i])
  {
    if levels == [] then []
    else
      var last := levels[|levels| - 1];
      ValuesOf(levels[..|levels| - 1]) + if last.Value? && !Blank(last.value) then [last.value] else []
  }

  function Completed(source: LevelMap, supportsOff: bool): LevelMap {
    var m := Projected(ValuesOf(source.levels), supportsOff);
    LevelMap(if source.off.Absent? then m.off else source.off,
             seq(LEVELS, i requires 0 <= i < LEVELS => if source.levels[i].Absent? then m.levels[i] else source.levels[i]))
  }

  // ---------------------------------------------------------------- the operations

  method SnapCanonicalNatives(m: LevelMap) returns (r: LevelMap)
    ensures r == Snapped(m)
  {
    var levels := m.levels;
    for l := 0 to LEVELS
      invariant forall i :: 0 <= i < l ==> levels[i] == Snapped(m).levels[i]
      invariant forall i :: l <= i < LEVELS ==> levels[i] == m.levels[i]
    {
      if Declares(m, Name(l)) {
        levels := levels[l := Value(Name(l))];
      }
    }
    r := m.(levels := levels);
  }

  method ProjectThinkingLevelMap(natives: seq<string>, supportsOff: bool) returns (r: LevelMap)
    ensures r == Projected(natives, supportsOff)
  {
    var values := Distinct(NonBlank(natives));
    var levels := [Absent, Absent, Absent, Absent, Absent, Absent];
    if values == [] {
      return LevelMap(OffValue(supportsOff), levels);
    }
    for l := 0 to LEVELS
      invariant |levels| == LEVELS
      invariant forall i :: 0 <= i < l ==> levels[i] == Value(values[Position(i, |values|)])
    {
      levels := levels[l := Value(values[Position(l, |values|)])];
    }
    assert levels == seq(LEVELS, i requires 0 <= i < LEVELS => Value(values[Position(i, |values|)]));
    r := SnapCanonicalNatives(LevelMap(OffValue(supportsOff), levels));
  }

  method CompleteThinkingLevelMap(source: LevelMap, supportsOff: bool) returns (r: LevelMap)
    ensures r == Completed(source, supportsOff)
  {
    var m := ProjectThinkingLevelMap(ValuesOf(source.levels), supportsOff);
    var levels := m.levels;
    for l := 0 to LEVELS
      invariant forall i :: 0 <= i < l ==> levels[i] == Completed(source, supportsOff).levels[i]
      invariant forall i :: l <= i < LEVELS ==> levels[i] == m.levels[i]
    {
      if !source.levels[l].Absent? {
        levels := levels[l := source.levels[l]];
      }
    }
    assert levels == Completed(source, supportsOff).levels;
    r := LevelMap(if source.off.Absent? then m.off else source.off, levels);
  }

  /** Whether `l` has the value that is its own name. */
  predicate Eponymous(m: LevelMap, l: Level) {
    m.levels[l] == Value(Name(l))
  }

  /** Among the first `n` levels, the one kept for the value it has. */
  predicate Best(m: LevelMap, l: Level, n: int) {
    l < n && m.levels[l].Value? && (Eponymous(m, l) || forall k: Level :: k < n && m.levels[k] == m.levels[l] ==> l <= k && !Eponymous(m, k))
  }

  predicate Increasing(efforts: seq<Level>) {
    forall i, j :: 0 <= i < j < |efforts| ==> efforts[i] < efforts[j]
  }

  /** Exactly the levels a model is offered with, in canonical order. */
  ghost predicate Offered(m: LevelMap, efforts: seq<Level>) {
    Increasing(efforts) && forall l: Level :: l in efforts <==> Best(m, l, LEVELS)
  }

  /** The level kept for a value so far. */
  ghost predicate Tracked(m: LevelMap, representative: map<string, Level>, n: int) {
    && (forall l: Level :: l < n && m.levels[l].Value? ==> m.levels[l].value in representative)
    && (forall v :: v in representative ==> m.levels[representative[v]] == Value(v) && Best(m, representative[v], n))
  }

  lemma TrackedNext(m: LevelMap, representative: map<string, Level>, l: Level)
    requires Tracked(m, representative, l)
    ensures !m.levels[l].Value? ==> Tracked(m, representative, l + 1)
    ensures m.levels[l].Value? ==>
      var v := m.levels[l].value;
      Tracked(m, if v !in representative || (Name(l) == v && Name(representative[v]) != v) then representative[v := l] else representative, l + 1)
  {
  }

  /** The levels worth offering, in canonical order: one for every value of the map. */
  method DistinctReasoningEfforts(m: LevelMap) returns (efforts: seq<Level>)
    ensures Offered(m, efforts)
  {
    var representative: map<string, Level> := map[];
    for l := 0 to LEVELS
      invariant Tracked(m, representative, l)
    {
      TrackedNext(m, representative, l);
      if m.levels[l].Value? {
        var native := m.levels[l].value;
        if native !in representative || (Name(l) == native && Name(representative[native]) != native) {
          representative := representative[native := l];
        }
      }
    }
    efforts := Kept(m, representative);
  }

  method Kept(m: LevelMap, representative: map<string, Level>) returns (efforts: seq<Level>)
    requires Tracked(m, representative, LEVELS)
    ensures Offered(m, efforts)
  {
    efforts := [];
    for l := 0 to LEVELS
      invariant Increasing(efforts)
      invariant forall i :: 0 <= i < |efforts| ==> efforts[i] < l
      invariant forall k: Level :: k in efforts <==> k < l && Best(m, k, LEVELS)
    {
      KeptIs(m, representative, l);
      if m.levels[l].Value? && representative[m.levels[l].value] == l {
        efforts := efforts + [l];
      }
    }
  }

  lemma KeptIs(m: LevelMap, representative: map<string, Level>, l: Level)
    requires Tracked(m, representative, LEVELS)
    ensures Best(m, l, LEVELS) <==> m.levels[l].Value? && representative[m.levels[l].value] == l
  {
  }

  /** The first of the efforts with a given value. */
  function FirstWith(m: LevelMap, efforts: seq<Level>, v: string): (r: Option<Level>)
    ensures r.Some? ==> r.value in efforts && m.levels[r.value] == Value(v)
    ensures r.None? ==> forall e :: e in efforts ==> m.levels[e] != Value(v)
  {
    if efforts == [] then None
    else if m.levels[efforts[0]] == Value(v) then Some(efforts[0])
    else FirstWith(m, efforts[1..], v)
  }

  /** The values of the efforts, without repetitions. */
  function EffortValues(m: LevelMap, efforts: seq<Level>): seq<string> {
    if efforts == [] then []
    else
      var last := efforts[|efforts| - 1];
      var front := EffortValues(m, efforts[..|efforts| - 1]);
      if !m.levels[last].Value? || m.levels[last].value in front then front else front + [m.levels[last].value]
  }

  lemma {:induction false} InEffortValues(m: LevelMap, efforts: seq<Level>, v: string)
    ensures v in EffortValues(m, efforts) <==> exists e :: e in efforts && m.levels[e] == Value(v)
    decreases |efforts|
  {
    if efforts != [] {
      var front, last := efforts[..|efforts| - 1], efforts[|efforts| - 1];
      InEffortValues(m, front, v);
      assert efforts == front + [last];
      if exists e :: e in efforts && m.levels[e] == Value(v) {
        var e :| e in efforts && m.levels[e] == Value(v);
        assert e in front || e == last;
      }
    }
  }

  lemma NoEffortValues(m: LevelMap, efforts: seq<Level>)
    ensures EffortValues(m, efforts) == [] <==> forall e :: e in efforts ==> !m.levels[e].Value?
  {
    forall e | e in efforts && m.levels[e].Value? ensures EffortValues(m, efforts) != [] {
      InEffortValues(m, efforts, m.levels[e].value);
    }
    if EffortValues(m, efforts) != [] {
      InEffortValues(m, efforts, EffortValues(m, efforts)[0]);
    }
  }

  /** The effort a model is asked for when `level` is chosen; none if the caller has to fall back. */
  function ProjectThinkingSelection(m: LevelMap, efforts: seq<Level>, level: Level): (r: Option<Level>)
    ensures r.Some? ==> r.value in efforts
    ensures r == None <==> forall e :: e in efforts ==> if m.levels[level].Value? then m.levels[e] != m.levels[level] else !m.levels[e].Value?
    ensures r.Some? && m.levels[level].Value? ==> m.levels[r.value] == m.levels[level]
  {
    match m.levels[level]
    case Value(native) => FirstWith(m, efforts, native)
    case _ =>
      var values := EffortValues(m, efforts);
      NoEffortValues(m, efforts);
      if values == [] then None
      else
        InEffortValues(m, efforts, values[Position(level, |values|)]);
        FirstWith(m, efforts, values[Position(level, |values|)])
  }

  // ---------------------------------------------------------------- laws

  /** Every value of the map is that of exactly one effort that is offered. */
  lemma OneEffortPerValue(m: LevelMap, efforts: seq<Level>, l: Level)
    requires Offered(m, efforts) && m.levels[l].Value?
    ensures exists e :: e in efforts && m.levels[e] == m.levels[l]
    ensures forall d, e :: d in efforts && e in efforts && m.levels[d] == m.levels[e] ==> d == e
  {
  }

  /** Choosing a level that has a value gets an offered effort with the same value, and an offered level gets itself. */
  lemma SelectionKeepsValue(m: LevelMap, efforts: seq<Level>, level: Level)
    requires Offered(m, efforts) && m.levels[level].Value?
    ensures var r := ProjectThinkingSelection(m, efforts, level);
      r.Some? && r.value in efforts && m.levels[r.value] == m.levels[level] && (level in efforts ==> r == Some(level))
  {
    OneEffortPerValue(m, efforts, level);
  }

  /** `values` are those of the efforts, and all different. */
  ghost predicate ValuesAre(m: LevelMap, efforts: seq<Level>, values: seq<string>) {
    && |values| == |efforts|
    && (forall i :: 0 <= i < |efforts| ==> m.levels[efforts[i]] == Value(values[i]))
    && (forall i, j :: 0 <= i < j < |values| ==> values[i] != values[j])
  }

  function Plain(m: LevelMap, efforts: seq<Level>): seq<string>
    requires forall e :: e in efforts ==> m.levels[e].Value?
  {
    seq(|efforts|, i requires 0 <= i < |efforts| => m.levels[efforts[i]].value)
  }

  lemma OfferedDifferent(m: LevelMap, efforts: seq<Level>)
    requires Offered(m, efforts)
    ensures forall e :: e in efforts ==> m.levels[e].Value?
    ensures ValuesAre(m, efforts, Plain(m, efforts))
  {
    forall e | e in efforts ensures m.levels[e].Value? {
      assert Best(m, e, LEVELS);
    }
    forall i, j | 0 <= i < j < |efforts| ensures m.levels[efforts[i]] != m.levels[efforts[j]] {
      assert Best(m, efforts[i], LEVELS) && Best(m, efforts[j], LEVELS);
    }
  }

  lemma {:induction false} DifferentValues(m: LevelMap, efforts: seq<Level>, values: seq<string>)
    requires ValuesAre(m, efforts, values)
    ensures EffortValues(m, efforts) == values
    decreases |efforts|
  {
    if efforts != [] {
      var n := |efforts| - 1;
      DifferentValues(m, efforts[..n], values[..n]);
      assert values == values[..n] + [values[n]];
      assert values[n] !in values[..n];
    }
  }

  lemma FirstAt(m: LevelMap, efforts: seq<Level>, values: seq<string>, p: nat)
    requires ValuesAre(m, efforts, values) && p < |efforts|
    ensures FirstWith(m, efforts, values[p]) == Some(efforts[p])
  {
    var r := FirstWith(m, efforts, values[p]);
    assert efforts[p] in efforts;
    var i :| 0 <= i < |efforts| && r == Some(efforts[i]);
    assert values[i] == values[p];
  }

  /**
   Choosing a level that has no value, whether it is not mentioned or explicitly not supported,
   gets the effort at the level's place on the grid of all that are offered.
   */
  lemma SelectionByPosition(m: LevelMap, efforts: seq<Level>, level: Level)
    requires Offered(m, efforts) && !m.levels[level].Value?
    ensures ProjectThinkingSelection(m, efforts, level) == if efforts == [] then None else Some(efforts[Position(level, |efforts|)])
  {
    OfferedDifferent(m, efforts);
    DifferentValues(m, efforts, Plain(m, efforts));
    if efforts != [] {
      FirstAt(m, efforts, Plain(m, efforts), Position(level, |efforts|));
    }
  }

  lemma NullExample()
    ensures var m := LevelMap(Absent, [Absent, Value("low"), Absent, Null, Absent, Absent]);
      ProjectThinkingSelection(m, [1], 3) == Some(1)
  {
  }

  /** Snapping twice is snapping once. */
  lemma SnapIdempotent(m: LevelMap)
    ensures Snapped(Snapped(m)) == Snapped(m)
  {
  }

  lemma {:induction false} InDistinct(values: seq<string>, v: string)
    ensures v in Distinct(values) <==> v in values
    decreases values
  {
    if values != [] {
      InDistinct(values[..|values| - 1], v);
      assert values == values[..|values| - 1] + [values[|values| - 1]];
    }
  }

  /** The first place of a value. */
  ghost predicate FirstAtPlace(values: seq<string>, v: string, i: nat) {
    i < |values| && values[i] == v && forall k :: 0 <= k < i ==> values[k] != v
  }

  /** Some values are in the order of their first places. */
  ghost predicate InOrderOf(values: seq<string>, some: seq<string>) {
    forall i, j, m, n :: 0 <= i < j < |some| && FirstAtPlace(values, some[i], m) && FirstAtPlace(values, some[j], n) ==> m < n
  }

  /** Values without repetitions: all of them, each once, in the order of their first places. */
  lemma {:induction false} DistinctInOrder(values: seq<string>)
    ensures forall v :: v in Distinct(values) <==> v in values
    ensures forall i, j :: 0 <= i < j < |Distinct(values)| ==> Distinct(values)[i] != Distinct(values)[j]
    ensures InOrderOf(values, Distinct(values))
    decreases values
  {
    if values != [] {
      var front, last := values[..|values| - 1], values[|values| - 1];
      DistinctInOrder(front);
      assert values == front + [last];
      var d := Distinct(values);
      forall i, j, m, n | 0 <= i < j < |d| && FirstAtPlace(values, d[i], m) && FirstAtPlace(values, d[j], n) ensures m < n {
        if j < |Distinct(front)| {
          FirstInFront(front, last, d[j], n);
        }
        FirstInFront(front, last, d[i], m);
      }
    }
  }

  lemma FirstInFront(front: seq<string>, last: string, v: string, i: nat)
    requires v in front && FirstAtPlace(front + [last], v, i)
    ensures FirstAtPlace(front, v, i)
  {
    var k :| 0 <= k < |front| && front[k] == v;
    assert (front + [last])[k] == v;
    assert forall k :: 0 <= k < |front| ==> (front + [last])[k] == front[k];
  }

  /** A value that is not blank is first at the same time with and without the last one. */
  lemma FirstWithout(front: seq<string>, last: string, v: string, i: nat, m: nat)
    requires v in NonBlank(front) && FirstAtPlace(NonBlank(front + [last]), v, i) && FirstAtPlace(front + [last], v, m)
    ensures FirstAtPlace(NonBlank(front), v, i) && FirstAtPlace(front, v, m)
  {
    InNonBlank(front, v);
    FirstInFront(front, last, v, m);
    NonBlankSnoc(front, last);
    if Blank(last) {
      assert NonBlank(front + [last]) == NonBlank(front);
    } else {
      FirstInFront(NonBlank(front), last, v, i);
    }
  }

  lemma NonBlankSnoc(front: seq<string>, last: string)
    ensures NonBlank(front + [last]) == if Blank(last) then NonBlank(front) else NonBlank(front) + [last]
  {
    assert (front + [last])[..|front + [last]| - 1] == front;
  }

  /** Leaving out blank values keeps the order of the others. */
  lemma {:induction false} NonBlankOrder(values: seq<string>, v: string, i: nat, w: string, j: nat, m: nat, n: nat)
    requires FirstAtPlace(NonBlank(values), v, i) && FirstAtPlace(NonBlank(values), w, j) && i < j
    requires FirstAtPlace(values, v, m) && FirstAtPlace(values, w, n)
    ensures m < n
    decreases values
  {
    var front, last := values[..|values| - 1], values[|values| - 1];
    assert values == front + [last];
    NonBlankSnoc(front, last);
    assert v in NonBlank(front);
    FirstWithout(front, last, v, i, m);
    if w in NonBlank(front) {
      FirstWithout(front, last, w, j, n);
      NonBlankOrder(front, v, i, w, j, m, n);
    } else {
      InNonBlank(values, w);
      InNonBlank(front, w);
    }
  }

  lemma {:induction false} SomeFirst(values: seq<string>, v: string) returns (i: nat)
    requires v in values
    ensures FirstAtPlace(values, v, i)
    decreases values
  {
    var front, last := values[..|values| - 1], values[|values| - 1];
    assert values == front + [last];
    if v in front {
      i := SomeFirst(front, v);
    } else {
      i := |front|;
    }
  }

  /** The values a map is made of: those that are not blank, each once, in the order they are declared. */
  ghost predicate GridValues(natives: seq<string>, values: seq<string>) {
    && (forall v :: v in values <==> v in natives && Trim(v) != "")
    && (forall i, j :: 0 <= i < j < |values| ==> values[i] != values[j])
    && InOrderOf(natives, values)
  }

  lemma GridValuesAre(natives: seq<string>)
    ensures GridValues(natives, Distinct(NonBlank(natives)))
  {
    var some, values := NonBlank(natives), Distinct(NonBlank(natives));
    DistinctInOrder(some);
    forall v ensures v in values <==> v in natives && Trim(v) != "" {
      InNonBlank(natives, v);
    }
    forall i, j, m, n | 0 <= i < j < |values| && FirstAtPlace(natives, values[i], m) && FirstAtPlace(natives, values[j], n) ensures m < n {
      assert values[i] in some && values[j] in some;
      var k := SomeFirst(some, values[i]);
      var l := SomeFirst(some, values[j]);
      NonBlankOrder(natives, values[i], k, values[j], l, m, n);
    }
  }

  /** On an even grid of the `n` values, place `p` is the one nearest to the level. */
  predicate Nearest(l: Level, n: nat, p: nat) {
    p < n && -5 < 2 * (5 * p - l * (n - 1)) < 5
  }

  /**
   What a list of values is projected to: every level gets the value at its nearest place, unless
   its own name is the value of some level; then it gets that.
   */
  lemma ProjectedExactly(natives: seq<string>, supportsOff: bool) returns (values: seq<string>, places: seq<nat>)
    ensures GridValues(natives, values) && (values != [] ==> |places| == LEVELS)
    ensures values != [] ==> forall l: Level :: places[l] < |values| && Nearest(l, |values|, places[l])
    ensures var m := Projected(natives, supportsOff);
      && m.off == (if supportsOff then Value("none") else Absent)
      && forall l: Level :: m.levels[l] ==
           if values == [] then Absent
           else if exists k: Level :: values[places[k]] == Name(l) then Value(Name(l)) else Value(values[places[l]])
  {
    GridValuesAre(natives);
    values := Distinct(NonBlank(natives));
    places := [];
    if values != [] {
      places := seq(LEVELS, i requires 0 <= i < LEVELS => Position(i, |values|));
      forall l: Level
        ensures Projected(natives, supportsOff).levels[l] ==
          if exists k: Level :: values[places[k]] == Name(l) then Value(Name(l)) else Value(values[places[l]])
      {
        NamesOrdinary(l);
        PlacedValues(values, supportsOff, places, l);
      }
    }
  }

  lemma PlacedValues(values: seq<string>, supportsOff: bool, places: seq<nat>, l: Level)
    requires values != [] && |places| == LEVELS && Name(l) != "none"
    requires forall k: Level :: places[k] == Position(k, |values|)
    ensures Declares(Placed(values, supportsOff), Name(l)) <==> exists k: Level :: values[places[k]] == Name(l)
  {
    if k: Level :| values[places[k]] == Name(l) {
      assert Placed(values, supportsOff).levels[k] == Value(Name(l));
    }
    if Declares(Placed(values, supportsOff), Name(l)) {
      var i :| 0 <= i < LEVELS && Placed(values, supportsOff).levels[i] == Value(Name(l));
      assert values[places[i as Level]] == Name(l);
    }
  }

  lemma {:induction false} InNonBlank(values: seq<string>, v: string)
    ensures v in NonBlank(values) <==> v in values && !Blank(v)
    decreases values
  {
    if values != [] {
      InNonBlank(values[..|values| - 1], v);
      assert values == values[..|values| - 1] + [values[|values| - 1]];
    }
  }

  lemma {:induction false} DistinctSize(values: seq<string>)
    ensures |set v | v in Distinct(values)| == |Distinct(values)|
    decreases values
  {
    if values != [] {
      var front, last := Distinct(values[..|values| - 1]), values[|values| - 1];
      DistinctSize(values[..|values| - 1]);
      if last !in front {
        assert (set v | v in front + [last]) == (set v | v in front) + {last};
      }
    }
  }

  ghost predicate AllNames(values: seq<string>) {
    forall v :: v in values ==> exists l: Level :: v == Name(l)
  }

  lemma AtMostSix(values: seq<string>)
    requires AllNames(values)
    ensures |Distinct(values)| <= LEVELS
  {
    var names := {Name(0), Name(1), Name(2), Name(3), Name(4), Name(5)};
    var used := set v | v in Distinct(values);
    forall v | v in used ensures v in names {
      InDistinct(values, v);
      var l: Level :| v == Name(l);
    }
    assert names == used + (names - used);
    assert |names| <= LEVELS;
    DistinctSize(values);
  }

  /** With at most six values, every one of them is met by some level. */
  lemma PositionOnto(j: nat, n: nat) returns (l: Level)
    requires j < n <= LEVELS
    ensures Position(l, n) == j
  {
    l := if n == 1 then 0
         else if n == 2 then 5 * j
         else if n == 3 then (if j == 0 then 0 else 3 * j - 1)
         else if n == 4 then (if j == 3 then 5 else if j == 0 then 0 else 2 * j - 1)
         else if n == 5 then (if j < 3 then j else j + 1)
         else j;
  }

  function Placed(values: seq<string>, supportsOff: bool): LevelMap
    requires values != []
  {
    LevelMap(OffValue(supportsOff), seq(LEVELS, i requires 0 <= i < LEVELS => Value(values[Position(i, |values|)])))
  }

  lemma NamesOrdinary(l: Level)
    ensures !Blank(Name(l)) && Name(l) != "none"
  {
  }

  lemma PlacedDeclares(values: seq<string>, supportsOff: bool, l: Level)
    requires values != [] && |values| <= LEVELS
    ensures Declares(Placed(values, supportsOff), Name(l)) <==> Name(l) in values
  {
    NamesOrdinary(l);
    if Name(l) in values {
      var j :| 0 <= j < |values| && values[j] == Name(l);
      var i := PositionOnto(j, |values|);
      assert Placed(values, supportsOff).levels[i] == Value(Name(l));
    }
  }

  /** No name of a level is blank. */
  lemma NamesKept(declared: seq<string>)
    requires AllNames(declared)
    ensures forall v :: v in Distinct(NonBlank(declared)) <==> v in declared
    ensures AllNames(NonBlank(declared))
  {
    forall v ensures v in NonBlank(declared) <==> v in declared {
      InNonBlank(declared, v);
      if v in declared {
        var k: Level :| v == Name(k);
        NamesOrdinary(k);
      }
    }
    forall v ensures v in Distinct(NonBlank(declared)) <==> v in declared {
      InDistinct(NonBlank(declared), v);
    }
  }

  /** Projecting a set of levels keeps just these levels. */
  lemma ProjectionReadsBack(declared: seq<string>, supportsOff: bool, l: Level)
    requires AllNames(declared)
    ensures Best(Projected(declared, supportsOff), l, LEVELS) <==> Name(l) in declared
  {
    var values := Distinct(NonBlank(declared));
    NamesKept(declared);
    AtMostSix(NonBlank(declared));
    if values != [] {
      SnappedOffers(values, supportsOff, l);
    } else {
      assert Name(l) !in values;
    }
  }

  lemma SnappedOffers(values: seq<string>, supportsOff: bool, l: Level)
    requires values != [] && |values| <= LEVELS && AllNames(values)
    ensures Best(Snapped(Placed(values, supportsOff)), l, LEVELS) <==> Name(l) in values
  {
    var m := Snapped(Placed(values, supportsOff));
    PlacedDeclares(values, supportsOff, l);
    if Name(l) !in values {
      var v := values[Position(l, |values|)];
      assert m.levels[l] == Value(v) && v in values;
      var k: Level :| v == Name(k);
      PlacedDeclares(values, supportsOff, k);
      assert Eponymous(m, k) && !Eponymous(m, l);
    }
  }

  // ---------------------------------------------------------------- what a model is offered with

  /** The levels whose names are declared, in canonical order, below `n`. */
  function InOrder(declared: seq<string>, n: nat): (efforts: seq<Level>)
    requires n <= LEVELS
    ensures forall l: Level :: l in efforts <==> l < n && Name(l) in declared
  {
    if n == 0 then [] else InOrder(declared, n - 1) + if Name(n - 1) in declared then [n - 1 as Level] else []
  }

  lemma {:induction false} InOrderIncreasing(declared: seq<string>, n: nat)
    requires n <= LEVELS
    ensures Increasing(InOrder(declared, n))
  {
    if n > 0 {
      InOrderIncreasing(declared, n - 1);
      var front := InOrder(declared, n - 1);
      forall i | 0 <= i < |front| ensures front[i] < n - 1 {
        assert front[i] in front;
      }
    }
  }

  function Members(efforts: seq<Level>): set<Level> {
    set l | l in efforts
  }

  ghost predicate Greatest(l: Level, levels: set<Level>) {
    l in levels && forall k :: k in levels ==> k <= l
  }

  lemma IncreasingLast(a: seq<Level>)
    requires Increasing(a) && a != []
    ensures Greatest(a[|a| - 1], Members(a)) && Members(a[..|a| - 1]) == Members(a) - {a[|a| - 1]}
    ensures Increasing(a[..|a| - 1])
  {
    assert a == a[..|a| - 1] + [a[|a| - 1]];
  }

  lemma OneGreatest(k: Level, l: Level, levels: set<Level>)
    requires Greatest(k, levels) && Greatest(l, levels)
    ensures k == l
  {
  }

  lemma NoMembers(a: seq<Level>)
    ensures Members(a) == {} <==> a == []
  {
    if a != [] {
      assert a[0] in Members(a);
    }
  }

  /** A set of levels has only one increasing listing. */
  lemma {:induction false} IncreasingUnique(a: seq<Level>, b: seq<Level>)
    requires Increasing(a) && Increasing(b) && Members(a) == Members(b)
    ensures a == b
    decreases |a|
  {
    NoMembers(a);
    NoMembers(b);
    if a != [] {
      IncreasingLast(a);
      IncreasingLast(b);
      OneGreatest(a[|a| - 1], b[|b| - 1], Members(a));
      IncreasingUnique(a[..|a| - 1], b[..|b| - 1]);
      assert a == a[..|a| - 1] + [a[|a| - 1]] && b == b[..|b| - 1] + [b[|b| - 1]];
    }
  }

  lemma OfferedIs(m: LevelMap, declared: seq<string>, efforts: seq<Level>)
    requires Offered(m, efforts) && forall l: Level :: Best(m, l, LEVELS) <==> Name(l) in declared
    ensures efforts == InOrder(declared, LEVELS)
  {
    InOrderIncreasing(declared, LEVELS);
    assert Members(efforts) == Members(InOrder(declared, LEVELS));
    IncreasingUnique(efforts, InOrder(declared, LEVELS));
  }

  /** Levels that are declared are offered, and no others, in canonical order. */
  method EffortsOfDeclared(declared: seq<string>, supportsOff: bool) returns (efforts: seq<Level>)
    requires AllNames(declared)
    ensures efforts == InOrder(declared, LEVELS)
  {
    var m := ProjectThinkingLevelMap(declared, supportsOff);
    efforts := DistinctReasoningEfforts(m);
    forall l: Level ensures Best(m, l, LEVELS) <==> Name(l) in declared {
      ProjectionReadsBack(declared, supportsOff, l);
    }
    OfferedIs(m, declared, efforts);
  }

  /** The map of a model that declares levels without values of their own. */
  function Stated(declared: seq<string>, off: Native): LevelMap {
    LevelMap(off, seq(LEVELS, i requires 0 <= i < LEVELS => if Name(i) in declared then Value(Name(i)) else Absent))
  }

  lemma {:induction false} InValuesOf(levels: seq<Native>, v: string)
    ensures v in ValuesOf(levels) <==> !Blank(v) && Value(v) in levels
    decreases levels
  {
    if levels != [] {
      InValuesOf(levels[..|levels| - 1], v);
      assert levels == levels[..|levels| - 1] + [levels[|levels| - 1]];
    }
  }

  lemma ValuesStated(declared: seq<string>, off: Native, v: string)
    requires AllNames(declared)
    ensures v in ValuesOf(Stated(declared, off).levels) <==> v in declared
  {
    var levels := Stated(declared, off).levels;
    InValuesOf(levels, v);
    if v in declared {
      var l: Level :| v == Name(l);
      NamesOrdinary(l);
      assert levels[l] == Value(v);
    }
  }

  /** Filling in what is not stated is projecting what is. */
  lemma CompletedStated(declared: seq<string>, off: Native, supportsOff: bool, l: Level)
    requires AllNames(declared)
    ensures var values := ValuesOf(Stated(declared, off).levels);
      AllNames(values) && Completed(Stated(declared, off), supportsOff).levels[l] == Projected(values, supportsOff).levels[l]
  {
    var values := ValuesOf(Stated(declared, off).levels);
    forall v | v in values ensures exists k: Level :: v == Name(k) {
      ValuesStated(declared, off, v);
    }
    if Name(l) in declared {
      ValuesStated(declared, off, Name(l));
      ProjectionReadsBack(values, supportsOff, l);
      EponymousKept(values, supportsOff, l);
    }
  }

  lemma EponymousKept(values: seq<string>, supportsOff: bool, l: Level)
    requires AllNames(values) && Name(l) in values
    ensures Projected(values, supportsOff).levels[l] == Value(Name(l))
  {
    NamesKept(values);
    AtMostSix(NonBlank(values));
    PlacedDeclares(Distinct(NonBlank(values)), supportsOff, l);
  }

  /** Completed instead of projected, they are offered just the same. */
  method EffortsOfStated(declared: seq<string>, off: Native, supportsOff: bool) returns (efforts: seq<Level>)
    requires AllNames(declared)
    ensures efforts == InOrder(declared, LEVELS)
  {
    var source := Stated(declared, off);
    var m := CompleteThinkingLevelMap(source, supportsOff);
    efforts := DistinctReasoningEfforts(m);
    forall l: Level ensures Best(m, l, LEVELS) <==> Name(l) in declared {
      StatedReadsBack(declared, off, supportsOff, l);
    }
    OfferedIs(m, declared, efforts);
  }

  lemma StatedReadsBack(declared: seq<string>, off: Native, supportsOff: bool, l: Level)
    requires AllNames(declared)
    ensures Best(Completed(Stated(declared, off), supportsOff), l, LEVELS) <==> Name(l) in declared
  {
    var values := ValuesOf(Stated(declared, off).levels);
    forall k: Level ensures Completed(Stated(declared, off), supportsOff).levels[k] == Projected(values, supportsOff).levels[k] {
      CompletedStated(declared, off, supportsOff, k);
    }
    CompletedStated(declared, off, supportsOff, l);
    ValuesStated(declared, off, Name(l));
    ProjectionReadsBack(values, supportsOff, l);
  }

  /** Whatever values are declared, every level is mapped to one of them that is not blank, or none to anything. */
  lemma ProjectionDeclared(natives: seq<string>, supportsOff: bool, l: Level)
    ensures var m := Projected(natives, supportsOff);
      if NonBlank(natives) == [] then m.levels[l] == Absent
      else m.levels[l].Value? && m.levels[l].value in natives && !Blank(m.levels[l].value)
  {
    var values := Distinct(NonBlank(natives));
    if NonBlank(natives) != [] {
      InDistinct(NonBlank(natives), NonBlank(natives)[0]);
      assert values != [];
      var m := Projected(natives, supportsOff);
      NamesOrdinary(l);
      var v := m.levels[l].value;
      assert v in values by {
        if Declares(Placed(values, supportsOff), Name(l)) {
          assert v == Name(l);
        }
      }
      InDistinct(NonBlank(natives), v);
      InNonBlank(natives, v);
    }
  }

  /** Completing keeps whatever is stated, and completing again changes nothing. */
  lemma CompletionIdempotent(source: LevelMap, supportsOff: bool)
    ensures var m := Completed(source, supportsOff);
      && Completed(m, supportsOff) == m
      && (!source.off.Absent? ==> m.off == source.off)
      && forall l: Level :: !source.levels[l].Absent? ==> m.levels[l] == source.levels[l]
  {
    var m := Completed(source, supportsOff);
    if ValuesOf(source.levels) == [] {
      assert m.levels == source.levels;
    } else {
      forall l: Level ensures !m.levels[l].Absent? {
        ProjectionDeclared(ValuesOf(source.levels), supportsOff, l);
        InNonBlank(ValuesOf(source.levels), ValuesOf(source.levels)[0]);
      }
    }
    assert Completed(m, supportsOff).levels == m.levels;
  }

  lemma LevelNames()
    ensures Name(0) == "minimal" && Name(1) == "low" && Name(2) == "medium" && Name(3) == "high" && Name(4) == "xhigh" && Name(5) == "max"
  {
  }

  predicate HasValue(levels: seq<Native>, i: nat) {
    i < |levels| && levels[i].Value? && Trim(levels[i].value) != ""
  }

  /** `places` are those of the levels with values, in order, and `values` the values there. */
  ghost predicate ValuesAt(levels: seq<Native>, places: seq<nat>, values: seq<string>) {
    && |places| == |values| && (forall i, j :: 0 <= i < j < |places| ==> places[i] < places[j])
    && (forall i :: i in places <==> HasValue(levels, i))
    && (forall k :: 0 <= k < |places| ==> places[k] < |levels| && levels[places[k]] == Value(values[k]))
  }

  lemma ValuesOneMore(front: seq<Native>, last: Native, places: seq<nat>, values: seq<string>)
    requires ValuesAt(front, places, values)
    ensures if HasValue([last], 0) then ValuesAt(front + [last], places + [|front|], values + [last.value]) else ValuesAt(front + [last], places, values)
  {
    forall i ensures HasValue(front + [last], i) <==> HasValue(front, i) || (i == |front| && HasValue([last], 0)) {
    }
    forall k | 0 <= k < |places| ensures places[k] < |front| {
      assert places[k] in places;
    }
  }

  /** The values of a map are those that are not blank, in the order of their levels. */
  lemma {:induction false} ValuesListed(levels: seq<Native>) returns (places: seq<nat>)
    ensures ValuesAt(levels, places, ValuesOf(levels))
    decreases levels
  {
    places := [];
    if levels != [] {
      var front, last := levels[..|levels| - 1], levels[|levels| - 1];
      var before := ValuesListed(front);
      assert levels == front + [last];
      ValuesOneMore(front, last, before, ValuesOf(front));
      places := before + if HasValue([last], 0) then [|front|] else [];
    }
  }

  /** Completion keeps what is stated, also of switching off, and fills every gap with what its values are projected to. */
  lemma CompletedExactly(source: LevelMap, supportsOff: bool, l: Level)
    ensures var m := Completed(source, supportsOff);
      && m.off == (if source.off != Absent then source.off else if supportsOff then Value("none") else Absent)
      && m.levels[l] == (if source.levels[l] != Absent then source.levels[l] else Projected(ValuesOf(source.levels), supportsOff).levels[l])
  {
  }
}
