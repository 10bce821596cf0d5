/**
 Names of accessibility elements that survive from one observation to the next: an element
 keeps its name when it matches exactly one element of the previous observation and exactly
 one of the new one; every other element gets a number never used before.
 */
module StableElementRefs {
  import opened Wrappers
  import opened Decimal
  import opened RecentStates

  /** How elements are told apart: the platform's equality and a hash for it. */
  datatype Identity<!E> = Identity(hash: E -> int, equals: (E, E) -> bool)

  predicate Same<E>(id: Identity<E>, a: E, b: E) { id.equals(a, b) }

  function Hash<E>(id: Identity<E>, a: E): int { id.hash(a) }

  /** Equality is an equivalence and equal elements have equal hashes. */
  ghost predicate Lawful<E(!new)>(id: Identity<E>) {
    && (forall a :: Same(id, a, a))
    && (forall a, b :: Same(id, a, b) ==> Same(id, b, a))
    && (forall a, b, c :: Same(id, a, b) && Same(id, b, c) ==> Same(id, a, c))
    && (forall a, b :: Same(id, a, b) ==> Hash(id, a) == Hash(id, b))
  }

  datatype State<E> = State(entries: map<string, E>, namespace: string, next: nat)

  function RefName(namespace: string, n: nat): string {
    "e" + namespace + "-" + Numeral(n)
  }

  lemma RefNameInjective(namespace: string, m: nat, n: nat)
    requires RefName(namespace, m) == RefName(namespace, n)
    ensures m == n
  {
    var prefix := "e" + namespace + "-";
    assert RefName(namespace, m)[|prefix|..] == Numeral(m);
    assert RefName(namespace, n)[|prefix|..] == Numeral(n);
    NumeralInjective(m, n);
  }

  // ---------------------------------------------------------------- the direct pairwise scan

  ghost function OldMatches<E>(id: Identity<E>, entries: map<string, E>, element: E): set<string> {
    set r | r in entries && Same(id, entries[r], element)
  }

  /** The name an element keeps, if it keeps one. */
  ghost predicate Keeps<E>(id: Identity<E>, entries: map<string, E>, elements: map<string, E>, k: string, r: string)
    requires k in elements
  {
    OldMatches(id, entries, elements[k]) == {r} && OldMatches(id, elements, elements[k]) == {k}
  }

  datatype Naming<E> = Naming(names: map<string, string>, stable: map<string, E>, next: nat)

  ghost predicate KeepsSome<E>(id: Identity<E>, entries: map<string, E>, elements: map<string, E>, k: string)
    requires k in elements
  {
    exists r :: Keeps(id, entries, elements, k, r)
  }

  ghost function NameFor<E>(id: Identity<E>, previous: State<E>, elements: map<string, E>, k: string, next: nat): string
    requires k in elements
  {
    if KeepsSome(id, previous.entries, elements, k)
    then var r :| Keeps(id, previous.entries, elements, k, r); r
    else RefName(previous.namespace, next)
  }

  ghost function NameOne<E>(id: Identity<E>, previous: State<E>, elements: map<string, E>, n: Naming<E>, k: string): Naming<E>
    requires k in elements
  {
    var r := NameFor(id, previous, elements, k, n.next);
    Naming(n.names[k := r], n.stable[r := elements[k]],
           if KeepsSome(id, previous.entries, elements, k) then n.next else n.next + 1)
  }

  /** The names given to the elements listed in `order`, without any buckets. */
  ghost function Names<E>(id: Identity<E>, previous: State<E>, elements: map<string, E>, order: seq<string>): Naming<E>
    requires forall k :: k in order ==> k in elements
    decreases order
  {
    if order == [] then Naming(map[], map[], previous.next)
    else
      NameOne(id, previous, elements, Names(id, previous, elements, order[..|order| - 1]), order[|order| - 1])
  }

  ghost predicate Distinct<T>(s: seq<T>) {
    forall i, j :: 0 <= i < j < |s| ==> s[i] != s[j]
  }

  /** Every name in use is a number of the namespace below the counter. */
  ghost predicate Numbered<E>(s: State<E>) {
    forall r :: r in s.entries ==> exists n: nat :: n < s.next && r == RefName(s.namespace, n)
  }

  /** A name is either kept from the previous observation or newly numbered by this one. */
  ghost predicate Justified<E>(id: Identity<E>, previous: State<E>, elements: map<string, E>, next: nat, k: string, r: string)
    requires k in elements
  {
    if r in previous.entries then Keeps(id, previous.entries, elements, k, r)
    else exists n: nat :: previous.next <= n < next && r == RefName(previous.namespace, n)
  }

  /**
   Different elements have different names, the new table maps each name to its element, and
   every name is justified.
   */
  ghost predicate Sound<E>(id: Identity<E>, previous: State<E>, elements: map<string, E>, order: seq<string>, n: Naming<E>)
    requires forall k :: k in order ==> k in elements
  {
    && n.next >= previous.next
    && (forall k :: k in n.names <==> k in order)
    && (forall k :: k in n.names ==> n.names[k] in n.stable && n.stable[n.names[k]] == elements[k])
    && (forall r :: r in n.stable ==> exists k :: k in n.names && n.names[k] == r)
    && (forall j, k :: j in n.names && k in n.names && n.names[j] == n.names[k] ==> j == k)
    && (forall k :: k in n.names ==> Justified(id, previous, elements, n.next, k, n.names[k]))
  }

  lemma SoundExtended<E(!new)>(id: Identity<E>, previous: State<E>, elements: map<string, E>, order: seq<string>,
                               n: Naming<E>, k: string, r: string, next: nat)
    requires forall j :: j in order ==> j in elements
    requires Sound(id, previous, elements, order, n)
    requires k in elements && k !in order && r !in n.stable && next >= n.next
    requires Justified(id, previous, elements, next, k, r)
    ensures forall j :: j in order + [k] ==> j in elements
    ensures Sound(id, previous, elements, order + [k], Naming(n.names[k := r], n.stable[r := elements[k]], next))
  {
    var n' := Naming(n.names[k := r], n.stable[r := elements[k]], next);
    forall j | j in n.names
      ensures j in n'.names && n'.names[j] == n.names[j] && n.names[j] != r
    {
    }
    forall q | q in n'.stable
      ensures exists j :: j in n'.names && n'.names[j] == q
    {
      if q == r {
        assert n'.names[k] == q;
      } else {
        var j :| j in n.names && n.names[j] == q;
        assert n'.names[j] == q;
      }
    }
  }

  /** A name kept for one key is given to no other. */
  lemma KeptOnce<E(!new)>(id: Identity<E>, previous: State<E>, elements: map<string, E>, j: string, k: string, r: string, next: nat)
    requires Lawful(id) && j in elements && k in elements && r in previous.entries
    requires Justified(id, previous, elements, next, j, r) && Keeps(id, previous.entries, elements, k, r)
    ensures j == k
  {
    assert r in OldMatches(id, previous.entries, elements[j]) && r in OldMatches(id, previous.entries, elements[k]);
    assert j in OldMatches(id, elements, elements[k]);
  }

  lemma NameOneSound<E(!new)>(id: Identity<E>, previous: State<E>, elements: map<string, E>, order: seq<string>, n: Naming<E>, k: string)
    requires Lawful(id) && Numbered(previous) && k in elements && k !in order
    requires forall j :: j in order ==> j in elements
    requires Sound(id, previous, elements, order, n)
    ensures forall j :: j in order + [k] ==> j in elements
    ensures Sound(id, previous, elements, order + [k], NameOne(id, previous, elements, n, k))
  {
    var r := NameFor(id, previous, elements, k, n.next);
    if KeepsSome(id, previous.entries, elements, k) {
      assert r in OldMatches(id, previous.entries, elements[k]);
      forall q | q in n.stable
        ensures q != r
      {
        var j :| j in n.names && n.names[j] == q;
        if q == r {
          KeptOnce(id, previous, elements, j, k, r, n.next);
        }
      }
      SoundExtended(id, previous, elements, order, n, k, r, n.next);
    } else {
      NumberFresh(id, previous, elements, order, n);
      SoundExtended(id, previous, elements, order, n, k, r, n.next + 1);
    }
  }

  /** One assignment is sound, for any order in which the keys are visited. */
  lemma {:induction false} NamesSound<E(!new)>(id: Identity<E>, previous: State<E>, elements: map<string, E>, order: seq<string>)
    requires Lawful(id) && Numbered(previous) && Distinct(order)
    requires forall k :: k in order ==> k in elements
    ensures Sound(id, previous, elements, order, Names(id, previous, elements, order))
    decreases order
  {
    if order != [] {
      var k, rest := order[|order| - 1], order[..|order| - 1];
      NamesSound(id, previous, elements, rest);
      NameOneSound(id, previous, elements, rest, Names(id, previous, elements, rest), k);
      assert order == rest + [k];
    }
  }

  /** The next number is neither an old name nor one given so far. */
  lemma NumberFresh<E(!new)>(id: Identity<E>, previous: State<E>, elements: map<string, E>, order: seq<string>, n: Naming<E>)
    requires Numbered(previous) && forall j :: j in order ==> j in elements
    requires Sound(id, previous, elements, order, n)
    ensures RefName(previous.namespace, n.next) !in previous.entries
    ensures RefName(previous.namespace, n.next) !in n.stable
  {
    var r := RefName(previous.namespace, n.next);
    if r in previous.entries {
      var i: nat :| i < previous.next && r == RefName(previous.namespace, i);
      RefNameInjective(previous.namespace, i, n.next);
    }
    if r in n.stable {
      var k :| k in n.names && n.names[k] == r;
      var i: nat :| previous.next <= i < n.next && r == RefName(previous.namespace, i);
      RefNameInjective(previous.namespace, i, n.next);
    }
  }

  // ---------------------------------------------------------------- whole runs

  datatype Observation<E> = Observation(elements: map<string, E>, order: seq<string>)

  /** The keys of an observation, each listed once. */
  ghost predicate Listed<E>(o: Observation<E>) {
    Distinct(o.order) && forall k :: k in o.order <==> k in o.elements
  }

  ghost predicate AllListed<E>(run: seq<Observation<E>>) {
    forall i :: 0 <= i < |run| ==> Listed(run[i])
  }

  ghost function Observe<E>(id: Identity<E>, s: State<E>, o: Observation<E>): State<E>
    requires Listed(o)
  {
    var n := Names(id, s, o.elements, o.order);
    State(n.stable, s.namespace, n.next)
  }

  /** A name in use after an observation either names an equal element as before or is newly numbered. */
  lemma EntrySound<E(!new)>(id: Identity<E>, s: State<E>, o: Observation<E>, r: string)
    requires Lawful(id) && Numbered(s) && Listed(o) && r in Observe(id, s, o).entries
    ensures var s' := Observe(id, s, o);
      if r in s.entries then Same(id, s.entries[r], s'.entries[r])
      else exists n: nat :: s.next <= n < s'.next && r == RefName(s.namespace, n)
  {
    NamesSound(id, s, o.elements, o.order);
    var n := Names(id, s, o.elements, o.order);
    var k :| k in n.names && n.names[k] == r;
    assert Justified(id, s, o.elements, n.next, k, r);
    if r in s.entries {
      assert r in OldMatches(id, s.entries, o.elements[k]);
    }
  }

  /** What one observation may do to the names in use. */
  ghost predicate Successor<E>(id: Identity<E>, s: State<E>, s': State<E>) {
    && Numbered(s') && s'.namespace == s.namespace && s'.next >= s.next
    && forall r :: r in s'.entries ==> Continued(id, s, s', r)
  }

  ghost predicate Continued<E>(id: Identity<E>, s: State<E>, s': State<E>, r: string)
    requires r in s'.entries
  {
    if r in s.entries then Same(id, s.entries[r], s'.entries[r])
    else exists n: nat :: s.next <= n < s'.next && r == RefName(s.namespace, n)
  }

  lemma ObserveSucceeds<E(!new)>(id: Identity<E>, s: State<E>, o: Observation<E>)
    requires Lawful(id) && Numbered(s) && Listed(o)
    ensures Successor(id, s, Observe(id, s, o))
  {
    NamesSound(id, s, o.elements, o.order);
    var s' := Observe(id, s, o);
    forall r | r in s'.entries
      ensures Continued(id, s, s', r) && exists n: nat :: n < s'.next && r == RefName(s'.namespace, n)
    {
      EntrySound(id, s, o, r);
    }
  }

  /** The states before, between and after the observations of a run. */
  ghost function States<E>(id: Identity<E>, s: State<E>, run: seq<Observation<E>>): (states: seq<State<E>>)
    requires AllListed(run)
    ensures |states| == |run| + 1 && states[0] == s
    decreases run
  {
    if run == [] then [s] else [s] + States(id, Observe(id, s, run[0]), run[1..])
  }

  ghost predicate Trace<E>(id: Identity<E>, states: seq<State<E>>) {
    forall i :: 0 <= i < |states| ==> StepsAt(id, states, i)
  }

  ghost predicate StepsAt<E>(id: Identity<E>, states: seq<State<E>>, i: nat)
    requires i < |states|
  {
    Numbered(states[i]) && (i + 1 < |states| ==> Successor(id, states[i], states[i + 1]))
  }

  lemma {:induction false} RunTrace<E(!new)>(id: Identity<E>, s: State<E>, run: seq<Observation<E>>)
    requires Lawful(id) && Numbered(s) && AllListed(run)
    ensures Trace(id, States(id, s, run))
    decreases run
  {
    if run != [] {
      ObserveSucceeds(id, s, run[0]);
      RunTrace(id, Observe(id, s, run[0]), run[1..]);
      var states, rest := States(id, s, run), States(id, Observe(id, s, run[0]), run[1..]);
      forall i | 0 <= i < |states|
        ensures StepsAt(id, states, i)
      {
        assert i > 0 ==> StepsAt(id, rest, i - 1);
      }
    }
  }

  /** A name that is out of use is never given again. */
  lemma {:induction false} DroppedForGood<E(!new)>(id: Identity<E>, states: seq<State<E>>, i: nat, j: nat, n: nat)
    requires Trace(id, states) && i <= j < |states|
    requires n < states[i].next && RefName(states[i].namespace, n) !in states[i].entries
    ensures n < states[j].next && states[j].namespace == states[i].namespace
    ensures RefName(states[i].namespace, n) !in states[j].entries
    decreases j - i
  {
    if i < j {
      DroppedForGood(id, states, i, j - 1, n);
      var r := RefName(states[i].namespace, n);
      assert StepsAt(id, states, j - 1);
      if r in states[j].entries {
        assert Continued(id, states[j - 1], states[j], r);
        var m: nat :| states[j - 1].next <= m && r == RefName(states[j - 1].namespace, m);
        RefNameInjective(states[i].namespace, m, n);
      }
    }
  }

  lemma StillInUse<E(!new)>(id: Identity<E>, states: seq<State<E>>, i: nat, j: nat, r: string)
    requires Trace(id, states) && i < j < |states| && r in states[i].entries && r in states[j].entries
    ensures r in states[i + 1].entries && Same(id, states[i].entries[r], states[i + 1].entries[r])
  {
    assert StepsAt(id, states, i);
    var n: nat :| n < states[i].next && r == RefName(states[i].namespace, n);
    if r !in states[i + 1].entries {
      DroppedForGood(id, states, i + 1, j, n);
    }
    assert Continued(id, states[i], states[i + 1], r);
  }

  lemma {:induction false} StableAlongTrace<E(!new)>(id: Identity<E>, states: seq<State<E>>, i: nat, j: nat, r: string)
    requires Lawful(id) && Trace(id, states) && i <= j < |states|
    requires r in states[i].entries && r in states[j].entries
    ensures forall m :: i <= m <= j ==> r in states[m].entries
    ensures Same(id, states[i].entries[r], states[j].entries[r])
    decreases j - i
  {
    if i < j {
      StillInUse(id, states, i, j, r);
      StableAlongTrace(id, states, i + 1, j, r);
    }
  }

  /**
   A name seen after observation i and again after observation j > i was in use after every
   observation between, and names equal elements throughout.
   */
  lemma NamesStable<E(!new)>(id: Identity<E>, s: State<E>, run: seq<Observation<E>>, i: nat, j: nat, r: string)
    requires Lawful(id) && Numbered(s) && AllListed(run) && i <= j <= |run|
    requires var states := States(id, s, run); r in states[i].entries && r in states[j].entries
    ensures var states := States(id, s, run);
      && (forall m :: i <= m <= j ==> r in states[m].entries)
      && Same(id, states[i].entries[r], states[j].entries[r])
  {
    RunTrace(id, s, run);
    StableAlongTrace(id, States(id, s, run), i, j, r);
  }

  /** A name in use at one point of a run and out of use later never comes back. */
  lemma NamesNotReused<E(!new)>(id: Identity<E>, s: State<E>, run: seq<Observation<E>>, i: nat, m: nat, j: nat, r: string)
    requires Lawful(id) && Numbered(s) && AllListed(run) && i <= m <= j <= |run|
    requires var states := States(id, s, run); r in states[i].entries && r !in states[m].entries
    ensures r !in States(id, s, run)[j].entries
  {
    if r in States(id, s, run)[j].entries {
      NamesStable(id, s, run, i, j, r);
    }
  }

  /** Within one result, different elements have different names. */
  lemma NamesDistinct<E(!new)>(id: Identity<E>, s: State<E>, run: seq<Observation<E>>, i: nat, j: string, k: string)
    requires Lawful(id) && Numbered(s) && AllListed(run) && i < |run|
    requires j in run[i].elements && k in run[i].elements && j != k
    ensures Listed(run[i])
    ensures var n := Names(id, States(id, s, run)[i], run[i].elements, run[i].order);
      j in n.names && k in n.names && n.names[j] != n.names[k]
  {
    RunTrace(id, s, run);
    assert StepsAt(id, States(id, s, run), i);
    NamesSound(id, States(id, s, run)[i], run[i].elements, run[i].order);
  }

  /** An element keeps its name exactly when it has one match before and none beside itself now. */
  lemma KeptExactly<E(!new)>(id: Identity<E>, s: State<E>, o: Observation<E>, k: string, r: string)
    requires Lawful(id) && Numbered(s) && Listed(o) && k in o.elements && r in s.entries
    ensures var n := Names(id, s, o.elements, o.order);
      k in n.names && (n.names[k] == r <==> Keeps(id, s.entries, o.elements, k, r))
  {
    NamesSound(id, s, o.elements, o.order);
    var n := Names(id, s, o.elements, o.order);
    assert Justified(id, s, o.elements, n.next, k, n.names[k]);
    if Keeps(id, s.entries, o.elements, k, r) {
      NamedAsKept(id, s, o.elements, o.order, k, r);
    }
  }

  lemma {:induction false} NamedAsKept<E(!new)>(id: Identity<E>, s: State<E>, elements: map<string, E>, order: seq<string>, k: string, r: string)
    requires k in order && (forall j :: j in order ==> j in elements) && Keeps(id, s.entries, elements, k, r)
    ensures k in Names(id, s, elements, order).names && Names(id, s, elements, order).names[k] == r
    decreases order
  {
    var last := |order| - 1;
    if order[last] == k {
      var q := NameFor(id, s, elements, k, Names(id, s, elements, order[..last]).next);
      assert {q} == OldMatches(id, s.entries, elements[k]) == {r};
      assert q in {r};
    } else {
      assert k in order[..last];
      NamedAsKept(id, s, elements, order[..last], k, r);
    }
  }

  // ---------------------------------------------------------------- the bucketed implementation

  type Ref<E> = (string, E)

  function Matching<E>(items: seq<Ref<E>>, id: Identity<E>, element: E): seq<Ref<E>> {
    if items == [] then []
    else if Same(id, items[0].1, element) then [items[0]] + Matching(items[1..], id, element)
    else Matching(items[1..], id, element)
  }

  ghost function WithHash<E>(items: seq<Ref<E>>, id: Identity<E>, h: int): seq<Ref<E>> {
    if items == [] then []
    else
      var last := |items| - 1;
      WithHash(items[..last], id, h) + if Hash(id, items[last].1) == h then [items[last]] else []
  }

  lemma {:induction false} MatchingConcat<E>(a: seq<Ref<E>>, b: seq<Ref<E>>, id: Identity<E>, element: E)
    ensures Matching(a + b, id, element) == Matching(a, id, element) + Matching(b, id, element)
  {
    if a == [] {
      assert a + b == b;
    } else {
      assert (a + b)[1..] == a[1..] + b;
      MatchingConcat(a[1..], b, id, element);
    }
  }

  /** Looking through one bucket finds what a scan of everything finds. */
  lemma {:induction false} BucketScan<E(!new)>(items: seq<Ref<E>>, id: Identity<E>, element: E)
    requires Lawful(id)
    ensures Matching(WithHash(items, id, Hash(id, element)), id, element) == Matching(items, id, element)
  {
    if items != [] {
      var last := |items| - 1;
      var h := Hash(id, element);
      BucketScan(items[..last], id, element);
      assert items == items[..last] + [items[last]];
      MatchingConcat(items[..last], [items[last]], id, element);
      MatchingConcat(WithHash(items[..last], id, h), if Hash(id, items[last].1) == h then [items[last]] else [], id, element);
    }
  }

  /** A dictionary listed entry by entry, in any order. */
  ghost predicate Lists<E>(items: seq<Ref<E>>, m: map<string, E>) {
    && (forall i, j :: 0 <= i < j < |items| ==> items[i].0 != items[j].0)
    && (forall i :: 0 <= i < |items| ==> items[i].0 in m && m[items[i].0] == items[i].1)
    && (forall r :: r in m ==> exists i :: 0 <= i < |items| && items[i].0 == r)
  }

  lemma {:induction false} MatchingRefs<E>(items: seq<Ref<E>>, id: Identity<E>, element: E)
    requires forall i, j :: 0 <= i < j < |items| ==> items[i].0 != items[j].0
    ensures var found := Matching(items, id, element);
      && (forall i :: 0 <= i < |found| ==> found[i] in items && Same(id, found[i].1, element))
      && (forall x :: x in items && Same(id, x.1, element) ==> x in found)
      && (forall i, j :: 0 <= i < j < |found| ==> found[i].0 != found[j].0)
  {
    if items != [] {
      MatchingRefs(items[1..], id, element);
      assert items == [items[0]] + items[1..];
    }
  }

  function Refs<E>(found: seq<Ref<E>>): set<string> {
    set i | 0 <= i < |found| :: found[i].0
  }

  lemma {:induction false} RefCount<E>(found: seq<Ref<E>>)
    requires forall i, j :: 0 <= i < j < |found| ==> found[i].0 != found[j].0
    ensures |Refs(found)| == |found|
  {
    if found != [] {
      var last := |found| - 1;
      RefCount(found[..last]);
      assert Refs(found) == Refs(found[..last]) + {found[last].0};
    }
  }

  /** There is a single match exactly when the set of matches is a singleton. */
  lemma SingleMatch<E>(items: seq<Ref<E>>, m: map<string, E>, id: Identity<E>, element: E)
    requires Lists(items, m)
    ensures var found := Matching(items, id, element);
      && (|found| == 1 ==> OldMatches(id, m, element) == {found[0].0})
      && (forall r :: OldMatches(id, m, element) == {r} ==> |found| == 1 && found[0].0 == r)
  {
    var found := Matching(items, id, element);
    MatchingRefs(items, id, element);
    forall r | r in OldMatches(id, m, element)
      ensures r in Refs(found)
    {
      var i :| 0 <= i < |items| && items[i].0 == r;
      assert items[i] in found;
    }
    assert Refs(found) == OldMatches(id, m, element);
    RefCount(found);
    if |found| == 1 {
      assert found[0].0 in Refs(found);
    }
  }

  method List<E>(m: map<string, E>) returns (items: seq<Ref<E>>)
    ensures Lists(items, m)
  {
    items := [];
    var rest := m.Keys;
    while rest != {}
      invariant rest <= m.Keys
      invariant Lists(items, m - rest)
    {
      var r :| r in rest;
      ghost var before := items;
      items := items + [(r, m[r])];
      assert items[|items| - 1].0 == r;
      forall q | q in m - (rest - {r})
        ensures exists i :: 0 <= i < |items| && items[i].0 == q
      {
        if q != r {
          assert q in m - rest;
          var i :| 0 <= i < |before| && before[i].0 == q;
          assert items[i].0 == q;
        }
      }
      rest := rest - {r};
    }
    assert m - {} == m;
  }

  function InBucket<E>(buckets: map<int, seq<Ref<E>>>, h: int): seq<Ref<E>> {
    if h in buckets then buckets[h] else []
  }

  ghost predicate Bucketed<E>(buckets: map<int, seq<Ref<E>>>, items: seq<Ref<E>>, id: Identity<E>) {
    forall h :: InBucket(buckets, h) == WithHash(items, id, h)
  }

  method Bucket<E>(items: seq<Ref<E>>, id: Identity<E>) returns (buckets: map<int, seq<Ref<E>>>)
    ensures Bucketed(buckets, items, id)
  {
    buckets := map[];
    for i := 0 to |items|
      invariant Bucketed(buckets, items[..i], id)
    {
      var h := Hash(id, items[i].1);
      buckets := buckets[h := InBucket(buckets, h) + [items[i]]];
      assert items[..i + 1][..i] == items[..i];
    }
    assert items[..|items|] == items;
  }

  /** One name, from the matches found in the two buckets. */
  method AssignOne<E>(previous: State<E>, elements: map<string, E>, k: string, ghost id: Identity<E>,
                      oldMatches: seq<Ref<E>>, newMatches: seq<Ref<E>>, n: Naming<E>)
    returns (n': Naming<E>)
    requires k in elements
    requires |oldMatches| == 1 && |newMatches| == 1 <==> KeepsSome(id, previous.entries, elements, k)
    requires KeepsSome(id, previous.entries, elements, k) ==> Keeps(id, previous.entries, elements, k, oldMatches[0].0)
    ensures n' == NameOne(id, previous, elements, n, k)
  {
    var r;
    if |oldMatches| == 1 && |newMatches| == 1 {
      r := oldMatches[0].0;
      KeptUnique(id, previous, elements, k, r, n.next);
      n' := n;
    } else {
      r := RefName(previous.namespace, n.next);
      n' := n.(next := n.next + 1);
    }
    n' := n'.(names := n.names[k := r], stable := n.stable[r := elements[k]]);
  }

  lemma KeptUnique<E>(id: Identity<E>, previous: State<E>, elements: map<string, E>, k: string, r: string, next: nat)
    requires k in elements && Keeps(id, previous.entries, elements, k, r)
    ensures NameFor(id, previous, elements, k, next) == r
  {
  }

  /** The names of one observation, each found by looking into two buckets. */
  method AssignNames<E(!new)>(previous: State<E>, elements: map<string, E>, order: seq<string>, id: Identity<E>)
    returns (n: Naming<E>)
    requires Lawful(id) && forall k :: k in order ==> k in elements
    ensures n == Names(id, previous, elements, order)
  {
    var oldItems := List(previous.entries);
    var newItems := List(elements);
    var oldBuckets := Bucket(oldItems, id);
    var newBuckets := Bucket(newItems, id);
    n := Naming(map[], map[], previous.next);
    for i := 0 to |order|
      invariant n == Names(id, previous, elements, order[..i])
    {
      var element := elements[order[i]];
      var h := Hash(id, element);
      var oldMatches := Matching(InBucket(oldBuckets, h), id, element);
      var newMatches := Matching(InBucket(newBuckets, h), id, element);
      MatchesDecide(id, previous.entries, elements, order[i], oldItems, newItems, oldBuckets, newBuckets);
      NamesNext(id, previous, elements, order, i);
      n := AssignOne(previous, elements, order[i], id, oldMatches, newMatches, n);
    }
    assert order[..|order|] == order;
  }

  lemma NamesNext<E>(id: Identity<E>, previous: State<E>, elements: map<string, E>, order: seq<string>, i: nat)
    requires i < |order| && forall k :: k in order ==> k in elements
    ensures Names(id, previous, elements, order[..i + 1]) ==
      NameOne(id, previous, elements, Names(id, previous, elements, order[..i]), order[i])
  {
    assert order[..i + 1][..i] == order[..i];
  }

  /** The two bucket lookups decide the same as the pairwise scan. */
  lemma MatchesDecide<E(!new)>(id: Identity<E>, entries: map<string, E>, elements: map<string, E>, k: string,
                               oldItems: seq<Ref<E>>, newItems: seq<Ref<E>>,
                               oldBuckets: map<int, seq<Ref<E>>>, newBuckets: map<int, seq<Ref<E>>>)
    requires Lawful(id) && k in elements && Lists(oldItems, entries) && Lists(newItems, elements)
    requires Bucketed(oldBuckets, oldItems, id) && Bucketed(newBuckets, newItems, id)
    ensures var h := Hash(id, elements[k]);
      var before, now := Matching(InBucket(oldBuckets, h), id, elements[k]), Matching(InBucket(newBuckets, h), id, elements[k]);
      && (|before| == 1 && |now| == 1 <==> KeepsSome(id, entries, elements, k))
      && (KeepsSome(id, entries, elements, k) ==> Keeps(id, entries, elements, k, before[0].0))
  {
    var before, now := Matching(oldItems, id, elements[k]), Matching(newItems, id, elements[k]);
    BucketScan(oldItems, id, elements[k]);
    BucketScan(newItems, id, elements[k]);
    SingleMatch(oldItems, entries, id, elements[k]);
    SingleMatch(newItems, elements, id, elements[k]);
    assert k in OldMatches(id, elements, elements[k]);
    if |before| == 1 && |now| == 1 {
      assert Keeps(id, entries, elements, k, before[0].0);
    }
  }

  // ---------------------------------------------------------------- one call after another

  ghost predicate AllNumbered<E>(states: map<Key, Stamped<State<E>>>) {
    forall k :: k in states ==> Numbered(states[k].value)
  }

  /** What one call answers, and what it leaves behind. */
  ghost predicate Assigned<E(!new)>(states: map<Key, Stamped<State<E>>>, key: Key, o: Observation<E>, id: Identity<E>, limit: nat, time: real,
                                    uuid: string, names: map<string, string>, states': map<Key, Stamped<State<E>>>)
  {
    Listed(o) &&
    var previous := Found(states, key, time).GetOr(State(map[], uuid, 0));
    names == Names(id, previous, o.elements, o.order).names && Stores(states, key, limit, Stamped(Observe(id, previous, o), time), states')
  }

  /** Two observed elements are equal, and each is the only one of its observation that equals the later one. */
  ghost predicate OnlyMatch<E>(id: Identity<E>, first: map<string, E>, second: map<string, E>, j: string, k: string) {
    && j in first && k in second && Same(id, first[j], second[k])
    && (forall i :: i in first && Same(id, first[i], second[k]) ==> i == j)
    && (forall i :: i in second && Same(id, second[i], second[k]) ==> i == k)
  }

  /** Different elements have different names, and the table has the element of every name. */
  ghost predicate Carries<E>(elements: map<string, E>, names: map<string, string>, table: map<string, E>) {
    && names.Keys == elements.Keys
    && (forall i :: i in names ==> names[i] in table && table[names[i]] == elements[i])
    && (forall r :: r in table ==> exists i :: i in names && names[i] == r)
    && (forall i, j :: i in names && j in names && names[i] == names[j] ==> i == j)
  }

  lemma NamesCarry<E(!new)>(id: Identity<E>, previous: State<E>, o: Observation<E>)
    requires Lawful(id) && Numbered(previous) && Listed(o)
    ensures var n := Names(id, previous, o.elements, o.order); Carries(o.elements, n.names, n.stable)
  {
    NamesSound(id, previous, o.elements, o.order);
  }

  lemma OnlyMatchKept<E>(id: Identity<E>, first: map<string, E>, names: map<string, string>, table: map<string, E>, second: map<string, E>, j: string, k: string)
    requires Carries(first, names, table) && j in first && k in second && Same(id, second[k], second[k])
    ensures Keeps(id, table, second, k, names[j]) <==> OnlyMatch(id, first, second, j, k)
  {
    var before, now := OldMatches(id, table, second[k]), OldMatches(id, second, second[k]);
    assert k in now;
    assert names[j] in names.Values;
    if OnlyMatch(id, first, second, j, k) {
      forall r | r in before ensures r == names[j] {
        var i :| i in names && names[i] == r;
      }
      assert before == {names[j]} && now == {k};
    }
    if Keeps(id, table, second, k, names[j]) {
      assert names[j] in before;
      forall i | i in first && Same(id, first[i], second[k]) ensures i == j {
        assert names[i] in before;
      }
      forall i | i in second && Same(id, second[i], second[k]) ensures i == k {
        assert i in now;
      }
    }
  }

  /** A name with one of `count` numbers of a namespace, from `low` on. */
  ghost predicate NumberedFrom(namespace: string, low: nat, count: nat, name: string) {
    exists n: nat :: low <= n < low + count && name == "e" + namespace + "-" + Numeral(n)
  }

  /** Elements keep the names of their only matches; the others get numbers not used before. */
  ghost predicate Continues<E>(id: Identity<E>, first: map<string, E>, second: map<string, E>, names1: map<string, string>,
                               names2: map<string, string>, namespace: string, next: nat)
  {
    && names1.Keys == first.Keys && names2.Keys == second.Keys
    && (forall j, k :: j in first && k in second ==> (names2[k] == names1[j] <==> OnlyMatch(id, first, second, j, k)))
    && (forall k :: k in second && (forall j :: j in first ==> !OnlyMatch(id, first, second, j, k)) ==>
          NumberedFrom(namespace, next, |second|, names2[k]))
  }

  /** A new start: the elements are numbered in a new namespace. */
  ghost predicate StartsNew<E>(second: map<string, E>, names2: map<string, string>, namespace: string) {
    names2.Keys == second.Keys && forall k :: k in second ==> NumberedFrom(namespace, 0, |second|, names2[k])
  }

  lemma {:induction false} NamesCount<E(!new)>(id: Identity<E>, previous: State<E>, elements: map<string, E>, order: seq<string>)
    requires forall k :: k in order ==> k in elements
    ensures Names(id, previous, elements, order).next <= previous.next + |order|
    decreases order
  {
    if order != [] {
      NamesCount(id, previous, elements, order[..|order| - 1]);
    }
  }

  lemma {:induction false} DistinctCount(order: seq<string>)
    requires Distinct(order)
    ensures |set k | k in order| == |order|
    decreases order
  {
    if order != [] {
      var front, last := order[..|order| - 1], order[|order| - 1];
      DistinctCount(front);
      assert (set k | k in order) == (set k | k in front) + {last};
    }
  }

  lemma NewNumber<E(!new)>(id: Identity<E>, previous: State<E>, elements: map<string, E>, next: nat, count: nat, k: string, r: string)
    requires k in elements && Justified(id, previous, elements, next, k, r) && r !in previous.entries && next <= previous.next + count
    ensures NumberedFrom(previous.namespace, previous.next, count, r)
  {
    var m: nat :| previous.next <= m < next && r == RefName(previous.namespace, m);
    assert r == "e" + previous.namespace + "-" + Numeral(m);
  }

  lemma OrderCount<E>(o: Observation<E>)
    requires Listed(o)
    ensures |o.order| == |o.elements|
  {
    DistinctCount(o.order);
    assert (set k | k in o.order) == o.elements.Keys;
  }

  /** The names of one observation: their keys, and the numbers of those that are new. */
  lemma NewNumbers<E(!new)>(id: Identity<E>, previous: State<E>, o: Observation<E>)
    requires Lawful(id) && Numbered(previous) && Listed(o)
    ensures var names := Names(id, previous, o.elements, o.order).names;
      && names.Keys == o.elements.Keys
      && forall k :: k in names && names[k] !in previous.entries ==> NumberedFrom(previous.namespace, previous.next, |o.elements|, names[k])
  {
    var n := Names(id, previous, o.elements, o.order);
    NamesCarry(id, previous, o);
    NamesCount(id, previous, o.elements, o.order);
    OrderCount(o);
    forall k | k in n.names && n.names[k] !in previous.entries
      ensures NumberedFrom(previous.namespace, previous.next, |o.elements|, n.names[k])
    {
      NameJustified(id, previous, o, k);
      NewNumber(id, previous, o.elements, n.next, |o.elements|, k, n.names[k]);
    }
  }

  lemma NameJustified<E(!new)>(id: Identity<E>, previous: State<E>, o: Observation<E>, k: string)
    requires Lawful(id) && Numbered(previous) && Listed(o) && k in o.elements
    ensures var n := Names(id, previous, o.elements, o.order); k in n.names && Justified(id, previous, o.elements, n.next, k, n.names[k])
  {
    NamesSound(id, previous, o.elements, o.order);
  }

  lemma NamesContinue<E(!new)>(id: Identity<E>, previous: State<E>, first: Observation<E>, second: Observation<E>)
    requires Lawful(id) && Numbered(previous) && Listed(first) && Listed(second)
    ensures var s := Observe(id, previous, first);
      Continues(id, first.elements, second.elements, Names(id, previous, first.elements, first.order).names,
                Names(id, s, second.elements, second.order).names, s.namespace, s.next)
  {
    var s := Observe(id, previous, first);
    var n, names2 := Names(id, previous, first.elements, first.order), Names(id, s, second.elements, second.order).names;
    ObserveSucceeds(id, previous, first);
    NamesCarry(id, previous, first);
    NewNumbers(id, s, second);
    forall j, k | j in first.elements && k in second.elements
      ensures names2[k] == n.names[j] <==> OnlyMatch(id, first.elements, second.elements, j, k)
    {
      NameContinues(id, previous, first, second, j, k);
    }
    forall k | k in second.elements && names2[k] in s.entries
      ensures exists j :: j in first.elements && OnlyMatch(id, first.elements, second.elements, j, k)
    {
      var j :| j in n.names && n.names[j] == names2[k];
      NameContinues(id, previous, first, second, j, k);
    }
  }

  lemma NameContinues<E(!new)>(id: Identity<E>, previous: State<E>, first: Observation<E>, second: Observation<E>, j: string, k: string)
    requires Lawful(id) && Numbered(previous) && Listed(first) && Listed(second) && j in first.elements && k in second.elements
    ensures var s := Observe(id, previous, first);
      var names1, names2 := Names(id, previous, first.elements, first.order).names, Names(id, s, second.elements, second.order).names;
      j in names1 && k in names2 && (names2[k] == names1[j] <==> OnlyMatch(id, first.elements, second.elements, j, k))
  {
    var s, n := Observe(id, previous, first), Names(id, previous, first.elements, first.order);
    ObserveSucceeds(id, previous, first);
    NamesCarry(id, previous, first);
    OnlyMatchKept(id, first.elements, n.names, n.stable, second.elements, j, k);
    KeptExactly(id, s, second, k, n.names[j]);
  }

  /** The call found a state with numbered names, or starts with none. */
  lemma FoundNumbered<E(!new)>(states: map<Key, Stamped<State<E>>>, key: Key, time: real, uuid: string)
    requires AllNumbered(states)
    ensures Numbered(Found(states, key, time).GetOr(State(map[], uuid, 0)))
  {
  }

  lemma StoresAt<V(!new)>(states: map<Key, Stamped<V>>, key: Key, limit: nat, s: Stamped<V>, states': map<Key, Stamped<V>>)
    requires Stores(states, key, limit, s, states')
    ensures key in states' && states'[key] == s
    ensures forall k :: k in states' && k != key ==> k in states && states'[k] == states[k]
  {
  }

  lemma AssignedNumbered<E(!new)>(states: map<Key, Stamped<State<E>>>, key: Key, o: Observation<E>, id: Identity<E>, limit: nat, time: real,
                                  uuid: string, names: map<string, string>, states': map<Key, Stamped<State<E>>>)
    requires Lawful(id) && AllNumbered(states) && Assigned(states, key, o, id, limit, time, uuid, names, states')
    ensures AllNumbered(states')
  {
    var previous := Found(states, key, time).GetOr(State(map[], uuid, 0));
    FoundNumbered(states, key, time, uuid);
    ObserveSucceeds(id, previous, o);
    StoresAt(states, key, limit, Stamped(Observe(id, previous, o), time), states');
  }

  /** How many of the listed elements keep no name. */
  ghost function NewAmong<E>(id: Identity<E>, entries: map<string, E>, elements: map<string, E>, order: seq<string>): nat
    requires forall k :: k in order ==> k in elements
    decreases order
  {
    if order == [] then 0
    else
      var last := |order| - 1;
      NewAmong(id, entries, elements, order[..last]) + if KeepsSome(id, entries, elements, order[last]) then 0 else 1
  }

  lemma {:induction false} NextCounts<E>(id: Identity<E>, previous: State<E>, elements: map<string, E>, order: seq<string>)
    requires forall k :: k in order ==> k in elements
    ensures Names(id, previous, elements, order).next == previous.next + NewAmong(id, previous.entries, elements, order)
    decreases order
  {
    if order != [] {
      NextCounts(id, previous, elements, order[..|order| - 1]);
    }
  }

  /** The element has a name, and one with number `n` of this observation unless it keeps an old one. */
  ghost predicate HasNumber<E>(id: Identity<E>, previous: State<E>, elements: map<string, E>, names: map<string, string>, k: string, n: nat)
    requires k in elements
  {
    k in names && (!KeepsSome(id, previous.entries, elements, k) ==> names[k] == RefName(previous.namespace, previous.next + n))
  }

  /** The last element gets the number that comes next. */
  lemma LastNumbered<E>(id: Identity<E>, previous: State<E>, elements: map<string, E>, order: seq<string>)
    requires (forall k :: k in order ==> k in elements) && order != []
    ensures HasNumber(id, previous, elements, Names(id, previous, elements, order).names, order[|order| - 1],
                      NewAmong(id, previous.entries, elements, order[..|order| - 1]))
  {
    NextCounts(id, previous, elements, order[..|order| - 1]);
  }

  /** Later elements do not change the name of an earlier one. */
  lemma EarlierNamed<E>(id: Identity<E>, previous: State<E>, elements: map<string, E>, order: seq<string>, k: string, n: nat)
    requires (forall k :: k in order ==> k in elements) && order != [] && k in elements && k != order[|order| - 1]
    requires HasNumber(id, previous, elements, Names(id, previous, elements, order[..|order| - 1]).names, k, n)
    ensures HasNumber(id, previous, elements, Names(id, previous, elements, order).names, k, n)
  {
  }

  /** Elements that keep no name get the next numbers, one after the other in the order of their keys. */
  lemma {:induction false} NumbersInOrder<E>(id: Identity<E>, previous: State<E>, elements: map<string, E>, order: seq<string>, i: nat)
    requires (forall k :: k in order ==> k in elements) && Distinct(order) && i < |order|
    ensures HasNumber(id, previous, elements, Names(id, previous, elements, order).names, order[i],
                      NewAmong(id, previous.entries, elements, order[..i]))
    decreases order
  {
    var last := |order| - 1;
    if i == last {
      LastNumbered(id, previous, elements, order);
    } else {
      var front := order[..last];
      assert front[..i] == order[..i];
      NumbersInOrder(id, previous, elements, front, i);
      EarlierNamed(id, previous, elements, order, order[i], NewAmong(id, previous.entries, elements, order[..i]));
    }
  }

  lemma {:induction false} AllNew<E>(id: Identity<E>, elements: map<string, E>, order: seq<string>)
    requires forall k :: k in order ==> k in elements
    ensures NewAmong(id, map[], elements, order) == |order|
    decreases order
  {
    if order != [] {
      AllNew(id, elements, order[..|order| - 1]);
      assert OldMatches(id, map[], elements[order[|order| - 1]]) == {};
    }
  }

  lemma NumberedAnew<E(!new)>(id: Identity<E>, uuid: string, o: Observation<E>, i: nat)
    requires Listed(o) && i < |o.order|
    ensures var names := Names(id, State(map[], uuid, 0), o.elements, o.order).names;
      o.order[i] in names && names[o.order[i]] == "e" + uuid + "-" + Numeral(i)
  {
    NumbersInOrder(id, State(map[], uuid, 0), o.elements, o.order, i);
    AllNew(id, o.elements, o.order[..i]);
    assert OldMatches(id, map[], o.elements[o.order[i]]) == {};
  }

  /** The first call for a key numbers its elements in a new namespace, in the order of their keys. */
  lemma AssignFirst<E(!new)>(id: Identity<E>, key: Key, limit: nat, s0: map<Key, Stamped<State<E>>>, o: Observation<E>, time: real,
                             uuid: string, names: map<string, string>, s1: map<Key, Stamped<State<E>>>)
    requires Lawful(id) && key !in s0 && Assigned(s0, key, o, id, limit, time, uuid, names, s1)
    ensures StartsNew(o.elements, names, uuid) && key in s1 && s1[key].value.namespace == uuid && s1[key].at == time
    ensures forall i :: 0 <= i < |o.order| ==> o.order[i] in names && names[o.order[i]] == "e" + uuid + "-" + Numeral(i)
  {
    forall i | 0 <= i < |o.order| ensures o.order[i] in names && names[o.order[i]] == "e" + uuid + "-" + Numeral(i) {
      NumberedAnew(id, uuid, o, i);
    }
    StoresAt(s0, key, limit, Stamped(Observe(id, State(map[], uuid, 0), o), time), s1);
    NewNumbers(id, State(map[], uuid, 0), o);
  }

  /**
   Two calls for one key. Less than a minute apart, the second goes on with the namespace and the
   numbers of the first: an element has the name of an earlier one exactly if each is the other's only
   match, and a new number otherwise. From a minute on, it starts in its own namespace. Calls for
   other keys between make no difference as long as fewer other keys than the limit were used as recently.
   */
  lemma AssignAgain<E(!new)>(id: Identity<E>, key: Key, limit: nat,
                             s0: map<Key, Stamped<State<E>>>, first: Observation<E>, t1: real, uuid1: string, names1: map<string, string>,
                             s1: map<Key, Stamped<State<E>>>, calls: seq<Call<State<E>>>,
                             s2: map<Key, Stamped<State<E>>>, second: Observation<E>, t2: real, uuid2: string, names2: map<string, string>,
                             s3: map<Key, Stamped<State<E>>>)
    requires Lawful(id) && AllNumbered(s0) && t1 <= t2
    requires Assigned(s0, key, first, id, limit, t1, uuid1, names1, s1)
    requires StoresAll(s1, calls, limit, s2) && Between(calls, key, t1, t2)
    requires calls == [] || |Rivals(s1, calls, key, t1)| < limit
    requires Assigned(s2, key, second, id, limit, t2, uuid2, names2, s3)
    ensures key in s1 && key in s3
    ensures var was, now := s1[key].value, s3[key].value;
      if t2 - t1 < 60.0
      then now.namespace == was.namespace && now.next >= was.next
           && Continues(id, first.elements, second.elements, names1, names2, was.namespace, was.next)
      else now.namespace == uuid2 && StartsNew(second.elements, names2, uuid2)
  {
    var previous := Found(s0, key, t1).GetOr(State(map[], uuid1, 0));
    FoundNumbered(s0, key, t1, uuid1);
    StoresAt(s0, key, limit, Stamped(Observe(id, previous, first), t1), s1);
    FoundForAMinute(s1, calls, key, limit, s2, t2);
    var previous2 := Found(s2, key, t2).GetOr(State(map[], uuid2, 0));
    StoresAt(s2, key, limit, Stamped(Observe(id, previous2, second), t2), s3);
    ObserveSucceeds(id, previous, first);
    ObserveSucceeds(id, previous2, second);
    if t2 - t1 < 60.0 {
      NamesContinue(id, previous, first, second);
    } else {
      NewNumbers(id, previous2, second);
    }
  }

  class Assigner<E(==, !new)> {
    var states: map<Key, Stamped<State<E>>>
    const limit: nat

    ghost predicate Valid()
      reads this
    {
      AllNumbered(states)
    }

    constructor (limit: nat)
      ensures Valid() && states == map[] && this.limit == limit
    {
      states := map[];
      this.limit := limit;
    }

    /** `order` is the sorted key list and `uuid` the prefix of a new identifier. */
    method Assign(key: Key, elements: map<string, E>, order: seq<string>, id: Identity<E>, time: real, uuid: string)
      returns (names: map<string, string>)
      requires Valid() && Lawful(id) && Listed(Observation(elements, order))
      modifies this
      ensures Valid() && Assigned(old(states), key, Observation(elements, order), id, limit, time, uuid, names, states)
    {
      ghost var was, o := states, Observation(elements, order);
      var room := MakeRoom(states, key, limit, time);
      var previous := if key in room then room[key].value else State(map[], uuid, 0);
      var n := AssignNames(previous, elements, order, id);
      names := n.names;
      states := room[key := Stamped(State(n.stable, previous.namespace, n.next), time)];
      assert Stores(was, key, limit, Stamped(Observe(id, previous, o), time), states);
      AssignedNumbered(was, key, o, id, limit, time, uuid, names, states);
    }
  }
}
