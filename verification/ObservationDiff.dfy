/**
 Telling whether an observed window changed: elements are compared by fingerprints, in which
 every field is preceded by its length in bytes. A character stands for one byte of UTF-8.
 */
module ObservationDiff {
  import opened Wrappers
  import opened Decimal
  import opened RecentStates

  const FIELDS := 15

  /** The rendered attributes of an element: role to children count, then the frame; absent ones are empty. */
  type Fields = f: seq<string> | |f| == FIELDS witness seq(FIELDS, i => "")

  function Prefixed(field: string): string {
    Numeral(|field|) + ":" + field
  }

  function Joined(fields: seq<string>): string
    decreases fields
  {
    if fields == [] then "" else Prefixed(fields[0]) + Joined(fields[1..])
  }

  function Fingerprint(element: Fields): string {
    Joined(element)
  }

  /** The first colon of a prefixed field ends the length. */
  lemma FirstColon(field: string, rest: string, i: nat)
    requires i <= |Numeral(|field|)|
    ensures i < |Prefixed(field) + rest|
    ensures (Prefixed(field) + rest)[i] == ':' <==> i == |Numeral(|field|)|
  {
    NumeralDigits(|field|);
    if i < |Numeral(|field|)| {
      assert (Prefixed(field) + rest)[i] == Numeral(|field|)[i];
    }
  }

  /** Whatever follows, a prefixed field can be read off in one way only. */
  lemma PrefixedUnique(a: string, b: string, c: string, d: string)
    requires Prefixed(a) + c == Prefixed(b) + d
    ensures a == b && c == d
  {
    var m, n := |Numeral(|a|)|, |Numeral(|b|)|;
    var left, right := Prefixed(a) + c, Prefixed(b) + d;
    FirstColon(a, c, if m < n then m else n);
    FirstColon(b, d, if m < n then m else n);
    assert left[..m] == Numeral(|a|) && right[..n] == Numeral(|b|);
    NumeralInjective(|a|, |b|);
    assert left[m + 1..] == a + c && right[m + 1..] == b + d;
    assert (a + c)[..|a|] == a && (b + d)[..|b|] == b;
    assert (a + c)[|a|..] == c && (b + d)[|b|..] == d;
  }

  /** Different lists of fields have different renderings. */
  lemma {:induction false} JoinedInjective(f: seq<string>, g: seq<string>)
    requires Joined(f) == Joined(g)
    ensures f == g
    decreases f
  {
    if f != [] && g != [] {
      PrefixedUnique(f[0], g[0], Joined(f[1..]), Joined(g[1..]));
      JoinedInjective(f[1..], g[1..]);
      assert f == [f[0]] + f[1..] && g == [g[0]] + g[1..];
    }
  }

  /** Equal fingerprints mean equal fields, every one of them. */
  lemma FingerprintInjective(a: Fields, b: Fields)
    ensures Fingerprint(a) == Fingerprint(b) <==> a == b
  {
    if Fingerprint(a) == Fingerprint(b) {
      JoinedInjective(a, b);
    }
  }

  function Fingerprints(elements: seq<Fields>): seq<string> {
    seq(|elements|, i requires 0 <= i < |elements| => Fingerprint(elements[i]))
  }

  /** The number of positions at which two lists have the same entry. */
  function SameCount<T(==)>(a: seq<T>, b: seq<T>): (n: nat)
    ensures n <= |a| && n <= |b|
    decreases |a|
  {
    if a == [] || b == [] then 0
    else (if a[0] == b[0] then 1 else 0) + SameCount(a[1..], b[1..])
  }

  /** The positions at which two lists have the same entry. */
  function SamePlaces<T(==)>(a: seq<T>, b: seq<T>): set<nat> {
    set i: nat | i < |a| && i < |b| && a[i] == b[i]
  }

  function Shifted(places: set<nat>): set<nat> {
    set i | i in places :: i + 1
  }

  lemma ShiftedOut(places: set<nat>, i: nat)
    requires i in places
    ensures Shifted(places) == Shifted(places - {i}) + {i + 1} && i + 1 !in Shifted(places - {i})
  {
    forall n | n in Shifted(places) ensures n in Shifted(places - {i}) + {i + 1} {
      assert n - 1 in places;
      assert n - 1 == i || n - 1 in places - {i};
    }
  }

  lemma {:induction false} ShiftedSize(places: set<nat>)
    ensures |Shifted(places)| == |places|
    decreases places
  {
    if places != {} {
      var i :| i in places;
      ShiftedSize(places - {i});
      ShiftedOut(places, i);
    }
  }

  lemma {:induction false} SameCountIs<T>(a: seq<T>, b: seq<T>)
    ensures SameCount(a, b) == |SamePlaces(a, b)|
    decreases |a|
  {
    if a == [] || b == [] {
      assert SamePlaces(a, b) == {};
    } else {
      var rest := SamePlaces(a[1..], b[1..]);
      var shifted := Shifted(rest);
      SameCountIs(a[1..], b[1..]);
      ShiftedSize(rest);
      forall i: nat | i in SamePlaces(a, b) && i > 0 ensures i in shifted {
        assert i - 1 in rest;
      }
      assert SamePlaces(a, b) == shifted + if a[0] == b[0] then {0} else {};
    }
  }

  lemma {:induction false} CountByFingerprint(a: seq<Fields>, b: seq<Fields>)
    ensures SameCount(Fingerprints(a), Fingerprints(b)) == SameCount(a, b)
    decreases |a|
  {
    if a != [] && b != [] {
      FingerprintInjective(a[0], b[0]);
      assert Fingerprints(a)[1..] == Fingerprints(a[1..]) && Fingerprints(b)[1..] == Fingerprints(b[1..]);
      CountByFingerprint(a[1..], b[1..]);
    }
  }

  /** All positions agree and the lengths do exactly if the lists are equal. */
  lemma {:induction false} CountAll<T>(a: seq<T>, b: seq<T>)
    ensures |a| == |b| && SameCount(a, b) == |b| <==> a == b
    decreases |a|
  {
    if a != [] && b != [] {
      CountAll(a[1..], b[1..]);
      assert a == [a[0]] + a[1..] && b == [b[0]] + b[1..];
    }
  }

  /** Comparing fingerprints finds a change exactly if some field of some element, or their number, changed. */
  lemma ChangedExactly(previous: seq<Fields>, elements: seq<Fields>)
    ensures |previous| != |elements| || SameCount(Fingerprints(previous), Fingerprints(elements)) != |elements| <==> previous != elements
  {
    CountByFingerprint(previous, elements);
    CountAll(previous, elements);
  }

  // ---------------------------------------------------------------- the store

  type Prints = map<Key, Stamped<seq<string>>>

  type Shown = map<Key, Stamped<seq<Fields>>>

  /** The stored fingerprints are those of the elements shown last. */
  ghost predicate Mirrors(states: Prints, shown: Shown) {
    && states.Keys == shown.Keys
    && forall k :: k in states ==> states[k] == Stamped(Fingerprints(shown[k].value), shown[k].at)
  }

  ghost function Restricted(shown: Shown, keys: set<Key>): Shown {
    map k | k in shown && k in keys :: shown[k]
  }

  /** Room made among the fingerprints is room made among what they stand for. */
  lemma RoomMirrored(states: Prints, shown: Shown, time: real, key: Key, limit: nat, room: Prints)
    requires Mirrors(states, shown) && MadeRoom(Live(states, time), key, limit, room)
    ensures MadeRoom(Live(shown, time), key, limit, Restricted(shown, room.Keys))
    ensures Mirrors(room, Restricted(shown, room.Keys))
  {
    var live, liveShown := Live(states, time), Live(shown, time);
    assert live.Keys == liveShown.Keys;
    assert |live| == |live.Keys| == |liveShown.Keys| == |liveShown|;
    if key in live || |live| < limit || live == map[] {
      assert Restricted(shown, room.Keys) == liveShown;
    } else {
      var oldest :| IsOldest(live, oldest) && room == live - {oldest};
      assert IsOldest(liveShown, oldest);
      assert Restricted(shown, room.Keys) == liveShown - {oldest};
      assert liveShown != map[];
    }
  }

  lemma StoredMirrored(room: Prints, shownRoom: Shown, key: Key, elements: seq<Fields>, time: real)
    requires Mirrors(room, shownRoom)
    ensures Mirrors(room[key := Stamped(Fingerprints(elements), time)], shownRoom[key := Stamped(elements, time)])
  {
  }

  /** The comparison by fingerprints, against the elements they stand for. */
  method CompareEach(previous: seq<string>, now: seq<string>, ghost was: seq<Fields>, ghost elements: seq<Fields>)
    returns (changed: bool, same: nat)
    requires previous == Fingerprints(was) && now == Fingerprints(elements)
    ensures changed <==> was != elements
    ensures same == |SamePlaces(was, elements)|
  {
    ChangedExactly(was, elements);
    CountByFingerprint(was, elements);
    SameCountIs(was, elements);
    same := SameCount(previous, now);
    changed := |previous| != |now| || same != |now|;
  }

  /** What one call answers, and what it leaves behind. */
  ghost predicate Compared(shown: Shown, key: Key, elements: seq<Fields>, limit: nat, time: real, changed: bool, same: nat, shown': Shown) {
    var was := Found(shown, key, time);
    && (changed <==> was != Some(elements))
    && same == (if was.Some? then |SamePlaces(was.value, elements)| else 0)
    && Stores(shown, key, limit, Stamped(elements, time), shown')
  }

  /** The first call for a key always reports a change. */
  lemma CompareFirst(key: Key, limit: nat, s0: Shown, elements: seq<Fields>, time: real, changed: bool, same: nat, s1: Shown)
    requires Compared(s0, key, elements, limit, time, changed, same, s1) && key !in s0
    ensures changed && same == 0 && key in s1 && s1[key] == Stamped(elements, time)
  {
  }

  /**
   Two calls for one key. Less than a minute apart, the second reports a change exactly if the lists
   differ, and counts the positions where they agree; from a minute on it always reports one. Calls for
   other keys between make no difference as long as fewer other keys than the limit were used as recently.
   */
  lemma CompareAgain(key: Key, limit: nat, s0: Shown, first: seq<Fields>, t1: real, changed1: bool, same1: nat,
                     s1: Shown, calls: seq<Call<seq<Fields>>>, s2: Shown, second: seq<Fields>, t2: real, changed2: bool, same2: nat, s3: Shown)
    requires Compared(s0, key, first, limit, t1, changed1, same1, s1) && t1 <= t2
    requires StoresAll(s1, calls, limit, s2) && Between(calls, key, t1, t2)
    requires calls == [] || |Rivals(s1, calls, key, t1)| < limit
    requires Compared(s2, key, second, limit, t2, changed2, same2, s3)
    ensures if t2 - t1 < 60.0
      then (changed2 <==> first != second) && same2 == |set i: nat | i < |first| && i < |second| && first[i] == second[i]|
      else changed2 && same2 == 0
  {
    FoundForAMinute(s1, calls, key, limit, s2, t2);
    assert SamePlaces(first, second) == set i: nat | i < |first| && i < |second| && first[i] == second[i];
  }

  lemma StoresShown(shown: Shown, room: Shown, key: Key, limit: nat, s: Stamped<seq<Fields>>)
    requires MadeRoom(Live(shown, s.at), key, limit, room)
    ensures Stores(shown, key, limit, s, room[key := s])
  {
  }

  class ObservationDiffStore {
    var states: Prints
    /** What the elements themselves were, which the store does not keep. */
    ghost var shown: Shown
    const limit: nat

    ghost predicate Valid()
      reads this
    {
      Mirrors(states, shown) && (limit > 0 ==> |states| <= limit)
    }

    constructor (limit: nat)
      ensures Valid() && this.limit == limit && shown == map[]
    {
      states, shown := map[], map[];
      this.limit := limit;
    }

    /** Compares with what was shown for the key less than a minute ago, field by field in effect, and remembers the new elements. */
    method Compare(key: Key, elements: seq<Fields>, time: real) returns (changed: bool, same: nat)
      requires Valid()
      modifies this
      ensures Valid() && Compared(old(shown), key, elements, limit, time, changed, same, shown)
    {
      var now := Fingerprints(elements);
      var room := MakeRoom(states, key, limit, time);
      RoomMirrored(states, shown, time, key, limit, room);
      if limit > 0 {
        RoomBounded(states, time, key, limit, room, Stamped(now, time));
      }
      same, changed := 0, true;
      if key in room {
        changed, same := CompareEach(room[key].value, now, shown[key].value, elements);
      }
      ghost var shownRoom := Restricted(shown, room.Keys);
      StoresShown(shown, shownRoom, key, limit, Stamped(elements, time));
      StoredMirrored(room, shownRoom, key, elements, time);
      states := room[key := Stamped(now, time)];
      shown := shownRoom[key := Stamped(elements, time)];
    }
  }
}
