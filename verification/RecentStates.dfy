/**
 Per-window states that expire after a minute and of which a limited number is kept; the
 observation differ and the element namer store theirs in this way.
 */
module RecentStates {
  import opened Wrappers

  datatype Key = Key(owner: string, pid: int, windowID: int)

  datatype Stamped<+V> = Stamped(value: V, at: real)

  const LIFETIME := 60.0

  function Live<V>(states: map<Key, Stamped<V>>, time: real): map<Key, Stamped<V>> {
    map k | k in states && time - states[k].at < LIFETIME :: states[k]
  }

  predicate IsOldest<V>(states: map<Key, Stamped<V>>, oldest: Key) {
    oldest in states && forall k :: k in states ==> states[oldest].at <= states[k].at
  }

  /** The live states that remain when a state for `key` is about to be stored. */
  ghost predicate MadeRoom<V>(live: map<Key, Stamped<V>>, key: Key, limit: nat, room: map<Key, Stamped<V>>) {
    if key in live || |live| < limit || live == map[] then room == live
    else exists oldest :: IsOldest(live, oldest) && room == live - {oldest}
  }

  method MakeRoom<V>(states: map<Key, Stamped<V>>, key: Key, limit: nat, time: real) returns (room: map<Key, Stamped<V>>)
    ensures MadeRoom(Live(states, time), key, limit, room)
    ensures key in room <==> key in Live(states, time)
    ensures forall k :: k in room ==> k in Live(states, time) && room[k] == Live(states, time)[k]
    ensures forall k :: k in room ==> k in states && room[k] == states[k] && time - states[k].at < 60.0
    ensures forall j, k :: k in states && time - states[k].at < 60.0 && k !in room && j in room ==> key !in room && states[k].at <= states[j].at
    ensures forall j, k :: j in states && time - states[j].at < 60.0 && k in states && time - states[k].at < 60.0 && j !in room && k !in room ==> j == k
  {
    room := Live(states, time);
    if key !in room && |room| >= limit && room.Keys != {} {
      SomeOldest(room, room.Keys);
      var oldest :| IsOldest(room, oldest);
      room := room - {oldest};
    }
  }

  lemma {:induction false} SomeOldest<V>(states: map<Key, Stamped<V>>, keys: set<Key>)
    requires keys <= states.Keys && keys != {}
    ensures exists oldest :: oldest in keys && forall k :: k in keys ==> states[oldest].at <= states[k].at
    ensures keys == states.Keys ==> exists oldest :: IsOldest(states, oldest)
  {
    var x :| x in keys;
    var oldest := x;
    if keys != {x} {
      SomeOldest(states, keys - {x});
      var y :| y in keys - {x} && forall k :: k in keys - {x} ==> states[y].at <= states[k].at;
      oldest := if states[x].at <= states[y].at then x else y;
    }
    assert forall k :: k in keys ==> states[oldest].at <= states[k].at;
    if keys == states.Keys {
      assert IsOldest(states, oldest);
    }
  }

  lemma SubsetSize<T>(a: set<T>, b: set<T>)
    requires a <= b
    ensures |a| <= |b|
  {
    assert b == a + (b - a);
  }

  /** The number of states never grows beyond the limit. */
  lemma RoomBounded<V>(states: map<Key, Stamped<V>>, time: real, key: Key, limit: nat, room: map<Key, Stamped<V>>, s: Stamped<V>)
    requires limit > 0 && |states| <= limit && MadeRoom(Live(states, time), key, limit, room)
    ensures |room[key := s]| <= limit
  {
    var live := Live(states, time);
    SubsetSize(live.Keys, states.Keys);
    StoredSize(room, key, s);
    if key !in live && |live| >= limit {
      assert live.Keys != {};
      var oldest :| IsOldest(live, oldest) && room == live - {oldest};
      assert room.Keys == live.Keys - {oldest};
    }
  }

  lemma StoredSize<V>(room: map<Key, Stamped<V>>, key: Key, s: Stamped<V>)
    ensures |room[key := s]| == |room.Keys| + if key in room then 0 else 1
  {
  }

  // ---------------------------------------------------------------- what a later call finds

  /** The value a call for `key` at `time` finds. */
  function Found<V>(states: map<Key, Stamped<V>>, key: Key, time: real): Option<V> {
    var live := Live(states, time);
    if key in live then Some(live[key].value) else None
  }

  /** What one call makes of the states: room for its key, and a new value there. */
  ghost predicate Stores<V(!new)>(states: map<Key, Stamped<V>>, key: Key, limit: nat, s: Stamped<V>, states': map<Key, Stamped<V>>) {
    exists room :: MadeRoom(Live(states, s.at), key, limit, room) && states' == room[key := s]
  }

  datatype Call<V> = Call(key: Key, s: Stamped<V>)

  /** What a number of calls make of the states, one after the other. */
  ghost predicate StoresAll<V(!new)>(states: map<Key, Stamped<V>>, calls: seq<Call<V>>, limit: nat, states': map<Key, Stamped<V>>)
    decreases |calls|
  {
    if calls == [] then states' == states
    else exists next :: Stores(states, calls[0].key, limit, calls[0].s, next) && StoresAll(next, calls[1..], limit, states')
  }

  /** The other keys whose states are no older than `time`, or that are called for. */
  function Rivals<V>(states: map<Key, Stamped<V>>, calls: seq<Call<V>>, key: Key, time: real): set<Key> {
    (set k | k in states && k != key && states[k].at >= time) + (set i | 0 <= i < |calls| :: calls[i].key)
  }

  /** The calls are for other keys, at times from `first` to `last`. */
  ghost predicate Between<V>(calls: seq<Call<V>>, key: Key, first: real, last: real) {
    forall i :: 0 <= i < |calls| ==> calls[i].key != key && first <= calls[i].s.at <= last
  }

  /** Apart from `key`, all states are from before. */
  ghost predicate OthersFrom<V>(states: map<Key, Stamped<V>>, states': map<Key, Stamped<V>>, key: Key) {
    forall k :: k in states' && k != key ==> k in states && states'[k] == states[k]
  }

  /** A call for another key leaves the state of `key` if it is younger than a minute then and enough rivals fit beside it. */
  lemma StoreLeaves<V(!new)>(states: map<Key, Stamped<V>>, call: Call<V>, key: Key, limit: nat, states': map<Key, Stamped<V>>)
    requires Stores(states, call.key, limit, call.s, states') && key in states && call.key != key
    requires call.s.at - states[key].at < 60.0 && states[key].at <= call.s.at
    requires |Rivals(states, [call], key, states[key].at)| < limit
    ensures key in states' && states'[key] == states[key] && OthersFrom(states, states', call.key)
  {
    var live := Live(states, call.s.at);
    var room :| MadeRoom(live, call.key, limit, room) && states' == room[call.key := call.s];
    assert key in live;
    if room != live {
      var oldest :| IsOldest(live, oldest) && room == live - {oldest};
      if oldest == key {
        OldestAmongRivals(states, call, key);
      }
    }
  }

  lemma OldestAmongRivals<V>(states: map<Key, Stamped<V>>, call: Call<V>, key: Key)
    requires key in states && IsOldest(Live(states, call.s.at), key) && call.key !in Live(states, call.s.at)
    ensures |Live(states, call.s.at)| <= |Rivals(states, [call], key, states[key].at)|
  {
    var live, rivals := Live(states, call.s.at), Rivals(states, [call], key, states[key].at);
    assert call.key in rivals by { assert [call][0].key == call.key; }
    assert |live.Keys - {key} + {call.key}| == |live.Keys| == |live|;
    SubsetSize(live.Keys - {key} + {call.key}, rivals);
  }

  lemma RivalBefore<V>(states: map<Key, Stamped<V>>, calls: seq<Call<V>>, key: Key, time: real, states': map<Key, Stamped<V>>, k: Key)
    requires calls != [] && OthersFrom(states, states', calls[0].key) && k in Rivals(states', calls[1..], key, time)
    ensures k in Rivals(states, calls, key, time)
  {
    assert calls[0].key in Rivals(states, calls, key, time);
    if !(k in states' && k != key && states'[k].at >= time) {
      var i :| 0 <= i < |calls[1..]| && calls[1..][i].key == k;
      assert calls[i + 1].key == k;
    }
  }

  lemma RivalsNext<V>(states: map<Key, Stamped<V>>, calls: seq<Call<V>>, key: Key, time: real, states': map<Key, Stamped<V>>)
    requires calls != [] && OthersFrom(states, states', calls[0].key)
    ensures |Rivals(states', calls[1..], key, time)| <= |Rivals(states, calls, key, time)|
  {
    forall k | k in Rivals(states', calls[1..], key, time) ensures k in Rivals(states, calls, key, time) {
      RivalBefore(states, calls, key, time, states', k);
    }
    SubsetSize(Rivals(states', calls[1..], key, time), Rivals(states, calls, key, time));
  }

  lemma RivalsKeep<V>(states: map<Key, Stamped<V>>, calls: seq<Call<V>>, key: Key, time: real)
    requires calls != []
    ensures |Rivals(states, [calls[0]], key, time)| <= |Rivals(states, calls, key, time)|
  {
    SubsetSize(Rivals(states, [calls[0]], key, time), Rivals(states, calls, key, time));
  }

  lemma {:induction false} AbsentStays<V(!new)>(states: map<Key, Stamped<V>>, calls: seq<Call<V>>, key: Key, limit: nat, states': map<Key, Stamped<V>>)
    requires StoresAll(states, calls, limit, states') && key !in states && forall i :: 0 <= i < |calls| ==> calls[i].key != key
    ensures key !in states'
    decreases |calls|
  {
    if calls != [] {
      var next :| Stores(states, calls[0].key, limit, calls[0].s, next) && StoresAll(next, calls[1..], limit, states');
      AbsentStays(next, calls[1..], key, limit, states');
    }
  }

  lemma BetweenNext<V>(calls: seq<Call<V>>, key: Key, first: real, last: real)
    requires calls != [] && Between(calls, key, first, last)
    ensures calls[0].key != key && first <= calls[0].s.at <= last && Between(calls[1..], key, first, last)
  {
  }

  lemma LeftByFirst<V(!new)>(states: map<Key, Stamped<V>>, calls: seq<Call<V>>, key: Key, limit: nat, next: map<Key, Stamped<V>>)
    requires calls != [] && Stores(states, calls[0].key, limit, calls[0].s, next) && key in states && calls[0].key != key
    requires states[key].at <= calls[0].s.at && calls[0].s.at - states[key].at < 60.0
    requires |Rivals(states, calls, key, states[key].at)| < limit
    ensures key in next && next[key] == states[key] && |Rivals(next, calls[1..], key, states[key].at)| < limit
  {
    RivalsKeep(states, calls, key, states[key].at);
    StoreLeaves(states, calls[0], key, limit, next);
    RivalsNext(states, calls, key, states[key].at, next);
  }

  /**
   A state is found again for a minute and no longer. Calls for other keys between make no
   difference as long as fewer other keys than the limit were used as recently.
   */
  lemma {:induction false} FoundForAMinute<V(!new)>(states: map<Key, Stamped<V>>, calls: seq<Call<V>>, key: Key, limit: nat,
                                              states': map<Key, Stamped<V>>, time: real)
    requires StoresAll(states, calls, limit, states') && key in states && Between(calls, key, states[key].at, time)
    requires calls == [] || |Rivals(states, calls, key, states[key].at)| < limit
    ensures Found(states', key, time) == if time - states[key].at < 60.0 then Some(states[key].value) else None
    decreases |calls|
  {
    if calls != [] {
      var next :| Stores(states, calls[0].key, limit, calls[0].s, next) && StoresAll(next, calls[1..], limit, states');
      BetweenNext(calls, key, states[key].at, time);
      if calls[0].s.at - states[key].at < 60.0 {
        LeftByFirst(states, calls, key, limit, next);
        FoundForAMinute(next, calls[1..], key, limit, states', time);
      } else {
        AbsentStays(next, calls[1..], key, limit, states');
      }
    }
  }
}
