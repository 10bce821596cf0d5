/**
 The walk over an application's accessibility tree: depth and number of elements are bounded,
 every element met gets the next reference, and whatever is left out is reported.
 */
module AccessibilityWalk {
  import opened Wrappers
  import opened Decimal

  /** How asking an element for its children went. */
  datatype Status = Success | NoValue | AttributeUnsupported | NotImplemented | OtherError

  datatype Reading = Available(values: seq<Element>) | Unsupported | Failed

  /** An element as it answers during the walk; `visible` is the verdict of the observation filter. */
  datatype Element = Element(handle: int, role: string, visible: bool, status: Status, values: Option<seq<Element>>) {
    function Reading(): Reading {
      ClassifyAXChildren(status, values)
    }
  }

  function ClassifyAXChildren(status: Status, values: Option<seq<Element>>): Reading {
    match status
    case Success => if values.Some? then Available(values.value) else Failed
    case NoValue => Available([])
    case AttributeUnsupported => Unsupported
    case NotImplemented => Unsupported
    case OtherError => Failed
  }

  /** An element as listed: in full, or with its reference and role only. */
  datatype Entry = Entry(ref: string, role: string, details: Option<int>)

  function Ref(n: nat): string {
    "e" + Numeral(n)
  }

  // ---------------------------------------------------------------- the tree in preorder

  /** The elements below, down to `maxDepth`, each before its own children. */
  function Preorder(children: seq<Element>, depth: int, maxDepth: int): seq<Element>
    decreases maxDepth + 1 - depth, |children|
  {
    if depth > maxDepth || children == [] then []
    else Preorder(children[..|children| - 1], depth, maxDepth) + Subtree(children[|children| - 1], depth, maxDepth)
  }

  function Subtree(child: Element, depth: int, maxDepth: int): seq<Element>
    decreases maxDepth + 1 - depth, 0
  {
    [child] + if child.Reading().Available? && depth <= maxDepth then Preorder(child.Reading().values, depth + 1, maxDepth) else []
  }

  lemma {:induction false} PreorderPrefix(children: seq<Element>, i: nat, depth: int, maxDepth: int)
    requires i <= |children|
    ensures Preorder(children[..i], depth, maxDepth) <= Preorder(children, depth, maxDepth)
    decreases |children|
  {
    if i == |children| {
      assert children[..i] == children;
    } else if depth <= maxDepth {
      var front := children[..|children| - 1];
      assert front[..i] == children[..i];
      PreorderPrefix(front, i, depth, maxDepth);
    }
  }

  lemma PreorderNext(children: seq<Element>, i: nat, depth: int, maxDepth: int)
    requires i < |children| && depth <= maxDepth
    ensures Preorder(children[..i + 1], depth, maxDepth) == Preorder(children[..i], depth, maxDepth) + Subtree(children[i], depth, maxDepth)
    ensures Preorder(children[..i + 1], depth, maxDepth) <= Preorder(children, depth, maxDepth)
  {
    assert children[..i + 1][..i] == children[..i];
    PreorderPrefix(children, i + 1, depth, maxDepth);
  }

  /** Before its last child the preorder is not complete. */
  lemma MoreToList(children: seq<Element>, i: nat, depth: int, maxDepth: int)
    requires i < |children| && depth <= maxDepth
    ensures Preorder(children[..i], depth, maxDepth) < Preorder(children, depth, maxDepth)
  {
    PreorderNext(children, i, depth, maxDepth);
  }

  // ---------------------------------------------------------------- the tree by paths

  lemma ReadingExactly(e: Element)
    ensures e.Reading() == match e.status
      case Success => (if e.values == None then Failed else Available(e.values.value))
      case NoValue => Available([])
      case OtherError => Failed
      case _ => Unsupported
  {
  }

  /** The children an element gives, if it gives any. */
  function Given(e: Element): seq<Element> {
    if e.status == Success && e.values.Some? then e.values.value else []
  }

  /** A path names one child after the other, from the top down. */
  predicate IsPath(children: seq<Element>, path: seq<nat>)
    decreases |path|
  {
    path != [] && path[0] < |children| && (|path| == 1 || IsPath(Given(children[path[0]]), path[1..]))
  }

  function Node(children: seq<Element>, path: seq<nat>): Element
    requires IsPath(children, path)
    decreases |path|
  {
    if |path| == 1 then children[path[0]] else Node(Given(children[path[0]]), path[1..])
  }

  /** Preorder: a path is before those that go on from it, and before those that turn off to a later child. */
  predicate Before(p: seq<nat>, q: seq<nat>) {
    q != [] && (p == [] || p[0] < q[0] || (p[0] == q[0] && Before(p[1..], q[1..])))
  }

  /** `paths` lead to `nodes`, one by one. */
  ghost predicate Leads(children: seq<Element>, paths: seq<seq<nat>>, nodes: seq<Element>) {
    |paths| == |nodes| && forall i :: 0 <= i < |paths| ==> IsPath(children, paths[i]) && Node(children, paths[i]) == nodes[i]
  }

  ghost predicate InPreorder(paths: seq<seq<nat>>) {
    forall i, j :: 0 <= i < j < |paths| ==> Before(paths[i], paths[j])
  }

  /** All paths of at most `length` steps, and no others. */
  ghost predicate AllPaths(children: seq<Element>, paths: seq<seq<nat>>, length: int) {
    forall p :: p in paths <==> IsPath(children, p) && |p| <= length
  }

  function Stepped(i: nat, paths: seq<seq<nat>>): seq<seq<nat>> {
    seq(|paths|, k requires 0 <= k < |paths| => [i] + paths[k])
  }

  lemma PathStep(children: seq<Element>, i: nat, p: seq<nat>)
    requires i < |children|
    ensures IsPath(children, [i] + p) <==> p == [] || IsPath(Given(children[i]), p)
    ensures IsPath(Given(children[i]), p) ==> Node(children, [i] + p) == Node(Given(children[i]), p)
  {
    assert ([i] + p)[1..] == p;
  }

  lemma BeforeStep(i: nat, p: seq<nat>, q: seq<nat>)
    ensures Before([i] + p, [i] + q) <==> Before(p, q)
  {
    assert ([i] + p)[1..] == p && ([i] + q)[1..] == q;
  }

  /** The paths into child `i` and on from there. */
  function Into(i: nat, below: seq<seq<nat>>): seq<seq<nat>> {
    [[i]] + Stepped(i, below)
  }

  lemma InInto(i: nat, below: seq<seq<nat>>, p: seq<nat>)
    ensures p in Into(i, below) <==> p != [] && p[0] == i && (p[1..] == [] || p[1..] in below)
  {
    var paths := Into(i, below);
    if p in paths {
      var k :| 0 <= k < |paths| && paths[k] == p;
      if k > 0 {
        assert p == [i] + below[k - 1];
        assert p[1..] == below[k - 1];
      }
    }
    if p != [] && p[0] == i {
      assert p == [i] + p[1..];
      if p[1..] == [] {
        assert paths[0] == p;
      } else if p[1..] in below {
        var k :| 0 <= k < |below| && below[k] == p[1..];
        assert paths[k + 1] == p;
      }
    }
  }

  lemma IntoLeads(children: seq<Element>, i: nat, below: seq<seq<nat>>, nodes: seq<Element>)
    requires i < |children| && Leads(Given(children[i]), below, nodes)
    ensures Leads(children, Into(i, below), [children[i]] + nodes)
  {
    var paths := Into(i, below);
    forall k | 0 <= k < |below| ensures IsPath(children, paths[k + 1]) && Node(children, paths[k + 1]) == nodes[k] {
      PathStep(children, i, below[k]);
      assert paths[k + 1] == [i] + below[k];
    }
  }

  lemma IntoOrder(i: nat, below: seq<seq<nat>>)
    requires InPreorder(below) && forall k :: 0 <= k < |below| ==> below[k] != []
    ensures InPreorder(Into(i, below))
  {
    var paths := Into(i, below);
    forall k, l | 0 <= k < l < |paths| ensures Before(paths[k], paths[l]) {
      assert paths[l] == [i] + below[l - 1];
      if k > 0 {
        assert paths[k] == [i] + below[k - 1];
        BeforeStep(i, below[k - 1], below[l - 1]);
      } else {
        assert paths[k] == [i] + [];
        BeforeStep(i, [], below[l - 1]);
      }
    }
  }

  lemma IntoAll(children: seq<Element>, i: nat, below: seq<seq<nat>>, length: int, p: seq<nat>)
    requires i < |children| && length >= 0 && AllPaths(Given(children[i]), below, length)
    ensures p in Into(i, below) <==> IsPath(children, p) && |p| <= length + 1 && p[0] == i
  {
    InInto(i, below, p);
    if p != [] && p[0] == i {
      assert p == [i] + p[1..];
      PathStep(children, i, p[1..]);
    }
  }

  /** The paths into fewer children are those that begin with one of them. */
  lemma FrontPaths(children: seq<Element>, n: nat, p: seq<nat>)
    requires n <= |children|
    ensures IsPath(children[..n], p) <==> IsPath(children, p) && p[0] < n
    ensures IsPath(children[..n], p) ==> Node(children[..n], p) == Node(children, p)
  {
  }

  /**
   The preorder lists what all paths of bounded length lead to, each path once, in preorder. Elements
   that give no children, for whatever reason, have no paths through them.
   */
  lemma {:induction false} PreorderPaths(children: seq<Element>, depth: int, maxDepth: int) returns (paths: seq<seq<nat>>)
    ensures Leads(children, paths, Preorder(children, depth, maxDepth)) && InPreorder(paths)
    ensures AllPaths(children, paths, maxDepth + 1 - depth)
    decreases maxDepth + 1 - depth, |children|
  {
    paths := [];
    if depth <= maxDepth && children != [] {
      var last := |children| - 1;
      var child := children[last];
      var front := PreorderPaths(children[..last], depth, maxDepth);
      var below := PreorderPaths(Given(child), depth + 1, maxDepth);
      GivenPreorder(child, depth + 1, maxDepth);
      var nodes := Preorder(Given(child), depth + 1, maxDepth);
      IntoLeads(children, last, below, nodes);
      IntoOrder(last, below);
      forall p ensures p in Into(last, below) <==> IsPath(children, p) && |p| <= maxDepth + 1 - depth && p[0] == last {
        IntoAll(children, last, below, maxDepth - depth, p);
      }
      FrontLeads(children, front, Preorder(children[..last], depth, maxDepth), maxDepth + 1 - depth);
      JoinedLeads(children, front, Preorder(children[..last], depth, maxDepth), Into(last, below), [child] + nodes);
      JoinedOrder(front, Into(last, below), last);
      paths := front + Into(last, below);
    }
  }

  lemma GivenPreorder(e: Element, depth: int, maxDepth: int)
    ensures (if e.Reading().Available? then Preorder(e.Reading().values, depth, maxDepth) else []) == Preorder(Given(e), depth, maxDepth)
  {
  }

  lemma FrontLeads(children: seq<Element>, front: seq<seq<nat>>, nodes: seq<Element>, length: int)
    requires children != [] && Leads(children[..|children| - 1], front, nodes) && AllPaths(children[..|children| - 1], front, length)
    ensures Leads(children, front, nodes)
    ensures forall p :: p in front <==> IsPath(children, p) && |p| <= length && p[0] < |children| - 1
  {
    forall p ensures p in front <==> IsPath(children, p) && |p| <= length && p[0] < |children| - 1 {
      FrontPaths(children, |children| - 1, p);
    }
    forall i | 0 <= i < |front| ensures IsPath(children, front[i]) && Node(children, front[i]) == nodes[i] {
      FrontPaths(children, |children| - 1, front[i]);
    }
  }

  lemma JoinedLeads(children: seq<Element>, front: seq<seq<nat>>, frontNodes: seq<Element>, more: seq<seq<nat>>, moreNodes: seq<Element>)
    requires Leads(children, front, frontNodes) && Leads(children, more, moreNodes)
    ensures Leads(children, front + more, frontNodes + moreNodes)
  {
  }

  lemma JoinedOrder(front: seq<seq<nat>>, more: seq<seq<nat>>, last: nat)
    requires InPreorder(front) && InPreorder(more)
    requires forall p :: p in front ==> p != [] && p[0] < last
    requires forall p :: p in more ==> p != [] && p[0] == last
    ensures InPreorder(front + more)
  {
    var paths := front + more;
    forall i, j | 0 <= i < j < |paths| ensures Before(paths[i], paths[j]) {
      assert paths[i] == if i < |front| then front[i] else more[i - |front|];
      assert paths[j] == if j < |front| then front[j] else more[j - |front|];
      if i < |front| <= j {
        assert front[i] in front && more[j - |front|] in more;
      }
    }
  }

  // ---------------------------------------------------------------- listing elements

  datatype Collected = Collected(counter: nat, table: map<string, int>, out: seq<Entry>, failed: nat)

  function Listed(c: Collected, e: Element): Collected {
    var ref := Ref(c.counter + 1);
    Collected(c.counter + 1, c.table[ref := e.handle],
              c.out + [Entry(ref, e.role, if e.visible then Some(e.handle) else None)],
              c.failed + if e.Reading().Failed? then 1 else 0)
  }

  /** One element after the other, numbered on. */
  function AllListed(c: Collected, nodes: seq<Element>): Collected
    decreases nodes
  {
    if nodes == [] then c else Listed(AllListed(c, nodes[..|nodes| - 1]), nodes[|nodes| - 1])
  }

  lemma {:induction false} ListedOn(c: Collected, a: seq<Element>, b: seq<Element>)
    ensures AllListed(AllListed(c, a), b) == AllListed(c, a + b)
    decreases b
  {
    if b == [] {
      assert a + b == a;
    } else {
      assert (a + b)[..|a + b| - 1] == a + b[..|b| - 1];
      ListedOn(c, a, b[..|b| - 1]);
    }
  }

  lemma ListedOne(c: Collected, e: Element)
    ensures AllListed(c, [e]) == Listed(c, e)
  {
  }

  /** The entry for element number `n`, whose reference is the table's name for it. */
  ghost predicate NamesElement(r: Collected, entry: Entry, e: Element, n: nat) {
    && entry == Entry(Ref(n), e.role, if e.visible then Some(e.handle) else None)
    && entry.ref in r.table && r.table[entry.ref] == e.handle
  }

  lemma RefInjective(m: nat, n: nat)
    requires Ref(m) == Ref(n)
    ensures m == n
  {
    assert Numeral(m) == Ref(m)[1..] == Ref(n)[1..] == Numeral(n);
    NumeralInjective(m, n);
  }

  lemma StillNamed(r: Collected, entry: Entry, e: Element, n: nat, next: Element)
    requires NamesElement(r, entry, e, n) && n <= r.counter
    ensures NamesElement(Listed(r, next), entry, e, n)
  {
    if Ref(n) == Ref(r.counter + 1) {
      RefInjective(n, r.counter + 1);
    }
  }

  lemma {:induction false} CountersListed(c: Collected, nodes: seq<Element>)
    ensures var r := AllListed(c, nodes);
      r.counter == c.counter + |nodes| && |r.out| == |c.out| + |nodes| && r.out[..|c.out|] == c.out
    decreases nodes
  {
    if nodes != [] {
      CountersListed(c, nodes[..|nodes| - 1]);
    }
  }

  /** Each listed element has its entry and its place in the table, under the number after those before it. */
  lemma {:induction false} ListingExact(c: Collected, nodes: seq<Element>, k: nat)
    requires k < |nodes|
    ensures |AllListed(c, nodes).out| == |c.out| + |nodes|
    ensures NamesElement(AllListed(c, nodes), AllListed(c, nodes).out[|c.out| + k], nodes[k], c.counter + k + 1)
    decreases nodes
  {
    var front := nodes[..|nodes| - 1];
    CountersListed(c, nodes);
    CountersListed(c, front);
    if k < |front| {
      ListingExact(c, front, k);
      StillNamed(AllListed(c, front), AllListed(c, front).out[|c.out| + k], nodes[k], c.counter + k + 1, nodes[|nodes| - 1]);
    }
  }

  /** Nothing else gets into the table. */
  lemma {:induction false} TableKeys(c: Collected, nodes: seq<Element>, ref: string)
    requires ref in AllListed(c, nodes).table
    ensures ref in c.table || exists n :: c.counter < n <= c.counter + |nodes| && ref == Ref(n)
    decreases nodes
  {
    if nodes != [] {
      CountersListed(c, nodes[..|nodes| - 1]);
      if ref != Ref(c.counter + |nodes|) {
        TableKeys(c, nodes[..|nodes| - 1], ref);
      }
    }
  }

  predicate Readable(nodes: seq<Element>) {
    forall k :: 0 <= k < |nodes| ==> !nodes[k].Reading().Failed?
  }

  /** The number of failed readings counts the elements whose children could not be read. */
  lemma {:induction false} FailuresCounted(c: Collected, nodes: seq<Element>)
    ensures AllListed(c, nodes).failed == c.failed <==> Readable(nodes)
    ensures AllListed(c, nodes).failed >= c.failed
    decreases nodes
  {
    if nodes != [] {
      var front := nodes[..|nodes| - 1];
      FailuresCounted(c, front);
      assert forall k :: 0 <= k < |front| ==> front[k] == nodes[k];
    }
  }

  lemma Prepend<T>(a: seq<T>, b: seq<T>, c: seq<T>)
    requires b <= c
    ensures a + b <= a + c && (a + b == a + c <==> b == c)
  {
  }

  /** From `before` on, `listed` of `all` has been listed: the whole of it exactly if the walk was not stopped. */
  ghost predicate Walked(before: Collected, after: Collected, listed: seq<Element>, all: seq<Element>, was: bool, stopped: bool, limit: int) {
    && listed <= all && after == AllListed(before, listed) && after.counter == before.counter + |listed|
    && (was ==> listed == [] && stopped) && (!was ==> (stopped <==> listed != all))
    && (listed != [] ==> after.counter <= limit)
  }

  lemma WalkedOn(before: Collected, mid: Collected, after: Collected, listed: seq<Element>, all: seq<Element>,
                 more: seq<Element>, below: seq<Element>, was: bool, stopped: bool, limit: int)
    requires Walked(before, mid, listed, all, was, false, limit) && Walked(mid, after, more, below, false, stopped, limit)
    requires listed != [] ==> more != []
    ensures Walked(before, after, listed + more, all + below, was, stopped, limit)
  {
    ListedOn(before, listed, more);
    Prepend(listed, more, below);
  }

  /** A walk that stops before there is more is stopped before all is listed. */
  lemma WalkedShort(before: Collected, after: Collected, listed: seq<Element>, done: seq<Element>, all: seq<Element>,
                    was: bool, limit: int)
    requires done < all && (Walked(before, after, listed, done, was, true, limit) || Walked(before, after, listed, done, was, false, limit))
    requires was ==> listed == []
    ensures Walked(before, after, listed, all, was, true, limit)
  {
  }

  // ---------------------------------------------------------------- the walk itself

  class Walk {
    var counter: nat
    var table: map<string, int>
    var out: seq<Entry>
    var failedChildren: nat
    var deadlineReached: bool
    var limitReached: bool
    var windowUnavailable: bool
    /** Readings of the clock so far; from reading number `expires` on the deadline is past. */
    var ticks: nat
    const expires: nat
    const maxDepth: int
    const limit: int

    constructor (maxDepth: int, limit: int, expires: nat)
      ensures Content() == Collected(0, map[], [], 0) && !Stopped() && !windowUnavailable
      ensures this.maxDepth == maxDepth && this.limit == limit && this.expires == expires
    {
      counter, table, out, failedChildren := 0, map[], [], 0;
      deadlineReached, limitReached, windowUnavailable, ticks := false, false, false, 0;
      this.maxDepth, this.limit, this.expires := maxDepth, limit, expires;
    }

    function Content(): Collected
      reads this
    {
      Collected(counter, table, out, failedChildren)
    }

    predicate Stopped()
      reads this
    {
      limitReached || deadlineReached
    }

    method PermitsVisit() returns (permitted: bool)
      modifies this`limitReached, this`deadlineReached, this`ticks
      ensures permitted <==> !Stopped()
      ensures limitReached <==> old(limitReached) || counter >= limit
      ensures deadlineReached <==> old(deadlineReached) || old(ticks) >= expires
    {
      if counter >= limit {
        limitReached := true;
      }
      if ticks >= expires {
        deadlineReached := true;
      }
      ticks := ticks + 1;
      permitted := !limitReached && !deadlineReached;
    }

    /**
     Lists `listed`, a prefix of the preorder. It is the whole preorder exactly if no flag is up
     in the end, and it goes no further than `limit`.
     */
    method AxWalk(children: seq<Element>, depth: int) returns (ghost listed: seq<Element>)
      modifies this
      ensures Walked(old(Content()), Content(), listed, Preorder(children, depth, maxDepth), old(Stopped()), Stopped(), limit)
      ensures limitReached && !old(limitReached) ==> counter >= limit
      ensures windowUnavailable == old(windowUnavailable)
      decreases maxDepth + 1 - depth
    {
      listed := [];
      if depth > maxDepth || children == [] {
        return;
      }
      ghost var before, was, done := Content(), Stopped(), [];
      for i := 0 to |children|
        invariant done == Preorder(children[..i], depth, maxDepth)
        invariant Walked(before, Content(), listed, done, was, Stopped(), limit)
        invariant limitReached && !old(limitReached) ==> counter >= limit
        invariant windowUnavailable == old(windowUnavailable)
      {
        ghost var mid := Content();
        var permitted := PermitsVisit();
        if !permitted {
          MoreToList(children, i, depth, maxDepth);
          WalkedShort(before, mid, listed, done, Preorder(children, depth, maxDepth), was, limit);
          return;
        }
        PreorderNext(children, i, depth, maxDepth);
        ghost var below := Subtree(children[i], depth, maxDepth);
        ghost var more := VisitChild(children[i], depth);
        WalkedOn(before, mid, Content(), listed, done, more, below, was, Stopped(), limit);
        listed, done := listed + more, done + below;
      }
      assert children[..|children|] == children;
    }

    method VisitChild(child: Element, depth: int) returns (ghost listed: seq<Element>)
      requires depth <= maxDepth && counter < limit && !Stopped()
      modifies this
      ensures listed != [] && Walked(old(Content()), Content(), listed, Subtree(child, depth, maxDepth), false, Stopped(), limit)
      ensures limitReached ==> counter >= limit
      ensures windowUnavailable == old(windowUnavailable)
      decreases maxDepth + 1 - depth, 0
    {
      ghost var before := Content();
      ListedOne(before, child);
      List(child);
      listed := [child];
      if child.Reading().Available? {
        ghost var below := Preorder(child.Reading().values, depth + 1, maxDepth);
        ghost var more := AxWalk(child.Reading().values, depth + 1);
        ListedOn(before, [child], more);
        Prepend([child], more, below);
        listed := [child] + more;
      }
    }

    method List(child: Element)
      modifies this`counter, this`table, this`failedChildren, this`out
      ensures Content() == Listed(old(Content()), child)
    {
      counter := counter + 1;
      var ref := Ref(counter);
      table := table[ref := child.handle];
      if child.Reading().Failed? {
        failedChildren := failedChildren + 1;
      }
      out := out + [Entry(ref, child.role, if child.visible then Some(child.handle) else None)];
    }

    /** One attempt at observing an application: its window under reference e0, then the elements below. */
    method WalkOnce(selected: Option<Element>) returns (ghost listed: seq<Element>)
      requires Content() == Collected(0, map[], [], 0) && !Stopped() && !windowUnavailable
      modifies this
      ensures Observed(selected, maxDepth, limit, Report(), listed)
    {
      listed := [];
      match selected
      case None => windowUnavailable := true;
      case Some(main) =>
        if main.Reading().Failed? {
          failedChildren := failedChildren + 1;
        }
        out := out + [Entry(Ref(0), "AXWindow", Some(main.handle))];
        table := table[Ref(0) := main.handle];
        assert Content() == WindowListed(main);
        if main.Reading().Available? {
          listed := AxWalk(main.Reading().values, 0);
        }
    }

    function Report(): Observation
      reads this
    {
      Observation(Content(), deadlineReached, limitReached, windowUnavailable)
    }
  }

  // ---------------------------------------------------------------- what an observation tells

  datatype Observation = Observation(content: Collected, deadlineReached: bool, limitReached: bool, windowUnavailable: bool)

  function WindowListed(main: Element): Collected {
    Collected(0, map[Ref(0) := main.handle], [Entry(Ref(0), "AXWindow", Some(main.handle))], if main.Reading().Failed? then 1 else 0)
  }

  /** The elements below a window that an observation may list. */
  function Below(main: Element, maxDepth: int): seq<Element> {
    if main.Reading().Available? then Preorder(main.Reading().values, 0, maxDepth) else []
  }

  function AtMost(limit: int, n: nat): nat {
    if limit <= 0 then 0 else if limit < n then limit else n
  }

  /**
   An observation lists a prefix of what is below the window, all of it exactly if no flag is up;
   unless the deadline passed, that is the first `limit` elements, and the limit is reported
   exactly if there are more.
   */
  ghost predicate Observed(selected: Option<Element>, maxDepth: int, limit: int, r: Observation, listed: seq<Element>) {
    match selected
    case None => r.windowUnavailable && listed == [] && r.content == Collected(0, map[], [], 0)
    case Some(main) =>
      var below := Below(main, maxDepth);
      && !r.windowUnavailable && listed <= below && r.content == AllListed(WindowListed(main), listed)
      && (r.limitReached || r.deadlineReached <==> listed != below)
      && (!r.deadlineReached ==> |listed| == AtMost(limit, |below|) && (r.limitReached <==> |below| > AtMost(limit, |below|)))
  }

  datatype Warning =
    | Timeout
    | WindowUnavailable
    | Incomplete(failed: nat, deadlineReached: bool, limitReached: bool)
    | EmptyAfterWakeup(attempts: nat)
    | NoInteractiveElements

  function ObservationWarning(finished: bool, maxDepth: int, interactiveOnly: bool, visibleCount: nat, rawCount: nat,
                              wakeupAttempts: nat, r: Observation): Option<Warning>
  {
    if maxDepth == 0 then None
    else if !finished then Some(Timeout)
    else if r.windowUnavailable then Some(WindowUnavailable)
    else if r.content.failed > 0 || r.deadlineReached || r.limitReached
    then Some(Incomplete(r.content.failed, r.deadlineReached, r.limitReached))
    else if wakeupAttempts > 0 && rawCount <= 1 then Some(EmptyAfterWakeup(wakeupAttempts))
    else if interactiveOnly && visibleCount <= 1 then Some(NoInteractiveElements)
    else None
  }

  /**
   A finished observation at a positive depth is called incomplete exactly if elements of the
   bounded tree are missing from it or some listed element did not give its children.
   */
  lemma IncompleteExactly(main: Element, maxDepth: int, limit: int, r: Observation, listed: seq<Element>,
                          interactiveOnly: bool, visibleCount: nat, rawCount: nat, wakeupAttempts: nat)
    requires maxDepth > 0 && Observed(Some(main), maxDepth, limit, r, listed)
    ensures var warning := ObservationWarning(true, maxDepth, interactiveOnly, visibleCount, rawCount, wakeupAttempts, r);
      warning.Some? && warning.value.Incomplete? <==> !(listed == Below(main, maxDepth) && !main.Reading().Failed? && Readable(listed))
  {
    FailuresCounted(WindowListed(main), listed);
  }

  /** No warning means that the whole bounded tree was listed, every element with its reference. */
  lemma NoWarningComplete(selected: Option<Element>, maxDepth: int, limit: int, r: Observation, listed: seq<Element>, k: nat,
                          finished: bool, interactiveOnly: bool, visibleCount: nat, rawCount: nat, wakeupAttempts: nat)
    requires maxDepth > 0 && Observed(selected, maxDepth, limit, r, listed)
    requires ObservationWarning(finished, maxDepth, interactiveOnly, visibleCount, rawCount, wakeupAttempts, r) == None
    ensures selected.Some? && !selected.value.Reading().Failed? && Readable(Below(selected.value, maxDepth))
    ensures |r.content.out| == 1 + |Below(selected.value, maxDepth)|
    ensures k < |Below(selected.value, maxDepth)| ==>
      NamesElement(r.content, r.content.out[1 + k], Below(selected.value, maxDepth)[k], k + 1)
  {
    IncompleteExactly(selected.value, maxDepth, limit, r, listed, interactiveOnly, visibleCount, rawCount, wakeupAttempts);
    CountersListed(WindowListed(selected.value), listed);
    if k < |listed| {
      ListingExact(WindowListed(selected.value), listed, k);
    }
  }

  /** The table knows the window and the listed elements, nothing else. */
  lemma TableExact(main: Element, maxDepth: int, limit: int, r: Observation, listed: seq<Element>, ref: string)
    requires Observed(Some(main), maxDepth, limit, r, listed) && ref in r.content.table
    ensures exists n :: 0 <= n <= |listed| && ref == Ref(n)
  {
    TableKeys(WindowListed(main), listed, ref);
  }

  lemma RefExactly(n: nat)
    ensures Ref(n) == "e" + Numeral(n) && Ref(0) == "e0"
  {
  }

  /** The window comes first, under reference e0. */
  lemma WindowFirst(main: Element, maxDepth: int, limit: int, r: Observation, listed: seq<Element>)
    requires Observed(Some(main), maxDepth, limit, r, listed)
    ensures r.content.counter == |listed| && |r.content.out| == 1 + |listed|
    ensures r.content.out[0] == Entry("e0", "AXWindow", Some(main.handle))
    ensures "e0" in r.content.table && r.content.table["e0"] == main.handle
  {
    CountersListed(WindowListed(main), listed);
    assert r.content.out[..1][0] == Entry(Ref(0), "AXWindow", Some(main.handle));
    KeptInTable(WindowListed(main), listed, 0);
  }

  lemma {:induction false} KeptInTable(c: Collected, nodes: seq<Element>, n: nat)
    requires n <= c.counter && Ref(n) in c.table
    ensures var r := AllListed(c, nodes); Ref(n) in r.table && r.table[Ref(n)] == c.table[Ref(n)]
    decreases nodes
  {
    if nodes != [] {
      var front := nodes[..|nodes| - 1];
      KeptInTable(c, front, n);
      CountersListed(c, front);
      if Ref(n) == Ref(c.counter + |nodes|) {
        RefInjective(n, c.counter + |nodes|);
      }
    }
  }

  /** As long as the deadline does not pass, the first elements up to the limit are listed, and the limit is reported exactly if there are more. */
  lemma LimitExactly(main: Element, maxDepth: int, limit: int, r: Observation, listed: seq<Element>)
    requires Observed(Some(main), maxDepth, limit, r, listed) && !r.deadlineReached
    ensures var below := if main.Reading().Available? then Preorder(main.Reading().values, 0, maxDepth) else [];
      && listed <= below
      && (|below| <= limit || |below| == 0 ==> listed == below && !r.limitReached)
      && (|below| > limit && |below| > 0 ==> |listed| == (if limit > 0 then limit else 0) && r.limitReached)
  {
  }

  /** The number of failed readings is that of the window's and the listed elements that failed. */
  lemma {:induction false} FailureCount(c: Collected, nodes: seq<Element>)
    ensures AllListed(c, nodes).failed == c.failed + |FailedAt(nodes)|
    decreases nodes
  {
    if nodes != [] {
      FailureCount(c, nodes[..|nodes| - 1]);
      FailedNext(nodes);
    } else {
      assert FailedAt(nodes) == {};
    }
  }

  /** The places of the elements that failed. */
  function FailedAt(nodes: seq<Element>): set<nat> {
    set k | 0 <= k < |nodes| && nodes[k].Reading().Failed?
  }

  lemma FailedNext(nodes: seq<Element>)
    requires nodes != []
    ensures var last := |nodes| - 1; FailedAt(nodes) == FailedAt(nodes[..last]) + if nodes[last].Reading().Failed? then {last} else {}
  {
  }

  /** An observation counts the listed elements that failed to give their children, and the window if it did. */
  lemma FailuresTold(main: Element, maxDepth: int, limit: int, r: Observation, listed: seq<Element>)
    requires Observed(Some(main), maxDepth, limit, r, listed)
    ensures r.content.failed == (if main.Reading().Failed? then 1 else 0) + |FailedAt(listed)|
  {
    FailureCount(WindowListed(main), listed);
  }

  /** Which warning is given: none for depth zero; else the first that applies. */
  lemma WarningExactly(finished: bool, maxDepth: int, interactiveOnly: bool, visibleCount: nat, rawCount: nat, wakeupAttempts: nat, r: Observation)
    ensures var warning := ObservationWarning(finished, maxDepth, interactiveOnly, visibleCount, rawCount, wakeupAttempts, r);
      var whole := r.content.failed == 0 && !r.deadlineReached && !r.limitReached;
      && (warning == Some(Timeout) <==> maxDepth != 0 && !finished)
      && (warning == Some(WindowUnavailable) <==> maxDepth != 0 && finished && r.windowUnavailable)
      && (warning == Some(Incomplete(r.content.failed, r.deadlineReached, r.limitReached)) <==> maxDepth != 0 && finished && !r.windowUnavailable && !whole)
      && (warning == Some(EmptyAfterWakeup(wakeupAttempts)) <==>
            maxDepth != 0 && finished && !r.windowUnavailable && whole && wakeupAttempts > 0 && rawCount < 2)
      && (warning == Some(NoInteractiveElements) <==>
            maxDepth != 0 && finished && !r.windowUnavailable && whole && !(wakeupAttempts > 0 && rawCount < 2) && interactiveOnly && visibleCount < 2)
  {
  }
}
