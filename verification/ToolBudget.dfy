/**
 Collecting tool results from a conversation, and the pass that archives older results until
 the rest fits the request budget.
 */
module ToolBudget {
  import opened Wrappers

  /** A tool result as the model sees it: its size, and whether a marker stands in for it. */
  datatype Body = Body(bytes: nat, textOnly: bool, replaced: bool, archive: Option<string>)

  datatype Message =
    | User
    | Assistant(calls: seq<string>)
    | ToolResult(callId: string, body: Body)

  datatype Slot = Slot(index: nat, step: nat, currentTurn: bool)

  // ---------------------------------------------------------------- collecting

  /** The step of a result: the last earlier assistant message that made its call, else the result itself. */
  function StepBefore(messages: seq<Message>, n: nat, callId: string): Option<nat>
    requires n <= |messages|
  {
    if n == 0 then None
    else if messages[n - 1].Assistant? && callId in messages[n - 1].calls then Some(n - 1)
    else StepBefore(messages, n - 1, callId)
  }

  function StepOf(messages: seq<Message>, n: nat): nat
    requires n < |messages| && messages[n].ToolResult?
  {
    StepBefore(messages, n, messages[n].callId).GetOr(n)
  }

  /** An assistant message made the call. */
  predicate Made(messages: seq<Message>, m: nat, callId: string)
    requires m < |messages|
  {
    messages[m].Assistant? && callId in messages[m].calls
  }

  lemma {:induction false} StepBeforeIs(messages: seq<Message>, n: nat, callId: string)
    requires n <= |messages|
    ensures var step := StepBefore(messages, n, callId);
      if step.Some? then step.value < n && Made(messages, step.value, callId) && forall m :: step.value < m < n ==> !Made(messages, m, callId)
      else forall m: nat :: m < n ==> !Made(messages, m, callId)
  {
    if n > 0 {
      StepBeforeIs(messages, n - 1, callId);
    }
  }

  /** The step of a result is the last message before it that made its call, or the result itself if none did. */
  lemma StepIs(messages: seq<Message>, n: nat)
    requires n < |messages| && messages[n].ToolResult?
    ensures var step, callId := StepOf(messages, n), messages[n].callId;
      && step <= n && (step == n <==> forall m: nat :: m < n ==> !Made(messages, m, callId))
      && (step < n ==> Made(messages, step, callId) && forall m :: step < m < n ==> !Made(messages, m, callId))
  {
    StepBeforeIs(messages, n, messages[n].callId);
  }

  ghost predicate Ordered(slots: seq<Slot>) {
    forall i, j :: 0 <= i < j < |slots| ==> slots[i].index < slots[j].index
  }

  ghost predicate Listed(slots: seq<Slot>, index: nat) {
    exists k :: 0 <= k < |slots| && slots[k].index == index
  }

  /** Exactly the tool results among the first `n` messages, in order, each with its step. */
  ghost predicate CollectedUpTo(messages: seq<Message>, slots: seq<Slot>, n: nat)
    requires n <= |messages|
  {
    && Ordered(slots)
    && (forall k :: 0 <= k < |slots| ==> slots[k].index < n && messages[slots[k].index].ToolResult?
                                         && slots[k].step == StepOf(messages, slots[k].index))
    && (forall m: nat :: m < n && messages[m].ToolResult? ==> Listed(slots, m))
  }

  lemma CollectedNext(messages: seq<Message>, slots: seq<Slot>, n: nat)
    requires n < |messages| && CollectedUpTo(messages, slots, n)
    ensures !messages[n].ToolResult? ==> CollectedUpTo(messages, slots, n + 1)
    ensures messages[n].ToolResult? ==> CollectedUpTo(messages, slots + [Slot(n, StepOf(messages, n), false)], n + 1)
  {
    if messages[n].ToolResult? {
      var more := slots + [Slot(n, StepOf(messages, n), false)];
      assert more[|slots|].index == n;
      forall m: nat | m < n && messages[m].ToolResult?
        ensures Listed(more, m)
      {
        var k :| 0 <= k < |slots| && slots[k].index == m;
        assert more[k].index == m;
      }
    }
  }

  ghost predicate Remembers(calls: map<string, nat>, messages: seq<Message>, n: nat)
    requires n <= |messages|
  {
    forall id :: Lookup(calls, id) == StepBefore(messages, n, id)
  }

  function Lookup(calls: map<string, nat>, id: string): Option<nat> {
    if id in calls then Some(calls[id]) else None
  }

  method RememberCalls(calls: map<string, nat>, ids: seq<string>, step: nat) returns (calls': map<string, nat>)
    ensures forall id :: Lookup(calls', id) == if id in ids then Some(step) else Lookup(calls, id)
  {
    calls' := calls;
    for c := 0 to |ids|
      invariant forall id :: Lookup(calls', id) == if id in ids[..c] then Some(step) else Lookup(calls, id)
    {
      calls' := calls'[ids[c] := step];
      assert ids[..c + 1] == ids[..c] + [ids[c]];
    }
    assert ids[..|ids|] == ids;
  }

  /** The results of the conversation in order; those after the last user message are of the current turn. */
  method CollectToolResults(messages: seq<Message>) returns (slots: seq<Slot>)
    ensures CollectedUpTo(messages, slots, |messages|)
    ensures forall k :: 0 <= k < |slots| ==>
      (slots[k].currentTurn <==> forall m :: slots[k].index < m < |messages| ==> !messages[m].User?)
  {
    var calls: map<string, nat> := map[];
    var latestUser := -1;
    slots := [];
    for n := 0 to |messages|
      invariant -1 <= latestUser < n && (latestUser >= 0 ==> messages[latestUser].User?)
      invariant forall m :: latestUser < m < n ==> !messages[m].User?
      invariant Remembers(calls, messages, n)
      invariant CollectedUpTo(messages, slots, n)
    {
      CollectedNext(messages, slots, n);
      match messages[n]
      case User => latestUser := n;
      case Assistant(ids) => calls := RememberCalls(calls, ids, n);
      case ToolResult(callId, _) => slots := slots + [Slot(n, Lookup(calls, callId).GetOr(n), false)];
    }
    slots := MarkTurn(messages, slots, latestUser);
  }

  method MarkTurn(ghost messages: seq<Message>, slots: seq<Slot>, latestUser: int) returns (slots': seq<Slot>)
    requires CollectedUpTo(messages, slots, |messages|)
    ensures CollectedUpTo(messages, slots', |messages|)
    ensures forall k :: 0 <= k < |slots'| ==> (slots'[k].currentTurn <==> slots'[k].index > latestUser)
  {
    slots' := seq(|slots|, k requires 0 <= k < |slots| => slots[k].(currentTurn := slots[k].index > latestUser));
    forall m: nat | m < |messages| && messages[m].ToolResult?
      ensures Listed(slots', m)
    {
      assert Listed(slots, m);
      var k :| 0 <= k < |slots| && slots[k].index == m;
      assert slots'[k].index == m;
    }
  }

  // ---------------------------------------------------------------- the budget

  function BodyAt(messages: seq<Message>, s: Slot): Body {
    if s.index < |messages| && messages[s.index].ToolResult? then messages[s.index].body else Body(0, false, false, None)
  }

  /** The size of all tool contents in a view of the conversation. */
  function Total(messages: seq<Message>, slots: seq<Slot>): nat
    decreases slots
  {
    if slots == [] then 0
    else Total(messages, slots[..|slots| - 1]) + BodyAt(messages, slots[|slots| - 1]).bytes
  }

  /** The total is that of the parts, and of one result its own size. */
  lemma {:induction false} TotalOfParts(messages: seq<Message>, a: seq<Slot>, b: seq<Slot>)
    ensures Total(messages, a + b) == Total(messages, a) + Total(messages, b)
    ensures Total(messages, []) == 0
    ensures forall s: Slot :: s.index < |messages| && messages[s.index].ToolResult? ==> Total(messages, [s]) == messages[s.index].body.bytes
    decreases |b|
  {
    assert forall s: Slot :: [s][..0] == [];
    if b == [] {
      assert a + b == a;
    } else {
      var last := |b| - 1;
      assert (a + b)[..|a + b| - 1] == a + b[..last];
      TotalOfParts(messages, a, b[..last]);
    }
  }

  /** What archiving a result would put in its place. */
  datatype Offer = Offer(bytes: nat, archive: Option<string>)

  predicate Kept(slots: seq<Slot>, recent: set<nat>, k: nat)
    requires k < |slots|
  {
    slots[k].index in recent ||
    exists i :: 0 <= i < |slots| && slots[i].index in recent && slots[i].step == slots[k].step
  }

  /** An older text result that can be replaced by a smaller marker with its own archive path. */
  predicate Eligible(messages: seq<Message>, slots: seq<Slot>, recent: set<nat>, offers: seq<Offer>, k: nat)
    requires k < |slots| == |offers|
  {
    var body := BodyAt(messages, slots[k]);
    !Kept(slots, recent, k) && body.textOnly && !body.replaced && offers[k].archive.Some? && offers[k].bytes < body.bytes
  }

  function Replace(messages: seq<Message>, s: Slot, offer: Offer): seq<Message>
    requires s.index < |messages| && messages[s.index].ToolResult?
  {
    messages[s.index := messages[s.index].(body := Body(offer.bytes, true, true, offer.archive))]
  }

  lemma {:induction false} TotalElsewhere(messages: seq<Message>, messages': seq<Message>, slots: seq<Slot>)
    requires forall k :: 0 <= k < |slots| ==> BodyAt(messages', slots[k]) == BodyAt(messages, slots[k])
    ensures Total(messages', slots) == Total(messages, slots)
    decreases slots
  {
    if slots != [] {
      TotalElsewhere(messages, messages', slots[..|slots| - 1]);
    }
  }

  lemma {:induction false} TotalReplaced(messages: seq<Message>, slots: seq<Slot>, k: nat, offer: Offer)
    requires Ordered(slots) && k < |slots| && slots[k].index < |messages| && messages[slots[k].index].ToolResult?
    ensures Total(Replace(messages, slots[k], offer), slots) ==
      Total(messages, slots) - BodyAt(messages, slots[k]).bytes + offer.bytes
    decreases slots
  {
    var last, messages' := |slots| - 1, Replace(messages, slots[k], offer);
    if k == last {
      TotalElsewhere(messages, messages', slots[..last]);
    } else {
      TotalReplaced(messages, slots[..last], k, offer);
    }
  }

  /** Slots that can be worked on: in order, each at a tool result, each with an offer. */
  ghost predicate Valid(messages: seq<Message>, slots: seq<Slot>, offers: seq<Offer>) {
    && Ordered(slots) && |offers| == |slots|
    && forall k :: 0 <= k < |slots| ==> slots[k].index < |messages| && messages[slots[k].index].ToolResult?
  }

  /** The conversation with the eligible results among the first `n` replaced. */
  ghost function View(messages: seq<Message>, slots: seq<Slot>, recent: set<nat>, offers: seq<Offer>, n: nat): (view: seq<Message>)
    requires Valid(messages, slots, offers) && n <= |slots|
    ensures |view| == |messages|
    ensures forall m :: 0 <= m < |messages| && messages[m].ToolResult? ==> view[m].ToolResult?
  {
    if n == 0 then messages
    else
      var view := View(messages, slots, recent, offers, n - 1);
      if Eligible(messages, slots, recent, offers, n - 1) then Replace(view, slots[n - 1], offers[n - 1]) else view
  }

  /** The bytes that replacing the eligible results among the first `n` saves. */
  function Saved(messages: seq<Message>, slots: seq<Slot>, recent: set<nat>, offers: seq<Offer>, n: nat): nat
    requires n <= |slots| == |offers|
  {
    if n == 0 then 0
    else if Eligible(messages, slots, recent, offers, n - 1)
    then Saved(messages, slots, recent, offers, n - 1) + BodyAt(messages, slots[n - 1]).bytes - offers[n - 1].bytes
    else Saved(messages, slots, recent, offers, n - 1)
  }

  /**
   Every message of the view: a slot among the first `n` that is eligible holds its own marker,
   any other message is unchanged.
   */
  lemma {:induction false} ViewAt(messages: seq<Message>, slots: seq<Slot>, recent: set<nat>, offers: seq<Offer>, n: nat, m: nat)
    requires Valid(messages, slots, offers) && n <= |slots| && m < |messages|
    ensures var view := View(messages, slots, recent, offers, n);
      && (forall k :: 0 <= k < n && slots[k].index == m && Eligible(messages, slots, recent, offers, k) ==>
            view[m] == messages[m].(body := Body(offers[k].bytes, true, true, offers[k].archive)))
      && ((forall k :: 0 <= k < n && slots[k].index == m ==> !Eligible(messages, slots, recent, offers, k)) ==>
            view[m] == messages[m])
  {
    if n > 0 {
      ViewAt(messages, slots, recent, offers, n - 1, m);
    }
  }

  lemma ViewAhead(messages: seq<Message>, slots: seq<Slot>, recent: set<nat>, offers: seq<Offer>, n: nat, k: nat)
    requires Valid(messages, slots, offers) && n <= k < |slots|
    ensures View(messages, slots, recent, offers, n)[slots[k].index] == messages[slots[k].index]
  {
  }

  /** The true size of the view. */
  lemma {:induction false} ViewTotal(messages: seq<Message>, slots: seq<Slot>, recent: set<nat>, offers: seq<Offer>, n: nat)
    requires Valid(messages, slots, offers) && n <= |slots|
    ensures Total(View(messages, slots, recent, offers, n), slots) == Total(messages, slots) - Saved(messages, slots, recent, offers, n)
  {
    if n > 0 {
      ViewTotal(messages, slots, recent, offers, n - 1);
      ViewAhead(messages, slots, recent, offers, n - 1, n - 1);
      if Eligible(messages, slots, recent, offers, n - 1) {
        TotalReplaced(View(messages, slots, recent, offers, n - 1), slots, n - 1, offers[n - 1]);
      }
    }
  }

  /** One position of the pass. */
  method ConsiderReplacing(ghost messages: seq<Message>, projected: seq<Message>, slots: seq<Slot>, recent: set<nat>,
                           offers: seq<Offer>, position: nat, size: nat, retained: nat)
    returns (projected': seq<Message>, retained': nat)
    requires Valid(messages, slots, offers) && position < |slots|
    requires projected == View(messages, slots, recent, offers, position)
    requires size == BodyAt(messages, slots[position]).bytes && retained == Total(projected, slots)
    ensures projected' == View(messages, slots, recent, offers, position + 1)
    ensures retained' == Total(projected', slots) <= retained
  {
    var s, offer := slots[position], offers[position];
    ViewAhead(messages, slots, recent, offers, position, position);
    projected', retained' := projected, retained;
    var current := projected[s.index].body;
    if Kept(slots, recent, position) || !current.textOnly {
      return;
    }
    if current.replaced || offer.archive.None? || offer.bytes >= size {
      return;
    }
    TotalReplaced(projected, slots, position, offer);
    projected' := Replace(projected, s, offer);
    retained' := retained - (size - offer.bytes);
  }

  /**
   The pass over the results, oldest first: the eligible ones among the first `n` are replaced,
   where `n` is the first moment the rest fits, or all of them.
   */
  method EnforceBudget(messages: seq<Message>, slots: seq<Slot>, recent: set<nat>, limit: nat, offers: seq<Offer>)
    returns (projected: seq<Message>, retained: nat, n: nat)
    requires Valid(messages, slots, offers)
    ensures n <= |slots| && projected == View(messages, slots, recent, offers, n)
    ensures retained == Total(projected, slots) <= Total(messages, slots)
    ensures retained <= limit || n == |slots|
    ensures n > 0 ==> Total(View(messages, slots, recent, offers, n - 1), slots) > limit
  {
    projected := messages;
    var sizes := seq(|slots|, k requires 0 <= k < |slots| => BodyAt(messages, slots[k]).bytes);
    retained := Total(messages, slots);
    n := 0;
    while n < |slots|
      invariant n <= |slots| && projected == View(messages, slots, recent, offers, n)
      invariant retained == Total(projected, slots) <= Total(messages, slots)
      invariant n > 0 ==> Total(View(messages, slots, recent, offers, n - 1), slots) > limit
    {
      if retained <= limit {
        break;
      }
      projected, retained := ConsiderReplacing(messages, projected, slots, recent, offers, n, sizes[n], retained);
      n := n + 1;
    }
  }

  /**
   What the pass leaves alone: the number and order of messages, every call identifier, every
   result of a kept step; and nothing is replaced without its own archive path.
   */
  lemma ViewSafe(messages: seq<Message>, slots: seq<Slot>, recent: set<nat>, offers: seq<Offer>, n: nat, m: nat)
    requires Valid(messages, slots, offers) && n <= |slots| && m < |messages|
    ensures var view := View(messages, slots, recent, offers, n);
      && |view| == |messages|
      && (view[m] != messages[m] ==>
            && view[m].ToolResult? && messages[m].ToolResult? && view[m].callId == messages[m].callId
            && view[m].body.archive.Some? && view[m].body.bytes < messages[m].body.bytes
            && exists k :: 0 <= k < n && slots[k].index == m && !Kept(slots, recent, k) && view[m].body.archive == offers[k].archive)
  {
  }

  /** Neither the result nor another one of its step is among the recent ones. */
  ghost predicate Older(slots: seq<Slot>, recent: set<nat>, k: nat)
    requires k < |slots|
  {
    slots[k].index !in recent && forall i :: 0 <= i < |slots| && slots[i].index in recent ==> slots[i].step != slots[k].step
  }

  /**
   Exactly the older results that are text, stand for themselves and have an archive path and a smaller
   marker are replaced, each by its own marker; whatever came before in the pass.
   */
  lemma ReplacedExactly(messages: seq<Message>, slots: seq<Slot>, recent: set<nat>, offers: seq<Offer>, n: nat, k: nat)
    requires Valid(messages, slots, offers) && n <= |slots| && k < |slots|
    ensures var was, now := messages[slots[k].index], View(messages, slots, recent, offers, n)[slots[k].index];
      if k < n && Older(slots, recent, k) && was.body.textOnly && was.body.replaced == false
         && offers[k].archive != None && offers[k].bytes < was.body.bytes
      then now == ToolResult(was.callId, Body(offers[k].bytes, true, true, offers[k].archive))
      else now == was
  {
    ViewAt(messages, slots, recent, offers, n, slots[k].index);
  }

  /** Messages that are no tool results of the pass stay as they are. */
  lemma OthersStay(messages: seq<Message>, slots: seq<Slot>, recent: set<nat>, offers: seq<Offer>, n: nat, m: nat)
    requires Valid(messages, slots, offers) && n <= |slots| && m < |messages|
    requires forall k :: 0 <= k < |slots| ==> slots[k].index != m
    ensures View(messages, slots, recent, offers, n)[m] == messages[m]
  {
    ViewAt(messages, slots, recent, offers, n, m);
  }
}
