/** Other clients pushing to the head or the tail of the list between the chunks of one insert. */
module Interleaving {
  import opened Common
  import opened Inserts

  /** One call that takes effect on the server, issued by this client or by another one. */
  datatype Event<V> = Event(call: Call<V>, mine: bool)

  predicate IsPush<V>(call: Call<V>) { call.ToTail? || call.ToHead? }

  /** The list after a trace of pushes, in the order in which the server performs them. */
  function Replay<V(==)>(policy: Policy, items: Items<V>, trace: seq<Event<V>>): Items<V>
    requires forall e :: 0 <= e < |trace| ==> IsPush(trace[e].call)
    decreases |trace|
  {
    if trace == [] then items
    else assert IsPush(trace[0].call); Replay(policy, Apply(policy, items, trace[0].call).value, trace[1..])
  }

  /** The items of one owner, in list order. */
  function View<V>(s: Items<V>, own: Item<V> -> bool): Items<V> {
    if s == [] then [] else (if own(s[0]) then [s[0]] else []) + View(s[1..], own)
  }

  lemma {:induction false} ViewSplit<V>(a: Items<V>, b: Items<V>, own: Item<V> -> bool)
    ensures View(a + b, own) == View(a, own) + View(b, own)
  {
    if a == [] {
      assert a + b == b;
    } else {
      var first := if own(a[0]) then [a[0]] else [];
      calc {
        View(a + b, own);
        { assert (a + b)[0] == a[0] && (a + b)[1..] == a[1..] + b; }
        first + View(a[1..] + b, own);
        { ViewSplit(a[1..], b, own); }
        first + (View(a[1..], own) + View(b, own));
        (first + View(a[1..], own)) + View(b, own);
        View(a, own) + View(b, own);
      }
    }
  }

  lemma {:induction false} ViewAll<V>(s: Items<V>, own: Item<V> -> bool)
    requires forall i :: 0 <= i < |s| ==> own(s[i])
    ensures View(s, own) == s
  {
    if s != [] {
      ViewAll(s[1..], own);
    }
  }

  lemma {:induction false} ViewNone<V>(s: Items<V>, own: Item<V> -> bool)
    requires forall i :: 0 <= i < |s| ==> !own(s[i])
    ensures View(s, own) == []
  {
    if s != [] {
      ViewNone(s[1..], own);
    }
  }

  /** Every client inserts its own items only. */
  ghost predicate Owned<V>(trace: seq<Event<V>>, mine: Item<V> -> bool) {
    forall e :: 0 <= e < |trace| ==>
      && IsPush(trace[e].call)
      && forall i :: 0 <= i < |trace[e].call.block| ==> (mine(trace[e].call.block[i]) <==> trace[e].mine)
  }

  /** The calls of this client within the trace, in order. */
  function MyCalls<V>(trace: seq<Event<V>>): seq<Call<V>> {
    if trace == [] then [] else (if trace[0].mine then [trace[0].call] else []) + MyCalls(trace[1..])
  }

  function OtherEvents<V>(trace: seq<Event<V>>): (others: seq<Event<V>>)
    ensures (forall e :: 0 <= e < |trace| ==> IsPush(trace[e].call)) ==>
              forall e :: 0 <= e < |others| ==> IsPush(others[e].call)
  {
    if trace == [] then [] else (if trace[0].mine then [] else [trace[0]]) + OtherEvents(trace[1..])
  }

  /** One push seen by one owner: its own items are pushed, foreign ones are invisible. */
  lemma PushView<V>(policy: Policy, items: Items<V>, call: Call<V>, own: Item<V> -> bool, visible: bool)
    requires IsPush(call) && forall i :: 0 <= i < |call.block| ==> (own(call.block[i]) <==> visible)
    ensures View(Apply(policy, items, call).value, own)
         == if visible then Apply(policy, View(items, own), call).value else View(items, own)
  {
    ViewSplit(items, call.block, own);
    ViewSplit(call.block, items, own);
    if visible {
      ViewAll(call.block, own);
    } else {
      ViewNone(call.block, own);
      assert View(items, own) + [] == View(items, own);
    }
  }

  /** What this client sees of its own items is what its calls alone would have left, whatever the
      others pushed in between. */
  lemma {:induction false} MineUndisturbed<V>(policy: Policy, items: Items<V>, trace: seq<Event<V>>,
                                              mine: Item<V> -> bool, up: seq<bool>)
    requires Owned(trace, mine) && |up| == |MyCalls(trace)| && AllUp(up)
    ensures View(Replay(policy, items, trace), mine) == Pipeline(policy, View(items, mine), MyCalls(trace), up).items
    decreases |trace|
  {
    hide Apply, View;
    if trace != [] {
      var e, calls := trace[0], MyCalls(trace[1..]);
      assert IsPush(e.call);
      PushApplies(policy, items, e.call);
      var next := Apply(policy, items, e.call).value;
      PushView(policy, items, e.call, mine, e.mine);
      if e.mine {
        assert MyCalls(trace) == [e.call] + calls;
        PushApplies(policy, View(items, mine), e.call);
        MineUndisturbed(policy, next, trace[1..], mine, up[1..]);
        assert Pipeline(policy, View(items, mine), [e.call] + calls, up).items
            == Pipeline(policy, View(next, mine), calls, up[1..]).items;
      } else {
        assert MyCalls(trace) == calls;
        MineUndisturbed(policy, next, trace[1..], mine, up);
      }
    }
  }

  lemma PushApplies<V>(policy: Policy, items: Items<V>, call: Call<V>)
    requires IsPush(call)
    ensures Apply(policy, items, call).Some?
  {}

  /** And the others' items are as if this client had never called. */
  lemma {:induction false} OthersUndisturbed<V>(policy: Policy, items: Items<V>, trace: seq<Event<V>>,
                                                mine: Item<V> -> bool, foreign: Item<V> -> bool)
    requires Owned(trace, mine) && forall x :: foreign(x) <==> !mine(x)
    ensures View(Replay(policy, items, trace), foreign) == Replay(policy, View(items, foreign), OtherEvents(trace))
    decreases |trace|
  {
    hide View;
    if trace != [] {
      var e, others := trace[0], OtherEvents(trace[1..]);
      assert IsPush(e.call);
      var next := Apply(policy, items, e.call).value;
      PushView(policy, items, e.call, foreign, !e.mine);
      OthersUndisturbed(policy, next, trace[1..], mine, foreign);
      if e.mine {
        assert OtherEvents(trace) == others;
      } else {
        assert OtherEvents(trace) == [e] + others && ([e] + others)[1..] == others;
        assert Replay(policy, View(items, foreign), [e] + others)
            == Replay(policy, Apply(policy, View(items, foreign), e.call).value, others);
      }
    }
  }

  /** A tail append of which `k` chunks got through, interleaved with foreign pushes: its items read,
      in list order, exactly the first `k` chunks. */
  lemma InterleavedTail<V>(policy: Policy, items: Items<V>, chunks: seq<Items<V>>, k: nat, trace: seq<Event<V>>,
                           mine: Item<V> -> bool)
    requires Owned(trace, mine) && forall i :: 0 <= i < |items| ==> !mine(items[i])
    requires k <= |chunks| && MyCalls(trace) == TailCalls(chunks)[..k]
    ensures View(Replay(policy, items, trace), mine) == Concat(chunks[..k])
  {
    var up := seq(k, _ => true);
    MineUndisturbed(policy, items, trace, mine, up);
    ViewNone(items, mine);
    assert TailCalls(chunks)[..k] == TailCalls(chunks[..k]);
    TailPrefix(policy, [], chunks[..k], up);
    assert chunks[..k][..k] == chunks[..k];
  }

  /** A reversed head push of which the first `k` calls got through: its items read the last `k` chunks. */
  lemma InterleavedHead<V>(policy: Policy, items: Items<V>, chunks: seq<Items<V>>, k: nat, trace: seq<Event<V>>,
                           mine: Item<V> -> bool)
    requires Owned(trace, mine) && forall i :: 0 <= i < |items| ==> !mine(items[i])
    requires k <= |chunks| && MyCalls(trace) == HeadCalls(chunks)[..k]
    ensures View(Replay(policy, items, trace), mine) == Concat(chunks[|chunks| - k..])
  {
    var up := seq(k, _ => true);
    MineUndisturbed(policy, items, trace, mine, up);
    ViewNone(items, mine);
    var last := chunks[|chunks| - k..];
    assert HeadCalls(chunks)[..k] == HeadCalls(last);
    HeadSuffix(policy, [], last, up);
    assert last[|last| - k..] == last;
    assert Concat(last) + [] == Concat(last);
  }
}
