/** Chunked list inserts of smart/src/smart_client.cpp against the remote list they are replayed on. */
module Inserts {
  import opened Common

  /** One stored occurrence of a value. Servers compare values only; the id tells occurrences apart. */
  datatype Item<V> = Item(value: V, id: nat)

  type Items<V> = seq<Item<V>>

  /** The standalone client's list add primitives. A pivot may be null. */
  datatype Call<V> =
    | ToTail(block: Items<V>)
    | ToHead(block: Items<V>)
    | ToPosition(block: Items<V>, pos: nat)
    | Before(block: Items<V>, pivot: Option<V>)
    | After(block: Items<V>, pivot: Option<V>)

  /** What the server does with a position past the end, and with a pivot that is absent:
      it may reject the call, or append, or add nothing. */
  datatype Policy = Policy(clampPosition: bool, ignoreMissingPivot: bool)

  function InsertAt<V>(items: Items<V>, pos: nat, block: Items<V>): Items<V>
    requires pos <= |items|
  {
    items[..pos] + block + items[pos..]
  }

  /** Index of the first item with this value. */
  function FirstIndex<V(==)>(items: Items<V>, v: V): (at: nat)
    ensures at <= |items|
    ensures forall k :: 0 <= k < at ==> items[k].value != v
    ensures at < |items| ==> items[at].value == v
  {
    if items == [] || items[0].value == v then 0 else 1 + FirstIndex(items[1..], v)
  }

  /** The server's effect: None is a rejected call, which changes nothing. A null pivot is
      answered by the client itself, without a call. */
  function Apply<V(==)>(policy: Policy, items: Items<V>, call: Call<V>): Option<Items<V>> {
    match call
    case ToTail(block) => Some(items + block)
    case ToHead(block) => Some(block + items)
    case ToPosition(block, pos) =>
      if pos <= |items| then Some(InsertAt(items, pos, block))
      else if policy.clampPosition then Some(items + block)
      else None
    case Before(block, None) => Some(items)
    case After(block, None) => Some(items)
    case Before(block, Some(v)) =>
      var at := FirstIndex(items, v);
      if at < |items| then Some(InsertAt(items, at, block)) else Missing(policy, items)
    case After(block, Some(v)) =>
      var at := FirstIndex(items, v);
      if at < |items| then Some(InsertAt(items, at + 1, block)) else Missing(policy, items)
  }

  function Missing<V>(policy: Policy, items: Items<V>): Option<Items<V>> {
    if policy.ignoreMissingPivot then Some(items) else None
  }

  /** A sequential pipeline: the list it leaves, and how many calls succeeded. */
  datatype Run<V> = Run(items: Items<V>, done: nat)

  /** Calls run one after the other until one fails: `up[k]` says whether call k gets through. */
  function Pipeline<V(==)>(policy: Policy, items: Items<V>, calls: seq<Call<V>>, up: seq<bool>): (run: Run<V>)
    requires |up| == |calls|
    ensures run.done <= |calls|
    decreases |calls|
  {
    if calls == [] || !up[0] then Run(items, 0)
    else match Apply(policy, items, calls[0])
      case None => Run(items, 0)
      case Some(next) =>
        var rest := Pipeline(policy, next, calls[1..], up[1..]);
        Run(rest.items, 1 + rest.done)
  }

  ghost predicate AllUp(up: seq<bool>) { forall k :: 0 <= k < |up| ==> up[k] }

  // ---- the call lists the add methods build ----

  function TailCalls<V>(chunks: seq<Items<V>>): seq<Call<V>> {
    seq(|chunks|, i requires 0 <= i < |chunks| => ToTail(chunks[i]))
  }

  /** Head pushes go out last chunk first. */
  function HeadCalls<V>(chunks: seq<Items<V>>): (calls: seq<Call<V>>)
    ensures |calls| == |chunks|
  {
    seq(|chunks|, i requires 0 <= i < |chunks| => ToHead(chunks[|chunks| - 1 - i]))
  }

  function PositionCalls<V>(chunks: seq<Items<V>>, pos: nat): seq<Call<V>> {
    seq(|chunks|, i requires 0 <= i < |chunks| => ToPosition(chunks[i], Uint32(pos + |Concat(chunks[..i])|)))
  }

  function LastValue<V>(block: Items<V>): V
    requires block != []
  {
    block[|block| - 1].value
  }

  ghost predicate NoneEmpty<T>(chunks: seq<seq<T>>) { forall c :: 0 <= c < |chunks| ==> chunks[c] != [] }

  /** The first chunk is placed by `first`; every later one behind the last value of its predecessor. */
  function ChainCalls<V>(chunks: seq<Items<V>>, first: Call<V>): (calls: seq<Call<V>>)
    requires forall c :: 0 <= c < |chunks| ==> chunks[c] != []
    ensures |calls| == |chunks|
  {
    seq(|chunks|, i requires 0 <= i < |chunks| =>
      if i == 0 then first else After(chunks[i], Some(LastValue(chunks[i - 1]))))
  }

  // ---- following a pipeline ----

  /** A pipeline whose calls turn states[k] into states[k + 1] stops at one of these states. */
  lemma {:induction false} Follows<V>(policy: Policy, states: seq<Items<V>>, calls: seq<Call<V>>, up: seq<bool>)
    requires |up| == |calls| && |states| == |calls| + 1
    requires forall k :: 0 <= k < |calls| ==> Apply(policy, states[k], calls[k]) == Some(states[k + 1])
    ensures var run := Pipeline(policy, states[0], calls, up);
            && run.items == states[run.done]
            && (run.done < |calls| ==> !up[run.done])
            && (forall k :: 0 <= k < run.done ==> up[k])
  {
    if calls != [] && up[0] {
      forall k | 0 <= k < |calls[1..]|
        ensures Apply(policy, states[1..][k], calls[1..][k]) == Some(states[1..][k + 1])
      {
        assert Apply(policy, states[k + 1], calls[k + 1]) == Some(states[k + 1 + 1]);
      }
      assert Apply(policy, states[0], calls[0]) == Some(states[0 + 1]);
      Follows(policy, states[1..], calls[1..], up[1..]);
      var rest := Pipeline(policy, states[1], calls[1..], up[1..]);
      forall k | 0 <= k < 1 + rest.done ensures up[k] {
        assert k > 0 ==> up[k] == up[1..][k - 1];
      }
    }
  }

  /** A chunked tail append that stops after `done` calls has appended exactly the first `done` chunks. */
  lemma TailPrefix<V>(policy: Policy, items: Items<V>, chunks: seq<Items<V>>, up: seq<bool>)
    requires |up| == |chunks|
    ensures var run := Pipeline(policy, items, TailCalls(chunks), up);
            && run.items == items + Concat(chunks[..run.done])
            && (run.done < |chunks| ==> !up[run.done])
            && (forall k :: 0 <= k < run.done ==> up[k])
  {
    var states := seq(|chunks| + 1, k requires 0 <= k <= |chunks| => items + Concat(chunks[..k]));
    forall k | 0 <= k < |chunks| ensures Apply(policy, states[k], TailCalls(chunks)[k]) == Some(states[k + 1]) {
      ConcatStep(chunks, k);
      assert states[k + 1] == states[k] + chunks[k];
    }
    assert states[0] == items;
    Follows(policy, states, TailCalls(chunks), up);
  }

  /** A chunked head push that stops after `done` calls has pushed exactly the last `done` chunks. */
  lemma HeadSuffix<V>(policy: Policy, items: Items<V>, chunks: seq<Items<V>>, up: seq<bool>)
    requires |up| == |chunks|
    ensures var run := Pipeline(policy, items, HeadCalls(chunks), up);
            && run.items == Concat(chunks[|chunks| - run.done..]) + items
            && (run.done < |chunks| ==> !up[run.done])
            && (forall k :: 0 <= k < run.done ==> up[k])
  {
    hide Apply, HeadCalls;
    var n := |chunks|;
    var states := seq(n + 1, k requires 0 <= k <= n => Concat(chunks[n - k..]) + items);
    forall k | 0 <= k < n ensures Apply(policy, states[k], HeadCalls(chunks)[k]) == Some(states[k + 1]) {
      HeadStep(policy, items, chunks, k);
    }
    assert chunks[n..] == [] && states[0] == items;
    Follows(policy, states, HeadCalls(chunks), up);
  }

  lemma HeadStep<V>(policy: Policy, items: Items<V>, chunks: seq<Items<V>>, k: nat)
    requires k < |chunks|
    ensures Apply(policy, Concat(chunks[|chunks| - k..]) + items, HeadCalls(chunks)[k])
         == Some(Concat(chunks[|chunks| - k - 1..]) + items)
  {
    var from := |chunks| - k - 1;
    assert chunks[from..][1..] == chunks[from + 1..];
    assert Concat(chunks[from..]) + items == chunks[from] + (Concat(chunks[from + 1..]) + items);
  }

  /** The list with the first `k` chunks inserted as one block at `at`. */
  function Spliced<V>(items: Items<V>, at: nat, chunks: seq<Items<V>>, k: nat): Items<V>
    requires at <= |items| && k <= |chunks|
  {
    InsertAt(items, at, Concat(chunks[..k]))
  }

  lemma SplicedStep<V>(items: Items<V>, at: nat, chunks: seq<Items<V>>, k: nat)
    requires at <= |items| && k < |chunks|
    ensures |Spliced(items, at, chunks, k)| == |items| + |Concat(chunks[..k])|
    ensures Spliced(items, at, chunks, k + 1)
         == InsertAt(Spliced(items, at, chunks, k), at + |Concat(chunks[..k])|, chunks[k])
  {
    ConcatStep(chunks, k);
    var d := Concat(chunks[..k]);
    var s := Spliced(items, at, chunks, k);
    assert s == items[..at] + d + items[at..];
    assert s[..at + |d|] == items[..at] + d;
    assert s[at + |d|..] == items[at..];
  }

  lemma SplicedStart<V>(items: Items<V>, at: nat, chunks: seq<Items<V>>)
    requires at <= |items|
    ensures Spliced(items, at, chunks, 0) == items
  {}

  /** Call k places its chunk at index where[k] of the list in which all earlier chunks lie behind one
      another at `at`. */
  ghost predicate PlacesAt<V>(policy: Policy, items: Items<V>, at: nat, chunks: seq<Items<V>>, calls: seq<Call<V>>,
                              where: seq<nat>, k: nat)
    requires at <= |items| && k < |chunks| == |calls| == |where|
  {
    && where[k] <= |Spliced(items, at, chunks, k)|
    && Apply(policy, Spliced(items, at, chunks, k), calls[k])
    == Some(InsertAt(Spliced(items, at, chunks, k), where[k], chunks[k]))
  }

  /** The index right behind the first `k` chunks. */
  function Behind<V>(at: nat, chunks: seq<Items<V>>, k: nat): nat
    requires k <= |chunks|
  {
    at + |Concat(chunks[..k])|
  }

  /** If every chunk lands behind its predecessor, a run that stops after `done` calls has inserted
      exactly the first `done` chunks. */
  lemma PlacementPrefix<V>(policy: Policy, items: Items<V>, at: nat, chunks: seq<Items<V>>, calls: seq<Call<V>>,
                           where: seq<nat>, up: seq<bool>)
    requires at <= |items| && |chunks| == |calls| == |where| == |up|
    requires forall k :: 0 <= k < |chunks| ==> PlacesAt(policy, items, at, chunks, calls, where, k)
    requires forall k :: 0 <= k < |chunks| ==> where[k] == Behind(at, chunks, k)
    ensures var run := Pipeline(policy, items, calls, up);
            && run.items == Spliced(items, at, chunks, run.done)
            && (run.done < |chunks| ==> !up[run.done])
            && (forall k :: 0 <= k < run.done ==> up[k])
  {
    hide Apply;
    var states := seq(|chunks| + 1, k requires 0 <= k <= |chunks| => Spliced(items, at, chunks, k));
    forall k | 0 <= k < |calls| ensures Apply(policy, states[k], calls[k]) == Some(states[k + 1]) {
      assert PlacesAt(policy, items, at, chunks, calls, where, k);
      SplicedStep(items, at, chunks, k);
    }
    SplicedStart(items, at, chunks);
    Follows(policy, states, calls, up);
  }

  // ---- order, which no insert disturbs ----

  ghost predicate Precedes<T>(s: seq<T>, x: T, y: T) {
    exists i, j :: 0 <= i < j < |s| && s[i] == x && s[j] == y
  }

  lemma PrecedesInsert<V>(s: Items<V>, pos: nat, block: Items<V>, x: Item<V>, y: Item<V>)
    requires pos <= |s| && Precedes(s, x, y)
    ensures Precedes(InsertAt(s, pos, block), x, y)
  {
    var i, j :| 0 <= i < j < |s| && s[i] == x && s[j] == y;
    var t := InsertAt(s, pos, block);
    var i' := if i < pos then i else i + |block|;
    var j' := if j < pos then j else j + |block|;
    assert t[i'] == x && t[j'] == y;
  }

  lemma PrecedesApply<V>(policy: Policy, s: Items<V>, call: Call<V>, x: Item<V>, y: Item<V>)
    requires Precedes(s, x, y) && Apply(policy, s, call).Some?
    ensures Precedes(Apply(policy, s, call).value, x, y)
  {
    var t := Apply(policy, s, call).value;
    if t != s {
      assert InsertAt(s, |s|, call.block) == s + call.block;
      assert InsertAt(s, 0, call.block) == call.block + s;
      var pos :| 0 <= pos <= |s| && t == InsertAt(s, pos, call.block);
      PrecedesInsert(s, pos, call.block, x, y);
    }
  }

  lemma {:induction false} PrecedesPipeline<V>(policy: Policy, s: Items<V>, calls: seq<Call<V>>, up: seq<bool>,
                                              x: Item<V>, y: Item<V>)
    requires |up| == |calls| && Precedes(s, x, y)
    ensures Precedes(Pipeline(policy, s, calls, up).items, x, y)
    decreases |calls|
  {
    if calls != [] && up[0] && Apply(policy, s, calls[0]).Some? {
      PrecedesApply(policy, s, calls[0], x, y);
      PrecedesPipeline(policy, Apply(policy, s, calls[0]).value, calls[1..], up[1..], x, y);
    }
  }

  /** Once a chunk went in at the wrong place, no later call can mend the list. */
  lemma Misplaced<V>(policy: Policy, s: Items<V>, q: nat, p: nat, block: Items<V>, rest: Items<V>,
                     calls: seq<Call<V>>, up: seq<bool>)
    requires q <= |s| && p <= |s| && q != p && block != [] && |up| == |calls|
    requires Distinct(InsertAt(s, p, block + rest))
    ensures Pipeline(policy, InsertAt(s, q, block), calls, up).items != InsertAt(s, p, block + rest)
  {
    var wrong, goal := InsertAt(s, q, block), InsertAt(s, p, block + rest);
    assert goal[p] == block[0] && wrong[q] == block[0];
    var x, y;
    if q < p {
      x, y := block[0], s[q];
      assert wrong[q + |block|] == s[q] && goal[q] == s[q];
    } else {
      x, y := s[q - 1], block[0];
      assert wrong[q - 1] == s[q - 1] && goal[q - 1 + |block + rest|] == s[q - 1];
    }
    assert Precedes(goal, y, x);
    PrecedesPipeline(policy, wrong, calls, up, x, y);
    var final := Pipeline(policy, wrong, calls, up).items;
    if final == goal {
      NotBoth(goal, x, y);
    }
  }

  lemma NotBoth<T>(s: seq<T>, x: T, y: T)
    requires Distinct(s) && Precedes(s, x, y)
    ensures !Precedes(s, y, x)
  {
    var i, j :| 0 <= i < j < |s| && s[i] == x && s[j] == y;
    forall k, l | 0 <= k < l < |s| && s[k] == y ensures s[l] != x {
      assert k == j;
    }
  }

  // ---- when a chunked insert is the unsplit insert ----

  /** A pipeline that reached states[k] continues from there. */
  lemma {:induction false} Resume<V>(policy: Policy, states: seq<Items<V>>, calls: seq<Call<V>>, up: seq<bool>, k: nat)
    requires |up| == |calls| && AllUp(up) && k <= |calls| && |states| == k + 1
    requires forall i :: 0 <= i < k ==> Apply(policy, states[i], calls[i]) == Some(states[i + 1])
    ensures Pipeline(policy, states[0], calls, up).items == Pipeline(policy, states[k], calls[k..], up[k..]).items
  {
    if k == 0 {
      assert calls[0..] == calls && up[0..] == up;
    } else {
      forall i | 0 <= i < k - 1
        ensures Apply(policy, states[1..][i], calls[1..][i]) == Some(states[1..][i + 1])
      {
        assert Apply(policy, states[i + 1], calls[i + 1]) == Some(states[i + 1 + 1]);
      }
      assert Apply(policy, states[0], calls[0]) == Some(states[0 + 1]);
      Resume(policy, states[1..], calls[1..], up[1..], k - 1);
      assert calls[1..][k - 1..] == calls[k..] && up[1..][k - 1..] == up[k..];
    }
  }

  /** If the first `k` chunks went in behind one another at `at` and chunk `k` went in elsewhere,
      the run does not end in the unsplit insert. */
  lemma StrayChunk<V>(policy: Policy, items: Items<V>, at: nat, chunks: seq<Items<V>>, calls: seq<Call<V>>,
                      where: seq<nat>, up: seq<bool>, k: nat)
    requires at <= |items| && |chunks| == |calls| == |where| == |up| && k < |chunks|
    requires NoneEmpty(chunks) && AllUp(up) && Distinct(Spliced(items, at, chunks, |chunks|))
    requires forall i :: 0 <= i <= k ==> PlacesAt(policy, items, at, chunks, calls, where, i)
    requires forall i :: 0 <= i < k ==> where[i] == Behind(at, chunks, i)
    requires where[k] != Behind(at, chunks, k)
    ensures Pipeline(policy, items, calls, up).items != Spliced(items, at, chunks, |chunks|)
  {
    hide Apply, Spliced, InsertAt, Distinct;
    var s := Spliced(items, at, chunks, k);
    var states := seq(k + 1, i requires 0 <= i <= k => Spliced(items, at, chunks, i));
    SplicedStart(items, at, chunks);
    forall i | 0 <= i < k ensures Apply(policy, states[i], calls[i]) == Some(states[i + 1]) {
      assert PlacesAt(policy, items, at, chunks, calls, where, i);
      SplicedStep(items, at, chunks, i);
    }
    Resume(policy, states, calls, up, k);
    assert PlacesAt(policy, items, at, chunks, calls, where, k);
    assert calls[k..][0] == calls[k] && calls[k..][1..] == calls[k + 1..];
    GoalFrom(items, at, chunks, k);
    Misplaced(policy, s, where[k], Behind(at, chunks, k), chunks[k], Concat(chunks[k + 1..]),
              calls[k..][1..], up[k..][1..]);
  }

  lemma GoalFrom<V>(items: Items<V>, at: nat, chunks: seq<Items<V>>, k: nat)
    requires at <= |items| && k < |chunks|
    ensures Behind(at, chunks, k) <= |Spliced(items, at, chunks, k)|
    ensures Spliced(items, at, chunks, |chunks|)
         == InsertAt(Spliced(items, at, chunks, k), Behind(at, chunks, k), chunks[k] + Concat(chunks[k + 1..]))
  {
    var d, s := Concat(chunks[..k]), Spliced(items, at, chunks, k);
    ConcatTake(chunks, k);
    assert chunks[..|chunks|] == chunks;
    assert chunks[k..][1..] == chunks[k + 1..];
    assert Concat(chunks[k..]) == chunks[k] + Concat(chunks[k + 1..]);
    assert s[..at + |d|] == items[..at] + d;
    assert s[at + |d|..] == items[at..];
  }

  /** The chunked insert is the unsplit insert of the whole block at `at` if and only if every chunk
      lands right behind its predecessor. */
  lemma PlacementExact<V>(policy: Policy, items: Items<V>, at: nat, chunks: seq<Items<V>>, calls: seq<Call<V>>,
                          where: seq<nat>, up: seq<bool>)
    requires at <= |items| && |chunks| == |calls| == |where| == |up|
    requires NoneEmpty(chunks) && AllUp(up) && Distinct(InsertAt(items, at, Concat(chunks)))
    requires forall k :: 0 <= k < |chunks| ==> PlacesAt(policy, items, at, chunks, calls, where, k)
    ensures Pipeline(policy, items, calls, up).items == InsertAt(items, at, Concat(chunks))
       <==> forall k :: 0 <= k < |chunks| ==> where[k] == Behind(at, chunks, k)
  {
    hide PlacesAt, Distinct, Behind;
    assert chunks[..|chunks|] == chunks;
    if forall k :: 0 <= k < |chunks| ==> where[k] == Behind(at, chunks, k) {
      PlacementPrefix(policy, items, at, chunks, calls, where, up);
    } else {
      var k := 0;
      while where[k] == Behind(at, chunks, k)
        invariant k < |chunks|
        invariant forall i :: 0 <= i < k ==> where[i] == Behind(at, chunks, i)
        decreases |chunks| - k
      {
        k := k + 1;
      }
      StrayChunk(policy, items, at, chunks, calls, where, up, k);
    }
  }

  // ---- positional inserts ----

  function Min(a: nat, b: nat): nat { if a <= b then a else b }

  /** Where the server puts chunk k: at the 32-bit position, or at the end of the list. */
  function PositionsOf<V>(size: nat, chunks: seq<Items<V>>, pos: nat): (where: seq<nat>)
    ensures |where| == |chunks|
  {
    seq(|chunks|, k requires 0 <= k < |chunks| => Min(Uint32(Behind(pos, chunks, k)), Behind(size, chunks, k)))
  }

  lemma PositionPlaces<V>(policy: Policy, items: Items<V>, chunks: seq<Items<V>>, pos: nat, k: nat)
    requires k < |chunks| && pos < UINT32 && (pos <= |items| || policy.clampPosition)
    ensures PlacesAt(policy, items, Min(pos, |items|), chunks, PositionCalls(chunks, pos),
                     PositionsOf(|items|, chunks, pos), k)
  {
    var s, q := Spliced(items, Min(pos, |items|), chunks, k), Uint32(Behind(pos, chunks, k));
    assert |s| == Behind(|items|, chunks, k);
    assert PositionCalls(chunks, pos)[k] == ToPosition(chunks[k], q);
    if q > |s| {
      assert pos > |items|;
      assert InsertAt(s, |s|, chunks[k]) == s + chunks[k];
    }
  }

  /** A chunked insert at a position inside the list equals the unsplit one, for every list content,
      if and only if the position of the last chunk does not wrap around 2^32. */
  lemma PositionExact<V>(policy: Policy, items: Items<V>, chunks: seq<Items<V>>, pos: nat, up: seq<bool>)
    requires pos < UINT32 && pos <= |items| && chunks != []
    requires NoneEmpty(chunks) && |up| == |chunks| && AllUp(up)
    requires Distinct(InsertAt(items, pos, Concat(chunks)))
    ensures Pipeline(policy, items, PositionCalls(chunks, pos), up).items == InsertAt(items, pos, Concat(chunks))
       <==> Behind(pos, chunks, |chunks| - 1) < UINT32
  {
    hide PlacesAt, InsertAt, Distinct;
    var where := PositionsOf(|items|, chunks, pos);
    forall k | 0 <= k < |chunks| ensures PlacesAt(policy, items, pos, chunks, PositionCalls(chunks, pos), where, k) {
      PositionPlaces(policy, items, chunks, pos, k);
    }
    PlacementExact(policy, items, pos, chunks, PositionCalls(chunks, pos), where, up);
    forall k | 0 <= k < |chunks| ensures where[k] == Behind(pos, chunks, k) <==> Behind(pos, chunks, k) < UINT32 {
      WrapMoves(Behind(pos, chunks, k), Behind(|items|, chunks, k));
    }
    forall k | 0 <= k < |chunks| ensures Behind(pos, chunks, k) <= Behind(pos, chunks, |chunks| - 1) {
      BehindGrows(pos, chunks, k, |chunks| - 1);
    }
  }

  lemma WrapMoves(p: nat, size: nat)
    requires p <= size
    ensures Min(Uint32(p), size) == p <==> p < UINT32
  {}

  lemma BehindGrows<V>(at: nat, chunks: seq<Items<V>>, j: nat, k: nat)
    requires j <= k <= |chunks|
    ensures Behind(at, chunks, j) <= Behind(at, chunks, k)
  {
    assert chunks[..k][..j] == chunks[..j];
    ConcatTake(chunks[..k], j);
  }

  /** Past the end of the list a clamping server appends, and the chunked insert is the unsplit one
      if and only if no wrapped position falls back inside the list. */
  lemma PositionPastEndExact<V>(policy: Policy, items: Items<V>, chunks: seq<Items<V>>, pos: nat, up: seq<bool>)
    requires |items| < pos < UINT32 && policy.clampPosition && chunks != []
    requires NoneEmpty(chunks) && |up| == |chunks| && AllUp(up)
    requires Distinct(InsertAt(items, |items|, Concat(chunks)))
    ensures Pipeline(policy, items, PositionCalls(chunks, pos), up).items == InsertAt(items, |items|, Concat(chunks))
       <==> forall k :: 0 <= k < |chunks| ==> Behind(|items|, chunks, k) <= Uint32(Behind(pos, chunks, k))
  {
    hide PlacesAt, InsertAt, Distinct;
    var where := PositionsOf(|items|, chunks, pos);
    forall k | 0 <= k < |chunks|
      ensures PlacesAt(policy, items, |items|, chunks, PositionCalls(chunks, pos), where, k)
    {
      PositionPlaces(policy, items, chunks, pos, k);
    }
    PlacementExact(policy, items, |items|, chunks, PositionCalls(chunks, pos), where, up);
    forall k | 0 <= k < |chunks|
      ensures where[k] == Behind(|items|, chunks, k) <==> Behind(|items|, chunks, k) <= Uint32(Behind(pos, chunks, k))
    {
      assert where[k] == Min(Uint32(Behind(pos, chunks, k)), Behind(|items|, chunks, k));
    }
  }

  /** On a server that clamps, a position near 2^32 sends the second chunk to the head of the list. */
  lemma WrapWitness(x: Item<int>, y: Item<int>, z: Item<int>)
    ensures var run := Pipeline(Policy(true, false), [z], PositionCalls([[x], [y]], 0xFFFF_FFFF), [true, true]);
            run.items == [y, z, x] && run.done == 2
    ensures Apply(Policy(true, false), [z], ToPosition([x, y], 0xFFFF_FFFF)) == Some([z, x, y])
  {
    var calls := PositionCalls([[x], [y]], 0xFFFF_FFFF);
    assert [[x], [y]][..0] == [] && [[x], [y]][..1] == [[x]];
    assert Concat([[x]]) == [x];
    assert calls == [ToPosition([x], 0xFFFF_FFFF), ToPosition([y], 0)];
    var policy := Policy(true, false);
    assert [z] + [x] == [z, x];
    assert Apply(policy, [z], calls[0]) == Some([z, x]);
    assert InsertAt([z, x], 0, [y]) == [y, z, x];
    assert Apply(policy, [z, x], calls[1]) == Some([y, z, x]);
    TwoCalls(policy, [z], calls, [z, x], [y, z, x]);
    assert [z] + [x, y] == [z, x, y];
  }

  // ---- inserts chained by value ----

  /** The anchor of chunk k occurs first where it was just inserted: not in the list before the insert
      point, nor in the data inserted so far. */
  ghost predicate AnchorFresh<V>(items: Items<V>, at: nat, chunks: seq<Items<V>>, k: nat)
    requires at <= |items| && 1 <= k < |chunks| && chunks[k - 1] != []
  {
    var d := Concat(chunks[..k]);
    && (forall i :: 0 <= i < at ==> items[i].value != LastValue(chunks[k - 1]))
    && (forall i :: 0 <= i < |d| - 1 ==> d[i].value != LastValue(chunks[k - 1]))
  }

  /** Where a chained call puts chunk k. */
  function ChainOf<V(==)>(items: Items<V>, at: nat, chunks: seq<Items<V>>): (where: seq<nat>)
    requires at <= |items| && forall c :: 0 <= c < |chunks| ==> chunks[c] != []
    ensures |where| == |chunks|
  {
    seq(|chunks|, k requires 0 <= k < |chunks| =>
      if k == 0 then at else FirstIndex(Spliced(items, at, chunks, k), LastValue(chunks[k - 1])) + 1)
  }

  /** Reading the list that has the first chunks in place. */
  lemma SplicedAt<V>(items: Items<V>, at: nat, chunks: seq<Items<V>>, k: nat)
    requires at <= |items| && k <= |chunks|
    ensures var s, d := Spliced(items, at, chunks, k), Concat(chunks[..k]);
            && Behind(at, chunks, k) <= |s|
            && (forall i :: 0 <= i < at ==> s[i] == items[i])
            && (forall i :: at <= i < at + |d| ==> s[i] == d[i - at])
  {}

  lemma AnchorStands<V>(items: Items<V>, at: nat, chunks: seq<Items<V>>, k: nat)
    requires at <= |items| && NoneEmpty(chunks) && 1 <= k < |chunks|
    ensures var s, a := Spliced(items, at, chunks, k), LastValue(chunks[k - 1]);
            && 1 <= Behind(at, chunks, k) <= |s|
            && FirstIndex(s, a) < |s|
            && (FirstIndex(s, a) + 1 == Behind(at, chunks, k) <==> AnchorFresh(items, at, chunks, k))
  {
    hide Spliced, FirstIndex;
    var s, a, p := Spliced(items, at, chunks, k), LastValue(chunks[k - 1]), Behind(at, chunks, k);
    var d := Concat(chunks[..k]);
    ConcatStep(chunks, k - 1);
    assert d[|d| - 1] == chunks[k - 1][|chunks[k - 1]| - 1];
    SplicedAt(items, at, chunks, k);
    assert s[p - 1].value == a;
    var f := FirstIndex(s, a);
    if f < p - 1 {
      assert f >= at ==> d[f - at].value == a;
    } else {
      forall i | 0 <= i < |d| - 1 ensures d[i].value != a {
        assert s[at + i] == d[i];
      }
    }
  }

  lemma ChainPlaces<V>(policy: Policy, items: Items<V>, at: nat, chunks: seq<Items<V>>, first: Call<V>, k: nat)
    requires at <= |items| && NoneEmpty(chunks) && k < |chunks|
    requires Apply(policy, items, first) == Some(InsertAt(items, at, chunks[0]))
    ensures PlacesAt(policy, items, at, chunks, ChainCalls(chunks, first), ChainOf(items, at, chunks), k)
  {
    if k == 0 {
      SplicedStart(items, at, chunks);
    } else {
      AnchorStands(items, at, chunks, k);
    }
  }

  lemma ChainInOrder<V>(items: Items<V>, at: nat, chunks: seq<Items<V>>)
    requires at <= |items| && NoneEmpty(chunks) && chunks != []
    ensures (forall k :: 0 <= k < |chunks| ==> ChainOf(items, at, chunks)[k] == Behind(at, chunks, k))
       <==> (forall k :: 1 <= k < |chunks| ==> AnchorFresh(items, at, chunks, k))
  {
    hide AnchorFresh, Spliced;
    var where := ChainOf(items, at, chunks);
    assert where[0] == Behind(at, chunks, 0);
    forall k | 1 <= k < |chunks| ensures where[k] == Behind(at, chunks, k) <==> AnchorFresh(items, at, chunks, k) {
      AnchorStands(items, at, chunks, k);
    }
  }

  /** Chunks chained by anchors: the run equals the unsplit insert if and only if every anchor is fresh. */
  lemma ChainExact<V>(policy: Policy, items: Items<V>, at: nat, chunks: seq<Items<V>>, first: Call<V>, up: seq<bool>)
    requires at <= |items| && NoneEmpty(chunks) && chunks != [] && |up| == |chunks| && AllUp(up)
    requires Apply(policy, items, first) == Some(InsertAt(items, at, chunks[0]))
    requires Distinct(InsertAt(items, at, Concat(chunks)))
    ensures Pipeline(policy, items, ChainCalls(chunks, first), up).items == InsertAt(items, at, Concat(chunks))
       <==> forall k :: 1 <= k < |chunks| ==> AnchorFresh(items, at, chunks, k)
  {
    hide PlacesAt, InsertAt, Distinct, Apply, AnchorFresh, Behind, ChainOf, ChainCalls, Pipeline;
    ChainAllPlaced(policy, items, at, chunks, first);
    ChainInOrder(items, at, chunks);
    PlacementExact(policy, items, at, chunks, ChainCalls(chunks, first), ChainOf(items, at, chunks), up);
  }

  lemma ChainAllPlaced<V>(policy: Policy, items: Items<V>, at: nat, chunks: seq<Items<V>>, first: Call<V>)
    requires at <= |items| && NoneEmpty(chunks) && chunks != []
    requires Apply(policy, items, first) == Some(InsertAt(items, at, chunks[0]))
    ensures forall k :: 0 <= k < |chunks| ==>
      PlacesAt(policy, items, at, chunks, ChainCalls(chunks, first), ChainOf(items, at, chunks), k)
  {
    hide PlacesAt, InsertAt, Apply;
    forall k | 0 <= k < |chunks|
      ensures PlacesAt(policy, items, at, chunks, ChainCalls(chunks, first), ChainOf(items, at, chunks), k)
    {
      ChainPlaces(policy, items, at, chunks, first, k);
    }
  }

  /** With fresh anchors, a chained run that stops after `done` calls has inserted exactly the first
      `done` chunks. Items need not be distinct here. */
  lemma ChainPrefix<V>(policy: Policy, items: Items<V>, at: nat, chunks: seq<Items<V>>, first: Call<V>, up: seq<bool>)
    requires at <= |items| && NoneEmpty(chunks) && chunks != [] && |up| == |chunks|
    requires Apply(policy, items, first) == Some(InsertAt(items, at, chunks[0]))
    requires forall k :: 1 <= k < |chunks| ==> AnchorFresh(items, at, chunks, k)
    ensures var run := Pipeline(policy, items, ChainCalls(chunks, first), up);
            && run.items == Spliced(items, at, chunks, run.done)
            && (run.done < |chunks| ==> !up[run.done])
            && (forall k :: 0 <= k < run.done ==> up[k])
  {
    hide PlacesAt, InsertAt, Apply, AnchorFresh, Behind, ChainOf, ChainCalls, Pipeline, Spliced;
    ChainAllPlaced(policy, items, at, chunks, first);
    ChainInOrder(items, at, chunks);
    PlacementPrefix(policy, items, at, chunks, ChainCalls(chunks, first), ChainOf(items, at, chunks), up);
  }

  /** Insert-before: the insert point is the first item with the pivot's value. */
  lemma BeforeExact<V>(policy: Policy, items: Items<V>, pivot: V, at: nat, chunks: seq<Items<V>>, up: seq<bool>)
    requires NoneEmpty(chunks) && chunks != [] && |up| == |chunks| && AllUp(up)
    requires at == FirstIndex(items, pivot) < |items|
    requires Distinct(InsertAt(items, at, Concat(chunks)))
    ensures Some(Pipeline(policy, items, ChainCalls(chunks, Before(chunks[0], Some(pivot))), up).items)
         == Apply(policy, items, Before(Concat(chunks), Some(pivot)))
       <==> forall k :: 1 <= k < |chunks| ==> AnchorFresh(items, at, chunks, k)
  {
    ChainExact(policy, items, at, chunks, Before(chunks[0], Some(pivot)), up);
  }

  /** Insert-after: the pivot itself belongs to the part of the list the anchors must avoid. */
  lemma AfterExact<V>(policy: Policy, items: Items<V>, pivot: V, at: nat, chunks: seq<Items<V>>, up: seq<bool>)
    requires NoneEmpty(chunks) && chunks != [] && |up| == |chunks| && AllUp(up)
    requires FirstIndex(items, pivot) < |items| && at == FirstIndex(items, pivot) + 1
    requires Distinct(InsertAt(items, at, Concat(chunks)))
    ensures Some(Pipeline(policy, items, ChainCalls(chunks, After(chunks[0], Some(pivot))), up).items)
         == Apply(policy, items, After(Concat(chunks), Some(pivot)))
       <==> forall k :: 1 <= k < |chunks| ==> AnchorFresh(items, at, chunks, k)
  {
    ChainExact(policy, items, at, chunks, After(chunks[0], Some(pivot)), up);
  }

  /** A stale anchor, concretely: inserting [8] [9] before 5 in [8, 5] puts 9 in front of the new 8. */
  lemma StaleAnchorWitness(policy: Policy, a: Item<int>, b: Item<int>, c: Item<int>, d: Item<int>)
    requires a.value == 8 && b.value == 5 && c.value == 8 && d.value == 9
    ensures Pipeline(policy, [a, b], ChainCalls([[c], [d]], Before([c], Some(5))), [true, true]).items == [a, d, c, b]
    ensures Apply(policy, [a, b], Before([c, d], Some(5))) == Some([a, c, d, b])
  {
    var calls := ChainCalls([[c], [d]], Before([c], Some(5)));
    assert calls == [Before([c], Some(5)), After([d], Some(8))];
    assert FirstIndex([a, b], 5) == 1;
    assert InsertAt([a, b], 1, [c]) == [a, c, b] && InsertAt([a, b], 1, [c, d]) == [a, c, d, b];
    assert FirstIndex([a, c, b], 8) == 0;
    assert InsertAt([a, c, b], 1, [d]) == [a, d, c, b];
    TwoCalls(policy, [a, b], calls, [a, c, b], [a, d, c, b]);
  }

  lemma TwoCalls<V>(policy: Policy, items: Items<V>, calls: seq<Call<V>>, mid: Items<V>, end: Items<V>)
    requires |calls| == 2
    requires Apply(policy, items, calls[0]) == Some(mid) && Apply(policy, mid, calls[1]) == Some(end)
    ensures Pipeline(policy, items, calls, [true, true]) == Run(end, 2)
  {
    assert calls[1..][0] == calls[1] && [true, true][1..] == [true];
    assert Pipeline(policy, mid, calls[1..], [true]) == Run(end, 1);
  }

  // ---- null pivots ----

  lemma {:induction false} NeverShrinks<V>(policy: Policy, items: Items<V>, calls: seq<Call<V>>, up: seq<bool>)
    requires |up| == |calls|
    ensures |Pipeline(policy, items, calls, up).items| >= |items|
    decreases |calls|
  {
    if calls != [] && up[0] && Apply(policy, items, calls[0]).Some? {
      NeverShrinks(policy, Apply(policy, items, calls[0]).value, calls[1..], up[1..]);
    }
  }

  /** A run of anchored calls leaves the list alone exactly when no anchor it gets to is in the list;
      a rejecting server ends the run at the first missing anchor. */
  lemma {:induction false} AnchorsMiss<V>(policy: Policy, items: Items<V>, calls: seq<Call<V>>, up: seq<bool>)
    requires |up| == |calls| && AllUp(up)
    requires forall c :: 0 <= c < |calls| ==> calls[c].After? && calls[c].block != [] && calls[c].pivot.Some?
    ensures Pipeline(policy, items, calls, up).items == items
       <==> forall c :: 0 <= c < |calls| && (policy.ignoreMissingPivot || c == 0) ==>
              FirstIndex(items, calls[c].pivot.value) == |items|
    decreases |calls|
  {
    if calls != [] {
      var call := calls[0];
      if FirstIndex(items, call.pivot.value) < |items| {
        NeverShrinks(policy, Apply(policy, items, call).value, calls[1..], up[1..]);
      } else if policy.ignoreMissingPivot {
        AnchorsMiss(policy, items, calls[1..], up[1..]);
        assert forall c :: 1 <= c < |calls| ==> calls[c] == calls[1..][c - 1];
      }
    }
  }

  /** Behind the first chunk the anchor of chunk k is looked up in a list that does not have it. */
  ghost predicate AnchorMissing<V>(items: Items<V>, chunks: seq<Items<V>>, k: nat)
    requires 1 <= k < |chunks| && chunks[k - 1] != []
  {
    FirstIndex(items, LastValue(chunks[k - 1])) == |items|
  }

  /** Without a pivot in the list an insert adds nothing in one piece, or fails: the pivot is null, or absent
      and the server ignores that, or absent and the server rejects it. */
  lemma PivotMissing<V>(policy: Policy, items: Items<V>, block: Items<V>, pivot: Option<V>)
    requires block != []
    ensures pivot.None? || FirstIndex(items, pivot.value) == |items| <==>
              Apply(policy, items, Before(block, pivot)) in {Some(items), None}
    ensures Apply(policy, items, After(block, pivot)) == Some(items) <==>
              pivot.None? || (FirstIndex(items, pivot.value) == |items| && policy.ignoreMissingPivot)
    ensures Apply(policy, items, Before(block, pivot)) == Some(items)
       <==> Apply(policy, items, After(block, pivot)) == Some(items)
    ensures Apply(policy, items, Before(block, pivot)) == None <==> Apply(policy, items, After(block, pivot)) == None
  {
    if pivot.Some? && FirstIndex(items, pivot.value) < |items| {
      var at := FirstIndex(items, pivot.value);
      assert |InsertAt(items, at, block)| > |items| && |InsertAt(items, at + 1, block)| > |items|;
    }
  }

  /** A server that rejects the absent pivot refuses the first chunk, as it refuses the unsplit insert. */
  lemma PivotRejected<V>(policy: Policy, items: Items<V>, chunks: seq<Items<V>>, first: Call<V>, up: seq<bool>)
    requires NoneEmpty(chunks) && chunks != [] && |up| == |chunks| && Apply(policy, items, first) == None
    ensures Pipeline(policy, items, ChainCalls(chunks, first), up) == Run(items, 0)
  {
    assert ChainCalls(chunks, first)[0] == first;
  }

  /** When the first chunk adds nothing, neither does the unsplit insert. The chunked insert then adds
      nothing if and only if no later anchor that is reached occurs in the list; a rejecting server is
      reached by the first one only. */
  lemma NoPivotExact<V>(policy: Policy, items: Items<V>, chunks: seq<Items<V>>, first: Call<V>, up: seq<bool>)
    requires NoneEmpty(chunks) && chunks != [] && |up| == |chunks| && AllUp(up)
    requires Apply(policy, items, first) == Some(items)
    ensures Pipeline(policy, items, ChainCalls(chunks, first), up).items == items
       <==> forall k :: 1 <= k < |chunks| && (policy.ignoreMissingPivot || k == 1) ==> AnchorMissing(items, chunks, k)
  {
    hide FirstIndex;
    var calls := ChainCalls(chunks, first);
    var later := calls[1..];
    assert Pipeline(policy, items, calls, up).items == Pipeline(policy, items, later, up[1..]).items;
    forall c | 0 <= c < |later| ensures later[c] == After(chunks[c + 1], Some(LastValue(chunks[c + 1 - 1]))) {}
    AnchorsMiss(policy, items, later, up[1..]);
    forall c | 0 <= c < |later|
      ensures FirstIndex(items, later[c].pivot.value) == |items| <==> AnchorMissing(items, chunks, c + 1)
    {}
    if forall c :: 0 <= c < |later| && (policy.ignoreMissingPivot || c == 0) ==>
         FirstIndex(items, later[c].pivot.value) == |items|
    {
      forall k | 1 <= k < |chunks| && (policy.ignoreMissingPivot || k == 1) ensures AnchorMissing(items, chunks, k) {
        assert FirstIndex(items, later[k - 1].pivot.value) == |items|;
      }
    } else {
      var c :| 0 <= c < |later| && (policy.ignoreMissingPivot || c == 0)
        && FirstIndex(items, later[c].pivot.value) != |items|;
      assert !AnchorMissing(items, chunks, c + 1);
    }
  }
}
