/** The add and create methods of smart/src/smart_client.cpp: split, build the calls, run them in order
    on the remote container. */
module Pipelines {
  import opened Common
  import opened Inserts
  import opened Chunks

  /** What the network makes of one call: whether it gets through, and the count the server reports. */
  datatype Reply = Reply(up: bool, count: nat)

  type Network = nat -> Reply

  datatype Failure = CallFailed

  function Ups(net: Network, n: nat): seq<bool> {
    seq(n, k requires 0 <= k < n => net(k).up)
  }

  /** The count a call contributes; with a null pivot the client answers 0 itself. */
  function CountOf<V>(call: Call<V>, reply: Reply): nat {
    if (call.Before? || call.After?) && call.pivot.None? then 0 else reply.count
  }

  function Counts<V>(calls: seq<Call<V>>, net: Network): nat {
    if calls == [] then 0
    else Counts(calls[..|calls| - 1], net) + CountOf(calls[|calls| - 1], net(|calls| - 1))
  }

  /** The list on the server, and every call sent to it. */
  class RemoteList<V(==)> {
    var items: Items<V>
    ghost var log: seq<Call<V>>
    const policy: Policy

    constructor (policy: Policy, items: Items<V>)
      ensures this.policy == policy && this.items == items && log == []
    {
      this.policy := policy;
      this.items := items;
      log := [];
    }

    /** One remote call; a failed one has no effect. */
    method Invoke(call: Call<V>, reply: Reply) returns (r: Result<nat, Failure>)
      modifies this
      ensures log == old(log) + [call]
      ensures r.Ok? <==> reply.up && Apply(policy, old(items), call).Some?
      ensures r.Ok? ==> Some(items) == Apply(policy, old(items), call) && r.value == CountOf(call, reply)
      ensures r.Err? ==> items == old(items)
    {
      log := log + [call];
      var next := Apply(policy, items, call);
      if !reply.up || next.None? {
        return Err(CallFailed);
      }
      items := next.value;
      r := Ok(CountOf(call, reply));
    }
  }

  lemma PipelineUnfolds<V>(policy: Policy, items: Items<V>, calls: seq<Call<V>>, up: seq<bool>, k: nat)
    requires k < |calls| == |up|
    ensures var run := Pipeline(policy, items, calls[k..], up[k..]);
            if !up[k] || Apply(policy, items, calls[k]).None? then run == Run(items, 0)
            else var rest := Pipeline(policy, Apply(policy, items, calls[k]).value, calls[k + 1..], up[k + 1..]);
                 run == Run(rest.items, 1 + rest.done)
  {
    assert calls[k..][1..] == calls[k + 1..] && up[k..][1..] == up[k + 1..];
  }

  lemma CountsStep<V>(calls: seq<Call<V>>, net: Network, k: nat)
    requires k < |calls|
    ensures Counts(calls[..k + 1], net) == Counts(calls[..k], net) + CountOf(calls[k], net(k))
  {
    assert calls[..k + 1][..k] == calls[..k];
  }

  /** The counts that the first `n` replies report. */
  function CountSum(net: Network, n: nat): nat {
    if n == 0 then 0 else CountSum(net, n - 1) + net(n - 1).count
  }

  predicate HasNullPivot<V>(call: Call<V>) { (call.Before? || call.After?) && call.pivot.None? }

  /** Every call contributes the count reported for it; a first call with a null pivot contributes none. */
  lemma {:induction false} CountsAreReported<V>(calls: seq<Call<V>>, net: Network)
    requires forall k :: 1 <= k < |calls| ==> !HasNullPivot(calls[k])
    ensures Counts(calls, net) + (if calls != [] && HasNullPivot(calls[0]) then net(0).count else 0)
         == CountSum(net, |calls|)
    decreases |calls|
  {
    if calls != [] {
      CountsAreReported(calls[..|calls| - 1], net);
    }
  }

  lemma Uint32Add(a: nat, b: nat)
    ensures Uint32(Uint32(a) + b) == Uint32(a + b)
  {}

  /** The calls a run sends: those that succeed and the one that fails. */
  function Sent<V>(calls: seq<Call<V>>, done: nat): seq<Call<V>> {
    if done < |calls| then calls[..done + 1] else calls
  }

  /** Sequential calls with 32-bit summation of the results; the first failure ends the run. */
  method RunAddPipeline<V>(list: RemoteList<V>, calls: seq<Call<V>>, net: Network) returns (r: Result<nat, Failure>)
    modifies list
    ensures var run := Pipeline(list.policy, old(list.items), calls, Ups(net, |calls|));
            && list.items == run.items
            && list.log == old(list.log) + Sent(calls, run.done)
            && (r.Ok? <==> run.done == |calls|)
    ensures r.Ok? ==> r.value == Uint32(Counts(calls, net))
  {
    hide Apply, Pipeline, Counts, CountOf, Uint32;
    var total := 0;
    ghost var up, whole := Ups(net, |calls|), Pipeline(list.policy, list.items, calls, Ups(net, |calls|));
    NothingRun(list.policy, list.items, calls, up, net);
    for k := 0 to |calls|
      invariant total == Uint32(Counts(calls[..k], net))
      invariant k + Pipeline(list.policy, list.items, calls[k..], up[k..]).done == whole.done
      invariant Pipeline(list.policy, list.items, calls[k..], up[k..]).items == whole.items
      invariant list.log == old(list.log) + calls[..k]
    {
      assert calls[..k + 1] == calls[..k] + [calls[k]];
      PipelineUnfolds(list.policy, list.items, calls, up, k);
      CountsStep(calls, net, k);
      var one := list.Invoke(calls[k], net(k));
      if one.Err? {
        return Err(one.error);
      }
      Uint32Add(Counts(calls[..k], net), one.value);
      total := Uint32(total + one.value);
    }
    AllRun(list.policy, list.items, calls, up);
    r := Ok(total);
  }

  lemma NothingRun<V>(policy: Policy, items: Items<V>, calls: seq<Call<V>>, up: seq<bool>, net: Network)
    requires |up| == |calls|
    ensures calls[0..] == calls && up[0..] == up && Uint32(Counts(calls[..0], net)) == 0
  {}

  lemma AllRun<V>(policy: Policy, items: Items<V>, calls: seq<Call<V>>, up: seq<bool>)
    requires |up| == |calls|
    ensures Pipeline(policy, items, calls[|calls|..], up[|calls|..]) == Run(items, 0) && calls[..|calls|] == calls
  {}

  function OrEmpty<T>(data: Option<seq<T>>): seq<T> { if data.Some? then data.value else [] }

  lemma ChunksNonEmpty<T>(size: T -> nat, base: nat, limit: nat, data: seq<T>, chunks: seq<seq<T>>)
    requires IsPartition(size, base, limit, data, chunks)
    ensures NoneEmpty(chunks) && Concat(chunks) == data && (data != [] ==> chunks != [])
  {
    forall c | 0 <= c < |chunks| ensures chunks[c] != [] {
      assert Fits(size, base, limit, chunks[c]);
    }
  }

  lemma {:induction false} ConcatSize<T>(chunks: seq<seq<T>>)
    requires NoneEmpty(chunks)
    ensures |chunks| <= |Concat(chunks)|
  {
    if chunks != [] {
      ConcatSize(chunks[1..]);
    }
  }

  /** The data sent by the first `k` chunks is a prefix, and a proper one while chunks remain. */
  lemma SentPrefix<T>(chunks: seq<seq<T>>, k: nat)
    requires NoneEmpty(chunks) && k <= |chunks|
    ensures |Concat(chunks[..k])| <= |Concat(chunks)|
    ensures Concat(chunks)[..|Concat(chunks[..k])|] == Concat(chunks[..k])
    ensures Concat(chunks)[|Concat(chunks[..k])|..] == Concat(chunks[k..])
    ensures k == |chunks| <==> |Concat(chunks[..k])| == |Concat(chunks)|
  {
    ConcatTake(chunks, k);
    ConcatSize(chunks[k..]);
    assert chunks[..|chunks|] == chunks;
  }

  /** Without the first `left` chunks the elements left are a suffix of the data, and all of it only if none
      is left out. */
  lemma UnsentPrefix<T>(chunks: seq<seq<T>>, left: nat)
    requires NoneEmpty(chunks) && left <= |chunks|
    ensures |Concat(chunks[..left])| <= |Concat(chunks)|
    ensures Concat(chunks)[|Concat(chunks[..left])|..] == Concat(chunks[left..])
    ensures |Concat(chunks[..left])| == 0 <==> left == 0
  {
    SentPrefix(chunks, left);
    ConcatSize(chunks[..left]);
  }

  method BuildTailCalls<V>(chunks: seq<Items<V>>) returns (calls: seq<Call<V>>)
    ensures calls == TailCalls(chunks) && Carries(calls, chunks) && NoNullPivots(calls)
  {
    calls := [];
    for i := 0 to |chunks|
      invariant calls == TailCalls(chunks[..i])
    {
      calls := calls + [ToTail(chunks[i])];
    }
    assert chunks[..|chunks|] == chunks;
  }

  method BuildHeadCalls<V>(chunks: seq<Items<V>>) returns (calls: seq<Call<V>>)
    ensures calls == HeadCalls(chunks) && Carries(calls, chunks) && NoNullPivots(calls)
  {
    calls := [];
    for i := |chunks| downto 0
      invariant |calls| == |chunks| - i
      invariant forall k :: 0 <= k < |calls| ==> calls[k] == ToHead(chunks[|chunks| - 1 - k])
    {
      calls := calls + [ToHead(chunks[i])];
    }
  }

  method BuildPositionCalls<V>(chunks: seq<Items<V>>, pos: nat) returns (calls: seq<Call<V>>)
    requires pos < UINT32
    ensures calls == PositionCalls(chunks, pos) && Carries(calls, chunks) && NoNullPivots(calls)
  {
    calls := [];
    var currentPos := pos;
    assert Concat(chunks[..0]) == [];
    for i := 0 to |chunks|
      invariant |calls| == i
      invariant currentPos == Uint32(pos + |Concat(chunks[..i])|)
      invariant forall k :: 0 <= k < i ==> calls[k] == PositionCalls(chunks, pos)[k]
    {
      calls := calls + [ToPosition(chunks[i], currentPos)];
      ConcatStep(chunks, i);
      Uint32Add(|chunks[i]|, currentPos);
      Uint32Add(pos + |Concat(chunks[..i])|, |chunks[i]|);
      currentPos := Uint32(currentPos + Uint32(|chunks[i]|));
    }
  }

  method BuildChainCalls<V>(chunks: seq<Items<V>>, before: bool, pivot: Option<V>) returns (calls: seq<Call<V>>)
    requires NoneEmpty(chunks) && chunks != []
    ensures calls == ChainCalls(chunks, if before then Before(chunks[0], pivot) else After(chunks[0], pivot))
    ensures Carries(calls, chunks)
  {
    var first := if before then Before(chunks[0], pivot) else After(chunks[0], pivot);
    calls := [];
    for i := 0 to |chunks|
      invariant |calls| == i
      invariant forall k :: 0 <= k < i ==> calls[k] == ChainCalls(chunks, first)[k]
    {
      if i == 0 {
        calls := calls + [first];
      } else {
        var anchor := LastValue(chunks[i - 1]);
        calls := calls + [After(chunks[i], Some(anchor))];
      }
    }
  }

  /** How a run that sent the calls numbered from `lo` up to `hi` ended: all of them got through, or all but
      the last one. */
  ghost predicate EndsAt<T>(r: Result<T, Failure>, lo: nat, hi: nat, net: Network) {
    match r
    case Ok(_) => forall k :: lo <= k < hi ==> net(k).up
    case Err(_) => lo < hi && !net(hi - 1).up && forall k :: lo <= k < hi - 1 ==> net(k).up
  }

  /** A success reports the sum of the counts of the `n` calls sent, in 32 bits. */
  ghost predicate Reports(r: Result<nat, Failure>, n: nat, net: Network) {
    r.Ok? ==> r.value == Uint32(CountSum(net, n))
  }

  ghost predicate NoNullPivots<V>(calls: seq<Call<V>>) { forall k :: 0 <= k < |calls| ==> !HasNullPivot(calls[k]) }

  lemma ReportedRun<V>(r: Result<nat, Failure>, calls: seq<Call<V>>, done: nat, net: Network)
    requires NoNullPivots(calls) && done <= |calls|
    requires r.Ok? ==> done == |calls| && r.value == Uint32(Counts(calls, net))
    ensures Reports(r, |Sent(calls, done)|, net)
  {
    CountsAreReported(calls, net);
  }

  lemma EndedRun<V>(r: Result<nat, Failure>, calls: seq<Call<V>>, done: nat, net: Network)
    requires done <= |calls| && (r.Ok? <==> done == |calls|)
    requires done < |calls| ==> !Ups(net, |calls|)[done]
    requires forall k :: 0 <= k < done ==> Ups(net, |calls|)[k]
    ensures EndsAt(r, 0, |Sent(calls, done)|, net)
  {
    assert forall k :: 0 <= k < |calls| ==> Ups(net, |calls|)[k] == net(k).up;
  }

  /** What a run of an add method sends: admissible chunks only, whose counts it sums in 32 bits. */
  ghost predicate SentInChunks<V>(size: Item<V> -> nat, base: nat, limit: nat, sent: seq<Call<V>>,
                                  r: Result<nat, Failure>, net: Network) {
    && (forall k :: 0 <= k < |sent| ==> Fits(size, base, limit, sent[k].block))
    && (r.Ok? ==> r.value == Uint32(Counts(sent, net)))
  }

  /** Every call carries one of the chunks. */
  ghost predicate Carries<V>(calls: seq<Call<V>>, chunks: seq<Items<V>>) {
    |calls| == |chunks| && forall k :: 0 <= k < |calls| ==> calls[k].block in chunks
  }

  lemma SentFits<V>(size: Item<V> -> nat, base: nat, limit: nat, data: Items<V>, chunks: seq<Items<V>>,
                    calls: seq<Call<V>>, done: nat, r: Result<nat, Failure>, net: Network)
    requires IsPartition(size, base, limit, data, chunks) && Carries(calls, chunks) && done <= |calls|
    requires r.Ok? <==> done == |calls|
    requires r.Ok? ==> r.value == Uint32(Counts(calls, net))
    ensures SentInChunks(size, base, limit, Sent(calls, done), r, net) && |Sent(calls, done)| <= |chunks|
  {
    hide Fits, Counts, Uint32;
    forall k | 0 <= k < |Sent(calls, done)| ensures Fits(size, base, limit, Sent(calls, done)[k].block) {
      assert Sent(calls, done)[k] == calls[k];
      var c :| 0 <= c < |chunks| && chunks[c] == calls[k].block;
    }
  }

  lemma NothingSent<V>(size: Item<V> -> nat, base: nat, limit: nat, log: seq<Call<V>>, net: Network)
    ensures SentInChunks(size, base, limit, log[|log|..], Ok(0), net)
    ensures EndsAt<nat>(Ok(0), 0, 0, net) && Reports(Ok(0), 0, net)
  {}

  /** The pipeline over the calls of a partition. */
  method SendChunks<V>(list: RemoteList<V>, data: Items<V>, ghost chunks: seq<Items<V>>, calls: seq<Call<V>>,
                       ghost base: nat, ghost size: Item<V> -> nat, ghost limit: nat, net: Network)
    returns (r: Result<nat, Failure>, ghost done: nat)
    requires IsPartition(size, base, limit, data, chunks) && Carries(calls, chunks)
    modifies list
    ensures var run := Pipeline(list.policy, old(list.items), calls, Ups(net, |calls|));
            done == run.done && list.items == run.items
    ensures r.Ok? <==> done == |calls|
    ensures r.Ok? ==> r.value == Uint32(Counts(calls, net))
    ensures old(list.log) <= list.log && |list.log| - |old(list.log)| == |Sent(calls, done)| <= |chunks|
    ensures SentInChunks(size, base, limit, list.log[|old(list.log)|..], r, net)
  {
    hide Pipeline, IsPartition, Carries, SentInChunks, Counts, Uint32, Apply;
    done := Pipeline(list.policy, list.items, calls, Ups(net, |calls|)).done;
    r := RunAddPipeline(list, calls, net);
    SentFits(size, base, limit, data, chunks, calls, done, r, net);
    assert list.log[|old(list.log)|..] == Sent(calls, done);
  }

  /** Appends; `sent` elements arrive, all of them exactly when the result is a success. */
  method AddElementToTail<V>(list: RemoteList<V>, data: Option<Items<V>>, base: nat, size: Item<V> -> nat,
                             limit: nat, net: Network)
    returns (r: Result<nat, Failure>, ghost sent: nat)
    modifies list
    ensures OrEmpty(data) == [] ==> r == Ok(0)
    ensures sent <= |OrEmpty(data)| && (r.Ok? <==> sent == |OrEmpty(data)|)
    ensures list.items == old(list.items) + OrEmpty(data)[..sent]
    ensures old(list.log) <= list.log && EndsAt(r, 0, |list.log[|old(list.log)|..]|, net)
    ensures Reports(r, |list.log[|old(list.log)|..]|, net)
    ensures SentInChunks(size, base, limit, list.log[|old(list.log)|..], r, net)
    ensures forall other :: IsPartition(size, base, limit, OrEmpty(data), other) ==>
              |list.log| - |old(list.log)| <= |other|
  {
    hide EndsAt, Reports, NoNullPivots, Counts, CountSum, Uint32, Sent;
    hide SentInChunks, Carries, IsPartition, IsTight, Fits, Pipeline, Apply, Concat;
    sent := 0;
    NothingSent(size, base, limit, list.log, net);
    assert |list.log[|list.log|..]| == 0;
    if data.None? || data.value == [] {
      return Ok(0), 0;
    }
    var chunks := PartitionValueChunks(data.value, base, size, limit);
    ChunksNonEmpty(size, base, limit, data.value, chunks);
    var calls := BuildTailCalls(chunks);
    ghost var run := Pipeline(list.policy, list.items, calls, Ups(net, |calls|));
    TailPrefix(list.policy, list.items, chunks, Ups(net, |calls|));
    ghost var done;
    r, done := SendChunks(list, data.value, chunks, calls, base, size, limit, net);
    ReportedRun(r, calls, done, net);
    EndedRun(r, calls, done, net);
    forall other | IsPartition(size, base, limit, data.value, other) ensures |chunks| <= |other| {
      GreedyIsOptimal(size, base, limit, data.value, chunks, other);
    }
    SentPrefix(chunks, run.done);
    sent := |Concat(chunks[..run.done])|;
  }

  /** Pushes to the head; the last elements arrive first. */
  method AddElementToHead<V>(list: RemoteList<V>, data: Option<Items<V>>, base: nat, size: Item<V> -> nat,
                             limit: nat, net: Network)
    returns (r: Result<nat, Failure>, ghost missing: nat)
    modifies list
    ensures OrEmpty(data) == [] ==> r == Ok(0)
    ensures missing <= |OrEmpty(data)| && (r.Ok? <==> missing == 0)
    ensures list.items == OrEmpty(data)[missing..] + old(list.items)
    ensures old(list.log) <= list.log && EndsAt(r, 0, |list.log[|old(list.log)|..]|, net)
    ensures Reports(r, |list.log[|old(list.log)|..]|, net)
    ensures SentInChunks(size, base, limit, list.log[|old(list.log)|..], r, net)
    ensures forall other :: IsPartition(size, base, limit, OrEmpty(data), other) ==>
              |list.log| - |old(list.log)| <= |other|
  {
    hide EndsAt, Reports, NoNullPivots, Counts, CountSum, Uint32, Sent;
    hide SentInChunks, Carries, IsPartition, IsTight, Fits, Pipeline, Apply, Concat;
    missing := 0;
    NothingSent(size, base, limit, list.log, net);
    assert |list.log[|list.log|..]| == 0;
    if data.None? || data.value == [] {
      return Ok(0), 0;
    }
    var chunks := PartitionValueChunks(data.value, base, size, limit);
    ChunksNonEmpty(size, base, limit, data.value, chunks);
    var calls := BuildHeadCalls(chunks);
    ghost var run := Pipeline(list.policy, list.items, calls, Ups(net, |calls|));
    HeadSuffix(list.policy, list.items, chunks, Ups(net, |calls|));
    ghost var done;
    r, done := SendChunks(list, data.value, chunks, calls, base, size, limit, net);
    ReportedRun(r, calls, done, net);
    EndedRun(r, calls, done, net);
    forall other | IsPartition(size, base, limit, data.value, other) ensures |chunks| <= |other| {
      GreedyIsOptimal(size, base, limit, data.value, chunks, other);
    }
    UnsentPrefix(chunks, |chunks| - run.done);
    missing := |Concat(chunks[..|chunks| - run.done])|;
  }

  lemma InsertNothing<V>(items: Items<V>, none: Items<V>)
    requires none == []
    ensures forall at {:trigger InsertAt(items, at, none)} :: 0 <= at <= |items| ==> InsertAt(items, at, none) == items
  {}

  lemma EmptyPartition<V>(size: Item<V> -> nat, base: nat, limit: nat, data: Items<V>, chunks: seq<Items<V>>)
    requires data == [] && chunks == []
    ensures IsPartition(size, base, limit, data, chunks) && NoneEmpty(chunks)
  {}

  lemma NoPositionCalls<V>(policy: Policy, items: Items<V>, pos: nat, net: Network)
    ensures Pipeline(policy, items, PositionCalls([], pos), Ups(net, 0)) == Run(items, 0)
  {}

  /** Inserts at a position: always the pipeline of the positional calls of some partition; inside the list
      and while positions stay below 2^32, the unsplit insert of what was sent. */
  method AddElementToPosition<V>(list: RemoteList<V>, data: Option<Items<V>>, pos: nat, base: nat,
                                 size: Item<V> -> nat, limit: nat, net: Network)
    returns (r: Result<nat, Failure>, ghost sent: nat, ghost chunks: seq<Items<V>>)
    requires pos < UINT32
    modifies list
    ensures old(list.log) <= list.log
    ensures OrEmpty(data) == [] ==> r == Ok(0)
    ensures IsPartition(size, base, limit, OrEmpty(data), chunks)
    ensures var run := Pipeline(list.policy, old(list.items), PositionCalls(chunks, pos), Ups(net, |chunks|));
            list.items == run.items && (r.Ok? <==> run.done == |chunks|)
    ensures pos <= |old(list.items)| && pos + |OrEmpty(data)| <= UINT32 ==>
              && sent <= |OrEmpty(data)| && (r.Ok? <==> sent == |OrEmpty(data)|)
              && list.items == InsertAt(old(list.items), pos, OrEmpty(data)[..sent])
              && EndsAt(r, 0, |list.log[|old(list.log)|..]|, net)
    ensures Reports(r, |list.log[|old(list.log)|..]|, net)
    ensures pos > |old(list.items)| && !list.policy.clampPosition && OrEmpty(data) != [] ==>
              r.Err? && list.items == old(list.items)
    ensures SentInChunks(size, base, limit, list.log[|old(list.log)|..], r, net)
    ensures forall other :: IsPartition(size, base, limit, OrEmpty(data), other) ==>
              |list.log| - |old(list.log)| <= |other|
  {
    hide EndsAt, Reports, NoNullPivots, Counts, CountSum, Uint32, Sent;
    hide SentInChunks, Carries, IsPartition, IsTight, Fits, Pipeline, Apply, Concat;
    sent, chunks := 0, [];
    NothingSent(size, base, limit, list.log, net);
    assert |list.log[|list.log|..]| == 0;
    if data.None? || data.value == [] {
      InsertNothing(list.items, OrEmpty(data)[..0]);
      NoPositionCalls(list.policy, list.items, pos, net);
      EmptyPartition(size, base, limit, OrEmpty(data), chunks);
      return Ok(0), 0, [];
    }
    var parts := PartitionValueChunks(data.value, base, size, limit);
    chunks := parts;
    ChunksNonEmpty(size, base, limit, data.value, chunks);
    var calls := BuildPositionCalls(parts, pos);
    ghost var up, items := Ups(net, |calls|), list.items;
    ghost var run := Pipeline(list.policy, items, calls, up);
    ghost var done;
    r, done := SendChunks(list, data.value, chunks, calls, base, size, limit, net);
    ReportedRun(r, calls, done, net);
    forall other | IsPartition(size, base, limit, data.value, other) ensures |chunks| <= |other| {
      GreedyIsOptimal(size, base, limit, data.value, chunks, other);
    }
    hide Pipeline, PositionCalls, InsertAt, IsPartition, IsTight;
    if pos <= |items| && pos + |data.value| <= UINT32 {
      PositionFits(list.policy, items, chunks, pos, up);
      EndedRun(r, calls, done, net);
    } else if pos > |items| && !list.policy.clampPosition {
      PositionRejected(list.policy, items, chunks, pos, up);
    }
    SentPrefix(chunks, run.done);
    sent := |Concat(chunks[..run.done])|;
  }

  /** A rejecting server refuses the first chunk, as it refuses the unsplit insert. */
  lemma PositionRejected<V>(policy: Policy, items: Items<V>, chunks: seq<Items<V>>, pos: nat, up: seq<bool>)
    requires |items| < pos < UINT32 && !policy.clampPosition && chunks != [] && |up| == |chunks|
    ensures Pipeline(policy, items, PositionCalls(chunks, pos), up) == Run(items, 0)
  {
    assert Concat(chunks[..0]) == [];
    assert PositionCalls(chunks, pos)[0] == ToPosition(chunks[0], pos);
  }

  lemma PositionFits<V>(policy: Policy, items: Items<V>, chunks: seq<Items<V>>, pos: nat, up: seq<bool>)
    requires NoneEmpty(chunks) && |up| == |chunks| && pos <= |items| && pos + |Concat(chunks)| <= UINT32
    requires pos < UINT32
    ensures var run := Pipeline(policy, items, PositionCalls(chunks, pos), up);
            && run.items == InsertAt(items, pos, Concat(chunks[..run.done]))
            && (run.done < |chunks| ==> !up[run.done])
            && (forall k :: 0 <= k < run.done ==> up[k])
  {
    hide PlacesAt, InsertAt, Pipeline;
    var where := PositionsOf(|items|, chunks, pos);
    forall k | 0 <= k < |chunks|
      ensures PlacesAt(policy, items, pos, chunks, PositionCalls(chunks, pos), where, k)
      ensures where[k] == Behind(pos, chunks, k)
    {
      PositionPlaces(policy, items, chunks, pos, k);
      SentPrefix(chunks, k);
      WrapMoves(Behind(pos, chunks, k), Behind(|items|, chunks, k));
    }
    PlacementPrefix(policy, items, pos, chunks, PositionCalls(chunks, pos), where, up);
  }

  /** No value is inserted twice, and none occurs in front of the insert point. */
  ghost predicate ValuesFresh<V>(items: Items<V>, at: nat, data: Items<V>)
    requires at <= |items|
  {
    && (forall i, j :: 0 <= i < j < |data| ==> data[i].value != data[j].value)
    && (forall i, j :: 0 <= i < at && 0 <= j < |data| ==> items[i].value != data[j].value)
  }

  lemma FreshValuesAnchor<V>(items: Items<V>, at: nat, chunks: seq<Items<V>>, k: nat)
    requires at <= |items| && NoneEmpty(chunks) && ValuesFresh(items, at, Concat(chunks)) && 1 <= k < |chunks|
    ensures AnchorFresh(items, at, chunks, k)
  {
    hide InsertAt, Concat;
    var d := Concat(chunks[..k]);
    var last := |d| - 1;
    ConcatStep(chunks, k - 1);
    assert d[last].value == LastValue(chunks[k - 1]);
    ConcatTake(chunks, k);
    assert d <= Concat(chunks);
    PrefixFresh(items, at, d, Concat(chunks));
  }

  lemma PrefixFresh<V>(items: Items<V>, at: nat, d: Items<V>, data: Items<V>)
    requires at <= |items| && d <= data && ValuesFresh(items, at, data)
    ensures ValuesFresh(items, at, d)
  {}

  lemma FreshChain<V>(policy: Policy, items: Items<V>, at: nat, chunks: seq<Items<V>>, before: bool,
                      pivot: Option<V>, up: seq<bool>)
    requires NoneEmpty(chunks) && chunks != [] && |up| == |chunks|
    requires pivot.Some? && FirstIndex(items, pivot.value) < |items|
    requires at == FirstIndex(items, pivot.value) + if before then 0 else 1
    requires ValuesFresh(items, at, Concat(chunks))
    ensures var first := if before then Before(chunks[0], pivot) else After(chunks[0], pivot);
            var run := Pipeline(policy, items, ChainCalls(chunks, first), up);
            && run.items == InsertAt(items, at, Concat(chunks[..run.done]))
            && (run.done < |chunks| ==> !up[run.done])
            && (forall k :: 0 <= k < run.done ==> up[k])
  {
    hide AnchorFresh, Pipeline, ValuesFresh;
    forall k | 1 <= k < |chunks| ensures AnchorFresh(items, at, chunks, k) {
      FreshValuesAnchor(items, at, chunks, k);
    }
    ChainPrefix(policy, items, at, chunks, if before then Before(chunks[0], pivot) else After(chunks[0], pivot), up);
  }

  lemma ChainPivots<V>(chunks: seq<Items<V>>, before: bool, pivot: Option<V>)
    requires NoneEmpty(chunks) && chunks != []
    ensures var calls := ChainCalls(chunks, if before then Before(chunks[0], pivot) else After(chunks[0], pivot));
            && (HasNullPivot(calls[0]) <==> pivot.None?)
            && forall k :: 1 <= k < |calls| ==> !HasNullPivot(calls[k])
  {}

  lemma ReportedChain<V>(r: Result<nat, Failure>, chunks: seq<Items<V>>, before: bool, pivot: Option<V>,
                         calls: seq<Call<V>>, done: nat, net: Network)
    requires NoneEmpty(chunks) && chunks != [] && done <= |calls|
    requires calls == ChainCalls(chunks, if before then Before(chunks[0], pivot) else After(chunks[0], pivot))
    requires r.Ok? ==> done == |calls| && r.value == Uint32(Counts(calls, net))
    ensures pivot.Some? ==> Reports(r, |Sent(calls, done)|, net)
    ensures pivot.None? && r.Ok? ==> r.value == Uint32(CountSum(net, |Sent(calls, done)|) - net(0).count)
  {
    ChainPivots(chunks, before, pivot);
    CountsAreReported(calls, net);
  }

  /** Insert before or after the first item with the pivot's value: always the pipeline of the chained calls
      of some partition; with fresh values, the unsplit insert of what was sent. */
  method AddElementAtPivot<V>(list: RemoteList<V>, data: Option<Items<V>>, before: bool, pivot: Option<V>,
                              base: nat, size: Item<V> -> nat, limit: nat, net: Network)
    returns (r: Result<nat, Failure>, ghost sent: nat, ghost chunks: seq<Items<V>>)
    modifies list
    ensures old(list.log) <= list.log
    ensures OrEmpty(data) == [] ==> r == Ok(0) && list.items == old(list.items)
    ensures IsPartition(size, base, limit, OrEmpty(data), chunks) && NoneEmpty(chunks)
    ensures OrEmpty(data) != [] ==>
              && chunks != []
              && var first := if before then Before(chunks[0], pivot) else After(chunks[0], pivot);
                 var run := Pipeline(list.policy, old(list.items), ChainCalls(chunks, first), Ups(net, |chunks|));
                 list.items == run.items && (r.Ok? <==> run.done == |chunks|)
    ensures pivot.Some? && FirstIndex(old(list.items), pivot.value) < |old(list.items)| ==>
              var at := FirstIndex(old(list.items), pivot.value) + if before then 0 else 1;
              ValuesFresh(old(list.items), at, OrEmpty(data)) ==>
                && sent <= |OrEmpty(data)| && (r.Ok? <==> sent == |OrEmpty(data)|)
                && list.items == InsertAt(old(list.items), at, OrEmpty(data)[..sent])
                && EndsAt(r, 0, |list.log[|old(list.log)|..]|, net)
    ensures pivot.Some? ==> Reports(r, |list.log[|old(list.log)|..]|, net)
    ensures pivot.None? && OrEmpty(data) != [] && r.Ok? ==>
              r.value == Uint32(CountSum(net, |list.log[|old(list.log)|..]|) - net(0).count)
    ensures SentInChunks(size, base, limit, list.log[|old(list.log)|..], r, net)
    ensures forall other :: IsPartition(size, base, limit, OrEmpty(data), other) ==>
              |list.log| - |old(list.log)| <= |other|
  {
    hide Apply, FirstIndex, ValuesFresh, InsertAt, IsTight, IsPartition, Concat, Pipeline, ChainCalls;
    hide EndsAt, Reports, NoNullPivots, Counts, CountSum, Uint32, Sent;
    hide SentInChunks, Carries, IsPartition, IsTight, Fits, Pipeline, Apply, Concat;
    sent, chunks := 0, [];
    NothingSent(size, base, limit, list.log, net);
    assert |list.log[|list.log|..]| == 0;
    if data.None? || data.value == [] {
      InsertNothing(list.items, OrEmpty(data)[..0]);
      EmptyPartition(size, base, limit, OrEmpty(data), chunks);
      return Ok(0), 0, [];
    }
    var parts := PartitionValueChunks(data.value, base, size, limit);
    chunks := parts;
    ChunksNonEmpty(size, base, limit, data.value, chunks);
    var calls := BuildChainCalls(parts, before, pivot);
    ghost var up := Ups(net, |calls|);
    ghost var run := Pipeline(list.policy, list.items, calls, up);
    ghost var items := list.items;
    ghost var done;
    r, done := SendChunks(list, data.value, chunks, calls, base, size, limit, net);
    ReportedChain(r, chunks, before, pivot, calls, done, net);
    if pivot.Some? && FirstIndex(items, pivot.value) < |items| {
      ghost var at := FirstIndex(items, pivot.value) + if before then 0 else 1;
      if ValuesFresh(items, at, data.value) {
        FreshChain(list.policy, items, at, chunks, before, pivot, up);
        EndedRun(r, calls, done, net);
      }
    }
    forall other | IsPartition(size, base, limit, data.value, other) ensures |chunks| <= |other| {
      GreedyIsOptimal(size, base, limit, data.value, chunks, other);
    }
    SentPrefix(chunks, run.done);
    sent := |Concat(chunks[..run.done])|;
  }
}
