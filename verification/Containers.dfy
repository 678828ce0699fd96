/** Chunked container creation (createUnorderedContainerSmart) and chunked map inserts
    (addElementHashMap, addElementOrderedMap) of smart/src/smart_client.cpp. */
module Containers {
  import opened Common
  import opened Chunks
  import opened Pipelines
  import opened Inserts

  datatype Kind = QUEUE | LIST | VECTOR | SET

  /** The container under one key of the server, if any: an ordered one keeps a sequence, a SET keeps its
      elements. To create it again is refused, or starts it over, as the server's policy has it. The log
      holds the elements of every request sent. */
  class RemoteContainer<V(==)> {
    const kind: Kind
    const startsOver: bool
    var created: bool
    var items: seq<V>
    var elements: set<V>
    ghost var log: seq<seq<V>>

    constructor (kind: Kind, startsOver: bool)
      ensures this.kind == kind && this.startsOver == startsOver && !created && log == []
    {
      this.kind := kind;
      this.startsOver := startsOver;
      log := [];
      created := false;
      items := [];
      elements := {};
    }

    /** The container was created and was given exactly `data`. */
    ghost predicate Holds(data: seq<V>)
      reads this
    {
      created && if kind == SET then elements == set x | x in data else items == data
    }

    predicate Creates(reply: Reply)
      reads this
    {
      reply.up && (!created || startsOver)
    }

    method Create(first: Option<seq<V>>, reply: Reply) returns (r: Result<(), Failure>)
      modifies this
      ensures log == old(log) + [OrEmpty(first)]
      ensures r.Ok? <==> old(Creates(reply))
      ensures r.Ok? ==> Holds(OrEmpty(first))
      ensures r.Err? ==> created == old(created) && items == old(items) && elements == old(elements)
    {
      log := log + [OrEmpty(first)];
      if !Creates(reply) {
        return Err(CallFailed);
      }
      created := true;
      items := OrEmpty(first);
      elements := set x | x in OrEmpty(first);
      r := Ok(());
    }

    /** addElementUnordered for a SET, addElementToTail otherwise. */
    method Add(block: seq<V>, reply: Reply, ghost before: seq<V>) returns (r: Result<(), Failure>)
      requires Holds(before)
      modifies this
      ensures log == old(log) + [block]
      ensures r.Ok? <==> reply.up
      ensures Holds(if r.Ok? then before + block else before)
    {
      log := log + [block];
      if !reply.up {
        return Err(CallFailed);
      }
      if kind == SET {
        elements := elements + set x | x in block;
      } else {
        items := items + block;
      }
      r := Ok(());
    }
  }

  /** The first request takes the longest prefix that fits with base size 128; the others are admissible
      chunks with base size 0. */
  ghost predicate SentToCreate<V>(data: seq<V>, size: V -> nat, limit: nat, requests: seq<seq<V>>) {
    && requests != [] && requests[0] <= data
    && (forall n :: 1 <= n <= |data| ==> (n <= |requests[0]| <==> 128 + Total(size, data[..n]) <= limit))
    && (forall k :: 1 <= k < |requests| ==> Fits(size, 0, limit, requests[k]))
  }

  /** No admissible partition of what the first request left over has fewer chunks than were sent after it. */
  ghost predicate FewestRequests<V(!new)>(data: seq<V>, size: V -> nat, limit: nat, requests: seq<seq<V>>)
    requires requests != [] && requests[0] <= data
  {
    forall other :: IsPartition(size, 0, limit, data[|requests[0]|..], other) ==> |requests| - 1 <= |other|
  }

  /** Create with the maximal prefix, then push the remainder chunk by chunk. If the first call is refused
      nothing changes; from then on the container holds a prefix of the initial data, all of it exactly when
      the result is a success. */
  method CreateUnorderedContainer<V(!new)>(c: RemoteContainer<V>, initial: Option<seq<V>>, size: V -> nat,
                                           limit: nat, net: Network)
    returns (r: Result<(), Failure>, ghost sent: nat)
    modifies c
    ensures !old(c.Creates(net(0))) ==>
              r.Err? && c.created == old(c.created) && c.items == old(c.items) && c.elements == old(c.elements)
    ensures old(c.Creates(net(0))) ==>
              && sent <= |OrEmpty(initial)| && c.Holds(OrEmpty(initial)[..sent])
              && (r.Ok? <==> sent == |OrEmpty(initial)|)
    ensures old(c.log) <= c.log
    ensures old(c.Creates(net(0))) ==> EndsAt(r, 1, |c.log[|old(c.log)|..]|, net)
    ensures !old(c.Creates(net(0))) ==> |c.log[|old(c.log)|..]| == 1
    ensures SentToCreate(OrEmpty(initial), size, limit, c.log[|old(c.log)|..])
    ensures FewestRequests(OrEmpty(initial), size, limit, c.log[|old(c.log)|..])
  {
    hide Fits, IsPartition, Total, SentToCreate, FewestRequests;
    hide EndsAt;
    var data := OrEmpty(initial);
    var split := FirstChunkSplit(data, 128, size, limit);
    var first, rest := data[..split], data[split..];
    r := c.Create(if first == [] then None else Some(first), net(0));
    sent := split;
    if r.Err? || rest == [] {
      RequestsDone(data, split, size, limit, c.log[|old(c.log)|..]);
      NoRemainder(r, net);
      return;
    }
    ghost var log := c.log;
    ghost var more: nat;
    r, more := SendRemainder(c, first, rest, size, limit, net);
    sent := split + more;
    assert data[..sent] == first + rest[..more];
    assert c.log[|old(c.log)|..] == [first] + c.log[|log|..];
    RequestsDone(data, split, size, limit, c.log[|old(c.log)|..]);
  }

  lemma RequestsDone<V(!new)>(data: seq<V>, split: nat, size: V -> nat, limit: nat, requests: seq<seq<V>>)
    requires split <= |data| && requests != [] && requests[0] == data[..split]
    requires forall n :: 1 <= n <= |data| ==> (n <= split <==> 128 + Total(size, data[..n]) <= limit)
    requires forall k :: 1 <= k < |requests| ==> Fits(size, 0, limit, requests[k])
    requires forall other :: IsPartition(size, 0, limit, data[split..], other) ==> |requests| - 1 <= |other|
    ensures SentToCreate(data, size, limit, requests) && FewestRequests(data, size, limit, requests)
  {}

  lemma NoRemainder(r: Result<(), Failure>, net: Network)
    ensures r.Ok? ==> EndsAt(r, 1, 1, net)
  {}

  /** The remainder, partitioned with base size 0. */
  method SendRemainder<V(!new)>(c: RemoteContainer<V>, first: seq<V>, rest: seq<V>, size: V -> nat, limit: nat,
                                net: Network)
    returns (r: Result<(), Failure>, ghost more: nat)
    requires c.Holds(first)
    modifies c
    ensures more <= |rest| && (r.Ok? <==> more == |rest|)
    ensures c.Holds(first + rest[..more])
    ensures old(c.log) <= c.log && forall k :: |old(c.log)| <= k < |c.log| ==> Fits(size, 0, limit, c.log[k])
    ensures forall other :: IsPartition(size, 0, limit, rest, other) ==> |c.log| - |old(c.log)| <= |other|
    ensures EndsAt(r, 1, 1 + |c.log[|old(c.log)|..]|, net)
  {
    var chunks := PartitionValueChunks(rest, 0, size, limit);
    ChunksNonEmpty(size, 0, limit, rest, chunks);
    ghost var done: nat;
    r, done := PushRemainder(c, first, chunks, net);
    SentPrefix(chunks, done);
    more := |Concat(chunks[..done])|;
  }

  /** The remainder sender: one add per chunk, stopping at the first failure. */
  method PushRemainder<V>(c: RemoteContainer<V>, first: seq<V>, chunks: seq<seq<V>>, net: Network)
    returns (r: Result<(), Failure>, ghost done: nat)
    requires c.Holds(first)
    modifies c
    ensures done <= |chunks| && (r.Ok? <==> done == |chunks|)
    ensures c.Holds(first + Concat(chunks[..done]))
    ensures old(c.log) <= c.log && |c.log| - |old(c.log)| <= |chunks|
    ensures forall k :: |old(c.log)| <= k < |c.log| ==> c.log[k] in chunks
    ensures EndsAt(r, 1, 1 + |c.log[|old(c.log)|..]|, net)
  {
    done := 0;
    assert first + Concat(chunks[..0]) == first;
    for k := 0 to |chunks|
      invariant c.Holds(first + Concat(chunks[..k]))
      invariant old(c.log) <= c.log && |c.log| == |old(c.log)| + k
      invariant forall j :: |old(c.log)| <= j < |c.log| ==> c.log[j] in chunks
      invariant forall j :: 1 <= j < 1 + k ==> net(j).up
    {
      var one := c.Add(chunks[k], net(1 + k), first + Concat(chunks[..k]));
      if one.Err? {
        return Err(one.error), k;
      }
      ConcatStep(chunks, k);
      assert first + Concat(chunks[..k + 1]) == first + Concat(chunks[..k]) + chunks[k];
    }
    return Ok(()), |chunks|;
  }

  // ---- maps ----

  datatype Entry<K, V> = Entry(key: K, value: Option<V>)

  /** A map chunk keeps keys and values apart and drops null values. */
  datatype MapChunk<K, V> = MapChunk(keys: seq<K>, values: seq<V>)

  function Keys<K, V>(entries: seq<Entry<K, V>>): (keys: seq<K>)
    ensures |keys| == |entries|
  {
    seq(|entries|, i requires 0 <= i < |entries| => entries[i].key)
  }

  function Values<K, V>(entries: seq<Entry<K, V>>): seq<V> {
    if entries == [] then []
    else Values(entries[..|entries| - 1]) +
         (if entries[|entries| - 1].value.Some? then [entries[|entries| - 1].value.value] else [])
  }

  function Strip<K, V>(entries: seq<Entry<K, V>>): MapChunk<K, V> {
    MapChunk(Keys(entries), Values(entries))
  }

  function StripAll<K, V>(plan: seq<seq<Entry<K, V>>>): (chunks: seq<MapChunk<K, V>>)
    ensures |chunks| == |plan|
  {
    seq(|plan|, c requires 0 <= c < |plan| => Strip(plan[c]))
  }

  ghost predicate NoNulls<K, V>(entries: seq<Entry<K, V>>) {
    forall i :: 0 <= i < |entries| ==> entries[i].value.Some?
  }

  lemma {:induction false} ValuesLength<K, V>(entries: seq<Entry<K, V>>)
    ensures |Values(entries)| <= |entries|
    ensures |Values(entries)| == |entries| <==> NoNulls(entries)
    ensures NoNulls(entries) ==> forall i :: 0 <= i < |entries| ==> Values(entries)[i] == entries[i].value.value
    decreases |entries|
  {
    if entries != [] {
      ValuesLength(entries[..|entries| - 1]);
    }
  }

  function EntrySize<K, V>(keySize: K -> nat, valueSize: V -> nat, e: Entry<K, V>): nat {
    keySize(e.key) + 32 + if e.value.Some? then valueSize(e.value.value) else 0
  }

  function PairSize<K, V>(keySize: K -> nat, valueSize: V -> nat): Entry<K, V> -> nat {
    (e: Entry<K, V>) => EntrySize(keySize, valueSize, e)
  }

  method PartitionMapChunks<K(==), V(==)>(entries: seq<Entry<K, V>>, base: nat, keySize: K -> nat,
                                          valueSize: V -> nat, limit: nat)
    returns (chunks: seq<MapChunk<K, V>>, ghost plan: seq<seq<Entry<K, V>>>)
    ensures IsPartition(PairSize(keySize, valueSize), base, limit, entries, plan)
    ensures IsTight(PairSize(keySize, valueSize), base, limit, plan)
    ensures chunks == StripAll(plan)
    ensures Concat(KeyLists(chunks)) == Keys(entries) && Concat(ValueLists(chunks)) == Values(entries)
  {
    ghost var size := PairSize(keySize, valueSize);
    chunks, plan := [], [];
    var currentSize := base;
    var current: MapChunk<K, V> := MapChunk([], []);
    ghost var open: seq<Entry<K, V>> := [];
    TotalNone(size, open);
    hide IsTight, IsPartition, Total, Strip, PairSize;
    StripNone<K, V>();
    for i := 0 to |entries|
      invariant IsPacking(size, base, limit, entries[..i], plan, open)
      invariant currentSize == base + Total(size, open)
      invariant current == Strip(open) && |current.keys| == |open|
      invariant chunks == StripAll(plan)
    {
      hide IsPacking, StripAll;
      var e := entries[i];
      assert entries[..i + 1] == entries[..i] + [e];
      var pairSize := EstimatePair(keySize, valueSize, e);
      ghost var full := current.keys != [] && currentSize + pairSize > limit;
      PackStep(size, base, limit, entries[..i], plan, open, e, full);
      if current.keys != [] && currentSize + pairSize > limit {
        StripAllSnoc(plan, open);
        chunks, plan := chunks + [current], plan + [open];
        current, open := MapChunk([], []), [];
        currentSize := base;
      }
      current := PushEntry(current, e, open);
      open := open + [e];
      currentSize := currentSize + pairSize;
    }
    PackingDone(size, base, limit, entries, plan, open);
    if current.keys != [] {
      StripAllSnoc(plan, open);
      chunks, plan := chunks + [current], plan + [open];
    }
    StrippedJoin(plan);
    PlanJoins(size, base, limit, entries, plan);
  }

  lemma PlanJoins<K, V>(size: Entry<K, V> -> nat, base: nat, limit: nat, entries: seq<Entry<K, V>>,
                        plan: seq<seq<Entry<K, V>>>)
    requires IsPartition(size, base, limit, entries, plan)
    ensures Concat(plan) == entries
  {}

  function KeyLists<K, V>(chunks: seq<MapChunk<K, V>>): seq<seq<K>> {
    seq(|chunks|, c requires 0 <= c < |chunks| => chunks[c].keys)
  }

  function ValueLists<K, V>(chunks: seq<MapChunk<K, V>>): seq<seq<V>> {
    seq(|chunks|, c requires 0 <= c < |chunks| => chunks[c].values)
  }

  lemma {:induction false} ValuesSplit<K, V>(a: seq<Entry<K, V>>, b: seq<Entry<K, V>>)
    ensures Values(a + b) == Values(a) + Values(b)
    decreases |b|
  {
    if b == [] {
      assert a + b == a;
    } else {
      ValuesSplit(a, b[..|b| - 1]);
      assert (a + b)[..|a + b| - 1] == a + b[..|b| - 1];
    }
  }

  /** Stripped chunk by chunk or all at once: the same keys and the same values, in order. */
  lemma {:induction false} StrippedJoin<K, V>(plan: seq<seq<Entry<K, V>>>)
    ensures Concat(KeyLists(StripAll(plan))) == Keys(Concat(plan))
    ensures Concat(ValueLists(StripAll(plan))) == Values(Concat(plan))
  {
    if plan != [] {
      hide Strip;
      StrippedJoin(plan[1..]);
      JoinFirst(plan);
      ValuesSplit(plan[0], Concat(plan[1..]));
    }
  }

  lemma JoinFirst<K, V>(plan: seq<seq<Entry<K, V>>>)
    requires plan != []
    ensures Concat(KeyLists(StripAll(plan))) == Keys(plan[0]) + Concat(KeyLists(StripAll(plan[1..])))
    ensures Concat(ValueLists(StripAll(plan))) == Values(plan[0]) + Concat(ValueLists(StripAll(plan[1..])))
    ensures Keys(plan[0] + Concat(plan[1..])) == Keys(plan[0]) + Keys(Concat(plan[1..]))
  {
    var all := StripAll(plan);
    assert all[1..] == StripAll(plan[1..]);
    assert KeyLists(all)[1..] == KeyLists(all[1..]) && ValueLists(all)[1..] == ValueLists(all[1..]);
  }

  lemma StripAllSnoc<K, V>(plan: seq<seq<Entry<K, V>>>, block: seq<Entry<K, V>>)
    ensures StripAll(plan + [block]) == StripAll(plan) + [Strip(block)]
  {}

  method EstimatePair<K, V>(keySize: K -> nat, valueSize: V -> nat, e: Entry<K, V>) returns (pairSize: nat)
    ensures pairSize == PairSize(keySize, valueSize)(e)
  {
    pairSize := keySize(e.key) + 32;
    if e.value.Some? {
      pairSize := pairSize + valueSize(e.value.value);
    }
  }

  /** The key always goes in, the value only if there is one. */
  method PushEntry<K, V>(current: MapChunk<K, V>, e: Entry<K, V>,
                         ghost open: seq<Entry<K, V>>) returns (next: MapChunk<K, V>)
    requires current == Strip(open)
    ensures next == Strip(open + [e]) && |next.keys| == |open| + 1
  {
    StripSnoc(open, e);
    next := current.(keys := current.keys + [e.key]);
    if e.value.Some? {
      next := next.(values := next.values + [e.value.value]);
    }
  }

  lemma TotalNone<T>(size: T -> nat, s: seq<T>)
    requires s == []
    ensures Total(size, s) == 0
  {}

  lemma StripNone<K, V>()
    ensures Strip<K, V>([]) == MapChunk([], [])
  {}

  lemma StripSnoc<K, V>(entries: seq<Entry<K, V>>, e: Entry<K, V>)
    ensures Strip(entries + [e]).keys == Strip(entries).keys + [e.key]
    ensures Strip(entries + [e]).values == Strip(entries).values + if e.value.Some? then [e.value.value] else []
  {
    assert (entries + [e])[..|entries|] == entries;
  }

  /** The map after storing all pairs, later ones over earlier ones. */
  function PutAll<K, V>(m: map<K, V>, entries: seq<Entry<K, V>>): map<K, V>
    requires NoNulls(entries)
  {
    if entries == [] then m
    else PutAll(m, entries[..|entries| - 1])[entries[|entries| - 1].key := entries[|entries| - 1].value.value]
  }

  lemma {:induction false} PutAllSplit<K, V>(m: map<K, V>, a: seq<Entry<K, V>>, b: seq<Entry<K, V>>)
    requires NoNulls(a) && NoNulls(b)
    ensures NoNulls(a + b) && PutAll(m, a + b) == PutAll(PutAll(m, a), b)
    decreases |b|
  {
    if b == [] {
      assert a + b == a;
    } else {
      PutAllSplit(m, a, b[..|b| - 1]);
      assert (a + b)[..|a + b| - 1] == a + b[..|b| - 1];
    }
  }

  datatype MapFailure = SizeMismatch | MapCallFailed

  /** A map on the server, and every batch sent to it. */
  class RemoteMap<K(==), V(==)> {
    var pairs: map<K, V>
    ghost var log: seq<MapChunk<K, V>>

    constructor (pairs: map<K, V>)
      ensures this.pairs == pairs && log == []
    {
      this.pairs := pairs;
      log := [];
    }

    /** The standalone addElementHashMap: key and value lists of different length are refused before
        anything is sent. */
    method AddBatch(keys: seq<K>, values: seq<V>, reply: Reply) returns (r: Result<nat, MapFailure>)
      modifies this
      ensures |keys| != |values| ==> r == Err(SizeMismatch) && log == old(log)
      ensures |keys| == |values| ==> log == old(log) + [MapChunk(keys, values)]
      ensures |keys| == |values| ==> r == if reply.up then Ok(reply.count) else Err(MapCallFailed)
      ensures r.Err? ==> pairs == old(pairs)
      ensures r.Ok? ==> pairs == PutAll(old(pairs), Zip(keys, values))
    {
      if |keys| != |values| {
        return Err(SizeMismatch);
      }
      log := log + [MapChunk(keys, values)];
      if !reply.up {
        return Err(MapCallFailed);
      }
      var request: seq<(K, V)> := [];
      for i := 0 to |keys|
        invariant |request| == i && forall k :: 0 <= k < i ==> request[k] == (keys[k], values[k])
      {
        request := request + [(keys[i], values[i])];
      }
      for i := 0 to |request|
        invariant pairs == PutAll(old(pairs), Zip(keys[..i], values[..i]))
        invariant log == old(log) + [MapChunk(keys, values)]
      {
        pairs := pairs[request[i].0 := request[i].1];
        assert Zip(keys[..i + 1], values[..i + 1])[..i] == Zip(keys[..i], values[..i]);
      }
      assert keys[..|keys|] == keys && values[..|values|] == values;
      r := Ok(reply.count);
    }
  }

  function Zip<K, V>(keys: seq<K>, values: seq<V>): (entries: seq<Entry<K, V>>)
    requires |keys| == |values|
    ensures |entries| == |keys| && forall i :: 0 <= i < |keys| ==> entries[i] == Entry(keys[i], Some(values[i]))
  {
    seq(|keys|, i requires 0 <= i < |keys| => Entry(keys[i], Some(values[i])))
  }

  /** A stripped chunk is accepted exactly when it lost no value, and then its pairs are the entries. */
  lemma StripPairs<K, V>(entries: seq<Entry<K, V>>)
    ensures var c := Strip(entries);
            && (|c.keys| == |c.values| <==> NoNulls(entries))
            && (NoNulls(entries) ==> Zip(c.keys, c.values) == entries)
  {
    ValuesLength(entries);
  }

  /** The entries a caller's two lists stand for; a missing or null value leaves the key alone. */
  function EntriesOf<K, V>(keys: seq<K>, values: seq<Option<V>>): (entries: seq<Entry<K, V>>)
    ensures |entries| == |keys|
  {
    seq(|keys|, i requires 0 <= i < |keys| => Entry(keys[i], if i < |values| then values[i] else None))
  }

  lemma AddCount(net: Network, k: nat)
    ensures Uint32(CountSum(net, k + 1)) == Uint32(Uint32(CountSum(net, k)) + net(k).count)
  {
    Uint32Add(CountSum(net, k), net(k).count);
  }

  /** The batches sent are the first chunks of a partition of the entries by estimated pair sizes. */
  ghost predicate SentBatches<K, V>(entries: seq<Entry<K, V>>, base: nat, keySize: K -> nat, valueSize: V -> nat,
                                    limit: nat,
                                    plan: seq<seq<Entry<K, V>>>, batches: seq<MapChunk<K, V>>) {
    && (forall c :: 0 <= c < |plan| ==> Fits(PairSize(keySize, valueSize), base, limit, plan[c]))
    && IsTight(PairSize(keySize, valueSize), base, limit, plan)
    && Concat(plan) == entries
    && |batches| <= |plan| && batches == StripAll(plan)[..|batches|]
  }

  /** How a run over the plan that sent `n` batches ended: a size mismatch is that of the next chunk, which
      has a null value, and is not sent; a failed call is the last one sent. */
  ghost predicate BatchesEndAt<K, V>(r: Result<nat, MapFailure>, plan: seq<seq<Entry<K, V>>>, n: nat, net: Network) {
    match r
    case Ok(_) => n == |plan| && forall k :: 0 <= k < n ==> net(k).up
    case Err(SizeMismatch) => n < |plan| && !NoNulls(plan[n]) && forall k :: 0 <= k < n ==> net(k).up
    case Err(MapCallFailed) => 0 < n <= |plan| && !net(n - 1).up && forall k :: 0 <= k < n - 1 ==> net(k).up
  }

  lemma NothingToSend<K, V>(m: map<K, V>, base: nat, keySize: K -> nat, valueSize: V -> nat, limit: nat, net: Network)
    ensures NoNulls<K, V>([]) && PutAll(m, []) == m && BatchesEndAt<K, V>(Ok(0), [], 0, net)
    ensures Uint32(CountSum(net, 0)) == 0
    ensures SentBatches([], base, keySize, valueSize, limit, [], [])
  {}

  lemma FewestBatches<K, V>(entries: seq<Entry<K, V>>, base: nat, keySize: K -> nat, valueSize: V -> nat, limit: nat,
                            plan: seq<seq<Entry<K, V>>>, batches: seq<MapChunk<K, V>>, other: seq<seq<Entry<K, V>>>)
    requires SentBatches(entries, base, keySize, valueSize, limit, plan, batches)
    requires IsPartition(PairSize(keySize, valueSize), base, limit, entries, other)
    ensures |batches| <= |other|
  {
    GreedyIsOptimal(PairSize(keySize, valueSize), base, limit, entries, plan, other);
  }

  /** Index i is the last one below `n` at which its key occurs. */
  ghost predicate IsLastOf<K>(keys: seq<K>, n: nat, i: int) {
    0 <= i < n <= |keys| && forall j :: i < j < n ==> keys[j] != keys[i]
  }

  /** The first `n` values, none of them null, are stored each under its own key, later ones over earlier
      ones; other keys are as before. */
  ghost predicate Stored<K(!new), V>(pre: map<K, V>, post: map<K, V>, keys: seq<K>, values: seq<Option<V>>, n: nat) {
    && n <= |keys| && n <= |values| && (forall i :: 0 <= i < n ==> values[i].Some?)
    && (forall i :: IsLastOf(keys, n, i) ==> 0 <= i < n && keys[i] in post && post[keys[i]] == values[i].value)
    && (forall k :: k !in keys[..n] ==> (k in post <==> k in pre) && (k in post ==> post[k] == pre[k]))
  }

  /** From index `lo` on some key has no value, or a null one. */
  ghost predicate LacksValue<K, V>(keys: seq<K>, values: seq<Option<V>>, lo: nat) {
    exists i :: lo <= i < |keys| && (i < |values| ==> values[i].None?)
  }

  /** Joined, the batches hold a prefix of the keys and the values at the same places. */
  ghost predicate HoldPairs<K, V>(batches: seq<MapChunk<K, V>>, keys: seq<K>, values: seq<Option<V>>) {
    var ks, vs := Concat(KeyLists(batches)), Concat(ValueLists(batches));
    && |vs| == |ks| <= |values| && ks <= keys
    && forall i :: 0 <= i < |vs| ==> values[i] == Some(vs[i])
  }

  /** One pair of any size, or several that fit: the sizes of the keys and of the values, and 32 for each pair. */
  ghost predicate BatchFits<K, V>(b: MapChunk<K, V>, base: nat, keySize: K -> nat, valueSize: V -> nat, limit: nat) {
    && b.keys != []
    && (|b.keys| == 1 || base + Total(keySize, b.keys) + 32 * |b.keys| + Total(valueSize, b.values) <= limit)
  }

  lemma {:induction false} PairTotal<K, V>(entries: seq<Entry<K, V>>, keySize: K -> nat, valueSize: V -> nat)
    ensures Total(PairSize(keySize, valueSize), entries)
         == Total(keySize, Keys(entries)) + 32 * |entries| + Total(valueSize, Values(entries))
    decreases |entries|
  {
    if entries != [] {
      var n := |entries| - 1;
      var e := entries[n];
      assert entries == entries[..n] + [e] && Keys(entries) == Keys(entries[..n]) + [e.key];
      PairTotal(entries[..n], keySize, valueSize);
      TotalSnoc(PairSize(keySize, valueSize), entries[..n], e);
      TotalSnoc(keySize, Keys(entries[..n]), e.key);
      if e.value.Some? {
        TotalSnoc(valueSize, Values(entries[..n]), e.value.value);
      } else {
        assert Values(entries) == Values(entries[..n]);
      }
    }
  }

  lemma {:induction false} PutAllExact<K(!new), V>(m: map<K, V>, entries: seq<Entry<K, V>>)
    requires NoNulls(entries)
    ensures forall i :: IsLastOf(Keys(entries), |entries|, i) ==>
              0 <= i < |entries| && entries[i].key in PutAll(m, entries)
              && PutAll(m, entries)[entries[i].key] == entries[i].value.value
    ensures forall k :: k !in Keys(entries) ==>
              (k in PutAll(m, entries) <==> k in m) && (k in m ==> PutAll(m, entries)[k] == m[k])
    decreases |entries|
  {
    if entries != [] {
      var n := |entries| - 1;
      var e := entries[n];
      PutAllExact(m, entries[..n]);
      assert Keys(entries) == Keys(entries[..n]) + [e.key];
      forall i | IsLastOf(Keys(entries), |entries|, i)
        ensures 0 <= i < |entries| && entries[i].key in PutAll(m, entries)
        ensures PutAll(m, entries)[entries[i].key] == entries[i].value.value
      {
        if i < n {
          assert Keys(entries)[n] != Keys(entries)[i];
          assert forall j :: 0 <= j < n ==> Keys(entries[..n])[j] == Keys(entries)[j];
          assert IsLastOf(Keys(entries[..n]), n, i) && entries[..n][i] == entries[i];
        }
      }
    }
  }

  lemma StoredDirectly<K(!new), V>(m: map<K, V>, keys: seq<K>, values: seq<Option<V>>, n: nat)
    requires n <= |keys| && NoNulls(EntriesOf(keys, values)[..n])
    ensures Stored(m, PutAll(m, EntriesOf(keys, values)[..n]), keys, values, n)
  {
    var entries := EntriesOf(keys, values);
    forall i | 0 <= i < n ensures i < |values| && values[i].Some? && entries[..n][i] == Entry(keys[i], values[i]) {
      assert entries[..n][i].value.Some?;
    }
    if n > 0 {
      assert entries[..n][n - 1].value.Some?;
    }
    assert Keys(entries[..n]) == keys[..n];
    PutAllExact(m, entries[..n]);
    forall i | IsLastOf(keys, n, i) ensures IsLastOf(Keys(entries[..n]), n, i) {}
  }

  lemma PairsHeld<K, V>(keys: seq<K>, values: seq<Option<V>>, plan: seq<seq<Entry<K, V>>>, n: nat)
    requires Concat(plan) == EntriesOf(keys, values) && n <= |plan| && NoNulls(Concat(plan[..n]))
    ensures HoldPairs(StripAll(plan)[..n], keys, values)
  {
    var some := Concat(plan[..n]);
    assert StripAll(plan)[..n] == StripAll(plan[..n]);
    StrippedJoin(plan[..n]);
    ConcatTake(plan, n);
    ValuesLength(some);
    forall i | 0 <= i < |some| ensures i < |values| && some[i] == Entry(keys[i], values[i]) {
      assert some[i] == EntriesOf(keys, values)[i];
    }
    if some != [] {
      assert |some| - 1 < |values|;
    }
    assert Keys(some) == keys[..|some|];
  }

  lemma BatchesFit<K, V>(entries: seq<Entry<K, V>>, base: nat, keySize: K -> nat, valueSize: V -> nat, limit: nat,
                         plan: seq<seq<Entry<K, V>>>, batches: seq<MapChunk<K, V>>)
    requires SentBatches(entries, base, keySize, valueSize, limit, plan, batches)
    ensures forall c :: 0 <= c < |batches| ==> BatchFits(batches[c], base, keySize, valueSize, limit)
  {
    forall c | 0 <= c < |batches| ensures BatchFits(batches[c], base, keySize, valueSize, limit) {
      assert Fits(PairSize(keySize, valueSize), base, limit, plan[c]) && batches[c] == Strip(plan[c]);
      PairTotal(plan[c], keySize, valueSize);
    }
  }

  /** Chunked map insert. What reaches the server is a prefix of the input pairs, each value under its own
      key, free of nulls; a null value stops the run before its whole chunk. */
  method AddElementMap<K(==,!new), V(==)>(m: RemoteMap<K, V>, keys: Option<seq<K>>,
                                          values: Option<seq<Option<V>>>, base: nat, keySize: K -> nat,
                                          valueSize: V -> nat, limit: nat, net: Network)
    returns (r: Result<nat, MapFailure>, ghost sent: nat, ghost plan: seq<seq<Entry<K, V>>>)
    modifies m
    ensures var entries := EntriesOf(OrEmpty(keys), OrEmpty(values));
            && sent <= |entries| && (r.Ok? <==> sent == |entries|)
            && NoNulls(entries[..sent])
            && m.pairs == PutAll(old(m.pairs), entries[..sent])
            && (r.Ok? ==> r.value == Uint32(CountSum(net, |plan|)))
            && old(m.log) <= m.log
            && SentBatches(entries, base, keySize, valueSize, limit, plan, m.log[|old(m.log)|..])
            && BatchesEndAt(r, plan, |m.log| - |old(m.log)|, net)
            && (r == Err(SizeMismatch) ==> !NoNulls(entries))
            && forall other :: IsPartition(PairSize(keySize, valueSize), base, limit, entries, other) ==>
                 |m.log| - |old(m.log)| <= |other|
    ensures Stored(old(m.pairs), m.pairs, OrEmpty(keys), OrEmpty(values), sent)
    ensures r.Ok? <==> sent == |OrEmpty(keys)|
    ensures r == Err(SizeMismatch) ==> LacksValue(OrEmpty(keys), OrEmpty(values), sent)
    ensures HoldPairs(m.log[|old(m.log)|..], OrEmpty(keys), OrEmpty(values))
    ensures forall c :: |old(m.log)| <= c < |m.log| ==> BatchFits(m.log[c], base, keySize, valueSize, limit)
  {
    hide PutAll, NoNulls, SentBatches, BatchesEndAt, CountSum, Uint32, IsPartition;
    hide Stored, HoldPairs, LacksValue, BatchFits, EntriesOf, Concat, KeyLists, ValueLists;
    sent, plan := 0, [];
    if keys.None? || keys.value == [] {
      NothingToSend(m.pairs, base, keySize, valueSize, limit, net);
      assert m.log[|m.log|..] == [];
      DirectNothing(m.pairs, OrEmpty(values));
      return Ok(0), 0, [];
    }
    var entries := CopyEntries(keys.value, OrEmpty(values));
    r, sent, plan := SendEntries(m, entries, base, keySize, valueSize, limit, net);
    forall other | IsPartition(PairSize(keySize, valueSize), base, limit, entries, other)
      ensures |m.log| - |old(m.log)| <= |other|
    {
      FewestBatches(entries, base, keySize, valueSize, limit, plan, m.log[|old(m.log)|..], other);
    }
    ghost var batches := m.log[|old(m.log)|..];
    DirectTerms(old(m.pairs), keys.value, OrEmpty(values), sent, base, keySize, valueSize, limit, plan, batches);
    assert forall c :: |old(m.log)| <= c < |m.log| ==> m.log[c] == batches[c - |old(m.log)|];
  }

  lemma DirectNothing<K(!new), V>(m: map<K, V>, values: seq<Option<V>>)
    ensures EntriesOf<K, V>([], values) == [] && Stored(m, m, [], values, 0) && HoldPairs<K, V>([], [], values)
  {
    assert KeyLists<K, V>([]) == [] && ValueLists<K, V>([]) == [];
  }

  /** What was sent and stored, in terms of the caller's lists. */
  lemma DirectTerms<K(!new), V>(m: map<K, V>, keys: seq<K>, values: seq<Option<V>>, sent: nat, base: nat,
                                keySize: K -> nat, valueSize: V -> nat, limit: nat,
                                plan: seq<seq<Entry<K, V>>>, batches: seq<MapChunk<K, V>>)
    requires sent <= |keys| && NoNulls(EntriesOf(keys, values)[..sent])
    requires SentBatches(EntriesOf(keys, values), base, keySize, valueSize, limit, plan, batches)
    requires NoNulls(Concat(plan[..|batches|]))
    ensures Stored(m, PutAll(m, EntriesOf(keys, values)[..sent]), keys, values, sent)
    ensures HoldPairs(batches, keys, values)
    ensures forall c :: 0 <= c < |batches| ==> BatchFits(batches[c], base, keySize, valueSize, limit)
    ensures !NoNulls(EntriesOf(keys, values)) ==> LacksValue(keys, values, sent)
  {
    StoredDirectly(m, keys, values, sent);
    PairsHeld(keys, values, plan, |batches|);
    BatchesFit(EntriesOf(keys, values), base, keySize, valueSize, limit, plan, batches);
    var entries := EntriesOf(keys, values);
    forall i | 0 <= i < sent ensures entries[i].value.Some? {
      assert entries[..sent][i].value.Some?;
    }
    if !NoNulls(entries) {
      var i :| 0 <= i < |keys| && entries[i].value.None?;
      assert sent <= i;
    }
  }

  method CopyEntries<K, V>(keys: seq<K>, values: seq<Option<V>>) returns (entries: seq<Entry<K, V>>)
    ensures entries == EntriesOf(keys, values)
  {
    entries := [];
    for i := 0 to |keys|
      invariant |entries| == i && forall k :: 0 <= k < i ==> entries[k] == EntriesOf(keys, values)[k]
    {
      var v := if i < |values| then values[i] else None;
      entries := entries + [Entry(keys[i], v)];
    }
  }

  method SendEntries<K(==), V(==)>(m: RemoteMap<K, V>, entries: seq<Entry<K, V>>, base: nat, keySize: K -> nat,
                                   valueSize: V -> nat, limit: nat, net: Network)
    returns (r: Result<nat, MapFailure>, ghost sent: nat, ghost plan: seq<seq<Entry<K, V>>>)
    modifies m
    ensures sent <= |entries| && (r.Ok? <==> sent == |entries|)
    ensures NoNulls(entries[..sent]) && m.pairs == PutAll(old(m.pairs), entries[..sent])
    ensures r.Ok? ==> r.value == Uint32(CountSum(net, |plan|))
    ensures old(m.log) <= m.log && BatchesEndAt(r, plan, |m.log| - |old(m.log)|, net)
    ensures r == Err(SizeMismatch) ==> !NoNulls(entries)
    ensures |m.log[|old(m.log)|..]| <= |plan| && NoNulls(Concat(plan[..|m.log[|old(m.log)|..]|]))
    ensures SentBatches(entries, base, keySize, valueSize, limit, plan, m.log[|old(m.log)|..])
  {
    var chunks;
    chunks, plan := PartitionMapChunks(entries, base, keySize, valueSize, limit);
    ghost var done: nat;
    r, done := RunMapPipeline(m, chunks, plan, net);
    assert r == Err(SizeMismatch) ==> done < |plan| && !NoNulls(plan[done]);
    hide PutAll, IsTight, Strip, NoNulls, BatchesEndAt;
    ChunksNonEmpty(PairSize(keySize, valueSize), base, limit, entries, plan);
    SentPrefix(plan, done);
    sent := |Concat(plan[..done])|;
    if done < |plan| {
      NullStays(plan, entries, done);
    }
  }

  /** The pipeline over map chunks; `plan` holds the entries each chunk was stripped from. */
  method RunMapPipeline<K(==), V(==)>(m: RemoteMap<K, V>, chunks: seq<MapChunk<K, V>>,
                                      ghost plan: seq<seq<Entry<K, V>>>, net: Network)
    returns (r: Result<nat, MapFailure>, ghost done: nat)
    requires chunks == StripAll(plan)
    modifies m
    ensures done <= |plan| && (r.Ok? <==> done == |plan|)
    ensures NoNulls(Concat(plan[..done])) && m.pairs == PutAll(old(m.pairs), Concat(plan[..done]))
    ensures r.Ok? ==> r.value == Uint32(CountSum(net, |plan|))
    ensures m.log == old(m.log) + chunks[..if r == Err(MapCallFailed) && done < |plan| then done + 1 else done]
    ensures BatchesEndAt(r, plan, |m.log| - |old(m.log)|, net)
    ensures |m.log[|old(m.log)|..]| <= |plan| && NoNulls(Concat(plan[..|m.log[|old(m.log)|..]|]))
  {
    hide PutAll, StripAll, Strip, Zip, NoNulls, Uint32, CountSum, Concat;
    var total := 0;
    NothingStored(m.pairs, plan, net);
    for k := 0 to |chunks|
      invariant total == Uint32(CountSum(net, k))
      invariant NoNulls(Concat(plan[..k]))
      invariant m.pairs == PutAll(old(m.pairs), Concat(plan[..k]))
      invariant m.log == old(m.log) + chunks[..k] && forall j :: 0 <= j < k ==> net(j).up
    {
      assert chunks[..k + 1] == chunks[..k] + [chunks[k]];
      StripAllAt(plan, k);
      StripPairs(plan[k]);
      ConcatStep(plan, k);
      var one := m.AddBatch(chunks[k].keys, chunks[k].values, net(k));
      NoNullsJoin(Concat(plan[..k]), plan[k]);
      if one.Err? {
        r, done := Err(one.error), k;
        return;
      }
      PutAllSplit(old(m.pairs), Concat(plan[..k]), plan[k]);
      AddCount(net, k);
      total := Uint32(total + one.value);
    }
    r, done := Ok(total), |chunks|;
  }

  lemma NoNullsJoin<K, V>(a: seq<Entry<K, V>>, b: seq<Entry<K, V>>)
    requires NoNulls(a)
    ensures NoNulls(b) ==> NoNulls(a + b)
  {}

  lemma NothingStored<K, V>(m: map<K, V>, plan: seq<seq<Entry<K, V>>>, net: Network)
    ensures Concat(plan[..0]) == [] && NoNulls<K, V>([]) && PutAll(m, []) == m && Uint32(CountSum(net, 0)) == 0
  {}

  lemma StripAllAt<K, V>(plan: seq<seq<Entry<K, V>>>, k: nat)
    requires k < |plan|
    ensures StripAll(plan)[k] == Strip(plan[k])
  {}

  lemma NullStays<K, V>(plan: seq<seq<Entry<K, V>>>, entries: seq<Entry<K, V>>, k: nat)
    requires Concat(plan) == entries && k < |plan|
    ensures NoNulls(entries) ==> NoNulls(plan[k])
  {
    ConcatTake(plan, k);
    var d := Concat(plan[..k]);
    assert Concat(plan[k..]) == plan[k] + Concat(plan[k..][1..]);
    forall i | 0 <= i < |plan[k]| ensures plan[k][i] == entries[|d| + i] {}
  }
}
