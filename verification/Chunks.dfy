/** The greedy packers of smart/src/smart_client.cpp: partitionValueChunks and its siblings,
    firstChunkSplit, and the RPC size limit. Estimated sizes are an arbitrary function. */
module Chunks {
  import opened Common

  function Total<T>(size: T -> nat, s: seq<T>): nat {
    if s == [] then 0 else size(s[0]) + Total(size, s[1..])
  }

  lemma {:induction false} TotalSplit<T>(size: T -> nat, a: seq<T>, b: seq<T>)
    ensures Total(size, a + b) == Total(size, a) + Total(size, b)
  {
    if a == [] {
      assert a + b == b;
    } else {
      assert (a + b)[1..] == a[1..] + b;
      TotalSplit(size, a[1..], b);
    }
  }

  lemma TotalSnoc<T>(size: T -> nat, a: seq<T>, x: T)
    ensures Total(size, a + [x]) == Total(size, a) + size(x)
  {
    TotalSplit(size, a, [x]);
    assert Total(size, [x]) == size(x) + Total(size, []);
  }

  /** A block inside another block is no larger. */
  lemma TotalInner<T>(size: T -> nat, s: seq<T>, from: nat, to: nat)
    requires from <= to <= |s|
    ensures Total(size, s[from..to]) <= Total(size, s)
  {
    TotalSplit(size, s[..from], s[from..to]);
    TotalSplit(size, s[..to], s[to..]);
    assert s[..from] + s[from..to] == s[..to];
    assert s[..to] + s[to..] == s;
  }

  /** What a chunk may be: one element of any size, or several that fit the limit. */
  predicate Fits<T>(size: T -> nat, base: nat, limit: nat, chunk: seq<T>) {
    chunk != [] && (|chunk| == 1 || base + Total(size, chunk) <= limit)
  }

  /** A contiguous partition of `data` into admissible chunks. */
  predicate IsPartition<T(==)>(size: T -> nat, base: nat, limit: nat, data: seq<T>, chunks: seq<seq<T>>) {
    Concat(chunks) == data && forall c :: 0 <= c < |chunks| ==> Fits(size, base, limit, chunks[c])
  }

  /** No chunk could have taken the first element of its successor. */
  predicate IsTight<T>(size: T -> nat, base: nat, limit: nat, chunks: seq<seq<T>>) {
    forall c :: 0 <= c < |chunks| - 1 && chunks[c + 1] != [] ==>
      base + Total(size, chunks[c]) + size(chunks[c + 1][0]) > limit
  }

  /** The packer's state after `done`: closed chunks and the open one. */
  predicate IsPacking<T(==)>(size: T -> nat, base: nat, limit: nat, done: seq<T>, chunks: seq<seq<T>>,
                             current: seq<T>) {
    && (current == [] ==> chunks == [] && done == [])
    && (current != [] ==>
          && IsPartition(size, base, limit, done, chunks + [current])
          && IsTight(size, base, limit, chunks + [current]))
  }

  lemma OpenChunk<T>(size: T -> nat, base: nat, limit: nat, done: seq<T>, chunks: seq<seq<T>>, current: seq<T>, x: T)
    requires IsPacking(size, base, limit, done, chunks, current)
    requires current != [] ==> base + Total(size, current) + size(x) > limit
    ensures IsPacking(size, base, limit, done + [x], if current == [] then [] else chunks + [current], [x])
  {
    var closed := if current == [] then [] else chunks + [current];
    var all := closed + [[x]];
    ConcatSnoc(closed, [x]);
    forall c | 0 <= c < |all| ensures Fits(size, base, limit, all[c]) {
      assert c < |closed| ==> all[c] == closed[c];
    }
    forall c | 0 <= c < |all| - 1 && all[c + 1] != []
      ensures base + Total(size, all[c]) + size(all[c + 1][0]) > limit
    {
      assert all[c] == closed[c];
      assert c + 1 < |closed| ==> all[c + 1] == closed[c + 1];
    }
  }

  lemma GrowChunk<T>(size: T -> nat, base: nat, limit: nat, done: seq<T>, chunks: seq<seq<T>>, current: seq<T>, x: T)
    requires IsPacking(size, base, limit, done, chunks, current) && current != []
    requires base + Total(size, current) + size(x) <= limit
    ensures IsPacking(size, base, limit, done + [x], chunks, current + [x])
  {
    var was, all := chunks + [current], chunks + [current + [x]];
    ConcatSnoc(chunks, current);
    ConcatSnoc(chunks, current + [x]);
    TotalSnoc(size, current, x);
    forall c | 0 <= c < |all| ensures Fits(size, base, limit, all[c]) {
      assert c < |chunks| ==> all[c] == was[c];
    }
    forall c | 0 <= c < |all| - 1 && all[c + 1] != []
      ensures base + Total(size, all[c]) + size(all[c + 1][0]) > limit
    {
      assert all[c] == was[c] && was[c + 1] != [] && was[c + 1][0] == all[c + 1][0];
    }
  }

  lemma PackingDone<T>(size: T -> nat, base: nat, limit: nat, data: seq<T>, chunks: seq<seq<T>>, current: seq<T>)
    requires IsPacking(size, base, limit, data[..|data|], chunks, current)
    ensures IsPartition(size, base, limit, data, if current == [] then chunks else chunks + [current])
    ensures IsTight(size, base, limit, if current == [] then chunks else chunks + [current])
  {
    assert data[..|data|] == data;
  }

  /** One round of the packer's loop. */
  lemma PackStep<T>(size: T -> nat, base: nat, limit: nat, done: seq<T>, chunks: seq<seq<T>>, current: seq<T>, x: T,
                    full: bool)
    requires IsPacking(size, base, limit, done, chunks, current)
    requires full <==> current != [] && base + Total(size, current) + size(x) > limit
    ensures IsPacking(size, base, limit, done + [x], if full then chunks + [current] else chunks,
                      (if full then [] else current) + [x])
    ensures Total(size, (if full then [] else current) + [x]) == (if full then 0 else Total(size, current)) + size(x)
  {
    TotalSnoc(size, if full then [] else current, x);
    assert [] + [x] == [x];
    if current == [] {
      assert chunks == [];
      OpenChunk(size, base, limit, done, chunks, current, x);
    } else {
      hide IsPacking;
      if full {
        OpenChunk(size, base, limit, done, chunks, current, x);
      } else {
        GrowChunk(size, base, limit, done, chunks, current, x);
      }
    }
  }

  method PartitionValueChunks<T(==)>(data: seq<T>, base: nat, size: T -> nat, limit: nat)
    returns (chunks: seq<seq<T>>)
    ensures IsPartition(size, base, limit, data, chunks)
    ensures IsTight(size, base, limit, chunks)
    ensures forall other :: IsPartition(size, base, limit, data, other) ==> |chunks| <= |other|
  {
    chunks := [];
    var currentSize := base;
    var current: seq<T> := [];
    for i := 0 to |data|
      invariant IsPacking(size, base, limit, data[..i], chunks, current)
      invariant currentSize == base + Total(size, current)
    {
      hide IsPacking, Total;
      var elem := size(data[i]);
      assert data[..i + 1] == data[..i] + [data[i]];
      PackStep(size, base, limit, data[..i], chunks, current, data[i], current != [] && currentSize + elem > limit);
      if current != [] && currentSize + elem > limit {
        chunks := chunks + [current];
        current := [];
        currentSize := base;
      }
      current := current + [data[i]];
      currentSize := currentSize + elem;
    }
    PackingDone(size, base, limit, data, chunks, current);
    if current != [] {
      chunks := chunks + [current];
    }
    forall other | IsPartition(size, base, limit, data, other) ensures |chunks| <= |other| {
      GreedyIsOptimal(size, base, limit, data, chunks, other);
    }
  }

  /** The tight partition has the fewest chunks. */
  lemma GreedyIsOptimal<T>(size: T -> nat, base: nat, limit: nat, data: seq<T>, greedy: seq<seq<T>>, other: seq<seq<T>>)
    requires IsPartition(size, base, limit, data, greedy) && IsTight(size, base, limit, greedy)
    requires IsPartition(size, base, limit, data, other)
    ensures |greedy| <= |other|
  {
    GreedyStaysAhead(size, base, limit, data, greedy, other);
  }

  /** Where the tight partition of a suffix starts no earlier than the other partition, it needs no more chunks:
      it can only stay ahead. `rest` is what `other` covers; `greedy` covers a suffix of it. */
  lemma {:induction false} GreedyStaysAhead<T>(size: T -> nat, base: nat, limit: nat, rest: seq<T>,
                                               greedy: seq<seq<T>>, other: seq<seq<T>>)
    requires |Concat(greedy)| <= |rest| && Concat(greedy) == rest[|rest| - |Concat(greedy)|..]
    requires forall c :: 0 <= c < |greedy| ==> Fits(size, base, limit, greedy[c])
    requires IsTight(size, base, limit, greedy)
    requires IsPartition(size, base, limit, rest, other)
    ensures |greedy| <= |other|
    decreases |greedy| + |other|
  {
    if greedy == [] {
      return;
    }
    var g := Concat(greedy);
    assert greedy[0] <= g;
    assert other != [];
    var m, k := |other[0]|, |rest| - |g|;
    assert rest == other[0] + Concat(other[1..]);
    assert rest[m..] == Concat(other[1..]);
    if m <= k {
      assert g == rest[m..][k - m..];
      GreedyStaysAhead(size, base, limit, rest[m..], greedy, other[1..]);
    } else {
      if |greedy| > 1 {
        ChunkEndsBy(size, base, limit, rest, k, greedy, other);
      }
      var tail := Concat(greedy[1..]);
      assert g == greedy[0] + tail;
      if |greedy| > 1 {
        assert |tail| <= |rest[m..]|;
        assert tail == g[|greedy[0]|..] == rest[k + |greedy[0]|..] == rest[m..][k + |greedy[0]| - m..];
        TightTail(size, base, limit, greedy);
        GreedyStaysAhead(size, base, limit, rest[m..], greedy[1..], other[1..]);
      }
    }
  }

  lemma TightTail<T>(size: T -> nat, base: nat, limit: nat, chunks: seq<seq<T>>)
    requires chunks != [] && IsTight(size, base, limit, chunks)
    ensures IsTight(size, base, limit, chunks[1..])
  {
    forall c | 0 <= c < |chunks[1..]| - 1 && chunks[1..][c + 1] != []
      ensures base + Total(size, chunks[1..][c]) + size(chunks[1..][c + 1][0]) > limit
    {
      assert chunks[1..][c] == chunks[c + 1] && chunks[1..][c + 1] == chunks[c + 1 + 1];
    }
  }

  /** A chunk cannot span a whole tight chunk and the element behind it. */
  lemma ChunkEndsBy<T>(size: T -> nat, base: nat, limit: nat, rest: seq<T>, k: nat, greedy: seq<seq<T>>,
                       other: seq<seq<T>>)
    requires |greedy| > 1 && other != [] && k + |Concat(greedy)| == |rest| && Concat(greedy) == rest[k..]
    requires greedy[0] != [] && greedy[1] != [] && IsTight(size, base, limit, greedy)
    requires IsPartition(size, base, limit, rest, other)
    ensures |other[0]| <= k + |greedy[0]|
  {
    var n := |greedy[0]|;
    assert base + Total(size, greedy[0]) + size(greedy[0 + 1][0]) > limit;
    assert Fits(size, base, limit, other[0]);
    assert Concat(greedy) == greedy[0] + (greedy[1] + Concat(greedy[1..][1..]));
    assert other[0] <= rest;
    if k + n < |other[0]| {
      var spanned := other[0][k..k + n + 1];
      assert spanned == rest[k..k + n + 1] == greedy[0] + [greedy[1][0]];
      TotalSnoc(size, greedy[0], greedy[1][0]);
      TotalInner(size, other[0], k, k + n + 1);
      assert false;
    }
  }

  /** firstChunkSplit: how many leading items go into the create request. */
  method FirstChunkSplit<T>(items: seq<T>, base: nat, size: T -> nat, limit: nat) returns (split: nat)
    ensures split <= |items|
    ensures forall n :: 1 <= n <= |items| ==> (n <= split <==> base + Total(size, items[..n]) <= limit)
  {
    var currentSize := base;
    split := 0;
    while split < |items|
      invariant split <= |items|
      invariant currentSize == base + Total(size, items[..split])
      invariant split >= 1 ==> currentSize <= limit
    {
      var elem := size(items[split]);
      assert items[..split + 1] == items[..split] + [items[split]];
      TotalSnoc(size, items[..split], items[split]);
      if currentSize + elem <= limit {
        currentSize := currentSize + elem;
      } else {
        break;
      }
      split := split + 1;
    }
    forall n | 1 <= n <= |items| ensures n <= split <==> base + Total(size, items[..n]) <= limit {
      if n <= split {
        assert items[..split][..n] == items[..n] == items[..split][0..n];
        TotalInner(size, items[..split], 0, n);
      } else {
        assert items[..n][0..split + 1] == items[..split + 1];
        TotalInner(size, items[..n], 0, split + 1);
      }
    }
  }

  /** Seven eighths, rounded up, of 4 MB or of the channel's message size if that is larger. */
  function MaxRpcSize(maxInbound: int): (limit: nat)
    ensures limit >= 3_670_016
    ensures 8 * limit >= 7 * maxInbound
    ensures 8 * limit < 7 * 4_194_304 + 8 || 8 * limit < 7 * maxInbound + 8
  {
    var kBase := 4 * 1024 * 1024;
    var base := if maxInbound > kBase then maxInbound else kBase;
    base - base / 8
  }
}
