/** The asynchronous stream call: StreamCallData::Proceed of common/include/utils.hxx and
    RoutingStreamCallData::Proceed of smart/src/coordinator_client.cpp, with the routing merge. */
module Streams {
  import opened Common
  import opened Routing

  datatype Phase = STARTED | READING | FINISHING

  /** Operations issued on the completion queue; each completes once. */
  datatype Op = StartCall | Read | Finish

  datatype Status = StatusOk | StatusError(code: int)

  /** A completed operation: its ok flag, the chunk a Read delivered, the status a Finish delivered. */
  datatype Completion<C> = Completion(ok: bool, chunk: C, status: Status)

  datatype Outcome<V> = Value(value: V) | Error(status: Status)

  /** What the accumulator leaves in the result, and whether it threw. */
  datatype Folded<R> = Folded(result: R, threw: bool)

  /** How chunks are accumulated, and how the accumulated result becomes the promised value. */
  datatype Handler<!C, !R, !V> = Handler(accumulate: (R, C) -> Folded<R>, deliver: R -> V)

  datatype Call<R, V> = Call(
    phase: Phase,
    result: R,
    issued: seq<Op>,
    completed: nat,
    promise: seq<Outcome<V>>,  // every set_value or set_exception, in order
    freed: bool)

  function Begin<R, V>(initial: R): Call<R, V> {
    Call(STARTED, initial, [StartCall], 0, [], false)
  }

  /** Proceed(ok) as a function of the call object's state. */
  function Step<C, R, V>(h: Handler<C, R, V>, s: Call<R, V>, e: Completion<C>): Call<R, V> {
    var t := s.(completed := s.completed + 1);
    match s.phase
    case STARTED =>
      if e.ok then t.(phase := READING, issued := s.issued + [Read])
      else t.(phase := FINISHING, issued := s.issued + [Finish])
    case READING =>
      if e.ok then
        var f := h.accumulate(s.result, e.chunk);
        if f.threw then t.(result := f.result, phase := FINISHING, issued := s.issued + [Finish])
        else t.(result := f.result, issued := s.issued + [Read])
      else t.(phase := FINISHING, issued := s.issued + [Finish])
    case FINISHING =>
      t.(promise := s.promise + [if e.status.StatusOk? then Value(h.deliver(s.result)) else Error(e.status)],
         freed := true)
  }

  class StreamCall<C, R, V> {
    const handler: Handler<C, R, V>
    var phase: Phase
    var result: R
    var status: Status
    var freed: bool
    var issued: seq<Op>
    var completed: nat
    var promise: seq<Outcome<V>>

    constructor (handler: Handler<C, R, V>, initial: R)
      ensures this.handler == handler && State() == Begin(initial)
    {
      this.handler := handler;
      phase, result, status, freed := STARTED, initial, StatusOk, false;
      issued, completed, promise := [StartCall], 0, [];
    }

    ghost function State(): Call<R, V>
      reads this
    {
      Call(phase, result, issued, completed, promise, freed)
    }

    /** gRPC stores the chunk or the status before it reports the completion; the status Finish stores
        replaces whatever the object had put there. */
    method Proceed(e: Completion<C>)
      requires !freed
      modifies this
      ensures State() == Step(handler, old(State()), e)
    {
      completed := completed + 1;
      if phase == STARTED {
        if e.ok {
          phase := READING;
          issued := issued + [Read];
        } else {
          phase := FINISHING;
          issued := issued + [Finish];
        }
      } else if phase == READING {
        if e.ok {
          var f := handler.accumulate(result, e.chunk);
          result := f.result;
          if f.threw {
            phase := FINISHING;
            status := StatusError(2);
            issued := issued + [Finish];
            return;
          }
          issued := issued + [Read];
        } else {
          phase := FINISHING;
          issued := issued + [Finish];
        }
      } else {
        status := e.status;
        if status == StatusOk {
          promise := promise + [Value(handler.deliver(result))];
        } else {
          promise := promise + [Error(status)];
        }
        freed := true;
      }
    }
  }

  // ---- every run of completions ----

  /** The call after these completions; nothing is outstanding once it has freed itself. */
  function Run<C, R, V>(h: Handler<C, R, V>, s: Call<R, V>, events: seq<Completion<C>>): Call<R, V>
    decreases |events|
  {
    if events == [] || s.freed then s else Run(h, Step(h, s, events[0]), events[1..])
  }

  function Finishes(ops: seq<Op>): nat {
    if ops == [] then 0 else Finishes(ops[..|ops| - 1]) + if ops[|ops| - 1] == Finish then 1 else 0
  }

  /** One operation is outstanding until the call ends; it is the one its phase waits for. */
  ghost predicate WellRun<R, V>(s: Call<R, V>) {
    && s.issued != []
    && |s.issued| == s.completed + (if s.freed then 0 else 1)
    && |s.promise| == (if s.freed then 1 else 0)
    && Finishes(s.issued) == (if s.phase == FINISHING then 1 else 0)
    && (s.freed ==> s.phase == FINISHING)
    && s.issued[|s.issued| - 1] ==
         (match s.phase case STARTED => StartCall case READING => Read case FINISHING => Finish)
  }

  lemma StepWellRun<C, R, V>(h: Handler<C, R, V>, s: Call<R, V>, e: Completion<C>)
    requires WellRun(s) && !s.freed
    ensures WellRun(Step(h, s, e))
    ensures Step(h, s, e).freed <==> s.phase == FINISHING
  {
    var t := Step(h, s, e);
    if t.issued != s.issued {
      assert t.issued[..|t.issued| - 1] == s.issued;
    }
  }

  /** In every run: exactly one outstanding operation until the end, at most one Finish, one promise
      resolution, and that together with freeing, on the completion of Finish. */
  lemma {:induction false} RunWellRun<C, R, V>(h: Handler<C, R, V>, s: Call<R, V>, events: seq<Completion<C>>)
    requires WellRun(s)
    ensures WellRun(Run(h, s, events))
    decreases |events|
  {
    if events != [] && !s.freed {
      StepWellRun(h, s, events[0]);
      RunWellRun(h, Step(h, s, events[0]), events[1..]);
    }
  }

  /** The in-order fold of the delivered chunks, up to the end of the stream or a throwing chunk. */
  function FoldChunks<C, R, V>(h: Handler<C, R, V>, r: R, events: seq<Completion<C>>): R
    decreases |events|
  {
    if events == [] || !events[0].ok then r
    else
      var f := h.accumulate(r, events[0].chunk);
      if f.threw then f.result else FoldChunks(h, f.result, events[1..])
  }

  lemma FinishOutcome<C, R, V>(h: Handler<C, R, V>, s: Call<R, V>, events: seq<Completion<C>>)
    requires s.phase == FINISHING && !s.freed && s.promise == []
    ensures var end := Run(h, s, events);
            end.freed ==>
              && events != [] && end.completed == s.completed + 1
              && end.promise == [ResolvedBy(h, events[0].status, s.result)]
  {
    if events != [] {
      assert Run(h, Step(h, s, events[0]), events[1..]) == Step(h, s, events[0]);
    }
  }

  lemma {:induction false} ReadingOutcome<C, R, V>(h: Handler<C, R, V>, s: Call<R, V>, events: seq<Completion<C>>)
    requires s.phase == READING && !s.freed && s.promise == []
    ensures var end := Run(h, s, events);
            end.freed ==>
              && s.completed < end.completed <= s.completed + |events|
              && end.promise ==
                   [ResolvedBy(h, events[end.completed - s.completed - 1].status, FoldChunks(h, s.result, events))]
    decreases |events|
  {
    if events != [] {
      var t := Step(h, s, events[0]);
      if t.phase == READING {
        ReadingOutcome(h, t, events[1..]);
      } else {
        FinishOutcome(h, t, events[1..]);
      }
    }
  }

  function ResolvedBy<C, R, V>(h: Handler<C, R, V>, last: Status, result: R): Outcome<V> {
    if last.StatusOk? then Value(h.deliver(result)) else Error(last)
  }

  /** What a finished call delivers: the status of its last completion decides, and on success the value
      is the in-order fold of the chunks. An accumulator that threw does not turn success into failure. */
  lemma CallOutcome<C, R, V>(h: Handler<C, R, V>, initial: R, events: seq<Completion<C>>)
    ensures var end := Run(h, Begin(initial), events);
            && WellRun(end)
            && (end.freed ==>
                  && 2 <= end.completed <= |events|
                  && end.promise == [ResolvedBy(h, events[end.completed - 1].status,
                                                if events[0].ok then FoldChunks(h, initial, events[1..]) else initial)]
                  && (events[end.completed - 1].status.StatusError? ==>
                        end.promise == [Error(events[end.completed - 1].status)]))
  {
    var s: Call<R, V> := Begin(initial);
    assert Finishes(s.issued) == 0;
    RunWellRun(h, s, events);
    if events != [] {
      var t := Step(h, s, events[0]);
      if events[0].ok {
        ReadingOutcome(h, t, events[1..]);
      } else {
        FinishOutcome(h, t, events[1..]);
      }
    }
  }

  /** Some accumulated chunk made the accumulator throw. */
  predicate Threw<C, R, V>(h: Handler<C, R, V>, r: R, events: seq<Completion<C>>)
    decreases |events|
  {
    events != [] && events[0].ok &&
    var f := h.accumulate(r, events[0].chunk);
    f.threw || Threw(h, f.result, events[1..])
  }

  /** When an accumulator threw, the caller learns of a failure if and only if the server closed with one. */
  lemma ThrownErrorSurfaces<C, R, V>(h: Handler<C, R, V>, initial: R, events: seq<Completion<C>>)
    requires events != [] && events[0].ok && Threw(h, initial, events[1..]) && Run(h, Begin(initial), events).freed
    ensures var end := Run(h, Begin(initial), events);
            && 2 <= end.completed <= |events|
            && |end.promise| == 1
            && (end.promise[0].Error? <==> events[end.completed - 1].status.StatusError?)
            && (end.promise[0].Value? ==> end.promise[0].value == h.deliver(FoldChunks(h, initial, events[1..])))
  {
    CallOutcome(h, initial, events);
  }

  /** A lost failure, concretely: the second chunk throws, the server closes with OK, and the caller gets
      the first chunk's total as a success. */
  lemma ThrownErrorIsLost()
    ensures var h := Handler((r: int, c: int) => Folded(if c < 0 then r else r + c, c < 0), (r: int) => r);
            var events := [Completion(true, 0, StatusOk), Completion(true, 7, StatusOk), Completion(true, -1, StatusOk),
                           Completion(true, 0, StatusOk)];
            Run(h, Begin(0), events).promise == [Value(7)]
  {
    var h := Handler((r: int, c: int) => Folded(if c < 0 then r else r + c, c < 0), (r: int) => r);
    var a, b, c := Completion(true, 0, StatusOk), Completion(true, 7, StatusOk), Completion(true, -1, StatusOk);
    var s1: Call<int, int> := Step(h, Begin(0), a);
    var s2 := Step(h, s1, b);
    var s3 := Step(h, s2, c);
    assert [a, b, c, a][1..] == [b, c, a] && [b, c, a][1..] == [c, a] && [c, a][1..] == [a];
    assert Run(h, s3, [a]) == Step(h, s3, a);
    assert Run(h, s2, [c, a]) == Run(h, s3, [a]);
    assert Run(h, s1, [b, c, a]) == Run(h, s2, [c, a]);
  }

  // ---- the coordinator's routing stream ----

  datatype Chunk = Chunk(maxShards: uint32, peers: seq<Peer>)

  datatype Info = Info(maxShards: int, peers: seq<Peer>)

  /** The first chunk creates the result; the first nonzero shard count stays; peers are appended. */
  function MergeChunk(r: Option<Info>, chunk: Chunk): Info {
    var info := if r.None? then Info(0, []) else r.value;
    Info(if info.maxShards == 0 then AsInt32(chunk.maxShards) else info.maxShards, info.peers + chunk.peers)
  }

  function RoutingHandler(): Handler<Chunk, Option<Info>, Info> {
    Handler((r: Option<Info>, c: Chunk) => Folded(Some(MergeChunk(r, c)), false),
            (r: Option<Info>) => if r.None? then Info(0, []) else r.value)
  }

  function FirstShards(chunks: seq<Chunk>): int {
    if chunks == [] then 0
    else if AsInt32(chunks[0].maxShards) != 0 then AsInt32(chunks[0].maxShards)
    else FirstShards(chunks[1..])
  }

  /** The first chunk that announces a nonzero count. */
  ghost predicate IsFirstCount(chunks: seq<Chunk>, i: int) {
    0 <= i < |chunks| && chunks[i].maxShards != 0 && forall j :: 0 <= j < i ==> chunks[j].maxShards == 0
  }

  /** The merged count is that of the first chunk that announces a nonzero one, and zero exactly when no
      chunk does. */
  lemma {:induction false} ShardsMerged(chunks: seq<Chunk>)
    ensures Merged(chunks).maxShards == 0 <==> forall i :: 0 <= i < |chunks| ==> chunks[i].maxShards == 0
    ensures forall i :: IsFirstCount(chunks, i) ==> Merged(chunks).maxShards == AsInt32(chunks[i].maxShards)
  {
    if chunks != [] && chunks[0].maxShards == 0 {
      ShardsMerged(chunks[1..]);
      forall i | IsFirstCount(chunks, i) ensures IsFirstCount(chunks[1..], i - 1) && chunks[i] == chunks[1..][i - 1] {}
      assert forall i :: 0 < i < |chunks| ==> chunks[i] == chunks[1..][i - 1];
    }
  }

  function PeerLists(chunks: seq<Chunk>): seq<seq<Peer>> {
    seq(|chunks|, i requires 0 <= i < |chunks| => chunks[i].peers)
  }

  /** The routing information a stream of chunks amounts to. */
  function Merged(chunks: seq<Chunk>): Info {
    Info(FirstShards(chunks), Concat(PeerLists(chunks)))
  }

  function Delivered(r: Option<Info>): Info { RoutingHandler().deliver(r) }

  /** The completions of a call whose server sends these chunks and closes with OK. */
  function StreamOf(chunks: seq<Chunk>): seq<Completion<Chunk>> {
    seq(|chunks|, i requires 0 <= i < |chunks| => Completion(true, chunks[i], StatusOk))
    + [Completion(false, Chunk(0, []), StatusOk), Completion(true, Chunk(0, []), StatusOk)]
  }

  lemma {:induction false} FoldIsMerged(r: Option<Info>, chunks: seq<Chunk>)
    ensures var end := Delivered(FoldChunks(RoutingHandler(), r, StreamOf(chunks)));
            && end.maxShards == (if Delivered(r).maxShards != 0 then Delivered(r).maxShards else FirstShards(chunks))
            && end.peers == Delivered(r).peers + Concat(PeerLists(chunks))
    decreases |chunks|
  {
    var events := StreamOf(chunks);
    if chunks == [] {
      assert !events[0].ok;
    } else {
      assert events[0] == Completion(true, chunks[0], StatusOk) && events[1..] == StreamOf(chunks[1..]);
      FoldIsMerged(Some(MergeChunk(r, chunks[0])), chunks[1..]);
      assert PeerLists(chunks)[1..] == PeerLists(chunks[1..]);
    }
  }

  lemma {:induction false} StreamEnds(s: Call<Option<Info>, Info>, chunks: seq<Chunk>)
    requires s.phase == READING && !s.freed && s.promise == []
    ensures var end := Run(RoutingHandler(), s, StreamOf(chunks));
            end.freed && end.completed == s.completed + |chunks| + 2
    decreases |chunks|
  {
    var h, events := RoutingHandler(), StreamOf(chunks);
    var t := Step(h, s, events[0]);
    if chunks == [] {
      assert events[1..] == [Completion(true, Chunk(0, []), StatusOk)];
      assert Run(h, t, events[1..]) == Step(h, t, events[1..][0]);
    } else {
      assert events[1..] == StreamOf(chunks[1..]);
      StreamEnds(t, chunks[1..]);
    }
  }

  /** A routing stream that is delivered completely resolves to the merge of its chunks. */
  lemma RoutingStreamOutcome(chunks: seq<Chunk>)
    ensures Run(RoutingHandler(), Begin(None), [Completion(true, Chunk(0, []), StatusOk)] + StreamOf(chunks)).promise
         == [Value(Merged(chunks))]
  {
    var h, start := RoutingHandler(), Completion(true, Chunk(0, []), StatusOk);
    var events := [start] + StreamOf(chunks);
    var s: Call<Option<Info>, Info> := Begin(None);
    var t := Step(h, s, start);
    assert events[1..] == StreamOf(chunks);
    StreamEnds(t, chunks);
    ReadingOutcome(h, t, StreamOf(chunks));
    FoldIsMerged(None, chunks);
    var end := Run(h, t, StreamOf(chunks));
    assert StreamOf(chunks)[|chunks| + 1].status == StatusOk;
    assert Delivered(FoldChunks(h, None, StreamOf(chunks))) == Merged(chunks);
  }

  /** Consecutive entries for one target and role, read as one entry. */
  function Fuse(peers: seq<Peer>): (fused: seq<Peer>)
    ensures fused == [] <==> peers == []
  {
    if peers == [] then []
    else
      var init, last := Fuse(peers[..|peers| - 1]), peers[|peers| - 1];
      if init != [] && Joins(init[|init| - 1], last) then init[..|init| - 1] + [Joined(init[|init| - 1], last)]
      else init + [last]
  }

  predicate Joins(p: Peer, q: Peer) { p.target == q.target && p.role == q.role }

  function Joined(p: Peer, q: Peer): Peer { Peer(p.target, p.role, p.partitions + q.partitions) }

  lemma AssignmentsSnoc(a: seq<Peer>, p: Peer)
    ensures AssignmentsOf(a + [p]) == AssignmentsOf(a) + AssignmentsOfPeer(p)
    ensures TargetsOf(a + [p]) == TargetsOf(a) + {p.target}
  {
    assert (a + [p])[..|a|] == a;
  }

  lemma {:induction false} FuseKeeps(peers: seq<Peer>)
    ensures AssignmentsOf(Fuse(peers)) == AssignmentsOf(peers)
    ensures TargetsOf(Fuse(peers)) == TargetsOf(peers)
  {
    if peers != [] {
      var before, last := peers[..|peers| - 1], peers[|peers| - 1];
      var init := Fuse(before);
      assert peers == before + [last];
      FuseKeeps(before);
      if init != [] && Joins(init[|init| - 1], last) {
        FuseJoins(init[..|init| - 1], init[|init| - 1], last);
        assert init == init[..|init| - 1] + [init[|init| - 1]];
      }
      AssignmentsSnoc(init, last);
      AssignmentsSnoc(before, last);
    }
  }

  lemma JoinedAssignments(p: Peer, q: Peer)
    requires Joins(p, q)
    ensures AssignmentsOfPeer(Joined(p, q)) == AssignmentsOfPeer(p) + AssignmentsOfPeer(q)
  {}

  lemma FuseJoins(a: seq<Peer>, p: Peer, q: Peer)
    requires Joins(p, q)
    ensures AssignmentsOf(a + [Joined(p, q)]) == AssignmentsOf(a + [p] + [q])
    ensures TargetsOf(a + [Joined(p, q)]) == TargetsOf(a + [p] + [q])
  {
    hide AssignmentsOf, AssignmentsOfPeer, TargetsOf;
    JoinedAssignments(p, q);
    AssignmentsSnoc(a, Joined(p, q));
    AssignmentsSnoc(a, p);
    AssignmentsSnoc(a + [p], q);
    var before, one, two := AssignmentsOf(a), AssignmentsOfPeer(p), AssignmentsOfPeer(q);
    assert before + (one + two) == before + one + two;
  }

  /** Neither chunk boundaries nor cuts of a peer's partition list matter: streams whose peers agree once
      consecutive entries of a peer are fused, with the same first nonzero shard count, allow exactly the
      same table installs. */
  lemma ChunkingIrrelevant(xs: seq<Chunk>, ys: seq<Chunk>, pre: Table, post: Table, lo: nat, hi: nat,
                           removed: seq<Client>)
    requires FirstShards(xs) == FirstShards(ys)
    requires Fuse(Concat(PeerLists(xs))) == Fuse(Concat(PeerLists(ys)))
    ensures Updates(pre, post, lo, hi, Merged(xs).maxShards, Merged(xs).peers, removed)
       <==> Updates(pre, post, lo, hi, Merged(ys).maxShards, Merged(ys).peers, removed)
  {
    FuseKeeps(Concat(PeerLists(xs)));
    FuseKeeps(Concat(PeerLists(ys)));
  }

  /** An empty stream is a success with zero shards. */
  lemma EmptyStreamMeansNoShards()
    ensures Run(RoutingHandler(), Begin(None), [Completion(true, Chunk(0, []), StatusOk)] + StreamOf([])).promise
         == [Value(Info(0, []))]
  {
    RoutingStreamOutcome([]);
  }
}
