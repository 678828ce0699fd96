/** Every interleaving of the routing table's operations: atomic steps of any number of threads, split
    where smart/src/routing_table.cpp takes and releases the mutex. */
module RoutingRuns {
  import opened Common
  import opened Routing

  /** Where a thread is. Closing: clients it took out of the table and has yet to shut down, outside the
      lock. Missed: its shared-lock lookup found nothing. */
  datatype Phase = Idle | Closing(pending: seq<Client>) | Missed(target: string) | Got(client: Client)

  datatype State = State(
    table: Table,
    next: nat,                   // the next fresh client identity
    created: set<Client>,        // every client ever created
    threads: map<nat, Phase>,
    retired: set<Client>,        // taken out of the table
    closed: seq<Client>)         // shut down, in order

  datatype Step =
    | Update(maxShards: int, peers: seq<Peer>, removed: seq<Client>)
    | Shutdown(removed: seq<Client>)
    | CloseOne
    | FinishClosing
    | Lookup(target: string)
    | Recheck(client: Client)
    | Route(shard: int, role: Role)
    | Return

  ghost predicate Init(s: State) {
    && s.table == Table(1024, map[], map[]) && s.next == 0 && s.created == s.retired == {} && s.closed == []
    && forall t :: t in s.threads ==> s.threads[t] == Idle
  }

  function Moved(s: State, tid: nat, phase: Phase): State {
    s.(threads := s.threads[tid := phase])
  }

  function Retire(s: State, tid: nat, table: Table, next: nat, removed: seq<Client>): State {
    Moved(s, tid, Closing(removed)).(
      table := table, next := next, created := s.created + table.targets.Values,
      retired := s.retired + set c | c in removed)
  }

  /** Thread `tid` performs one atomic step. */
  ghost predicate Next(s: State, s': State, tid: nat, step: Step) {
    && tid in s.threads
    && match step
      case Update(maxShards, peers, removed) =>
        && s.threads[tid] == Idle
        && Updates(s.table, s'.table, s.next, s'.next, maxShards, peers, removed)
        && s' == Retire(s, tid, s'.table, s'.next, removed)
      case Shutdown(removed) =>
        && s.threads[tid] == Idle
        && Clears(s.table, s'.table, removed)
        && s' == Retire(s, tid, s'.table, s.next, removed)
      case CloseOne =>
        && s.threads[tid].Closing? && s.threads[tid].pending != []
        && s' == Moved(s, tid, Closing(s.threads[tid].pending[1..])).(closed := s.closed + [s.threads[tid].pending[0]])
      case FinishClosing =>
        s.threads[tid] == Closing([]) && s' == Moved(s, tid, Idle)
      case Lookup(target) =>
        && s.threads[tid] == Idle
        && s' == Moved(s, tid, if target in s.table.targets then Got(s.table.targets[target]) else Missed(target))
      case Recheck(client) =>
        && s.threads[tid].Missed?
        && GetsOrCreates(s.table, s'.table, s.next, s'.next, s.threads[tid].target, client)
        && s' == Moved(s, tid, Got(client)).(table := s'.table, next := s'.next, created := s.created + {client})
      case Route(shard, role) =>
        && s.threads[tid] == Idle && (role, shard) in s.table.routes
        && s' == Moved(s, tid, Got(s.table.routes[(role, shard)]))
      case Return =>
        s.threads[tid].Got? && s' == Moved(s, tid, Idle)
  }

  function Live(s: State): set<Client> { s.table.targets.Values }

  ghost predicate Pending(s: State, tid: nat, c: Client) {
    tid in s.threads && s.threads[tid].Closing? && c in s.threads[tid].pending
  }

  /** Every created client is exactly one of live and retired, and is known by its identity. */
  ghost predicate Accounted(s: State) {
    && s.created == Live(s) + s.retired && Live(s) !! s.retired
    && (forall c :: c in s.created ==> c.id < s.next)
    && (forall c, d :: c in s.created && d in s.created && c.id == d.id ==> c == d)
  }

  /** Every retired client is exactly one of shut down and pending in one thread, and that once. */
  ghost predicate ClosedOnce(s: State) {
    && Distinct(s.closed)
    && (forall c :: c in s.closed ==> c in s.retired)
    && (forall t :: t in s.threads && s.threads[t].Closing? ==> Distinct(s.threads[t].pending))
    && (forall t, c :: Pending(s, t, c) ==> c in s.retired && c !in s.closed)
    && (forall t, u, c :: Pending(s, t, c) && Pending(s, u, c) ==> t == u)
    && (forall c :: c in s.retired && c !in s.closed ==> exists t :: Pending(s, t, c))
  }

  ghost predicate Inv(s: State) {
    Sound(s.table, s.next) && Accounted(s) && ClosedOnce(s)
  }

  lemma InitInv(s: State)
    requires Init(s)
    ensures Inv(s)
  {}

  // ---- preservation ----

  /** Taking clients out of the table, for update and shutdown alike. */
  lemma RetireClosedOnce(s: State, tid: nat, table: Table, next: nat, removed: seq<Client>)
    requires ClosedOnce(s) && tid in s.threads && s.threads[tid] == Idle
    requires Distinct(removed) && forall c :: c in removed ==> c !in s.retired
    ensures ClosedOnce(Retire(s, tid, table, next, removed))
  {
    var s' := Retire(s, tid, table, next, removed);
    forall t, c ensures Pending(s', t, c) <==> (if t == tid then c in removed else Pending(s, t, c)) {}
    forall c | c in s'.retired && c !in s'.closed ensures exists t :: Pending(s', t, c) {
      if c in removed {
        assert Pending(s', tid, c);
      } else {
        var t :| Pending(s, t, c);
        assert Pending(s', t, c);
      }
    }
  }

  lemma ListsDistinct(q: seq<Client>, elements: set<Client>)
    requires Lists(q, elements)
    ensures Distinct(q) && (set c | c in q) == elements
  {}

  /** Phases without pending clients do not matter for who is shut down. */
  lemma MoveClosedOnce(s: State, tid: nat, phase: Phase)
    requires ClosedOnce(s) && tid in s.threads
    requires forall c :: !Pending(s, tid, c)
    requires !phase.Closing?
    ensures ClosedOnce(Moved(s, tid, phase))
  {
    var s' := Moved(s, tid, phase);
    forall t, c ensures Pending(s', t, c) <==> Pending(s, t, c) {}
    forall c | c in s'.retired && c !in s'.closed ensures exists t :: Pending(s', t, c) {
      var t :| Pending(s, t, c);
      assert Pending(s', t, c);
    }
  }

  /** ClosedOnce reads only the threads, the retired and the closed clients. */
  lemma ClosedOnceFrame(s: State, s': State)
    requires ClosedOnce(s) && s'.threads == s.threads && s'.retired == s.retired && s'.closed == s.closed
    ensures ClosedOnce(s')
  {
    forall t, c ensures Pending(s', t, c) <==> Pending(s, t, c) {}
    forall c | c in s'.retired && c !in s'.closed ensures exists t :: Pending(s', t, c) {
      var t :| Pending(s, t, c);
      assert Pending(s', t, c);
    }
  }

  lemma UpdateInv(s: State, s': State, tid: nat, step: Step)
    requires Inv(s) && step.Update? && Next(s, s', tid, step)
    ensures Inv(s')
  {
    hide ClosedOnce, Updates, KeepsAndCreates, Sound, Accounted, RoutesOf, AssignmentsOf;
    UpdateSound(s.table, s'.table, s.next, s'.next, step.maxShards, step.peers, step.removed);
    UpdateRemoves(s.table, s'.table, s.next, s'.next, step);
    AccountedParts(s);
    RetireClosedOnce(s, tid, s'.table, s'.next, step.removed);
    UpdateAccounted(s, s', tid, step);
  }

  lemma AccountedParts(s: State)
    requires Accounted(s)
    ensures Live(s) !! s.retired
  {}

  lemma UpdateRemoves(pre: Table, post: Table, lo: nat, hi: nat, step: Step)
    requires step.Update? && Updates(pre, post, lo, hi, step.maxShards, step.peers, step.removed)
    ensures Distinct(step.removed) && (set c | c in step.removed) == pre.targets.Values - post.targets.Values
    ensures forall c :: c in step.removed <==> c in pre.targets.Values && c !in post.targets.Values
  {
    ListsDistinct(step.removed, pre.targets.Values - post.targets.Values);
  }

  lemma UpdateLive(pre: Table, post: Table, lo: nat, hi: nat, step: Step)
    requires step.Update? && Updates(pre, post, lo, hi, step.maxShards, step.peers, step.removed)
    ensures lo <= hi && forall c :: c in post.targets.Values ==> c in pre.targets.Values || lo <= c.id < hi
  {
    forall k | k in post.targets ensures post.targets[k] in pre.targets.Values || lo <= post.targets[k].id < hi {
      if k in pre.targets {
        assert post.targets[k] == pre.targets[k];
      }
    }
  }

  lemma UpdateAccounted(s: State, s': State, tid: nat, step: Step)
    requires Accounted(s) && step.Update? && Next(s, s', tid, step) && Sound(s'.table, s'.next)
    ensures Accounted(s')
  {
    UpdateRemoves(s.table, s'.table, s.next, s'.next, step);
    UpdateLive(s.table, s'.table, s.next, s'.next, step);
    SoundUnique(s'.table, s'.next);
    hide Updates, Sound;
    FreshAreNew(s, Live(s'), s.next);
  }

  /** A live client with an old identity is an old client. */
  lemma FreshAreNew(s: State, live: set<Client>, lo: nat)
    requires Accounted(s) && lo == s.next
    requires forall c :: c in live ==> c in Live(s) || lo <= c.id
    ensures live !! s.retired
    ensures forall c, d :: c in s.created && d in live && c.id == d.id ==> c == d
  {}

  lemma SoundUnique(t: Table, next: nat)
    requires Sound(t, next)
    ensures forall c, d :: c in t.targets.Values && d in t.targets.Values && c.id == d.id ==> c == d
    ensures forall c :: c in t.targets.Values ==> c.id < next
  {}

  lemma ShutdownInv(s: State, s': State, tid: nat, step: Step)
    requires Inv(s) && step.Shutdown? && Next(s, s', tid, step)
    ensures Inv(s')
  {
    ListsDistinct(step.removed, Live(s));
    RetireClosedOnce(s, tid, s'.table, s.next, step.removed);
  }

  lemma CloseOneInv(s: State, s': State, tid: nat)
    requires Inv(s) && Next(s, s', tid, CloseOne)
    ensures Inv(s')
  {
    var p := s.threads[tid].pending;
    assert Pending(s, tid, p[0]);
    forall t, c ensures Pending(s', t, c) <==> Pending(s, t, c) && c != p[0] {
      if t == tid && c in p[1..] {
        assert c in p;
      }
    }
    forall c | c in s'.retired && c !in s'.closed ensures exists t :: Pending(s', t, c) {
      var t :| Pending(s, t, c);
      assert c != p[0] by {
        assert p[0] in s'.closed;
      }
      assert Pending(s', t, c);
    }
  }

  lemma RecheckInv(s: State, s': State, tid: nat, step: Step)
    requires Inv(s) && step.Recheck? && Next(s, s', tid, step)
    ensures Inv(s')
  {
    hide ClosedOnce, Sound, Accounted;
    GetOrCreateSound(s.table, s'.table, s.next, s'.next, s.threads[tid].target, step.client);
    RecheckClosed(s, s', tid, step);
    RecheckLive(s.table, s'.table, s.next, s'.next, s.threads[tid].target, step.client);
    AccountedGrows(s, s', step.client);
  }

  lemma RecheckClosed(s: State, s': State, tid: nat, step: Step)
    requires ClosedOnce(s) && step.Recheck? && Next(s, s', tid, step)
    ensures ClosedOnce(s')
  {
    MoveClosedOnce(s, tid, Got(step.client));
    ClosedOnceFrame(Moved(s, tid, Got(step.client)), s');
  }

  lemma AccountedGrows(s: State, s': State, client: Client)
    requires Accounted(s) && s'.retired == s.retired
    requires Live(s') == Live(s) + {client} && s'.created == s.created + {client}
    requires (client in Live(s) && s'.next == s.next) || (client.id == s.next && s'.next == s.next + 1)
    ensures Accounted(s')
  {}

  lemma RecheckLive(pre: Table, post: Table, lo: nat, hi: nat, target: string, client: Client)
    requires Sound(pre, lo) && GetsOrCreates(pre, post, lo, hi, target, client)
    ensures post.targets.Values == pre.targets.Values + {client}
    ensures (client in pre.targets.Values && hi == lo) || (client.id == lo && hi == lo + 1)
  {
    forall k | k in pre.targets ensures pre.targets[k] in post.targets.Values {
      assert post.targets[k] == pre.targets[k];
    }
    assert post.targets[target] == client;
  }

  lemma StepInv(s: State, s': State, tid: nat, step: Step)
    requires Inv(s) && Next(s, s', tid, step)
    ensures Inv(s')
  {
    match step
    case Update(_, _, _) => UpdateInv(s, s', tid, step);
    case Shutdown(_) => ShutdownInv(s, s', tid, step);
    case CloseOne => CloseOneInv(s, s', tid);
    case FinishClosing => MoveClosedOnce(s, tid, Idle);
    case Lookup(target) => MoveClosedOnce(s, tid, s'.threads[tid]);
    case Recheck(_) => RecheckInv(s, s', tid, step);
    case Route(_, _) => MoveClosedOnce(s, tid, s'.threads[tid]);
    case Return => MoveClosedOnce(s, tid, Idle);
  }

  // ---- whole runs ----

  datatype Action = Action(tid: nat, step: Step)

  /** states[i] goes to states[i + 1] by actions[i]. */
  ghost predicate Steps(states: seq<State>, actions: seq<Action>) {
    && |states| == |actions| + 1
    && forall i :: 0 <= i < |actions| ==> Next(states[i], states[i + 1], actions[i].tid, actions[i].step)
  }

  ghost predicate IsRun(states: seq<State>, actions: seq<Action>) {
    Steps(states, actions) && Init(states[0])
  }

  lemma {:induction false} RunInv(states: seq<State>, actions: seq<Action>, i: nat)
    requires IsRun(states, actions) && i < |states|
    ensures Inv(states[i])
    decreases i
  {
    if i == 0 {
      InitInv(states[0]);
    } else {
      RunInv(states, actions, i - 1);
      StepInv(states[i - 1], states[i - 1 + 1], actions[i - 1].tid, actions[i - 1].step);
    }
  }

  /** In every reachable state a target has one client, whose own target it is; distinct targets have
      distinct clients; every route leads to a client of the table; created clients are the disjoint
      union of live and retired ones. */
  lemma TableConsistent(states: seq<State>, actions: seq<Action>, i: nat)
    requires IsRun(states, actions) && i < |states|
    ensures var t := states[i].table;
            && (forall k :: k in t.targets ==> t.targets[k].target == k)
            && (forall j, k :: j in t.targets && k in t.targets && t.targets[j] == t.targets[k] ==> j == k)
            && (forall key :: key in t.routes ==> exists k :: k in t.targets && t.targets[k] == t.routes[key])
            && states[i].created == t.targets.Values + states[i].retired
            && t.targets.Values !! states[i].retired
  {
    RunInv(states, actions, i);
    var t := states[i].table;
    forall key | key in t.routes ensures exists k :: k in t.targets && t.targets[k] == t.routes[key] {
      assert t.routes[key] in t.routes.Values;
    }
  }

  lemma RetiredGrows(s: State, s': State, tid: nat, step: Step)
    requires Inv(s) && Next(s, s', tid, step)
    ensures s.retired <= s'.retired && s.created <= s'.created && s.closed <= s'.closed
  {}

  /** A retired client never comes back into the table or its routes. */
  lemma {:induction false} RetiredForever(states: seq<State>, actions: seq<Action>, i: nat, j: nat, c: Client)
    requires IsRun(states, actions) && i <= j < |states| && c in states[i].retired
    ensures c in states[j].retired && c !in states[j].table.targets.Values && c !in states[j].table.routes.Values
    decreases j
  {
    RunInv(states, actions, j);
    if i < j {
      RetiredForever(states, actions, i, j - 1, c);
      RunInv(states, actions, j - 1);
      RetiredGrows(states[j - 1], states[j - 1 + 1], actions[j - 1].tid, actions[j - 1].step);
    }
  }

  /** Once no thread is shutting clients down, the retired clients have been shut down, each exactly
      once, and no live client has. */
  lemma ShutDownExactlyOnce(states: seq<State>, actions: seq<Action>, i: nat)
    requires IsRun(states, actions) && i < |states|
    requires forall t :: t in states[i].threads ==> !states[i].threads[t].Closing?
    ensures Lists(states[i].closed, states[i].retired)
    ensures forall c :: c in Live(states[i]) ==> c !in states[i].closed
  {
    RunInv(states, actions, i);
    forall t, c ensures !Pending(states[i], t, c) {}
  }

  /** A lookup by target that misses under the shared lock ends with a client for that target which is live
      at that moment, created only if none was there. */
  lemma RecheckAgrees(s: State, s': State, tid: nat, client: Client)
    requires Inv(s) && Next(s, s', tid, Recheck(client))
    ensures client.target == s.threads[tid].target && client in Live(s')
    ensures s.threads[tid].target in s.table.targets <==> s'.created == s.created
  {
    RecheckInv(s, s', tid, Recheck(client));
    GetOrCreateSound(s.table, s'.table, s.next, s'.next, s.threads[tid].target, client);
  }

  /** Under the shared lock a lookup either ends with the live client of its target or misses, the latter
      exactly when there is none. */
  lemma LookupAgrees(s: State, s': State, tid: nat, target: string)
    requires Inv(s) && Next(s, s', tid, Lookup(target))
    ensures s'.threads[tid] == Missed(target) <==> target !in s.table.targets
    ensures target in s.table.targets ==>
              s'.threads[tid].Got? && s'.threads[tid].client.target == target && s'.threads[tid].client in Live(s')
  {
    if target in s.table.targets {
      assert s.table.targets[target] in s.table.targets.Values;
    }
  }

  /** A lookup by shard and role ends with a live client: the table's client for that client's target. */
  lemma RouteAgrees(s: State, s': State, tid: nat, shard: int, role: Role)
    requires Inv(s) && Next(s, s', tid, Route(shard, role))
    ensures (role, shard) in s.table.routes && s'.threads[tid] == Got(s.table.routes[(role, shard)])
    ensures var c := s.table.routes[(role, shard)];
            c in Live(s') && c.target in s.table.targets && s.table.targets[c.target] == c
  {
    assert s.table.routes[(role, shard)] in s.table.routes.Values;
  }

  /** On its way through a lookup of this target. */
  predicate Resolving(p: Phase, target: string) {
    p == Missed(target) || (p.Got? && p.client.target == target)
  }

  lemma StaysResolving(s: State, s': State, tid: nat, step: Step, me: nat, target: string)
    requires Inv(s) && Next(s, s', tid, step) && me in s.threads && Resolving(s.threads[me], target)
    requires tid == me ==> step.Recheck?
    ensures me in s'.threads && Resolving(s'.threads[me], target)
  {
    if tid == me {
      RecheckAgrees(s, s', me, step.client);
    }
  }

  lemma RunResolving(states: seq<State>, actions: seq<Action>, j: nat, me: nat, target: string)
    requires IsRun(states, actions) && 0 < j < |states|
    requires me in states[j - 1].threads && Resolving(states[j - 1].threads[me], target)
    requires actions[j - 1].tid == me ==> actions[j - 1].step.Recheck?
    ensures me in states[j].threads && Resolving(states[j].threads[me], target)
  {
    RunInv(states, actions, j - 1);
    StaysResolving(states[j - 1], states[j - 1 + 1], actions[j - 1].tid, actions[j - 1].step, me, target);
  }

  lemma RunLookup(states: seq<State>, actions: seq<Action>, i: nat, me: nat, target: string)
    requires IsRun(states, actions) && i < |actions| && actions[i] == Action(me, Lookup(target))
    ensures me in states[i + 1].threads && Resolving(states[i + 1].threads[me], target)
  {
    RunInv(states, actions, i);
    LookupAgrees(states[i], states[i + 1], me, target);
  }

  /** Whatever other threads do in between, a lookup by target that has come to a client has one for its
      target. */
  lemma {:induction false} LookupResolves(states: seq<State>, actions: seq<Action>, i: nat, j: nat, me: nat,
                                          target: string)
    requires IsRun(states, actions) && i < j < |states| && actions[i] == Action(me, Lookup(target))
    requires forall k :: i < k < j && actions[k].tid == me ==> actions[k].step.Recheck?
    ensures me in states[j].threads && Resolving(states[j].threads[me], target)
    decreases j
  {
    hide Next, Init, Resolving;
    if j == i + 1 {
      RunLookup(states, actions, i, me, target);
    } else {
      LookupResolves(states, actions, i, j - 1, me, target);
      RunResolving(states, actions, j, me, target);
    }
  }

  // ---- an emptied table ----

  ghost predicate Empty(s: State) { s.table.targets == map[] && s.table.routes == map[] }

  /** No update and no lookup is started. */
  predicate StartsNothing(actions: seq<Action>) {
    forall i :: 0 <= i < |actions| ==> !actions[i].step.Update? && !actions[i].step.Lookup?
  }

  ghost predicate Refills(states: seq<State>, actions: seq<Action>, s: State) {
    Steps(states, actions) && StartsNothing(actions) && states[0] == s && !Empty(states[|actions|])
  }

  ghost predicate EmptyForGood(s: State) {
    Empty(s) && forall t :: t in s.threads ==> !s.threads[t].Missed?
  }

  lemma StaysEmpty(s: State, s': State, tid: nat, step: Step)
    requires EmptyForGood(s) && Next(s, s', tid, step) && !step.Update? && !step.Lookup?
    ensures EmptyForGood(s')
  {
    hide Lists, GetsOrCreates, Updates;
  }

  lemma {:induction false} EmptyForever(states: seq<State>, actions: seq<Action>, j: nat)
    requires Steps(states, actions) && StartsNothing(actions) && EmptyForGood(states[0]) && j < |states|
    ensures EmptyForGood(states[j])
    decreases j
  {
    if j > 0 {
      EmptyForever(states, actions, j - 1);
      StaysEmpty(states[j - 1], states[j - 1 + 1], actions[j - 1].tid, actions[j - 1].step);
    }
  }

  lemma MissedRefills(s: State, t: nat) returns (states: seq<State>, actions: seq<Action>)
    requires Empty(s) && t in s.threads && s.threads[t].Missed?
    ensures Refills(states, actions, s)
  {
    var target := s.threads[t].target;
    var client := Client(s.next, target);
    var table := s.table.(targets := s.table.targets[target := client]);
    var s' := Moved(s, t, Got(client)).(table := table, next := s.next + 1, created := s.created + {client});
    assert target in s'.table.targets;
    states, actions := [s, s'], [Action(t, Recheck(client))];
    assert Next(s, s', t, Recheck(client));
  }

  /** An empty table, as shutdown leaves it, is filled again without any new update or lookup if and only if
      some lookup had missed under the shared lock and has yet to recheck. */
  lemma RefillExact(s: State)
    requires Empty(s)
    ensures (exists states: seq<State>, actions: seq<Action> :: Refills(states, actions, s))
       <==> (exists t :: t in s.threads && s.threads[t].Missed?)
  {
    if t :| t in s.threads && s.threads[t].Missed? {
      var states, actions := MissedRefills(s, t);
    } else if states: seq<State>, actions: seq<Action> :| Refills(states, actions, s) {
      EmptyForever(states, actions, |actions|);
      assert false;
    }
  }

  function RefillStates(target: string): seq<State> {
    var c := Client(0, target);
    var empty := Table(1024, map[], map[]);
    var full := Table(1024, map[target := c], map[]);
    [ State(empty, 0, {}, map[0 := Idle, 1 := Idle], {}, []),
      State(empty, 0, {}, map[0 := Missed(target), 1 := Idle], {}, []),
      State(empty, 0, {}, map[0 := Missed(target), 1 := Closing([])], {}, []),
      State(empty, 0, {}, map[0 := Missed(target), 1 := Idle], {}, []),
      State(full, 1, {c}, map[0 := Got(c), 1 := Idle], {}, []),
      State(full, 1, {c}, map[0 := Idle, 1 := Idle], {}, []) ]
  }

  function RefillActions(target: string): seq<Action> {
    [ Action(0, Lookup(target)), Action(1, Shutdown([])), Action(1, FinishClosing),
      Action(0, Recheck(Client(0, target))), Action(0, Return) ]
  }

  /** Shutdown is not final: a lookup that missed before it creates a client afterwards, which is still
      live when every thread is done. */
  lemma RefillAfterShutdown(target: string)
    ensures IsRun(RefillStates(target), RefillActions(target))
    ensures RefillActions(target)[1].step.Shutdown? && target in RefillStates(target)[5].table.targets
    ensures forall t :: t in RefillStates(target)[5].threads ==> RefillStates(target)[5].threads[t] == Idle
  {
    var states, actions := RefillStates(target), RefillActions(target);
    assert Init(states[0]);
    forall i | 0 <= i < |actions| ensures Next(states[i], states[i + 1], actions[i].tid, actions[i].step) {
      RefillStep(target, i);
    }
  }

  lemma RefillStep(target: string, i: nat)
    requires i < 5
    ensures Next(RefillStates(target)[i], RefillStates(target)[i + 1],
                 RefillActions(target)[i].tid, RefillActions(target)[i].step)
  {
    var states := RefillStates(target);
    if i == 1 {
      assert states[2] == Retire(states[1], 1, states[1].table, 0, []);
    }
  }
}
