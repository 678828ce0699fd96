/** The routing table of smart/src/routing_table.cpp: target -> client and (role, shard) -> client. */
module Routing {
  import opened Common

  datatype Role = UNDEFINED | MASTER | BACKUP

  /** A client object: its identity and its immutable target address. */
  datatype Client = Client(id: nat, target: string)

  /** A peer as the coordinator announces it; partition ids are uint32. */
  datatype Peer = Peer(target: string, role: Role, partitions: seq<nat>)

  type RouteKey = (Role, int)

  /** The contents guarded by the table's mutex. */
  datatype Table = Table(maxShards: int, targets: map<string, Client>, routes: map<RouteKey, Client>)

  function TargetsOf(peers: seq<Peer>): set<string> {
    set p | p in peers :: p.target
  }

  /** Conversion of a uint32 partition id to the int32 of the route key. */
  function AsInt32(x: int): int {
    var w := Uint32(x);
    if w < 0x8000_0000 then w else w - UINT32
  }

  /** It is the one congruent number in range. */
  lemma AsInt32Congruent(x: int, r: int)
    ensures r == AsInt32(x) <==> -0x8000_0000 <= r < 0x8000_0000 && Uint32(x - r) == 0
  {
    var q := (x - r) / UINT32;
    if Uint32(x - r) == 0 {
      assert x == q * UINT32 + r;
    }
  }

  datatype Assignment = Assignment(key: RouteKey, target: string)

  /** All route assignments in the order in which the peers list them. */
  function AssignmentsOfPeer(p: Peer): seq<Assignment> {
    seq(|p.partitions|, i requires 0 <= i < |p.partitions| => Assignment((p.role, AsInt32(p.partitions[i])), p.target))
  }

  function AssignmentsOf(peers: seq<Peer>): seq<Assignment> {
    if peers == [] then []
    else AssignmentsOf(peers[..|peers| - 1]) + AssignmentsOfPeer(peers[|peers| - 1])
  }

  /** Later assignments overwrite earlier ones; unknown targets are skipped. */
  function RoutesOf(assignments: seq<Assignment>, clients: map<string, Client>): map<RouteKey, Client> {
    if assignments == [] then map[]
    else
      var rest := RoutesOf(assignments[..|assignments| - 1], clients);
      var a := assignments[|assignments| - 1];
      if a.target in clients then rest[a.key := clients[a.target]] else rest
  }

  /** One of the first `n` partitions of the peer is this shard, and the role is this one. */
  ghost predicate Announces(p: Peer, n: nat, role: Role, shard: int)
    requires n <= |p.partitions|
  {
    p.role == role && exists j :: 0 <= j < n && AsInt32(p.partitions[j]) == shard
  }

  ghost predicate IsLastPeer(peers: seq<Peer>, i: int, role: Role, shard: int) {
    && 0 <= i < |peers| && Announces(peers[i], |peers[i].partitions|, role, shard)
    && forall k :: i < k < |peers| ==> !Announces(peers[k], |peers[k].partitions|, role, shard)
  }

  /** What one more peer does to the route of a shard. */
  lemma {:induction false} PeerAssigns(before: seq<Assignment>, p: Peer, n: nat, clients: map<string, Client>,
                                       role: Role, shard: int)
    requires p.target in clients && n <= |p.partitions|
    ensures var pre := RoutesOf(before, clients);
            var post := RoutesOf(before + AssignmentsOfPeer(p)[..n], clients);
            if Announces(p, n, role, shard)
            then (role, shard) in post && post[(role, shard)] == clients[p.target]
            else if (role, shard) in pre then (role, shard) in post && post[(role, shard)] == pre[(role, shard)]
            else (role, shard) !in post
  {
    hide AsInt32;
    var mine := AssignmentsOfPeer(p);
    if n == 0 {
      assert before + mine[..0] == before;
    } else {
      PeerAssigns(before, p, n - 1, clients, role, shard);
      assert (before + mine[..n])[..|before| + n - 1] == before + mine[..n - 1];
      assert (before + mine[..n])[|before| + n - 1] == Assignment((p.role, AsInt32(p.partitions[n - 1])), p.target);
    }
  }

  lemma LastPeerShift(peers: seq<Peer>, i: int, role: Role, shard: int)
    requires peers != []
    ensures var last := peers[|peers| - 1];
            IsLastPeer(peers, i, role, shard) <==>
              if Announces(last, |last.partitions|, role, shard) then i == |peers| - 1
              else IsLastPeer(peers[..|peers| - 1], i, role, shard)
  {
    hide Announces;
  }

  /** A shard is routed in a role exactly when some peer announces it so, and then to the last such peer. */
  lemma {:induction false} LastPeerWins(peers: seq<Peer>, clients: map<string, Client>, role: Role, shard: int)
    requires forall i :: 0 <= i < |peers| ==> peers[i].target in clients
    ensures var routes := RoutesOf(AssignmentsOf(peers), clients);
            && ((role, shard) in routes <==> exists i :: IsLastPeer(peers, i, role, shard))
            && (forall i :: IsLastPeer(peers, i, role, shard) ==>
                  0 <= i < |peers| && (role, shard) in routes && routes[(role, shard)] == clients[peers[i].target])
  {
    if peers != [] {
      var n := |peers| - 1;
      LastPeerWins(peers[..n], clients, role, shard);
      PeerAssigns(AssignmentsOf(peers[..n]), peers[n], |peers[n].partitions|, clients, role, shard);
      assert AssignmentsOfPeer(peers[n])[..|peers[n].partitions|] == AssignmentsOfPeer(peers[n]);
      hide AsInt32, RoutesOf, Announces, IsLastPeer, AssignmentsOfPeer;
      LastPeerShift(peers, n, role, shard);
      if Announces(peers[n], |peers[n].partitions|, role, shard) {
        forall i | IsLastPeer(peers, i, role, shard) ensures i == n {
          LastPeerShift(peers, i, role, shard);
        }
      } else {
        forall i ensures IsLastPeer(peers, i, role, shard) <==> IsLastPeer(peers[..n], i, role, shard) {
          LastPeerShift(peers, i, role, shard);
        }
        assert forall i :: 0 <= i < n ==> peers[..n][i] == peers[i];
      }
    }
  }

  lemma {:induction false} RoutesUseClients(assignments: seq<Assignment>, clients: map<string, Client>)
    ensures RoutesOf(assignments, clients).Values <= clients.Values
  {
    if assignments != [] {
      RoutesUseClients(assignments[..|assignments| - 1], clients);
      var rest := RoutesOf(assignments[..|assignments| - 1], clients);
      var a := assignments[|assignments| - 1];
      if a.target in clients {
        forall c | c in rest[a.key := clients[a.target]].Values ensures c in clients.Values {
          assert clients[a.target] in clients.Values;
        }
      }
    }
  }

  // ---- what a table must satisfy, and what each critical section does to it ----

  /** Clients stand under their own target, are distinct and were created; routes lead to them. */
  ghost predicate Sound(t: Table, next: nat) {
    && (forall k :: k in t.targets ==> t.targets[k].target == k && t.targets[k].id < next)
    && (forall j, k :: j in t.targets && k in t.targets && j != k ==> t.targets[j].id != t.targets[k].id)
    && t.routes.Values <= t.targets.Values
  }

  /** No duplicates, and exactly these elements. */
  ghost predicate Lists<T(!new)>(s: seq<T>, elements: set<T>) {
    && (forall i, j :: 0 <= i < j < |s| ==> s[i] != s[j])
    && (forall x :: x in s <==> x in elements)
  }

  /** New targets get new clients, identified by numbers from `lo` up to `hi`; other targets keep theirs. */
  ghost predicate KeepsAndCreates(pre: map<string, Client>, post: map<string, Client>, lo: nat, hi: nat) {
    && lo <= hi
    && (forall k :: k in post && k in pre ==> post[k] == pre[k])
    && (forall k :: k in post && k !in pre ==> post[k].target == k && lo <= post[k].id < hi)
    && (forall j, k :: j in post && j !in pre && k in post && k !in pre && j != k ==> post[j].id != post[k].id)
  }

  /** The critical section of updateFromCoordinator; `removed` are the clients to shut down. */
  ghost predicate Updates(pre: Table, post: Table, lo: nat, hi: nat, maxShards: int, peers: seq<Peer>,
                          removed: seq<Client>) {
    && post.maxShards == maxShards
    && post.targets.Keys == TargetsOf(peers)
    && KeepsAndCreates(pre.targets, post.targets, lo, hi)
    && Lists(removed, pre.targets.Values - post.targets.Values)
    && post.routes == RoutesOf(AssignmentsOf(peers), post.targets)
  }

  /** The exclusive section of getOrCreateByTarget: recheck, then create. */
  ghost predicate GetsOrCreates(pre: Table, post: Table, lo: nat, hi: nat, target: string, client: Client) {
    if target in pre.targets then post == pre && hi == lo && client == pre.targets[target]
    else hi == lo + 1 && client == Client(lo, target) && post == pre.(targets := pre.targets[target := client])
  }

  /** The critical section of shutdown. */
  ghost predicate Clears(pre: Table, post: Table, removed: seq<Client>) {
    post == pre.(targets := map[], routes := map[]) && Lists(removed, pre.targets.Values)
  }

  /** After an update a shard is routed in a role exactly when some peer announces it so, and then to the live
      client of the last such peer. */
  lemma RoutedAfterUpdate(pre: Table, post: Table, lo: nat, hi: nat, maxShards: int, peers: seq<Peer>,
                          removed: seq<Client>,
                          role: Role, shard: int)
    requires Sound(pre, lo) && Updates(pre, post, lo, hi, maxShards, peers, removed)
    ensures (role, shard) in post.routes <==> exists i :: IsLastPeer(peers, i, role, shard)
    ensures forall i :: IsLastPeer(peers, i, role, shard) ==>
      && 0 <= i < |peers| && (role, shard) in post.routes
      && post.routes[(role, shard)].target == peers[i].target && post.routes[(role, shard)] in post.targets.Values
  {
    forall i | 0 <= i < |peers|
      ensures peers[i].target in post.targets && post.targets[peers[i].target].target == peers[i].target
    {
      assert peers[i] in peers && peers[i].target in TargetsOf(peers);
      assert peers[i].target in pre.targets ==> post.targets[peers[i].target] == pre.targets[peers[i].target];
    }
    LastPeerWins(peers, post.targets, role, shard);
  }

  lemma UpdateSound(pre: Table, post: Table, lo: nat, hi: nat, maxShards: int, peers: seq<Peer>, removed: seq<Client>)
    requires Sound(pre, lo) && Updates(pre, post, lo, hi, maxShards, peers, removed)
    ensures Sound(post, hi)
  {
    RoutesUseClients(AssignmentsOf(peers), post.targets);
    forall j, k | j in post.targets && k in post.targets && j != k ensures post.targets[j].id != post.targets[k].id {
      if j in pre.targets && k !in pre.targets {
        assert pre.targets[j].id < lo <= post.targets[k].id;
      } else if j !in pre.targets && k in pre.targets {
        assert pre.targets[k].id < lo <= post.targets[j].id;
      }
    }
  }

  lemma GetOrCreateSound(pre: Table, post: Table, lo: nat, hi: nat, target: string, client: Client)
    requires Sound(pre, lo) && GetsOrCreates(pre, post, lo, hi, target, client)
    ensures Sound(post, hi) && client in post.targets.Values && client.target == target
  {
    if target !in pre.targets {
      assert post.targets[target] == client;
      forall c | c in post.routes.Values ensures c in post.targets.Values {
        var k :| k in pre.targets && pre.targets[k] == c;
        assert post.targets[k] == c;
      }
    }
  }

  /** The class itself; the mutex is held across each method, so each is one atomic step. */
  class RoutingTable {
    var maxShards: int
    var targets: map<string, Client>
    var routes: map<RouteKey, Client>
    var nextId: nat  // identities handed out so far

    constructor ()
      ensures State() == Table(1024, map[], map[]) && nextId == 0 && Valid()
    {
      maxShards, targets, routes, nextId := 1024, map[], map[], 0;
    }

    ghost function State(): Table
      reads this
    {
      Table(maxShards, targets, routes)
    }

    ghost predicate Valid()
      reads this
    {
      Sound(State(), nextId)
    }

    method CreateClient(target: string) returns (client: Client)
      modifies `nextId
      ensures client == Client(old(nextId), target) && nextId == old(nextId) + 1
    {
      client := Client(nextId, target);
      nextId := nextId + 1;
    }

    method UpdateFromCoordinator(newMaxShards: int, peers: seq<Peer>) returns (removed: seq<Client>)
      requires Valid()
      modifies this
      ensures Valid()
      ensures Updates(old(State()), State(), old(nextId), nextId, newMaxShards, peers, removed)
    {
      maxShards := newMaxShards;
      var newTargets := CollectTargets(peers);
      hide KeepsAndCreates, Restricted, RoutesOf, AssignmentsOf, Lists, TargetsOf;
      CreateMissing(newTargets);
      ghost var full := targets;
      CreatedDistinct(old(targets), full, old(nextId), nextId);
      removed := RemoveOld(newTargets);
      UpdateComposes(old(targets), full, newTargets, old(nextId), nextId);
      BuildRoutes(peers);
      UpdateSound(old(State()), State(), old(nextId), nextId, newMaxShards, peers, removed);
    }

    method CollectTargets(peers: seq<Peer>) returns (newTargets: set<string>)
      ensures newTargets == TargetsOf(peers)
    {
      newTargets := {};
      for i := 0 to |peers|
        invariant newTargets == TargetsOf(peers[..i])
      {
        assert peers[..i + 1] == peers[..i] + [peers[i]];
        newTargets := newTargets + {peers[i].target};
      }
      assert peers[..|peers|] == peers;
    }

    method CreateMissing(newTargets: set<string>)
      requires Valid()
      modifies `targets, `nextId
      ensures targets.Keys == old(targets).Keys + newTargets
      ensures KeepsAndCreates(old(targets), targets, old(nextId), nextId)
    {
      var todo := newTargets;
      while todo != {}
        invariant todo <= newTargets
        invariant targets.Keys == old(targets).Keys + (newTargets - todo)
        invariant KeepsAndCreates(old(targets), targets, old(nextId), nextId)
        decreases todo
      {
        var target :| target in todo;
        todo := todo - {target};
        if target !in targets {
          var client := CreateClient(target);
          targets := targets[target := client];
        }
      }
    }

    method RemoveOld(newTargets: set<string>) returns (removed: seq<Client>)
      requires forall j, k :: j in targets && k in targets && j != k ==> targets[j] != targets[k]
      modifies `targets
      ensures targets == Restricted(old(targets), newTargets)
      ensures Lists(removed, old(targets).Values - targets.Values)
    {
      ghost var pre := targets;
      removed := [];
      var todo := targets.Keys;
      ghost var done: set<string> := {};
      while todo != {}
        invariant done + todo == pre.Keys && done !! todo
        invariant targets == Restricted(pre, newTargets + todo)
        invariant Lists(removed, Dropped(pre, done, newTargets))
        decreases todo
      {
        hide Restricted, Dropped;
        var k :| k in todo;
        RestrictOne(pre, newTargets, todo, k);
        DropOne(pre, done, newTargets, k);
        todo, done := todo - {k}, done + {k};
        if k !in newTargets {
          removed := removed + [targets[k]];
          targets := targets - {k};
        }
      }
      assert newTargets + {} == newTargets && done == pre.Keys;
      DroppedValues(pre, targets, newTargets);
    }

    method BuildRoutes(peers: seq<Peer>)
      modifies `routes
      ensures routes == RoutesOf(AssignmentsOf(peers), targets)
    {
      routes := map[];
      for i := 0 to |peers|
        invariant routes == RoutesOf(AssignmentsOf(peers[..i]), targets)
      {
        assert peers[..i + 1][..i] == peers[..i];
        if peers[i].target in targets {
          AddPeerRoutes(peers[i], AssignmentsOf(peers[..i]));
        } else {
          SkipUnknown(AssignmentsOf(peers[..i]), AssignmentsOfPeer(peers[i]), targets);
        }
      }
      assert peers[..|peers|] == peers;
    }

    method AddPeerRoutes(peer: Peer, ghost before: seq<Assignment>)
      requires peer.target in targets && routes == RoutesOf(before, targets)
      modifies `routes
      ensures routes == RoutesOf(before + AssignmentsOfPeer(peer), targets)
    {
      hide AsInt32;
      ghost var mine := AssignmentsOfPeer(peer);
      assert before + mine[..0] == before;
      for j := 0 to |peer.partitions|
        invariant routes == RoutesOf(before + mine[..j], targets)
      {
        assert (before + mine[..j + 1])[..|before| + j] == before + mine[..j];
        routes := routes[(peer.role, AsInt32(peer.partitions[j])) := targets[peer.target]];
      }
      assert mine[..|peer.partitions|] == mine;
    }

    /** A routed client is live: it is the table's client for its own target. */
    method GetRoute(shard: int, role: Role) returns (client: Option<Client>)
      requires Valid()
      ensures client.Some? <==> (role, shard) in routes
      ensures client.Some? ==> client.value == routes[(role, shard)]
      ensures client.Some? ==> client.value.target in targets && targets[client.value.target] == client.value
    {
      if (role, shard) in routes {
        assert routes[(role, shard)] in routes.Values;
        return Some(routes[(role, shard)]);
      }
      return None;
    }

    /** The shared-lock section of getOrCreateByTarget, also getRouteByTarget. */
    method GetRouteByTarget(target: string) returns (client: Option<Client>)
      requires Valid()
      ensures client.Some? <==> target in targets
      ensures client.Some? ==> client.value.target == target && targets[client.value.target] == client.value
    {
      if target in targets {
        return Some(targets[target]);
      }
      return None;
    }

    /** The exclusive-lock section of getOrCreateByTarget. */
    method RecheckOrCreate(target: string) returns (client: Client)
      requires Valid()
      modifies this
      ensures Valid()
      ensures GetsOrCreates(old(State()), State(), old(nextId), nextId, target, client)
    {
      if target in targets {
        return targets[target];
      }
      client := CreateClient(target);
      targets := targets[target := client];
      GetOrCreateSound(old(State()), State(), old(nextId), nextId, target, client);
    }

    method Shutdown() returns (clients: seq<Client>)
      requires Valid()
      modifies this
      ensures Valid() && nextId == old(nextId)
      ensures Clears(old(State()), State(), clients)
    {
      routes := map[];
      clients := RemoveOld({});
    }
  }

  lemma CreatedDistinct(pre: map<string, Client>, full: map<string, Client>, lo: nat, hi: nat)
    requires forall k :: k in pre ==> pre[k].target == k
    requires KeepsAndCreates(pre, full, lo, hi)
    ensures forall j, k :: j in full && k in full && j != k ==> full[j] != full[k]
  {
    assert forall k :: k in full ==> full[k].target == k;
  }

  /** Creating the missing clients and removing the stale ones together keep and create. */
  lemma UpdateComposes(pre: map<string, Client>, full: map<string, Client>, kept: set<string>, lo: nat, hi: nat)
    requires forall k :: k in pre ==> pre[k].target == k
    requires full.Keys == pre.Keys + kept && KeepsAndCreates(pre, full, lo, hi)
    ensures Restricted(full, kept).Keys == kept && KeepsAndCreates(pre, Restricted(full, kept), lo, hi)
    ensures full.Values - Restricted(full, kept).Values == pre.Values - Restricted(full, kept).Values
  {
    var post := Restricted(full, kept);
    forall k | k in kept ensures full[k] in post.Values {
      assert post[k] == full[k];
    }
    forall c | c in full.Values && c !in post.Values ensures c in pre.Values {
      var k :| k in full && full[k] == c;
      assert pre[k] == c;
    }
    forall c | c in pre.Values ensures c in full.Values {
      var k :| k in pre && pre[k] == c;
      assert full[k] == c;
    }
  }

  function Restricted(m: map<string, Client>, keys: set<string>): map<string, Client> {
    map k | k in m && k in keys :: m[k]
  }

  lemma RestrictOne(m: map<string, Client>, kept: set<string>, todo: set<string>, k: string)
    requires k in todo && k in m
    ensures k in Restricted(m, kept + todo) && Restricted(m, kept + todo)[k] == m[k]
    ensures Restricted(m, kept + (todo - {k})) ==
      if k in kept then Restricted(m, kept + todo) else Restricted(m, kept + todo) - {k}
  {}

  /** The clients of these keys that are not kept. */
  function Dropped(pre: map<string, Client>, keys: set<string>, kept: set<string>): set<Client>
    requires keys <= pre.Keys
  {
    set k | k in keys && k !in kept :: pre[k]
  }

  lemma DropOne(pre: map<string, Client>, keys: set<string>, kept: set<string>, k: string)
    requires keys <= pre.Keys && k in pre && k !in keys
    requires forall i, j :: i in pre && j in pre && i != j ==> pre[i] != pre[j]
    ensures Dropped(pre, keys + {k}, kept) == Dropped(pre, keys, kept) + if k in kept then {} else {pre[k]}
    ensures pre[k] !in Dropped(pre, keys, kept)
  {}

  lemma DroppedValues(pre: map<string, Client>, post: map<string, Client>, kept: set<string>)
    requires forall j, k :: j in pre && k in pre && j != k ==> pre[j] != pre[k]
    requires post == Restricted(pre, kept)
    ensures pre.Values - post.Values == Dropped(pre, pre.Keys, kept)
  {
    var dropped := Dropped(pre, pre.Keys, kept);
    forall c | c in dropped ensures c in pre.Values && c !in post.Values {
      var k :| k in pre.Keys && k !in kept && pre[k] == c;
      forall j | j in post ensures post[j] != c {
        assert j != k;
      }
    }
    forall k | k in pre && k in kept ensures pre[k] in post.Values {
      assert post[k] == pre[k];
    }
  }

  lemma {:induction false} SkipUnknown(before: seq<Assignment>, extra: seq<Assignment>, clients: map<string, Client>)
    requires forall i :: 0 <= i < |extra| ==> extra[i].target !in clients
    ensures RoutesOf(before + extra, clients) == RoutesOf(before, clients)
    decreases |extra|
  {
    if extra == [] {
      assert before + extra == before;
    } else {
      var n := |extra| - 1;
      SkipUnknown(before, extra[..n], clients);
      assert (before + extra)[..|before + extra| - 1] == before + extra[..n];
    }
  }
}
