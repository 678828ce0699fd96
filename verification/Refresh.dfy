/** Topology refresh, periodic and detached, against shutdown: refreshRouting, triggerAsyncRefresh and
    shutdown of smart/src/smart_client.cpp, as atomic steps of any number of threads. */
module Refresh {
  import opened Common

  /** Where a refreshing thread is. Base is the coordinator index it started from; failed lists the
      coordinators that did not answer it, in the order asked. */
  datatype Phase =
    | Out
    | Checked                                  // saw no shutdown request
    | Won                                      // holds is_updating_
    | Probing(base: nat, failed: seq<nat>)     // about to ask the next coordinator
    | Waiting(base: nat, failed: seq<nat>)     // a request is in flight
    | Fetched(base: nat, failed: seq<nat>)     // got routing data
    | Installed(base: nat, failed: seq<nat>)   // the table is updated
    | Stored                                   // the index is updated
    | Releasing                                // leaves; is_updating_ is still set

  /** How far shutdown() has come. */
  datatype Closer = Open | Requested | ReadyCleared | CoordinatorDown | Closed

  datatype State = State(
    n: nat,                     // number of coordinators; with none, no refresh gets past its first test
    updating: bool,
    index: nat,
    ready: bool,
    closer: Closer,
    installs: nat,              // completed table updates
    table: Option<nat>,         // which coordinator's data the table holds
    threads: map<nat, Phase>)   // thread 0 is the periodic one

  datatype Step = Check | Acquire | LoadIndex | Ask | Answer | NoAnswer | GiveUp | Install | StoreIndex | SetReady
                | Release | RequestShutdown | ClearReady | StopCoordinator | ClearTable

  ghost predicate Init(s: State) {
    && s.n > 0 && !s.updating && s.index == 0 && !s.ready && s.closer == Open && s.installs == 0 && s.table == None
    && forall t :: t in s.threads ==> s.threads[t] == Out
  }

  function To(s: State, t: nat, phase: Phase): State {
    s.(threads := s.threads[t := phase])
  }

  /** The coordinator asked after these failures. */
  function Asked(n: nat, base: nat, failures: nat): nat
    requires n > 0
  {
    (base + failures) % n
  }

  /** The steps of the thread that calls shutdown(). */
  predicate OfCloser(step: Step) {
    step.RequestShutdown? || step.ClearReady? || step.StopCoordinator? || step.ClearTable?
  }

  ghost predicate Next(s: State, s': State, t: nat, step: Step) {
    && s.n > 0 && (OfCloser(step) || t in s.threads)
    && match step
      case Check => s.threads[t] == Out && s.closer == Open && s' == To(s, t, Checked)
      case Acquire =>
        && s.threads[t] == Checked
        && s' == if s.updating then To(s, t, Out) else To(s, t, Won).(updating := true)
      case LoadIndex => s.threads[t] == Won && s' == To(s, t, Probing(s.index, []))
      case Ask =>
        && s.threads[t].Probing? && |s.threads[t].failed| < s.n
        && var p := s.threads[t];
           s' == if s.closer == CoordinatorDown || s.closer == Closed
                 then To(s, t, Probing(p.base, p.failed + [Asked(s.n, p.base, |p.failed|)]))
                 else To(s, t, Waiting(p.base, p.failed))
      case Answer => s.threads[t].Waiting? && s' == To(s, t, Fetched(s.threads[t].base, s.threads[t].failed))
      case NoAnswer =>
        && s.threads[t].Waiting?
        && var p := s.threads[t];
           s' == To(s, t, Probing(p.base, p.failed + [Asked(s.n, p.base, |p.failed|)]))
      case GiveUp => s.threads[t].Probing? && |s.threads[t].failed| == s.n && s' == To(s, t, Releasing)
      case Install =>
        && s.threads[t].Fetched?
        && var p := s.threads[t];
           s' == To(s, t, Installed(p.base, p.failed)).(
             installs := s.installs + 1, table := Some(Asked(s.n, p.base, |p.failed|)))
      case StoreIndex =>
        && s.threads[t].Installed?
        && s' == To(s, t, Stored).(index := Asked(s.n, s.threads[t].base, |s.threads[t].failed|))
      case SetReady => s.threads[t] == Stored && s' == To(s, t, Releasing).(ready := true)
      case Release => s.threads[t] == Releasing && s' == To(s, t, Out).(updating := false)
      case RequestShutdown => s.closer == Open && s' == s.(closer := Requested)
      case ClearReady =>
        // the periodic thread has been joined
        && s.closer == Requested && (0 in s.threads ==> s.threads[0] == Out)
        && s' == s.(closer := ReadyCleared, ready := false)
      case StopCoordinator => s.closer == ReadyCleared && s' == s.(closer := CoordinatorDown)
      case ClearTable => s.closer == CoordinatorDown && s' == s.(closer := Closed, table := None)
  }

  /** Between winning the flag and releasing it. */
  predicate Active(p: Phase) { p != Out && p != Checked }

  /** The coordinators asked so far, in cyclic order from `base`. */
  ghost predicate Cyclic(n: nat, base: nat, failed: seq<nat>) {
    n > 0 && base < n && forall i :: 0 <= i < |failed| ==> failed[i] == Asked(n, base, i)
  }

  predicate HasBase(p: Phase) { p.Probing? || p.Waiting? || p.Fetched? || p.Installed? }

  /** is_updating_ is set exactly while one thread is inside the guarded region. */
  ghost predicate Exclusive(s: State) {
    && (forall t, u :: t in s.threads && u in s.threads && Active(s.threads[t]) && Active(s.threads[u]) ==> t == u)
    && (s.updating <==> exists t :: t in s.threads && Active(s.threads[t]))
  }

  ghost predicate OnCourse(s: State, p: Phase) {
    HasBase(p) ==>
      && p.base == s.index && Cyclic(s.n, s.index, p.failed)
      && (if p.Probing? then |p.failed| <= s.n else |p.failed| < s.n)
  }

  ghost predicate Probes(s: State) {
    && s.n > 0 && s.index < s.n
    && forall t :: t in s.threads ==> OnCourse(s, s.threads[t])
  }

  ghost predicate Evidence(s: State) {
    && (s.ready ==> s.installs > 0)
    && (forall t :: t in s.threads && (s.threads[t].Installed? || s.threads[t].Stored?) ==> s.installs > 0)
    && (s.table.Some? ==> s.installs > 0)
  }

  /** What a refresh has installed is still in the table when it stores the index, unless shutdown has
      emptied the table. */
  ghost predicate Adopted(s: State) {
    forall t :: t in s.threads && s.threads[t].Installed? && s.n > 0 ==>
      s.table == None || s.table == Some(Asked(s.n, s.threads[t].base, |s.threads[t].failed|))
  }

  ghost predicate Inv(s: State) {
    Exclusive(s) && Probes(s) && Evidence(s) && Adopted(s)
  }

  /** A step moves one thread. */
  lemma OneMoves(s: State, s': State, t: nat, step: Step)
    requires Next(s, s', t, step)
    ensures s'.n == s.n && s'.threads.Keys == s.threads.Keys
    ensures forall u :: u in s.threads && u != t ==> s'.threads[u] == s.threads[u]
  {
    assert s'.n == s.n;
    assert || s'.threads == s.threads
           || (t in s.threads && t in s'.threads && s'.threads == s.threads[t := s'.threads[t]]);
    hide Next;
  }

  /** How a step changes the flag, and its thread's claim to it. */
  lemma FlagMoves(s: State, s': State, t: nat, step: Step)
    requires Next(s, s', t, step)
    ensures OfCloser(step) ==> s'.threads == s.threads && s'.updating == s.updating
    ensures !OfCloser(step) ==>
            && t in s.threads && t in s'.threads
            && (
            || (Active(s'.threads[t]) == Active(s.threads[t]) && s'.updating == s.updating)
            || (!Active(s.threads[t]) && !s.updating && Active(s'.threads[t]) && s'.updating)
            || (Active(s.threads[t]) && !Active(s'.threads[t]) && !s'.updating))
  {
  }

  /** When no thread but t changes its claim, an unchanged flag stays right. */
  lemma KeptExclusive(s: State, s': State, t: nat)
    requires Exclusive(s) && t in s.threads && s'.threads.Keys == s.threads.Keys
    requires forall u :: u in s.threads && u != t ==> s'.threads[u] == s.threads[u]
    requires Active(s'.threads[t]) == Active(s.threads[t]) && s'.updating == s.updating
    ensures Exclusive(s')
  {
    hide Active;
    assert forall u :: u in s.threads ==> Active(s'.threads[u]) == Active(s.threads[u]);
    if s.updating {
      var w :| w in s.threads && Active(s.threads[w]);
      assert Active(s'.threads[w]);
    }
  }

  lemma StepExclusive(s: State, s': State, t: nat, step: Step)
    requires Exclusive(s) && Next(s, s', t, step)
    ensures Exclusive(s')
  {
    OneMoves(s, s', t, step);
    FlagMoves(s, s', t, step);
    hide Next, Active;
    if OfCloser(step) {
      assert s'.threads == s.threads && s'.updating == s.updating;
    } else if Active(s'.threads[t]) == Active(s.threads[t]) {
      KeptExclusive(s, s', t);
    } else if Active(s'.threads[t]) {
      assert forall u :: u in s.threads ==> !Active(s.threads[u]);
      assert forall u :: u in s'.threads && u != t ==> !Active(s'.threads[u]);
    } else {
      assert forall u :: u in s'.threads ==> !Active(s'.threads[u]);
    }
  }

  /** A table, a ready flag or a thread past the install has an install behind it. */
  lemma StepEvidence(s: State, s': State, t: nat, step: Step)
    requires Evidence(s) && Next(s, s', t, step)
    ensures Evidence(s')
  {
    OneMoves(s, s', t, step);
    assert s'.installs >= s.installs && (s'.ready ==> s'.installs > 0) && (s'.table.Some? ==> s'.installs > 0);
    assert t in s'.threads && (s'.threads[t].Installed? || s'.threads[t].Stored?) ==> s'.installs > 0;
    hide Next;
  }

  lemma ThreadOnCourse(s: State, s': State, t: nat, step: Step)
    requires Next(s, s', t, step) && !step.StoreIndex? && t in s.threads && s.index < s.n && OnCourse(s, s.threads[t])
    ensures s'.index == s.index && t in s'.threads && OnCourse(s', s'.threads[t])
  {
    hide Asked;
  }

  lemma StepProbes(s: State, s': State, t: nat, step: Step)
    requires Exclusive(s) && Probes(s) && Next(s, s', t, step)
    ensures Probes(s')
  {
    OneMoves(s, s', t, step);
    if step.StoreIndex? {
      StoreProbes(s, s', t);
    } else {
      assert t !in s.threads ==> s'.index == s.index;
      if t in s.threads {
        ThreadOnCourse(s, s', t, step);
      }
      KeptProbes(s, s', t);
    }
  }

  lemma KeptProbes(s: State, s': State, t: nat)
    requires Probes(s) && s'.n == s.n && s'.index == s.index && s'.threads.Keys == s.threads.Keys
    requires forall u :: u in s.threads && u != t ==> s'.threads[u] == s.threads[u]
    requires t in s'.threads ==> OnCourse(s', s'.threads[t])
    ensures Probes(s')
  {
    hide Cyclic;
    forall u | u in s'.threads ensures OnCourse(s', s'.threads[u]) {
      assert u != t ==> OnCourse(s, s.threads[u]);
    }
  }

  lemma StoreProbes(s: State, s': State, t: nat)
    requires Exclusive(s) && Probes(s) && Next(s, s', t, StoreIndex)
    ensures Probes(s')
  {
    assert Active(s.threads[t]);
    forall u | u in s'.threads ensures !HasBase(s'.threads[u]) {
    }
  }

  lemma TableMoves(s: State, s': State, t: nat, step: Step)
    requires Next(s, s', t, step)
    ensures s'.table == s.table || s'.table == None || (t in s.threads && Active(s.threads[t]) && Active(s'.threads[t]))
    ensures t in s'.threads && s'.threads[t].Installed? ==>
              || s'.table == Some(Asked(s'.n, s'.threads[t].base, |s'.threads[t].failed|))
              || (s'.threads[t] == s.threads[t] && (s'.table == s.table || s'.table == None))
  {
    hide Asked;
  }

  lemma StepAdopted(s: State, s': State, t: nat, step: Step)
    requires Exclusive(s) && Adopted(s) && Next(s, s', t, step)
    ensures Adopted(s')
  {
    OneMoves(s, s', t, step);
    TableMoves(s, s', t, step);
    hide Next, Asked;
    forall u | u in s'.threads && s'.threads[u].Installed?
      ensures s'.table == None || s'.table == Some(Asked(s'.n, s'.threads[u].base, |s'.threads[u].failed|))
    {
      if u != t {
        assert Active(s.threads[u]);
      }
    }
  }

  lemma StepInv(s: State, s': State, t: nat, step: Step)
    requires Inv(s) && Next(s, s', t, step)
    ensures Inv(s')
  {
    StepAdopted(s, s', t, step);
    StepExclusive(s, s', t, step);
    StepProbes(s, s', t, step);
    StepEvidence(s, s', t, step);
    hide *;
  }

  datatype Action = Action(thread: nat, step: Step)

  /** states[i] goes to states[i + 1] by actions[i]. */
  ghost predicate Steps(states: seq<State>, actions: seq<Action>) {
    && |states| == |actions| + 1
    && forall i :: 0 <= i < |actions| ==> Next(states[i], states[i + 1], actions[i].thread, actions[i].step)
  }

  ghost predicate IsRun(states: seq<State>, actions: seq<Action>) {
    Steps(states, actions) && Init(states[0])
  }

  lemma {:induction false} RunInv(states: seq<State>, actions: seq<Action>, i: nat)
    requires IsRun(states, actions) && i < |states|
    ensures Inv(states[i])
    decreases i
  {
    if i > 0 {
      RunInv(states, actions, i - 1);
      StepInv(states[i - 1], states[i - 1 + 1], actions[i - 1].thread, actions[i - 1].step);
    }
  }

  /** In every reachable state: at most one refresh is active, the index is in range, and readiness
      implies a completed table install. */
  lemma RefreshSafe(states: seq<State>, actions: seq<Action>, i: nat)
    requires IsRun(states, actions) && i < |states|
    ensures var s := states[i];
            && s.index < s.n
            && (forall t, u :: t in s.threads && u in s.threads && Active(s.threads[t]) && Active(s.threads[u]) ==>
                  t == u)
            && (s.ready ==> s.installs > 0)
  {
    RunInv(states, actions, i);
  }

  lemma AskedWraps(n: nat, base: nat, i: nat)
    requires base < n && i < n
    ensures Asked(n, base, i) == if base + i < n then base + i else base + i - n
  {
    if base + i >= n {
      assert base + i == n + (base + i - n);
    }
  }

  lemma CyclicDistinct(n: nat, base: nat, i: nat, j: nat)
    requires base < n && i < j < n
    ensures Asked(n, base, i) != Asked(n, base, j)
  {
    hide Asked;
    AskedWraps(n, base, i);
    AskedWraps(n, base, j);
  }

  lemma CyclicCovers(n: nat, base: nat, c: nat) returns (i: nat)
    requires base < n && c < n
    ensures i < n && Asked(n, base, i) == c
  {
    hide Asked;
    i := if c >= base then c - base else c + n - base;
    AskedWraps(n, base, i);
  }

  /** The coordinator whose turn it is: the active one first, then each time the one behind the last that
      failed, in a circle. */
  ghost predicate IsNext(n: nat, base: nat, failed: seq<nat>, c: nat) {
    && c < n && (failed == [] ==> c == base)
    && (failed != [] ==> c == if failed[|failed| - 1] + 1 < n then failed[|failed| - 1] + 1 else 0)
  }

  lemma AskedIsNext(n: nat, base: nat, failed: seq<nat>)
    requires Cyclic(n, base, failed) && |failed| < n
    ensures IsNext(n, base, failed, Asked(n, base, |failed|))
  {
    AskedWraps(n, base, |failed|);
    if failed != [] {
      AskedWraps(n, base, |failed| - 1);
    }
  }

  /** A coordinator that fails is the one whose turn it was; the data installed is that of the coordinator
      whose turn it was when one answered; and the index then stored is that coordinator's. */
  lemma AdoptsAnswerer(s: State, s': State, t: nat, step: Step)
    requires Inv(s) && Next(s, s', t, step)
    ensures step.NoAnswer? ==>
              && s.threads[t].Waiting? && s'.threads[t].Probing?
              && |s'.threads[t].failed| == |s.threads[t].failed| + 1
              && s.threads[t].failed <= s'.threads[t].failed
              && IsNext(s.n, s.index, s.threads[t].failed, s'.threads[t].failed[|s.threads[t].failed|])
    ensures step.Answer? ==>
              && s.threads[t].Waiting? && s'.threads[t].Fetched? && s'.threads[t].failed == s.threads[t].failed
    ensures step.Install? ==>
              && s.threads[t].Fetched? && s'.threads[t].Installed? && s'.threads[t].failed == s.threads[t].failed
              && s'.table.Some? && IsNext(s.n, s.index, s.threads[t].failed, s'.table.value)
    ensures step.StoreIndex? ==>
              && s.threads[t].Installed? && IsNext(s.n, s.index, s.threads[t].failed, s'.index)
              && (s.table == None || s.table == Some(s'.index))
  {
    if step.NoAnswer? || step.Install? || step.StoreIndex? {
      assert OnCourse(s, s.threads[t]);
      AskedIsNext(s.n, s.index, s.threads[t].failed);
    }
  }

  /** A refresh asks pairwise different coordinators, starting at the active one; the one whose data it
      adopts is the first that answered; when it gives up it has asked them all. */
  lemma ProbesInOrder(states: seq<State>, actions: seq<Action>, i: nat, t: nat)
    requires IsRun(states, actions) && i < |states| && t in states[i].threads && HasBase(states[i].threads[t])
    ensures var p, n := states[i].threads[t], states[i].n;
            && p.base == states[i].index && n > 0
            && (forall k :: 0 <= k < |p.failed| ==> p.failed[k] == Asked(n, p.base, k))
            && (forall j, k :: 0 <= j < k < |p.failed| ==> p.failed[j] != p.failed[k])
            && (!p.Probing? ==> Asked(n, p.base, |p.failed|) !in p.failed)
            && (|p.failed| == n ==> forall c :: 0 <= c < n ==> c in p.failed)
  {
    RunInv(states, actions, i);
    var p, n := states[i].threads[t], states[i].n;
    forall j, k | 0 <= j < k < |p.failed| ensures p.failed[j] != p.failed[k] {
      CyclicDistinct(n, p.base, j, k);
    }
    if !p.Probing? {
      forall j | 0 <= j < |p.failed| ensures p.failed[j] != Asked(n, p.base, |p.failed|) {
        CyclicDistinct(n, p.base, j, |p.failed|);
      }
    }
    if |p.failed| == n {
      forall c | 0 <= c < n ensures c in p.failed {
        var k := CyclicCovers(n, p.base, c);
        assert p.failed[k] == c;
      }
    }
  }

  /** A refresh gives up only after every coordinator has failed, and leaves table, index and flags to others. */
  lemma GivesUpAfterAll(s: State, s': State, t: nat)
    requires Inv(s) && Next(s, s', t, GiveUp)
    ensures forall c :: 0 <= c < s.n ==> c in s.threads[t].failed
    ensures s'.table == s.table && s'.index == s.index && s'.ready == s.ready && s'.updating
  {
    var failed := s.threads[t].failed;
    assert OnCourse(s, s.threads[t]) && Active(s.threads[t]);
    forall c | 0 <= c < s.n ensures c in failed {
      var k := CyclicCovers(s.n, s.index, c);
      assert failed[k] == c;
    }
  }

  /** Only a refresh with an install behind it sets the ready flag and only shutdown clears it, which it does;
      no refresh is let in once shutdown is requested; when shutdown is done the table is empty. */
  lemma FlagsFollow(s: State, s': State, t: nat, step: Step)
    requires Next(s, s', t, step)
    ensures s'.ready && !s.ready ==> step == SetReady && s.threads[t] == Stored
    ensures s.ready && !s'.ready ==> step == ClearReady
    ensures step == SetReady ==> s'.ready
    ensures step == ClearReady ==> s.closer == Requested && !s'.ready && (0 in s.threads ==> s.threads[0] == Out)
    ensures step == ClearTable ==> s'.closer == Closed && s'.table == None
    ensures step == Check ==> s.closer == Open
    ensures s'.closer != s.closer ==> OfCloser(step)
  {
    hide Asked;
  }

  predicate Fruitless(p: Phase) { p.Won? || p.Probing? || p.Waiting? || p.Releasing? }

  lemma HeldStill(s: State, s': State, u: nat, step: Step, t: nat)
    requires Inv(s) && Next(s, s', u, step)
    requires t in s.threads && t in s'.threads && Fruitless(s.threads[t]) && Fruitless(s'.threads[t])
    ensures s'.index == s.index && s'.installs == s.installs && (s'.table == s.table || s'.table == None)
  {
    assert Active(s.threads[t]);
    if step.Install? || step.StoreIndex? {
      assert Active(s.threads[u]);
    }
  }

  /** From states[i] to states[j] the thread is active and has installed nothing. */
  ghost predicate StaysFruitless(states: seq<State>, i: nat, j: nat, t: nat) {
    i <= j < |states| && forall k :: i <= k <= j ==> t in states[k].threads && Fruitless(states[k].threads[t])
  }

  lemma FruitlessLast(states: seq<State>, i: nat, j: nat, t: nat)
    requires StaysFruitless(states, i, j, t) && i < j
    ensures StaysFruitless(states, i, j - 1, t)
    ensures t in states[j - 1].threads && Fruitless(states[j - 1].threads[t])
    ensures t in states[j].threads && Fruitless(states[j].threads[t])
  {}

  lemma RunHeldStill(states: seq<State>, actions: seq<Action>, j: nat, t: nat)
    requires IsRun(states, actions) && 0 < j < |states|
    requires t in states[j - 1].threads && Fruitless(states[j - 1].threads[t])
    requires t in states[j].threads && Fruitless(states[j].threads[t])
    ensures states[j].index == states[j - 1].index && states[j].installs == states[j - 1].installs
    ensures states[j].table == states[j - 1].table || states[j].table == None
  {
    RunInv(states, actions, j - 1);
    HeldStill(states[j - 1], states[j - 1 + 1], actions[j - 1].thread, actions[j - 1].step, t);
  }

  /** While one refresh is active without having installed anything, nobody changes the index or installs
      a table: a wholly failed refresh leaves both as they were. */
  lemma {:induction false} FailedRefreshChangesNothing(states: seq<State>, actions: seq<Action>, i: nat, j: nat, t: nat)
    requires IsRun(states, actions) && StaysFruitless(states, i, j, t)
    ensures states[j].index == states[i].index && states[j].installs == states[i].installs
    ensures states[j].table == states[i].table || states[j].table == None
    decreases j
  {
    if i < j {
      FruitlessLast(states, i, j, t);
      FailedRefreshChangesNothing(states, actions, i, j - 1, t);
      RunHeldStill(states, actions, j, t);
    }
  }

  // ---- after shutdown ----

  ghost predicate Leads(states: seq<State>, actions: seq<Action>, s: State, goal: State -> bool) {
    Steps(states, actions) && states[0] == s && goal(states[|actions|])
  }

  /** Some continuation from here leads to a state with the property. */
  ghost predicate CanReach(s: State, goal: State -> bool) {
    exists states, actions :: Leads(states, actions, s, goal)
  }

  lemma Arrived(s: State, goal: State -> bool)
    requires goal(s)
    ensures CanReach(s, goal)
  {
    assert Leads([s], [], s, goal);
  }

  lemma StepBack(s: State, s': State, t: nat, step: Step, goal: State -> bool)
    requires Next(s, s', t, step) && CanReach(s', goal)
    ensures CanReach(s, goal)
  {
    hide Next;
    var rest: seq<State>, more: seq<Action> :| Leads(rest, more, s', goal);
    var states, actions := [s] + rest, [Action(t, step)] + more;
    forall i | 0 <= i < |actions| ensures Next(states[i], states[i + 1], actions[i].thread, actions[i].step) {
      if i > 0 {
        assert Next(rest[i - 1], rest[i - 1 + 1], more[i - 1].thread, more[i - 1].step);
      }
    }
    assert Leads(states, actions, s, goal);
  }

  /** A request in flight, or data on its way into the table or the ready flag. */
  predicate Underway(p: Phase) { p.Waiting? || p.Fetched? || p.Installed? || p.Stored? }

  /** Shutdown has cleared the ready flag. */
  predicate Closing(s: State) { s.closer == ReadyCleared || s.closer == CoordinatorDown || s.closer == Closed }

  /** The refresh can still come to an answer: while the coordinator client is up any refresh that has a
      coordinator left to ask, afterwards only one that is underway. */
  predicate Hopeful(s: State, p: Phase) {
    || Underway(p)
    || (s.closer == ReadyCleared && (p == Checked || p == Won || (p.Probing? && |p.failed| < s.n)))
  }

  predicate ReadyWhenClosed(s: State) { s.closer == Closed && s.ready }

  lemma ReadyCloses(s: State)
    requires s.n > 0 && Closing(s) && s.ready
    ensures CanReach(s, ReadyWhenClosed)
    decreases s.closer == ReadyCleared, s.closer != Closed
  {
    if s.closer == Closed {
      Arrived(s, ReadyWhenClosed);
    } else if s.closer == CoordinatorDown {
      var s' := s.(closer := Closed, table := None);
      ReadyCloses(s');
      StepBack(s, s', 0, ClearTable, ReadyWhenClosed);
    } else {
      var s' := s.(closer := CoordinatorDown);
      ReadyCloses(s');
      StepBack(s, s', 0, StopCoordinator, ReadyWhenClosed);
    }
  }

  lemma UnderwayGetsReady(s: State, t: nat)
    requires s.n > 0 && Closing(s) && t in s.threads && Underway(s.threads[t])
    ensures CanReach(s, ReadyWhenClosed)
    decreases s.threads[t].Waiting?, s.threads[t].Fetched?, s.threads[t].Installed?
  {
    hide CanReach;
    match s.threads[t] {
      case Waiting(base, failed) =>
        var s' := To(s, t, Fetched(base, failed));
        UnderwayGetsReady(s', t);
        StepBack(s, s', t, Answer, ReadyWhenClosed);
      case Fetched(base, failed) =>
        var s' := Installing(s, t);
        UnderwayGetsReady(s', t);
        StepBack(s, s', t, Install, ReadyWhenClosed);
      case Installed(base, failed) =>
        var s' := To(s, t, Stored).(index := Asked(s.n, base, |failed|));
        UnderwayGetsReady(s', t);
        StepBack(s, s', t, StoreIndex, ReadyWhenClosed);
      case Stored =>
        var s' := To(s, t, Releasing).(ready := true);
        ReadyCloses(s');
        StepBack(s, s', t, SetReady, ReadyWhenClosed);
    }
  }

  function Installing(s: State, t: nat): State
    requires s.n > 0 && t in s.threads && s.threads[t].Fetched?
  {
    var p := s.threads[t];
    To(s, t, Installed(p.base, p.failed)).(installs := s.installs + 1, table := Some(Asked(s.n, p.base, |p.failed|)))
  }

  lemma AskingGetsReady(s: State, t: nat)
    requires s.n > 0 && s.closer == ReadyCleared && t in s.threads
    requires s.threads[t] == Won || (s.threads[t].Probing? && |s.threads[t].failed| < s.n)
    ensures CanReach(s, ReadyWhenClosed)
    decreases s.threads[t] == Won
  {
    hide CanReach;
    if s.threads[t] == Won {
      var s' := To(s, t, Probing(s.index, []));
      AskingGetsReady(s', t);
      StepBack(s, s', t, LoadIndex, ReadyWhenClosed);
    } else {
      var s' := To(s, t, Waiting(s.threads[t].base, s.threads[t].failed));
      UnderwayGetsReady(s', t);
      StepBack(s, s', t, Ask, ReadyWhenClosed);
    }
  }

  /** A thread that has yet to try for the flag gets it once whoever holds it is done. */
  lemma CheckedGetsReady(s: State, t: nat)
    requires Exclusive(s) && Probes(s) && s.closer == ReadyCleared && t in s.threads && s.threads[t] == Checked
    ensures CanReach(s, ReadyWhenClosed)
  {
    hide CanReach;
    if s.updating {
      var w :| w in s.threads && Active(s.threads[w]);
      var p := s.threads[w];
      assert OnCourse(s, p);
      if Underway(p) {
        UnderwayGetsReady(s, w);
      } else if p == Won || (p.Probing? && |p.failed| < s.n) {
        AskingGetsReady(s, w);
      } else {
        var over := To(s, w, Releasing);
        var free := To(over, w, Out).(updating := false);
        FreeGetsReady(free, t);
        StepBack(over, free, w, Release, ReadyWhenClosed);
        if p.Probing? {
          StepBack(s, over, w, GiveUp, ReadyWhenClosed);
        } else {
          assert over == s;
        }
      }
    } else {
      FreeGetsReady(s, t);
    }
  }

  lemma FreeGetsReady(s: State, t: nat)
    requires s.n > 0 && s.closer == ReadyCleared && !s.updating
    requires t in s.threads && s.threads[t] == Checked
    ensures CanReach(s, ReadyWhenClosed)
  {
    hide CanReach;
    var s' := To(s, t, Won).(updating := true);
    AskingGetsReady(s', t);
    StepBack(s, s', t, Acquire, ReadyWhenClosed);
  }

  /** Not ready, and no refresh that can still come to an answer. */
  ghost predicate Hopeless(s: State) {
    Closing(s) && !s.ready && forall t :: t in s.threads ==> !Hopeful(s, s.threads[t])
  }

  lemma StaysHopeless(s: State, s': State, t: nat, step: Step)
    requires Hopeless(s) && Next(s, s', t, step)
    ensures Hopeless(s')
  {
    OneMoves(s, s', t, step);
    assert t in s.threads ==> !Hopeful(s, s.threads[t]);
    assert (t in s'.threads ==> !Hopeful(s', s'.threads[t])) && s'.ready == s.ready && Closing(s');
    forall u | u in s'.threads && u != t ensures !Hopeful(s', s'.threads[u]) {
      assert !Hopeful(s, s.threads[u]);
    }
  }

  lemma {:induction false} HopelessForever(states: seq<State>, actions: seq<Action>, j: nat)
    requires Steps(states, actions) && Hopeless(states[0]) && j < |states|
    ensures Hopeless(states[j])
    decreases j
  {
    hide Next, Hopeless;
    if j > 0 {
      HopelessForever(states, actions, j - 1);
      StaysHopeless(states[j - 1], states[j - 1 + 1], actions[j - 1].thread, actions[j - 1].step);
    }
  }

  /** From the moment shutdown has cleared the ready flag: the client can be ready when shutdown is done if
      and only if it is ready again already, or some refresh can still come to an answer. */
  lemma ReadyAfterShutdown(s: State)
    requires Inv(s) && Closing(s)
    ensures CanReach(s, ReadyWhenClosed) <==> s.ready || exists t :: t in s.threads && Hopeful(s, s.threads[t])
  {
    if s.ready {
      ReadyCloses(s);
    } else if t :| t in s.threads && Hopeful(s, s.threads[t]) {
      if Underway(s.threads[t]) {
        UnderwayGetsReady(s, t);
      } else if s.threads[t] == Checked {
        CheckedGetsReady(s, t);
      } else {
        AskingGetsReady(s, t);
      }
    } else if CanReach(s, ReadyWhenClosed) {
      var states: seq<State>, actions: seq<Action> :| Leads(states, actions, s, ReadyWhenClosed);
      HopelessForever(states, actions, |actions|);
      assert false;
    }
  }

  // ---- a coordinator's data after shutdown ----

  predicate HoldsData(s: State) { s.table.Some? }

  /** A request in flight, or data on its way into the table. */
  predicate Delivering(p: Phase) { p.Waiting? || p.Fetched? }

  lemma DeliveringInstalls(s: State, t: nat)
    requires s.n > 0 && t in s.threads && Delivering(s.threads[t])
    ensures CanReach(s, HoldsData)
    decreases s.threads[t].Waiting?
  {
    if s.threads[t].Fetched? {
      Arrived(Installing(s, t), HoldsData);
      StepBack(s, Installing(s, t), t, Install, HoldsData);
    } else {
      var s' := To(s, t, Fetched(s.threads[t].base, s.threads[t].failed));
      DeliveringInstalls(s', t);
      StepBack(s, s', t, Answer, HoldsData);
    }
  }

  ghost predicate NoData(s: State) {
    s.closer == Closed && s.table == None && forall t :: t in s.threads ==> !Delivering(s.threads[t])
  }

  lemma {:induction false} NoDataForever(states: seq<State>, actions: seq<Action>, j: nat)
    requires Steps(states, actions) && NoData(states[0]) && j < |states|
    ensures NoData(states[j])
    decreases j
  {
    if j > 0 {
      NoDataForever(states, actions, j - 1);
      assert Next(states[j - 1], states[j - 1 + 1], actions[j - 1].thread, actions[j - 1].step);
    }
  }

  /** Once shutdown is done, the table can hold a coordinator's data again if and only if a request is in
      flight or its answer is not yet installed. */
  lemma DataAfterShutdown(s: State)
    requires s.n > 0 && s.closer == Closed
    ensures CanReach(s, HoldsData) <==> s.table.Some? || exists t :: t in s.threads && Delivering(s.threads[t])
  {
    if s.table.Some? {
      Arrived(s, HoldsData);
    } else if t :| t in s.threads && Delivering(s.threads[t]) {
      DeliveringInstalls(s, t);
    } else if CanReach(s, HoldsData) {
      var states: seq<State>, actions: seq<Action> :| Leads(states, actions, s, HoldsData);
      NoDataForever(states, actions, |actions|);
      assert false;
    }
  }

  /** Shutdown is done, without a coordinator's data, without readiness and without a refresh underway. */
  ghost predicate Quiet(s: State) {
    s.closer == Closed && !s.ready && s.table == None && forall t :: t in s.threads ==> !Underway(s.threads[t])
  }

  lemma QuietForever(states: seq<State>, actions: seq<Action>, j: nat)
    requires Steps(states, actions) && Quiet(states[0]) && j < |states|
    ensures Quiet(states[j])
  {
    HopelessForever(states, actions, j);
    NoDataForever(states, actions, j);
    assert forall t :: t in states[j].threads ==> !Hopeful(states[j], states[j].threads[t]);
  }

  // ---- ready for good after shutdown, concretely ----

  /** One coordinator, an idle periodic thread and one detached refresh. */
  function Shot(updating: bool, ready: bool, closer: Closer, table: Option<nat>, phase: Phase): State {
    State(1, updating, 0, ready, closer, if table.Some? || ready then 1 else 0, table, map[0 := Out, 1 := phase])
  }

  predicate ReadyAtRest(s: State) {
    s.closer == Closed && s.ready && s.table == None && forall t :: t in s.threads ==> s.threads[t] == Out
  }

  lemma RestAtEnd()
    ensures CanReach(Shot(false, true, Closed, None, Out), ReadyAtRest)
  {
    Arrived(Shot(false, true, Closed, None, Out), ReadyAtRest);
  }

  lemma RestFromReady()
    ensures CanReach(Shot(true, true, ReadyCleared, Some(0), Releasing), ReadyAtRest)
  {
    hide CanReach, ReadyAtRest;
    var free := Shot(false, true, ReadyCleared, Some(0), Out);
    var down := Shot(false, true, CoordinatorDown, Some(0), Out);
    var end := Shot(false, true, Closed, None, Out);
    RestAtEnd();
    StepBack(down, end, 0, ClearTable, ReadyAtRest);
    StepBack(free, down, 0, StopCoordinator, ReadyAtRest);
    var s := Shot(true, true, ReadyCleared, Some(0), Releasing);
    assert free.threads == s.threads[1 := Out];
    StepBack(s, free, 1, Release, ReadyAtRest);
  }

  lemma RestFromWaiting()
    ensures CanReach(Shot(true, false, ReadyCleared, None, Waiting(0, [])), ReadyAtRest)
  {
    hide CanReach, ReadyAtRest;
    var got := Shot(true, false, ReadyCleared, None, Fetched(0, []));
    var installed := Shot(true, false, ReadyCleared, Some(0), Installed(0, []));
    var stored := Shot(true, false, ReadyCleared, Some(0), Stored);
    var done := Shot(true, true, ReadyCleared, Some(0), Releasing);
    RestFromReady();
    assert done.threads == stored.threads[1 := Releasing];
    StepBack(stored, done, 1, SetReady, ReadyAtRest);
    assert stored.threads == installed.threads[1 := Stored];
    StepBack(installed, stored, 1, StoreIndex, ReadyAtRest);
    assert installed.threads == got.threads[1 := Installed(0, [])];
    StepBack(got, installed, 1, Install, ReadyAtRest);
    var s := Shot(true, false, ReadyCleared, None, Waiting(0, []));
    assert got.threads == s.threads[1 := Fetched(0, [])];
    StepBack(s, got, 1, Answer, ReadyAtRest);
  }

  /** A detached refresh that is let in before shutdown asks, answers and sets the flag after shutdown has
      cleared it; shutdown then empties the table and returns, with the client ready and nobody at work. */
  lemma ReadyBetween()
    ensures Init(Shot(false, false, Open, None, Out)) && CanReach(Shot(false, false, Open, None, Out), ReadyAtRest)
  {
    hide CanReach, ReadyAtRest;
    var s := Shot(false, false, Open, None, Out);
    var checked := Shot(false, false, Open, None, Checked);
    var won := Shot(true, false, Open, None, Won);
    var probing := Shot(true, false, Open, None, Probing(0, []));
    var requested := Shot(true, false, Requested, None, Probing(0, []));
    var cleared := Shot(true, false, ReadyCleared, None, Probing(0, []));
    var waiting := Shot(true, false, ReadyCleared, None, Waiting(0, []));
    RestFromWaiting();
    assert waiting.threads == cleared.threads[1 := Waiting(0, [])];
    StepBack(cleared, waiting, 1, Ask, ReadyAtRest);
    StepBack(requested, cleared, 0, ClearReady, ReadyAtRest);
    StepBack(probing, requested, 0, RequestShutdown, ReadyAtRest);
    assert probing.threads == won.threads[1 := Probing(0, [])];
    StepBack(won, probing, 1, LoadIndex, ReadyAtRest);
    assert won.threads == checked.threads[1 := Won];
    StepBack(checked, won, 1, Acquire, ReadyAtRest);
    assert checked.threads == s.threads[1 := Checked];
    StepBack(s, checked, 1, Check, ReadyAtRest);
  }

  // ---- one refresh on its own ----

  /** The fields refreshRouting updates. */
  class Refresher {
    const n: nat
    var shutdownRequested: bool
    var isUpdating: bool
    var isReady: bool
    var activeIndex: nat
    var table: Option<nat>

    constructor (n: nat)
      ensures this.n == n && !isUpdating && !isReady && activeIndex == 0 && table == None && !shutdownRequested
    {
      this.n := n;
      shutdownRequested, isUpdating, isReady, activeIndex, table := false, false, false, 0, None;
    }

    /** Undisturbed by other threads: either nothing happens, or the first coordinator that answers, in
        cyclic order from the active one, supplies the table and becomes the active one. */
    method RefreshRouting(answers: nat -> bool) returns (probed: seq<nat>)
      requires n > 0 ==> activeIndex < n
      modifies this
      ensures isUpdating == old(isUpdating) && shutdownRequested == old(shutdownRequested)
      ensures n > 0 ==> activeIndex < n
      ensures old(shutdownRequested || isUpdating) || n == 0 ==> probed == []
      ensures !old(shutdownRequested || isUpdating) && n > 0 ==>
                probed != [] && |probed| <= n && Cyclic(n, old(activeIndex), probed)
      ensures forall i :: 0 <= i < |probed| - 1 ==> !answers(probed[i])
      ensures probed != [] && answers(probed[|probed| - 1]) ==>
                table == Some(probed[|probed| - 1]) && activeIndex == probed[|probed| - 1] && isReady
      ensures probed == [] || !answers(probed[|probed| - 1]) ==>
                table == old(table) && activeIndex == old(activeIndex) && isReady == old(isReady)
      ensures probed != [] && !answers(probed[|probed| - 1]) ==> |probed| == n
    {
      probed := [];
      if shutdownRequested || n == 0 {
        return;
      }
      if isUpdating {
        return;
      }
      isUpdating := true;
      var base := activeIndex;
      for attempt := 0 to n
        invariant |probed| == attempt && Cyclic(n, base, probed)
        invariant forall i :: 0 <= i < attempt ==> !answers(probed[i])
        invariant activeIndex == base && table == old(table) && isReady == old(isReady) && isUpdating
        invariant shutdownRequested == old(shutdownRequested)
      {
        var idx := (base + attempt) % n;
        probed := probed + [idx];
        if answers(idx) {
          table := Some(idx);
          activeIndex := idx;
          isReady := true;
          isUpdating := false;
          return;
        }
      }
      isUpdating := false;
    }
  }
}
