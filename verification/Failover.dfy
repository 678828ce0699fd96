/** Endpoint choice, redirects and failover: execute and attemptWithGuard of smart/src/smart_client.cpp. */
module Failover {
  import opened Common
  import opened Routing
  import Streams

  // gRPC status codes the guard reacts to.
  const FAILED_PRECONDITION: int := 9
  const UNAVAILABLE: int := 14

  /** How one attempt ends. */
  datatype Reply<V> =
    | Success(value: V)
    | GrpcError(code: int, message: string, trailer: string)
    | OtherError(what: string)

  /** One attempt's surroundings: its reply, and what the routing table returns for the two redirect targets
      when each is looked up, whatever other threads did to the table meanwhile. */
  datatype Env<!V> = Env(reply: Reply<V>, master: string -> Client, backup: string -> Client)

  // ---- trimCopy and the route trailer ----

  predicate IsBlank(c: char) { c == ' ' || c == '\t' || c == '\r' || c == '\n' }

  lemma BlankSet(c: char)
    ensures IsBlank(c) <==> c in " \t\r\n"
  {
    var blanks := " \t\r\n";
    assert blanks[0] == ' ' && blanks[1] == '\t' && blanks[2] == '\r' && blanks[3] == '\n';
  }

  function TrimLeft(s: string): string {
    if s != "" && IsBlank(s[0]) then TrimLeft(s[1..]) else s
  }

  function TrimRight(s: string): string {
    if s != "" && IsBlank(s[|s| - 1]) then TrimRight(s[..|s| - 1]) else s
  }

  function TrimCopy(s: string): string { TrimRight(TrimLeft(s)) }

  predicate AllBlank(s: string) { forall i :: 0 <= i < |s| ==> IsBlank(s[i]) }

  lemma {:induction false} TrimLeftParts(s: string) returns (l: string)
    ensures l + TrimLeft(s) == s && AllBlank(l)
    ensures TrimLeft(s) == "" || !IsBlank(TrimLeft(s)[0])
  {
    if s != "" && IsBlank(s[0]) {
      var rest := TrimLeftParts(s[1..]);
      l := [s[0]] + rest;
      calc {
        l + TrimLeft(s);
        [s[0]] + (rest + TrimLeft(s[1..]));
        [s[0]] + s[1..];
        s;
      }
    } else {
      l := "";
    }
  }

  lemma {:induction false} TrimRightParts(s: string) returns (r: string)
    ensures TrimRight(s) + r == s && AllBlank(r)
    ensures TrimRight(s) == "" || !IsBlank(TrimRight(s)[|TrimRight(s)| - 1])
  {
    if s != "" && IsBlank(s[|s| - 1]) {
      var n := |s| - 1;
      var rest := TrimRightParts(s[..n]);
      r := rest + [s[n]];
      calc {
        TrimRight(s) + r;
        (TrimRight(s[..n]) + rest) + [s[n]];
        s[..n] + [s[n]];
        s;
      }
    } else {
      r := "";
    }
  }

  /** trimCopy removes exactly the blank ends: the result is a middle part with non-blank ends. */
  lemma TrimExact(s: string)
    ensures exists l, r :: s == l + TrimCopy(s) + r && AllBlank(l) && AllBlank(r)
    ensures TrimCopy(s) == "" <==> AllBlank(s)
    ensures TrimCopy(s) != "" ==> !IsBlank(TrimCopy(s)[0]) && !IsBlank(TrimCopy(s)[|TrimCopy(s)| - 1])
  {
    var l := TrimLeftParts(s);
    var r := TrimRightParts(TrimLeft(s));
    var mid := TrimCopy(s);
    assert s == l + mid + r;
    if mid == "" {
      assert s == l + r;
    } else {
      assert s[|l|] == mid[0];
      assert TrimLeft(s)[0] == mid[0];
    }
  }

  function CommaAt(s: string): (at: nat)
    ensures at <= |s| && (at < |s| ==> s[at] == ',') && forall i :: 0 <= i < at ==> s[i] != ','
  {
    if s == "" || s[0] == ',' then 0 else 1 + CommaAt(s[1..])
  }

  /** The redirect data: the trailer, or the status message when there is no trailer. */
  function RouteData(message: string, trailer: string): string {
    if trailer != "" then trailer else message
  }

  function MasterTarget(route: string): string { TrimCopy(route[..CommaAt(route)]) }

  function BackupTarget(route: string): string {
    if CommaAt(route) < |route| then TrimCopy(route[CommaAt(route) + 1..]) else ""
  }

  predicate Trimmed(s: string) { s == "" || (!IsBlank(s[0]) && !IsBlank(s[|s| - 1])) }

  lemma {:induction false} TrimLeftSkips(l: string, s: string)
    requires AllBlank(l)
    ensures TrimLeft(l + s) == TrimLeft(s)
  {
    if l == "" {
      assert l + s == s;
    } else {
      assert (l + s)[1..] == l[1..] + s;
      TrimLeftSkips(l[1..], s);
    }
  }

  lemma {:induction false} TrimRightSkips(s: string, r: string)
    requires AllBlank(r)
    ensures TrimRight(s + r) == TrimRight(s)
  {
    if r == "" {
      assert s + r == s;
    } else {
      var n := |r| - 1;
      assert (s + r)[..|s + r| - 1] == s + r[..n];
      TrimRightSkips(s, r[..n]);
    }
  }

  /** Whatever blanks surround a text with non-blank ends, it comes out of trimCopy. */
  lemma TrimPadded(l: string, mid: string, r: string)
    requires AllBlank(l) && AllBlank(r) && Trimmed(mid)
    ensures TrimCopy(l + mid + r) == mid
  {
    assert l + mid + r == l + (mid + r);
    TrimLeftSkips(l, mid + r);
    if mid == "" {
      assert mid + r == r + "";
      TrimLeftSkips(r, "");
    } else {
      assert TrimLeft(mid + r) == mid + r;
      TrimRightSkips(mid, r);
    }
  }

  /** The text before and behind a comma, with blanks around either. */
  ghost predicate IsPair(route: string, master: string, backup: string) {
    exists l1, r1, l2, r2 :: AllBlank(l1) && AllBlank(r1) && AllBlank(l2) && AllBlank(r2)
      && route == l1 + master + r1 + "," + (l2 + backup + r2)
  }

  ghost predicate IsPadded(route: string, mid: string) {
    exists l, r :: AllBlank(l) && AllBlank(r) && route == l + mid + r
  }

  /** Text that announces a master and a backup, or a master alone, with blanks around either. */
  ghost predicate IsRoute(route: string, master: string, backup: string) {
    && Trimmed(master) && Trimmed(backup) && ',' !in master
    && (IsPair(route, master, backup) || (master != "" && backup == "" && IsPadded(route, master)))
  }

  lemma PairParsed(route: string, master: string, backup: string)
    requires Trimmed(master) && Trimmed(backup) && ',' !in master && IsPair(route, master, backup)
    ensures MasterTarget(route) == master && BackupTarget(route) == backup && ',' in route
  {
    hide TrimLeft, TrimRight, CommaAt, TrimCopy, Trimmed;
    var l1, r1, l2, r2 :| AllBlank(l1) && AllBlank(r1) && AllBlank(l2) && AllBlank(r2)
      && route == l1 + master + r1 + "," + (l2 + backup + r2);
    var before, behind := l1 + master + r1, l2 + backup + r2;
    assert forall i :: 0 <= i < |before| ==> before[i] != ',';
    hide AllBlank;
    SplitAtComma(before, behind);
    TrimPadded(l1, master, r1);
    TrimPadded(l2, backup, r2);
    assert route[|before|] == ',';
  }

  lemma LoneParsed(route: string, master: string)
    requires Trimmed(master) && master != "" && ',' !in master && IsPadded(route, master)
    ensures MasterTarget(route) == master && BackupTarget(route) == "" && !AllBlank(route)
  {
    hide TrimLeft, TrimRight, CommaAt, TrimCopy;
    var l, r :| AllBlank(l) && AllBlank(r) && route == l + master + r;
    assert forall i :: 0 <= i < |route| ==> route[i] != ',';
    TrimPadded(l, master, r);
    assert route[..|route|] == route;
    assert route[|l|] == master[0];
  }

  /** Both targets are read back from the text a server announces them in. */
  lemma RouteParsed(route: string, master: string, backup: string)
    requires IsRoute(route, master, backup)
    ensures MasterTarget(route) == master && BackupTarget(route) == backup && !AllBlank(route)
  {
    hide MasterTarget, BackupTarget, IsPair, IsPadded, Trimmed;
    if IsPair(route, master, backup) {
      PairParsed(route, master, backup);
      var i :| 0 <= i < |route| && route[i] == ',';
      assert !IsBlank(route[i]);
    } else {
      LoneParsed(route, master);
    }
  }

  lemma TrimPads(s: string)
    ensures IsPadded(s, TrimCopy(s)) && Trimmed(TrimCopy(s))
  {
    hide TrimCopy;
    TrimExact(s);
    var l, r :| s == l + TrimCopy(s) + r && AllBlank(l) && AllBlank(r);
  }

  lemma PaddedIn(route: string, mid: string, c: char)
    requires IsPadded(route, mid) && c !in route
    ensures c !in mid
  {
    var l, r :| AllBlank(l) && AllBlank(r) && route == l + mid + r;
    assert forall i :: 0 <= i < |mid| ==> mid[i] == route[|l| + i];
  }

  lemma PaddedPair(before: string, behind: string, master: string, backup: string)
    requires IsPadded(before, master) && IsPadded(behind, backup)
    ensures IsPair(before + "," + behind, master, backup)
  {
    var l1, r1 :| AllBlank(l1) && AllBlank(r1) && before == l1 + master + r1;
    var l2, r2 :| AllBlank(l2) && AllBlank(r2) && behind == l2 + backup + r2;
  }

  /** Every text that is not blank announces something. */
  lemma RouteTotal(route: string)
    requires !AllBlank(route)
    ensures IsRoute(route, MasterTarget(route), BackupTarget(route))
  {
    hide TrimCopy, AllBlank, IsPair, IsPadded, Trimmed;
    var at := CommaAt(route);
    TrimPads(route[..at]);
    PaddedIn(route[..at], MasterTarget(route), ',');
    if at < |route| {
      TrimPads(route[at + 1..]);
      PaddedPair(route[..at], route[at + 1..], MasterTarget(route), BackupTarget(route));
      assert route == route[..at] + "," + route[at + 1..];
    } else {
      assert route[..at] == route;
      TrimExact(route);
    }
    NoTarget();
  }

  lemma NoTarget()
    ensures Trimmed("")
  {}

  lemma SplitAtComma(before: string, behind: string)
    requires forall i :: 0 <= i < |before| ==> before[i] != ','
    ensures var route := before + "," + behind;
            CommaAt(route) == |before| && route[..|before|] == before && route[|before| + 1..] == behind
  {
    var route := before + "," + behind;
    assert route[|before|] == ',';
    assert forall i :: 0 <= i < |before| ==> route[i] == before[i];
  }

  // ---- one round of the guard ----

  datatype Decision = Stop | Retry(client: Client, fallback: Option<Client>, redirected: bool)

  /** A client for the announced target, unless there is none or it is the one just tried. */
  function Other(target: string, current: Client, resolve: string -> Client): Option<Client> {
    if target != "" && target != current.target then Some(resolve(target)) else None
  }

  /** What attemptWithGuard does after an attempt on `current`. */
  function Decide<V>(current: Client, fallback: Option<Client>, env: Env<V>): Decision {
    if !env.reply.GrpcError? then Stop
    else if env.reply.code == FAILED_PRECONDITION then
      var route := RouteData(env.reply.message, env.reply.trailer);
      if TrimCopy(route) == "" then Stop
      else
        var newMaster := Other(MasterTarget(route), current, env.master);
        var announced := Other(BackupTarget(route), current, env.backup);
        var newBackup := if announced.Some? then announced else fallback;
        if newMaster.Some? then Retry(newMaster.value, newBackup, true)
        else if newBackup.Some? && newBackup.value != current then Retry(newBackup.value, None, true)
        else Stop
    else if env.reply.code == UNAVAILABLE && fallback.Some? && fallback.value != current then
      Retry(fallback.value, None, false)
    else Stop
  }

  /** The attempts made, in order, how many of them followed a redirect, and the surfaced reply
      (None: the last attempt has not been answered yet). */
  datatype Trace<V> = Trace(attempts: seq<Client>, redirects: nat, outcome: Option<Reply<V>>)

  /** attemptWithGuard run against successive surroundings. */
  function Guard<V>(current: Client, fallback: Option<Client>, envs: seq<Env<V>>): Trace<V>
    decreases |envs|
  {
    if envs == [] then Trace([current], 0, None)
    else match Decide(current, fallback, envs[0])
      case Stop => Trace([current], 0, Some(envs[0].reply))
      case Retry(client, next, redirected) =>
        var rest := Guard(client, next, envs[1..]);
        Trace([current] + rest.attempts, rest.redirects + (if redirected then 1 else 0), rest.outcome)
  }

  /** Table lookups return a client for the target asked for. */
  ghost predicate Resolves<V>(envs: seq<Env<V>>) {
    forall i, t :: 0 <= i < |envs| ==> envs[i].master(t).target == t && envs[i].backup(t).target == t
  }

  function Spare(fallback: Option<Client>): nat { if fallback.Some? then 1 else 0 }

  /** With R followed redirects there are at most 2R + 2 attempts, 2R + 1 without an initial fallback:
      an UNAVAILABLE hop uses up the fallback, and only a redirect supplies a new one. */
  lemma {:induction false} AttemptBound<V>(current: Client, fallback: Option<Client>, envs: seq<Env<V>>)
    ensures var t := Guard(current, fallback, envs);
            1 <= |t.attempts| <= 2 * t.redirects + 1 + Spare(fallback)
    decreases |envs|
  {
    if envs != [] {
      var d := Decide(current, fallback, envs[0]);
      if d.Retry? {
        AttemptBound(d.client, d.fallback, envs[1..]);
      }
    }
  }

  /** The route text of a reply. */
  function RouteText<V>(reply: Reply<V>): string
    requires reply.GrpcError?
  {
    if reply.trailer != "" then reply.trailer else reply.message
  }

  predicate IsRedirect<V>(reply: Reply<V>) {
    reply.GrpcError? && reply.code == FAILED_PRECONDITION && !AllBlank(RouteText(reply))
  }

  /** The failures after which the guard may try another node. */
  predicate IsRetriable<V>(reply: Reply<V>) {
    IsRedirect(reply) || (reply.GrpcError? && reply.code == UNAVAILABLE)
  }

  /** Any other reply ends the call; an unavailable node sends it to the fallback, if that is another one. */
  lemma DecideByReply<V>(current: Client, fallback: Option<Client>, env: Env<V>)
    ensures !IsRetriable(env.reply) ==> Decide(current, fallback, env) == Stop
    ensures env.reply.GrpcError? && env.reply.code == UNAVAILABLE ==>
              Decide(current, fallback, env) ==
                if fallback.Some? && fallback.value != current then Retry(fallback.value, None, false) else Stop
    ensures Decide(current, fallback, env).Retry? ==>
              Decide(current, fallback, env).redirected == IsRedirect(env.reply)
  {
    hide TrimCopy;
    if env.reply.GrpcError? {
      TrimExact(RouteText(env.reply));
    }
  }

  function RedirectReplies<V>(envs: seq<Env<V>>): nat {
    if envs == [] then 0 else (if IsRedirect(envs[0].reply) then 1 else 0) + RedirectReplies(envs[1..])
  }

  /** The call ends once the servers stop redirecting: among enough replies, few redirects. */
  lemma {:induction false} GuardTerminates<V>(current: Client, fallback: Option<Client>, envs: seq<Env<V>>)
    requires |envs| >= 2 * RedirectReplies(envs) + 1 + Spare(fallback)
    ensures Guard(current, fallback, envs).outcome.Some?
    decreases |envs|
  {
    DecideByReply(current, fallback, envs[0]);
    var d := Decide(current, fallback, envs[0]);
    if d.Retry? {
      GuardTerminates(d.client, d.fallback, envs[1..]);
    }
  }

  /** The redirects counted are the redirect replies among those the guard went on after. */
  lemma {:induction false} GuardCounts<V>(current: Client, fallback: Option<Client>, envs: seq<Env<V>>)
    ensures var t := Guard(current, fallback, envs);
            1 <= |t.attempts| <= |envs| + 1 && t.redirects == RedirectReplies(envs[..|t.attempts| - 1])
    decreases |envs|
  {
    hide Decide, IsRedirect;
    NoReplies(envs);
    if envs != [] {
      DecideByReply(current, fallback, envs[0]);
      var d := Decide(current, fallback, envs[0]);
      if d.Retry? {
        GuardCounts(d.client, d.fallback, envs[1..]);
        RepliesStep(envs, |Guard(d.client, d.fallback, envs[1..]).attempts|);
      }
    }
  }

  lemma NoReplies<V>(envs: seq<Env<V>>)
    ensures RedirectReplies(envs[..0]) == 0
  {}

  lemma RepliesStep<V>(envs: seq<Env<V>>, n: nat)
    requires 1 <= n <= |envs|
    ensures RedirectReplies(envs[..n])
         == (if IsRedirect(envs[0].reply) then 1 else 0) + RedirectReplies(envs[1..][..n - 1])
  {
    hide IsRedirect;
    assert envs[..n][0] == envs[0] && envs[..n][1..] == envs[1..][..n - 1];
  }

  /** Every attempt but the last was answered with a redirect or from an unavailable node. */
  ghost predicate FailsUntilLast<V>(attempts: seq<Client>, envs: seq<Env<V>>) {
    forall i :: 0 <= i < |attempts| - 1 ==> Failed(envs, i)
  }

  predicate Failed<V>(envs: seq<Env<V>>, i: nat) { i < |envs| && IsRetriable(envs[i].reply) }

  /** No client is tried twice in a row. */
  ghost predicate Alternates(attempts: seq<Client>) {
    forall i :: 0 <= i < |attempts| - 1 ==> attempts[i] != attempts[i + 1]
  }

  lemma FailsCons<V>(c: Client, rest: seq<Client>, envs: seq<Env<V>>)
    requires rest != [] && envs != [] && IsRetriable(envs[0].reply) && FailsUntilLast(rest, envs[1..])
    ensures FailsUntilLast([c] + rest, envs)
  {
    forall i | 0 <= i < |rest| ensures Failed(envs, i) {
      assert i > 0 ==> Failed(envs[1..], i - 1);
    }
  }

  lemma AlternatesCons(c: Client, rest: seq<Client>)
    requires rest != [] && rest[0] != c && Alternates(rest)
    ensures Alternates([c] + rest)
  {
    forall i | 0 <= i < |[c] + rest| - 1 ensures ([c] + rest)[i] != ([c] + rest)[i + 1] {
      assert i > 0 ==> rest[i - 1] != rest[i - 1 + 1];
    }
  }

  /** Each attempt but the last ended in a redirect or at an unavailable node; the last one's reply is what
      the caller gets; consecutive attempts go to different clients. */
  lemma {:induction false} GuardTrace<V>(current: Client, fallback: Option<Client>, envs: seq<Env<V>>)
    requires Resolves(envs)
    ensures var t := Guard(current, fallback, envs);
            && t.attempts != [] && t.attempts[0] == current
            && FailsUntilLast(t.attempts, envs) && Alternates(t.attempts)
            && (t.outcome.Some? ==> |t.attempts| <= |envs| && t.outcome.value == envs[|t.attempts| - 1].reply)
            && (t.outcome.None? ==> |t.attempts| == |envs| + 1)
    decreases |envs|
  {
    hide Decide, Resolves, FailsUntilLast, Alternates, IsRetriable;
    OneAttempt(current, envs);
    if envs != [] {
      var d := Decide(current, fallback, envs[0]);
      if d.Retry? {
        GuardStep(current, fallback, envs);
        GuardTrace(d.client, d.fallback, envs[1..]);
        var rest := Guard(d.client, d.fallback, envs[1..]);
        FailsCons(current, rest.attempts, envs);
        AlternatesCons(current, rest.attempts);
      }
    }
  }

  lemma OneAttempt<V>(c: Client, envs: seq<Env<V>>)
    ensures FailsUntilLast([c], envs) && Alternates([c])
  {}

  lemma GuardStep<V>(current: Client, fallback: Option<Client>, envs: seq<Env<V>>)
    requires Resolves(envs) && envs != [] && Decide(current, fallback, envs[0]).Retry?
    ensures Decide(current, fallback, envs[0]).client != current && IsRetriable(envs[0].reply) && Resolves(envs[1..])
  {
    RetryElsewhere(current, fallback, envs[0]);
    DecideByReply(current, fallback, envs[0]);
    assert forall i :: 0 <= i < |envs[1..]| ==> envs[1..][i] == envs[i + 1];
  }

  lemma RetryElsewhere<V>(current: Client, fallback: Option<Client>, env: Env<V>)
    requires forall t :: env.master(t).target == t && env.backup(t).target == t
    requires Decide(current, fallback, env).Retry?
    ensures Decide(current, fallback, env).client != current && !env.reply.Success?
  {
    if env.reply.code == FAILED_PRECONDITION {
      var route := RouteData(env.reply.message, env.reply.trailer);
      assert env.master(MasterTarget(route)).target == MasterTarget(route);
    }
  }

  /** A redirect that names another master goes there, keeping the named backup, or else the old fallback, in
      reserve; one that names the node just tried as master goes straight to the reserve. The trailer is
      read before the message. */
  lemma RedirectFollowed<V>(current: Client, fallback: Option<Client>, env: Env<V>, master: string, backup: string)
    requires env.reply.GrpcError? && env.reply.code == FAILED_PRECONDITION
    requires IsRoute(RouteText(env.reply), master, backup)
    ensures var reserve := if backup != "" && backup != current.target then Some(env.backup(backup)) else fallback;
            Decide(current, fallback, env) ==
              if master != "" && master != current.target then Retry(env.master(master), reserve, true)
              else if reserve.Some? && reserve.value != current then Retry(reserve.value, None, true)
              else Stop
  {
    hide IsRoute, TrimCopy, MasterTarget, BackupTarget, AllBlank;
    var route := RouteData(env.reply.message, env.reply.trailer);
    RouteParsed(route, master, backup);
    TrimExact(route);
  }

  predicate IsTarget(s: string) { s != "" && Trimmed(s) && ',' !in s }

  /** Text that is a lone target announces it as master, without a backup. */
  lemma RouteOfTarget(s: string)
    requires IsTarget(s)
    ensures TrimCopy(s) == s && MasterTarget(s) == s && BackupTarget(s) == ""
  {
    TrimPadded("", s, "");
    assert "" + s + "" == s && s[..|s|] == s;
  }

  /** The server sends the call to `next`, which sends it on to `other`, and so on. */
  function PingPongEnvs(resolve: string -> Client, n: nat, next: string, other: string): seq<Env<int>> {
    if n == 0 then []
    else [Env(GrpcError(FAILED_PRECONDITION, "", next), resolve, resolve)] + PingPongEnvs(resolve, n - 1, other, next)
  }

  /** Redirects alone can go on forever: any two nodes that name each other as master keep the guard going
      for any number of rounds. */
  lemma {:induction false} PingPong(a: Client, b: Client, resolve: string -> Client, n: nat)
    requires IsTarget(a.target) && IsTarget(b.target) && a.target != b.target
    requires resolve(a.target) == a && resolve(b.target) == b
    ensures var t := Guard(a, None, PingPongEnvs(resolve, n, b.target, a.target));
            t.redirects == n && |t.attempts| == n + 1 && t.outcome.None?
    decreases n
  {
    hide Decide;
    if n > 0 {
      var envs := PingPongEnvs(resolve, n, b.target, a.target);
      assert envs[1..] == PingPongEnvs(resolve, n - 1, a.target, b.target);
      PingPongStep(a, b, resolve);
      PingPong(b, a, resolve, n - 1);
    }
  }

  lemma PingPongStep(a: Client, b: Client, resolve: string -> Client)
    requires IsTarget(b.target) && a.target != b.target && resolve(b.target) == b
    ensures Decide(a, None, Env<int>.Env(GrpcError(FAILED_PRECONDITION, "", b.target), resolve, resolve))
         == Retry(b, None, true)
  {
    RouteOfTarget(b.target);
  }

  // ---- choosing the first endpoint ----

  // Values of the Mode enumeration; any other override falls into the default branch.
  const MODE_MASTER: int := 0
  const MODE_BACKUP: int := 1
  const MODE_MASTER_THAN_BACKUP: int := 2
  const MODE_LB_SMART: int := 3

  function EffectiveMode(overrideMode: int, configured: int): int {
    if overrideMode >= 0 then overrideMode else configured
  }

  datatype Start = NoEndpoint | First(client: Client, fallback: Option<Client>)

  function Choose(master: Option<Client>, backup: Option<Client>, wanted: int, masterFirst: bool): Start {
    if master.None? && backup.None? then NoEndpoint
    else
      var mode := if master.None? then MODE_BACKUP else if backup.None? then MODE_MASTER else wanted;
      if mode == MODE_MASTER then First(master.value, None)
      else if mode == MODE_BACKUP then First(backup.value, None)
      else if mode == MODE_LB_SMART && !masterFirst then First(backup.value, master)
      else First(master.value, backup)
  }

  function RouteOf(t: Table, role: Role, shard: int): Option<Client> {
    if (role, shard) in t.routes then Some(t.routes[(role, shard)]) else None
  }

  /** The shard of a key; a table with zero shards would make this a division by zero. */
  function ShardOf(weakHash: int, maxShards: int): int
    requires Uint32(maxShards) != 0
  {
    AsInt32(Uint32(weakHash) % Uint32(maxShards))
  }

  /** The residue of the hash, as uint32_t, modulo the shard count, as uint32_t, read as an int32_t. */
  ghost predicate IsShard(s: int, weakHash: int, maxShards: int) {
    && -0x8000_0000 <= s < 0x8000_0000 && Uint32(s) < Uint32(maxShards)
    && exists q: nat :: Uint32(weakHash) == q * Uint32(maxShards) + Uint32(s)
  }

  lemma Residue(n: nat, d: nat, r: nat)
    requires d > 0
    ensures r == n % d <==> r < d && exists q: nat :: n == q * d + r
  {
    assert n == (n / d) * d + n % d;
    if q: nat :| r < d && n == q * d + r {
      SplitUnique(q, r, d);
    }
  }

  lemma SignedWord(x: uint32, s: int)
    ensures s == AsInt32(x) <==> -0x8000_0000 <= s < 0x8000_0000 && Uint32(s) == x
  {}

  /** The shard computed is the residue, and the only one. */
  lemma ShardExact(s: int, weakHash: int, maxShards: int)
    requires Uint32(maxShards) != 0
    ensures s == ShardOf(weakHash, maxShards) <==> IsShard(s, weakHash, maxShards)
  {
    var h, m := Uint32(weakHash), Uint32(maxShards);
    Residue(h, m, Uint32(s));
    SignedWord(h % m, s);
  }

  /** For a positive count it is the residue of the hash in the ordinary sense. */
  lemma ShardIsResidue(s: int, weakHash: int, maxShards: int)
    requires 0 <= weakHash < UINT32 && 0 < maxShards < 0x8000_0000
    ensures s == ShardOf(weakHash, maxShards)
       <==> 0 <= s < maxShards && exists q: nat :: weakHash == q * maxShards + s
  {
    assert Uint32(weakHash) == weakHash && Uint32(maxShards) == maxShards;
    var r := weakHash % maxShards;
    assert ShardOf(weakHash, maxShards) == r;
    if s >= 0 {
      Residue(weakHash, maxShards, s);
    }
  }

  /** The shard is a valid index exactly when the shard count, an int32 other than zero, is positive. */
  lemma ShardInRange(weakHash: int, maxShards: int)
    requires -0x8000_0000 <= maxShards < 0x8000_0000 && maxShards != 0
    ensures 0 <= ShardOf(weakHash, maxShards) < maxShards <==> maxShards > 0
  {
    if maxShards > 0 {
      assert Uint32(maxShards) == maxShards;
    }
  }

  lemma SignedPositive(x: uint32)
    ensures AsInt32(x) > 0 <==> 0 < x < 0x8000_0000
    ensures -0x8000_0000 <= AsInt32(x) < 0x8000_0000 && (AsInt32(x) == 0 <==> x == 0)
  {}

  lemma CountUsable(announced: uint32)
    ensures Uint32(AsInt32(announced)) == announced
    ensures announced != 0 ==> AlwaysInRange(AsInt32(announced)) == (announced < 0x8000_0000)
  {
    SignedWord(announced, AsInt32(announced));
    SignedPositive(announced);
    hide AsInt32, Uint32, ShardOf;
    if announced != 0 {
      forall w ensures 0 <= ShardOf(w, AsInt32(announced)) < AsInt32(announced) <==> AsInt32(announced) > 0 {
        ShardInRange(w, AsInt32(announced));
      }
      assert (0 <= ShardOf(0, AsInt32(announced)) < AsInt32(announced)) <==> AsInt32(announced) > 0;
    }
  }

  lemma UpdateInstallsCount(pre: Table, post: Table, lo: nat, hi: nat, maxShards: int, peers: seq<Peer>,
                            removed: seq<Client>)
    requires Updates(pre, post, lo, hi, maxShards, peers, removed)
    ensures post.maxShards == maxShards
  {}

  /** Once the merge of a coordinator stream is installed, the shard computation is defined if and only if
      some chunk announced a nonzero count, and gives valid indices if and only if the first such count is
      below 2^31. */
  lemma InstalledShards(chunks: seq<Streams.Chunk>, pre: Table, post: Table, lo: nat, hi: nat, removed: seq<Client>)
    requires Updates(pre, post, lo, hi, Streams.Merged(chunks).maxShards, Streams.Merged(chunks).peers, removed)
    ensures Uint32(post.maxShards) != 0 <==> exists i :: 0 <= i < |chunks| && chunks[i].maxShards != 0
    ensures forall i :: Streams.IsFirstCount(chunks, i) ==>
              && 0 <= i < |chunks| && Uint32(post.maxShards) != 0
              && AlwaysInRange(post.maxShards) == (chunks[i].maxShards < 0x8000_0000)
  {
    var info := Streams.Merged(chunks);
    UpdateInstallsCount(pre, post, lo, hi, info.maxShards, info.peers, removed);
    hide Updates, ShardOf, AsInt32, Uint32, Streams.Merged;
    Streams.ShardsMerged(chunks);
    forall i | Streams.IsFirstCount(chunks, i)
      ensures 0 <= i < |chunks| && Uint32(post.maxShards) == chunks[i].maxShards
      ensures AlwaysInRange(post.maxShards) == (chunks[i].maxShards < 0x8000_0000)
    {
      CountUsable(chunks[i].maxShards);
    }
    if post.maxShards == 0 {
      ZeroCount();
    } else {
      var i := 0;
      while chunks[i].maxShards == 0
        invariant 0 <= i < |chunks| && forall j :: 0 <= j < i ==> chunks[j].maxShards == 0
        decreases |chunks| - i
      {
        i := i + 1;
      }
      assert Streams.IsFirstCount(chunks, i);
    }
  }

  lemma ZeroCount()
    ensures Uint32(0) == 0
  {}

  /** Every hash falls on a valid index. */
  ghost predicate AlwaysInRange(maxShards: int)
    requires Uint32(maxShards) != 0
  {
    forall w :: 0 <= ShardOf(w, maxShards) < maxShards
  }

  /** One call: the key's hash, the modes in force, and the coin of the load balancer. */
  datatype Request = Request(weakHash: int, overrideMode: int, configured: int, masterFirst: bool) {
    function Mode(): int { EffectiveMode(overrideMode, configured) }
  }

  /** The table under each of the three shared locks execute takes, one after the other. */
  datatype Reads = Reads(shards: Table, master: Table, backup: Table)

  /** What execute requires of the shard count it reads. */
  predicate HasShards(at: Reads) { Uint32(at.shards.maxShards) != 0 }

  function ShardFor(at: Reads, q: Request): int
    requires HasShards(at)
  {
    ShardOf(q.weakHash, at.shards.maxShards)
  }

  function StartOf(at: Reads, q: Request): Start
    requires HasShards(at)
  {
    var shard := ShardFor(at, q);
    Choose(RouteOf(at.master, MASTER, shard), RouteOf(at.backup, BACKUP, shard), q.Mode(), q.masterFirst)
  }

  /** execute, once the client is ready: an endpoint for the shard, then the guard. */
  function Execute<V>(at: Reads, q: Request, envs: seq<Env<V>>): Option<Trace<V>>
    requires HasShards(at)
  {
    match StartOf(at, q)
    case NoEndpoint => None
    case First(client, fallback) => Some(Guard(client, fallback, envs))
  }

  predicate HasMaster(at: Reads, shard: int) { (MASTER, shard) in at.master.routes }

  predicate HasBackup(at: Reads, shard: int) { (BACKUP, shard) in at.backup.routes }

  /** The mode in force: the override, unless it is negative. */
  predicate InForce(q: Request, mode: int) {
    q.overrideMode == mode || (q.overrideMode < 0 && q.configured == mode)
  }

  predicate PrefersBackup(at: Reads, q: Request, shard: int) {
    || !HasMaster(at, shard)
    || (HasBackup(at, shard) && (InForce(q, MODE_BACKUP) || (InForce(q, MODE_LB_SMART) && !q.masterFirst)))
  }

  /** The client the call starts with, and the one it holds in reserve when both roles are routed. */
  function Preferred(at: Reads, q: Request, shard: int): Client
    requires HasMaster(at, shard) || HasBackup(at, shard)
  {
    if PrefersBackup(at, q, shard) then at.backup.routes[(BACKUP, shard)] else at.master.routes[(MASTER, shard)]
  }

  function Reserve(at: Reads, q: Request, shard: int): Client
    requires HasMaster(at, shard) && HasBackup(at, shard)
  {
    if PrefersBackup(at, q, shard) then at.master.routes[(MASTER, shard)] else at.backup.routes[(BACKUP, shard)]
  }

  /** Live in the table it was read from. */
  predicate LiveIn(t: Table, c: Client) { c.target in t.targets && t.targets[c.target] == c }

  /** How a call starts, over the residue of its hash. */
  lemma StartsAt(at: Reads, q: Request, shard: int)
    requires HasShards(at) && IsShard(shard, q.weakHash, at.shards.maxShards)
    ensures StartOf(at, q).NoEndpoint? <==> !HasMaster(at, shard) && !HasBackup(at, shard)
    ensures StartOf(at, q).First? ==> StartOf(at, q).client == Preferred(at, q, shard)
    ensures StartOf(at, q).First? ==> StartOf(at, q).fallback == StartsWithReserve(at, q, shard)
  {
    hide IsShard, ShardOf;
    ShardExact(shard, q.weakHash, at.shards.maxShards);
  }

  /** Whatever other threads do between the lookups: a call fails without an attempt exactly when the master
      was absent at the first route lookup and the backup at the second. Otherwise, for every mode, the first
      attempt goes to a client that was live when its route was read, the backup exactly when the mode or the
      coin asks for it or there was no master. */
  lemma FirstAttempt<V>(at: Reads, before: nat, after: nat, q: Request, shard: int, envs: seq<Env<V>>)
    requires HasShards(at) && Sound(at.master, before) && Sound(at.backup, after)
    requires IsShard(shard, q.weakHash, at.shards.maxShards)
    ensures var r := Execute(at, q, envs);
            && (r.None? <==> (MASTER, shard) !in at.master.routes && (BACKUP, shard) !in at.backup.routes)
            && (r.Some? ==>
                  && r.value.attempts[0] == Preferred(at, q, shard)
                  && LiveIn(if PrefersBackup(at, q, shard) then at.backup else at.master, r.value.attempts[0]))
  {
    hide Guard, StartOf, IsShard;
    StartsAt(at, q, shard);
    var s := StartOf(at, q);
    if s.First? {
      FirstOfGuard(s.client, s.fallback, envs);
      if PrefersBackup(at, q, shard) {
        RoutedIsLive(at.backup, after, (BACKUP, shard));
      } else {
        RoutedIsLive(at.master, before, (MASTER, shard));
      }
    }
  }

  lemma RoutedIsLive(t: Table, next: nat, key: RouteKey)
    requires Sound(t, next) && key in t.routes
    ensures LiveIn(t, t.routes[key])
  {
    assert t.routes[key] in t.routes.Values;
  }

  function OneRoute(c: Client, role: Role): Table {
    Table(1, map[c.target := c], map[(role, 0) := c])
  }

  /** Two tables, one an update of the other, each with an endpoint for the only shard: read before and after
      the update, whose effect is that the node changes its role, the call finds none. */
  lemma RoleSwapWitness<V>(c: Client, q: Request, envs: seq<Env<V>>)
    requires c.id == 0
    ensures var t, u := OneRoute(c, BACKUP), OneRoute(c, MASTER);
            && Sound(t, 1) && Sound(u, 1) && Updates(t, u, 1, 1, 1, [Peer(c.target, MASTER, [0])], [])
            && Execute(Reads(t, t, t), q, envs).Some? && Execute(Reads(u, u, u), q, envs).Some?
            && Execute(Reads(t, t, u), q, envs).None?
  {
    var t, u := OneRoute(c, BACKUP), OneRoute(c, MASTER);
    var peer := Peer(c.target, MASTER, [0]);
    OnlyShard(q.weakHash);
    SoleValue(t.targets, c.target, c);
    SoleValue(t.routes, (BACKUP, 0), c);
    SoleValue(u.routes, (MASTER, 0), c);
    OnePeer(c, peer);
  }

  lemma SoleValue<K>(m: map<K, Client>, k: K, c: Client)
    requires m == map[k := c]
    ensures m.Values == {c}
  {
    assert m[k] == c;
  }

  lemma OnePeer(c: Client, peer: Peer)
    requires peer == Peer(c.target, MASTER, [0])
    ensures TargetsOf([peer]) == {c.target}
    ensures RoutesOf(AssignmentsOf([peer]), map[c.target := c]) == map[(MASTER, 0) := c]
  {
    assert peer in [peer];
    var one := Assignment((MASTER, 0), c.target);
    assert [peer][..0] == [] && AssignmentsOf([peer]) == AssignmentsOf([peer][..0]) + AssignmentsOfPeer(peer);
    assert AssignmentsOfPeer(peer) == [one] && [one][..0] == [];
    assert RoutesOf([one], map[c.target := c]) == RoutesOf([one][..0], map[c.target := c])[(MASTER, 0) := c];
  }

  lemma OnlyShard(weakHash: int)
    ensures ShardOf(weakHash, 1) == 0
  {}

  /** A call whose first node is unavailable goes on exactly when both roles were routed, to different
      clients, and the mode is neither master only nor backup only; and then to the client in reserve. */
  lemma UnavailableFailsOver<V>(at: Reads, q: Request, shard: int, envs: seq<Env<V>>)
    requires HasShards(at) && IsShard(shard, q.weakHash, at.shards.maxShards)
    requires envs != [] && envs[0].reply.GrpcError? && envs[0].reply.code == UNAVAILABLE
    ensures var r := Execute(at, q, envs);
            r.Some? ==>
              && (|r.value.attempts| > 1 <==>
                    && HasMaster(at, shard) && HasBackup(at, shard)
                    && Preferred(at, q, shard) != Reserve(at, q, shard)
                    && !InForce(q, MODE_MASTER) && !InForce(q, MODE_BACKUP))
              && (|r.value.attempts| > 1 ==> r.value.attempts[1] == Reserve(at, q, shard))
  {
    hide StartOf, IsShard, Decide;
    StartsAt(at, q, shard);
    var s := StartOf(at, q);
    if s.First? {
      DecideByReply(s.client, s.fallback, envs[0]);
      var d := Decide(s.client, s.fallback, envs[0]);
      if d.Retry? {
        AttemptBound(d.client, d.fallback, envs[1..]);
        FirstOfGuard(d.client, d.fallback, envs[1..]);
      }
    }
  }

  /** A call whose first reply is a success, or a failure other than a redirect and an unavailable node, makes
      one attempt and surfaces that reply. */
  lemma OtherRepliesEnd<V>(at: Reads, q: Request, shard: int, envs: seq<Env<V>>)
    requires HasShards(at) && IsShard(shard, q.weakHash, at.shards.maxShards)
    requires HasMaster(at, shard) || HasBackup(at, shard)
    requires envs != [] && !IsRetriable(envs[0].reply)
    ensures Execute(at, q, envs) == Some(Trace([Preferred(at, q, shard)], 0, Some(envs[0].reply)))
  {
    hide StartOf, IsShard, Decide, IsRetriable;
    StartsAt(at, q, shard);
    DecideByReply(StartOf(at, q).client, StartOf(at, q).fallback, envs[0]);
  }

  lemma FirstOfGuard<V>(current: Client, fallback: Option<Client>, envs: seq<Env<V>>)
    ensures Guard(current, fallback, envs).attempts != [] && Guard(current, fallback, envs).attempts[0] == current
  {
    hide Decide;
  }

  /** A call redirected once to a node that answers: two attempts, and that answer. */
  lemma RedirectedOnce<V>(at: Reads, q: Request, shard: int, envs: seq<Env<V>>, master: string, backup: string)
    requires HasShards(at) && (HasMaster(at, shard) || HasBackup(at, shard))
    requires |envs| >= 2 && envs[0].reply.GrpcError? && envs[0].reply.code == FAILED_PRECONDITION
    requires envs[1].reply.Success?
    ensures && IsShard(shard, q.weakHash, at.shards.maxShards) && IsRoute(RouteText(envs[0].reply), master, backup)
            && master != "" && master != Preferred(at, q, shard).target ==>
              Execute(at, q, envs) ==
                Some(Trace([Preferred(at, q, shard), envs[0].master(master)], 1, Some(envs[1].reply)))
  {
    hide IsRoute, StartOf, IsShard, Decide;
    if && IsShard(shard, q.weakHash, at.shards.maxShards) && IsRoute(RouteText(envs[0].reply), master, backup)
       && master != "" && master != Preferred(at, q, shard).target
    {
      StartsAt(at, q, shard);
      var s := StartOf(at, q);
      RedirectFollowed(s.client, s.fallback, envs[0], master, backup);
      var d := Decide(s.client, s.fallback, envs[0]);
      DecideByReply(d.client, d.fallback, envs[1..][0]);
      assert Guard(d.client, d.fallback, envs[1..]) == Trace([d.client], 0, Some(envs[1].reply));
      assert [s.client] + [d.client] == [s.client, d.client];
    }
  }

  /** A call redirected to a master that is unavailable goes on to the node held in reserve: the announced
      backup or, without one, what the call held before. */
  lemma RedirectThenFailover<V>(at: Reads, q: Request, shard: int, envs: seq<Env<V>>, master: string, backup: string)
    requires HasShards(at) && (HasMaster(at, shard) || HasBackup(at, shard))
    requires |envs| >= 3 && envs[0].reply.GrpcError? && envs[0].reply.code == FAILED_PRECONDITION
    requires envs[1].reply.GrpcError? && envs[1].reply.code == UNAVAILABLE && envs[2].reply.Success?
    ensures var first := Preferred(at, q, shard);
            var held := StartsWithReserve(at, q, shard);
            var reserve := if backup != "" && backup != first.target then Some(envs[0].backup(backup)) else held;
            && IsShard(shard, q.weakHash, at.shards.maxShards) && IsRoute(RouteText(envs[0].reply), master, backup)
            && master != "" && master != first.target && reserve.Some? && reserve.value != envs[0].master(master) ==>
              Execute(at, q, envs) ==
                Some(Trace([first, envs[0].master(master), reserve.value], 1, Some(envs[2].reply)))
  {
    hide IsRoute, StartOf, IsShard, Decide;
    if IsShard(shard, q.weakHash, at.shards.maxShards) && IsRoute(RouteText(envs[0].reply), master, backup) {
      StartsAt(at, q, shard);
      var s := StartOf(at, q);
      RedirectFollowed(s.client, s.fallback, envs[0], master, backup);
      var d := Decide(s.client, s.fallback, envs[0]);
      if d.Retry? {
        var later := envs[1..];
        DecideByReply(d.client, d.fallback, later[0]);
        var e := Decide(d.client, d.fallback, later[0]);
        if e.Retry? {
          DecideByReply(e.client, e.fallback, later[1..][0]);
          assert later[1..][0] == envs[2];
          assert Guard(e.client, e.fallback, later[1..]) == Trace([e.client], 0, Some(envs[2].reply));
          assert Guard(d.client, d.fallback, later) == Trace([d.client] + [e.client], 0, Some(envs[2].reply));
          assert [s.client] + ([d.client] + [e.client]) == [s.client, d.client, e.client];
        }
      }
    }
  }

  /** What a call holds in reserve from the start. */
  function StartsWithReserve(at: Reads, q: Request, shard: int): Option<Client> {
    if HasMaster(at, shard) && HasBackup(at, shard) && !InForce(q, MODE_MASTER) && !InForce(q, MODE_BACKUP)
    then Some(Reserve(at, q, shard)) else None
  }

  /** Every call: at most 2R + 2 attempts for R followed redirects, consecutive attempts on different
      clients, failures before the last attempt only, and the last attempt's reply surfaced. */
  lemma ExecuteSafe<V>(at: Reads, q: Request, envs: seq<Env<V>>)
    requires HasShards(at) && Resolves(envs)
    ensures var r := Execute(at, q, envs);
            r.Some? ==>
              var w := r.value;
              && 1 <= |w.attempts| <= 2 * w.redirects + 2
              && FailsUntilLast(w.attempts, envs) && Alternates(w.attempts)
              && (w.outcome.Some? ==> |w.attempts| <= |envs| && w.outcome.value == envs[|w.attempts| - 1].reply)
              && (|envs| >= 2 * RedirectReplies(envs) + 2 ==> w.outcome.Some?)
  {
    hide Guard, RedirectReplies, ShardOf;
    var s := StartOf(at, q);
    if s.First? {
      GuardTrace(s.client, s.fallback, envs);
      AttemptBound(s.client, s.fallback, envs);
      if |envs| >= 2 * RedirectReplies(envs) + 2 {
        GuardTerminates(s.client, s.fallback, envs);
      }
    }
  }
}
