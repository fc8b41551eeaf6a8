/**
 * When the limits hold without one of the premises of UpgradeRuns, read off the configuration alone:
 * maxParallelUpgrades without the premise on timeouts, maxUnavailableNodes without each of its three.
 */
module LimitConditions {
  import opened Common
  import opened UpgradeTypes
  import opened Classification
  import opened UpgradeRuns
  import opened UpgradeSteps
  import NodeWorker

  const PENDING := NodeWorker.Store(InProgress)

  /** The first k nodes each have a worker that is about to store InProgress. */
  ghost predicate AllPending(c: Config, ws: seq<Worker>, from: nat, upto: nat) {
    upto <= |c.nodes| && upto <= |ws| && forall j :: from <= j < upto ==> ws[j] == Worker(c.nodes[j], PENDING)
  }

  /** The candidate is started, and its worker finds the label current: it is about to store InProgress. */
  lemma StartPending(r: Rule, c: Config, s: System, t: System, k: nat, x: UpgradeState) returns (u: System)
    requires Distinct(c.nodes) && k < |c.nodes| && Reaches(r, c, s, t)
    requires t.pass.Scanning? && t.pass.i == |c.nodes| && t.pass.candidates == [c.nodes[k]]
    requires Quota(t.pass.upgrading, t.pass.failed, |c.nodes|, 1, c.limits) == 1
    requires |t.workers| == k && AllPending(c, t.workers, 0, k)
    requires InState(t.status, c.nodes, 0, k, x) && InState(t.status, c.nodes, k + 1, |c.nodes|, NotStarted)
    ensures Reaches(r, c, s, u) && u.pass.Idle? && |u.workers| == k + 1 && AllPending(c, u.workers, 0, k + 1)
    ensures InState(u.status, c.nodes, 0, k, x) && StateOf(u.status, c.nodes[k]) == Started
    ensures InState(u.status, c.nodes, k + 1, |c.nodes|, NotStarted)
  {
    var done, n := t.workers, c.nodes[k];
    u := StartOnly(r, c, s, t, n);
    u := WorkOn(r, c, s, u, done, n, NodeWorker.ReadNode, NodeWorker.Yes);
  }

  /** All waiting workers store InProgress. */
  lemma {:induction false} StoreAll(r: Rule, c: Config, s: System, t: System, k: nat) returns (u: System)
    requires Distinct(c.nodes) && Reaches(r, c, s, t) && t.pass.Idle? && AllPending(c, t.workers, 0, k)
    ensures Reaches(r, c, s, u) && u.pass.Idle? && |u.workers| == |t.workers|
    ensures forall j :: k <= j < |t.workers| ==> u.workers[j] == t.workers[j]
    ensures InState(u.status, c.nodes, 0, k, InProgress) && SameOutside(t.status, u.status, c.nodes, 0, k)
  {
    u := t;
    if k > 0 {
      u := StoreAll(r, c, s, t, k - 1);
      u := WorkAt(r, c, s, u, k - 1, NodeWorker.Yes);
    }
  }

  /** More nodes count than the bound allows, in a run from a start where none does. */
  ghost predicate Exceeds(r: Rule, l: Limit, c: Config, bound: int, t: System) {
    Reaches(r, c, Untouched(c), t) && Used(l, t.status, c.nodes) > Max(bound, 0)
  }

  // ----- maxParallelUpgrades -----

  const OBEYING := Obeying(UnavailableLimit)

  const UPGRADING := Part(NEAR, Started, Started, Upgrading)
  const LATE := Part(AWAY.(timeUp := true), Started, TimedOut, FailedNode)

  /** As many nodes as may be upgraded in parallel are started one after the other. */
  lemma {:induction false} FillUp(c: Config, k: nat) returns (t: System)
    requires Distinct(c.nodes) && k <= c.limits.maxParallel < Min(Bound(UnavailableLimit, c), |c.nodes|)
    ensures Reaches(OBEYING, c, Untouched(c), t) && t.pass.Idle? && |t.workers| == k && AllPending(c, t.workers, 0, k)
    ensures InState(t.status, c.nodes, 0, k, Started) && InState(t.status, c.nodes, k, |c.nodes|, NotStarted)
  {
    var s := Untouched(c);
    if k == 0 {
      Stays(OBEYING, c, s);
      t := s;
    } else {
      t := FillUp(c, k - 1);
      t := ScanOver(OBEYING, c, s, t, k - 1, UPGRADING, CANDIDATE);
      RoomForOne(c, k - 1, 0);
      t := StartPending(OBEYING, c, s, t, k - 1, Started);
    }
  }

  /** They all time out while their workers wait, one more is started, and then the workers go on. */
  lemma Overrun(c: Config) returns (t: System)
    requires Distinct(c.nodes) && 0 < c.limits.maxParallel < Min(Bound(UnavailableLimit, c), |c.nodes|)
    ensures Exceeds(OBEYING, ParallelLimit, c, c.limits.maxParallel, t)
  {
    var s, k := Untouched(c), c.limits.maxParallel;
    t := FillUp(c, k);
    t := TimeAllOut(c, t, k);
    t := StoreAll(OBEYING, c, s, t, k);
    UsedAtLeast(ParallelLimit, t.status, c.nodes, k + 1);
  }

  lemma TimeAllOut(c: Config, t: System, k: nat) returns (u: System)
    requires Distinct(c.nodes) && 0 < k == c.limits.maxParallel < Min(Bound(UnavailableLimit, c), |c.nodes|)
    requires Reaches(OBEYING, c, Untouched(c), t) && t.pass.Idle? && |t.workers| == k && AllPending(c, t.workers, 0, k)
    requires InState(t.status, c.nodes, 0, k, Started) && InState(t.status, c.nodes, k, |c.nodes|, NotStarted)
    ensures Reaches(OBEYING, c, Untouched(c), u) && u.pass.Idle? && AllPending(c, u.workers, 0, k)
    ensures StateOf(u.status, c.nodes[k]) == Started
  {
    u := ScanOver(OBEYING, c, Untouched(c), t, k, LATE, CANDIDATE);
    RoomForOne(c, 0, k);
    u := StartPending(OBEYING, c, Untouched(c), u, k, TimedOut);
  }

  lemma {:induction false} FewerInFlight(m: StatusMap, nodes: seq<string>)
    ensures Used(ParallelLimit, m, nodes) <= Used(UnavailableLimit, m, nodes)
  {
    if nodes != [] {
      FewerInFlight(m, nodes[..|nodes| - 1]);
    }
  }

  /** Nothing counts at the start. */
  ghost predicate CleanStart(c: Config, s: System) {
    Quiet(s) && Used(UnavailableLimit, s.status, c.nodes) == 0
  }

  lemma UntouchedIsClean(c: Config)
    ensures CleanStart(c, Untouched(c))
  {
    NothingUsed(UnavailableLimit, Untouched(c).status, c.nodes);
  }

  ghost predicate KeepsParallel(c: Config, s: System, actions: seq<Action>)
    requires Run(c, s, actions)
  {
    Used(ParallelLimit, Final(c, s, actions).status, c.nodes) <= c.limits.maxParallel
  }

  /**
   * Within the premises of the other limit, all runs from a clean start keep maxParallelUpgrades if
   * and only if it is no smaller than the scaled maxUnavailableNodes or the number of nodes: then
   * timeouts of nodes whose workers are still running do no harm.
   */
  lemma ParallelLimitExactly(c: Config)
    requires Distinct(c.nodes) && c.limits.maxParallel > 0
    ensures (forall s, actions ::
               CleanStart(c, s) && Run(c, s, actions) && Follows(OBEYING, c, s, actions) ==>
                   KeepsParallel(c, s, actions))
            <==> c.limits.maxParallel >= Min(Bound(UnavailableLimit, c), |c.nodes|)
  {
    if c.limits.maxParallel >= Min(Bound(UnavailableLimit, c), |c.nodes|) {
      forall s, actions | CleanStart(c, s) && Run(c, s, actions) && Follows(OBEYING, c, s, actions)
        ensures KeepsParallel(c, s, actions)
      {
        ParallelKept(c, s, actions);
      }
    } else {
      var t := Overrun(c);
      UntouchedIsClean(c);
      var run :| Run(c, Untouched(c), run) && Final(c, Untouched(c), run) == t
          && Follows(OBEYING, c, Untouched(c), run);
      assert !KeepsParallel(c, Untouched(c), run);
    }
  }

  lemma ParallelKept(c: Config, s: System, actions: seq<Action>)
    requires Distinct(c.nodes) && c.limits.maxParallel > 0
    requires c.limits.maxParallel >= Min(Bound(UnavailableLimit, c), |c.nodes|)
    requires CleanStart(c, s) && Run(c, s, actions) && Follows(OBEYING, c, s, actions)
    ensures KeepsParallel(c, s, actions)
  {
    var m := Final(c, s, actions).status;
    FollowsIsObeys(UnavailableLimit, c, s, actions);
    LimitKeptOverRuns(UnavailableLimit, c, s, actions);
    FewerInFlight(m, c.nodes);
    UsedAtMost(ParallelLimit, m, c.nodes);
  }

  // ----- maxUnavailableNodes without the premise on retries -----

  const RETRYING := Without(Retries)

  /** A pass that starts nothing and changes only the k-th node. */
  lemma ChangeOne(c: Config, s: System, t: System, k: nat, p: Part) returns (u: System)
    requires Distinct(c.nodes) && k < |c.nodes| && Reaches(RETRYING, c, s, t) && t.pass.Idle?
    requires InState(t.status, c.nodes, 0, k, NotStarted) && InState(t.status, c.nodes, k + 1, |c.nodes|, NotStarted)
    requires StateOf(t.status, c.nodes[k]) == p.before && Fares(p) && !p.bucket.Candidate?
    requires Harmless(RETRYING, p.facts)
    ensures Reaches(RETRYING, c, s, u) && u.pass.Idle? && u.workers == t.workers
    ensures InState(u.status, c.nodes, 0, k, NotStarted) && InState(u.status, c.nodes, k + 1, |c.nodes|, NotStarted)
    ensures StateOf(u.status, c.nodes[k]) == p.after
  {
    u := ScanOver(RETRYING, c, s, t, k, LEFT_ALONE, p);
    u := EndEmpty(RETRYING, c, s, u);
  }

  const RETRIED := Part(AWAY.(retry := true), TimedOut, NotStarted, NotReady)

  /** One after the other, nodes are started, time out and are retried while their workers wait. */
  lemma {:induction false} RetryEach(c: Config, k: nat) returns (t: System)
    requires Distinct(c.nodes) && CanStart(c) && k <= |c.nodes|
    ensures Reaches(RETRYING, c, Untouched(c), t) && t.pass.Idle? && |t.workers| == k && AllPending(c, t.workers, 0, k)
    ensures InState(t.status, c.nodes, 0, |c.nodes|, NotStarted)
  {
    var s := Untouched(c);
    if k == 0 {
      Stays(RETRYING, c, s);
      t := s;
    } else {
      t := RetryEach(c, k - 1);
      t := RetryNext(c, t, k - 1);
    }
  }

  lemma RetryNext(c: Config, t: System, k: nat) returns (u: System)
    requires Distinct(c.nodes) && CanStart(c) && k < |c.nodes|
    requires Reaches(RETRYING, c, Untouched(c), t) && t.pass.Idle? && |t.workers| == k && AllPending(c, t.workers, 0, k)
    requires InState(t.status, c.nodes, 0, |c.nodes|, NotStarted)
    ensures Reaches(RETRYING, c, Untouched(c), u) && u.pass.Idle? && |u.workers| == k + 1
    ensures AllPending(c, u.workers, 0, k + 1)
    ensures InState(u.status, c.nodes, 0, |c.nodes|, NotStarted)
  {
    var s := Untouched(c);
    u := StartNext(c, t, k);
    u := ChangeOne(c, s, u, k, LATE);
    u := ChangeOne(c, s, u, k, RETRIED);
  }

  lemma StartNext(c: Config, t: System, k: nat) returns (u: System)
    requires Distinct(c.nodes) && CanStart(c) && k < |c.nodes|
    requires Reaches(RETRYING, c, Untouched(c), t) && t.pass.Idle? && |t.workers| == k && AllPending(c, t.workers, 0, k)
    requires InState(t.status, c.nodes, 0, |c.nodes|, NotStarted)
    ensures Reaches(RETRYING, c, Untouched(c), u) && u.pass.Idle? && |u.workers| == k + 1
    ensures AllPending(c, u.workers, 0, k + 1)
    ensures InState(u.status, c.nodes, 0, k, NotStarted) && StateOf(u.status, c.nodes[k]) == Started
    ensures InState(u.status, c.nodes, k + 1, |c.nodes|, NotStarted)
  {
    var s := Untouched(c);
    u := ScanOver(RETRYING, c, s, t, k, LEFT_ALONE, CANDIDATE);
    RoomForOne(c, 0, 0);
    u := StartPending(RETRYING, c, s, u, k, NotStarted);
  }

  lemma BrokenByRetries(c: Config) returns (t: System)
    requires Distinct(c.nodes) && CanStart(c) && Bound(UnavailableLimit, c) < |c.nodes|
    ensures Exceeds(RETRYING, UnavailableLimit, c, Bound(UnavailableLimit, c), t)
  {
    var k := Bound(UnavailableLimit, c) + 1;
    t := RetryEach(c, k);
    t := StoreAll(RETRYING, c, Untouched(c), t, k);
    UsedAtLeast(UnavailableLimit, t.status, c.nodes, k);
  }

  // ----- ... on uncordon calls -----

  const STUCK := Part(AWAY.(upToDate := true, uncordonReadyOk := false), NotStarted, UncordonFailed, NotReady)

  /** In one pass all nodes turn out to have the wanted driver and cannot be uncordoned. */
  lemma BrokenByUncordons(c: Config) returns (t: System)
    requires Distinct(c.nodes) && Max(Bound(UnavailableLimit, c), 0) < |c.nodes|
    ensures Exceeds(Without(Uncordons), UnavailableLimit, c, Bound(UnavailableLimit, c), t)
  {
    var s := Untouched(c);
    Stays(Without(Uncordons), c, s);
    t := ScanFront(Without(Uncordons), c, s, s, |c.nodes|, STUCK);
    UsedAtLeast(UnavailableLimit, t.status, c.nodes, |c.nodes|);
  }

  // ----- ... on workers that give up -----

  const FAILING := Without(Failures)
  const KNOWN_FAILED := Part(AWAY, CordonFailed, CordonFailed, FailedNode)

  /** The first k nodes failed, the others were not touched. */
  ghost predicate FailedFront(c: Config, t: System, k: nat) {
    && Reaches(FAILING, c, Untouched(c), t) && t.pass.Idle?
    && InState(t.status, c.nodes, 0, k, CordonFailed) && InState(t.status, c.nodes, k, |c.nodes|, NotStarted)
  }

  /** The k-th node is started, and its worker is about to store that it could not be cordoned. */
  lemma StartFailing(c: Config, t: System, k: nat) returns (u: System, done: seq<Worker>)
    requires Distinct(c.nodes) && CanStart(c) && k < Bound(UnavailableLimit, c) && k < |c.nodes|
    requires FailedFront(c, t, k)
    ensures Reaches(FAILING, c, Untouched(c), u) && u.pass.Idle?
    ensures u.workers == done + [Worker(c.nodes[k], NodeWorker.Store(CordonFailed))]
    ensures InState(u.status, c.nodes, 0, k, CordonFailed) && StateOf(u.status, c.nodes[k]) == Started
    ensures InState(u.status, c.nodes, k + 1, |c.nodes|, NotStarted)
  {
    var s, n := Untouched(c), c.nodes[k];
    u := ScanOver(FAILING, c, s, t, k, KNOWN_FAILED, CANDIDATE);
    RoomForOne(c, 0, k);
    done := u.workers;
    u := StartOnly(FAILING, c, s, u, n);
    u := CordonFails(c, s, u, done, n);
  }

  lemma CordonFails(c: Config, s: System, t: System, done: seq<Worker>, n: string) returns (u: System)
    requires Reaches(FAILING, c, s, t) && t.workers == done + [Worker(n, NodeWorker.ReadNode)]
    ensures Reaches(FAILING, c, s, u)
    ensures u == System(t.status, done + [Worker(n, NodeWorker.Store(CordonFailed))], t.pass)
  {
    u := WorkOn(FAILING, c, s, t, done, n, NodeWorker.ReadNode, NodeWorker.No);
    u := WorkOn(FAILING, c, s, u, done, n, NodeWorker.Cordon, NodeWorker.Error);
    u := WorkOn(FAILING, c, s, u, done, n, NodeWorker.AfterCordon(false), NodeWorker.Yes);
  }

  lemma {:induction false} FailEach(c: Config, k: nat) returns (t: System)
    requires Distinct(c.nodes) && CanStart(c) && k <= Bound(UnavailableLimit, c) && k <= |c.nodes|
    ensures FailedFront(c, t, k)
  {
    var s := Untouched(c);
    if k == 0 {
      Stays(FAILING, c, s);
      t := s;
    } else {
      var done;
      t := FailEach(c, k - 1);
      t, done := StartFailing(c, t, k - 1);
      t := WorkOn(FAILING, c, s, t, done, c.nodes[k - 1], NodeWorker.Store(CordonFailed), NodeWorker.Yes);
    }
  }

  /** One look that only moves on to the next check. */
  lemma LookPast(c: Config, s: System, t: System, next: Check) returns (u: System)
    requires Reaches(FAILING, c, s, t) && Looking(c, t) && Seen(c, t) == Started
    requires !next.Placed? && Advance(t.pass.check, AWAY, Started) == (next, Started)
    ensures Reaches(FAILING, c, s, u) && u.workers == t.workers && u.pass == t.pass.(check := next)
    ensures forall n :: StateOf(u.status, n) == StateOf(t.status, n)
  {
    u := LookOnce(FAILING, c, s, t, AWAY, next, Started);
  }

  lemma PastFailedLoad(c: Config, s: System, t: System) returns (u: System)
    requires Reaches(FAILING, c, s, t) && Looking(c, t) && t.pass.check == InitLoad && Seen(c, t) == Started
    ensures Reaches(FAILING, c, s, u) && u.workers == t.workers && u.pass == t.pass.(check := MissingLoad)
    ensures forall n :: StateOf(u.status, n) == StateOf(t.status, n)
  {
    u := LookPast(c, s, t, RetryLoad);
    u := LookPast(c, s, u, TimeoutLoad);
    u := LookPast(c, s, u, FailedLoad);
    u := LookPast(c, s, u, MissingLoad);
  }

  lemma OverlookedVerdict(check: Check, f: Facts)
    requires check == MissingLoad && f == AWAY
    ensures Chain(check, f, CordonFailed) == (CordonFailed, NotReady)
  {
    var started := StartedLoad;
    ChainUnrolled(check, f, CordonFailed, started, CordonFailed);
    ChainFromStarted(started, f, CordonFailed);
  }

  /** The node under scan fails behind its look for failed states, and counts as nothing. */
  lemma OverlookOne(c: Config, s: System, t: System, done: seq<Worker>) returns (u: System)
    requires Distinct(c.nodes) && Reaches(FAILING, c, s, t) && Looking(c, t) && t.pass.check == InitLoad
    requires Seen(c, t) == Started
    requires t.workers == done + [Worker(c.nodes[t.pass.i], NodeWorker.Store(CordonFailed))]
    ensures Reaches(FAILING, c, s, u) && u.pass == t.pass.(i := t.pass.i + 1)
    ensures StateOf(u.status, c.nodes[t.pass.i]) == CordonFailed
    ensures SameOutside(t.status, u.status, c.nodes, t.pass.i, t.pass.i + 1)
  {
    var i := t.pass.i;
    var p := PastFailedLoad(c, s, t);
    var v := WorkOn(FAILING, c, s, p, done, c.nodes[i], NodeWorker.Store(CordonFailed), NodeWorker.Yes);
    OnlyHere(c.nodes, i, p.status, CordonFailed);
    u := LookOverlooked(c, s, v);
  }

  /** The rest of the chain for a node that has just failed. */
  lemma LookOverlooked(c: Config, s: System, t: System) returns (u: System)
    requires Distinct(c.nodes) && Reaches(FAILING, c, s, t) && Looking(c, t)
    requires t.pass.check == MissingLoad && Seen(c, t) == CordonFailed
    ensures Reaches(FAILING, c, s, u) && u.workers == t.workers
    ensures u.pass == t.pass.(i := t.pass.i + 1, check := InitLoad)
    ensures forall j {:trigger c.nodes[j]} :: 0 <= j < |c.nodes| ==>
            StateOf(u.status, c.nodes[j]) == StateOf(t.status, c.nodes[j])
  {
    OverlookedVerdict(t.pass.check, AWAY);
    u := LookOn(FAILING, c, s, t, AWAY, CordonFailed, NotReady);
  }

  /** All but one of the allowed nodes failed; the last one fails unseen in the pass that starts another. */
  lemma BrokenByFailures(c: Config) returns (t: System)
    requires Distinct(c.nodes) && CanStart(c) && Bound(UnavailableLimit, c) < |c.nodes|
    ensures Exceeds(FAILING, UnavailableLimit, c, Bound(UnavailableLimit, c), t)
  {
    var k := Bound(UnavailableLimit, c) - 1;
    t := FailEach(c, k);
    t := FailUnseen(c, t, k);
    t := FinishOverlooking(c, t, k);
    UsedAtLeast(UnavailableLimit, t.status, c.nodes, k + 2);
  }

  lemma FailUnseen(c: Config, t: System, k: nat) returns (u: System)
    requires Distinct(c.nodes) && CanStart(c) && k + 1 == Bound(UnavailableLimit, c) < |c.nodes|
    requires FailedFront(c, t, k)
    ensures Reaches(FAILING, c, Untouched(c), u) && u.pass == Scanning(k + 1, InitLoad, [], 0, k)
    ensures InState(u.status, c.nodes, 0, k + 1, CordonFailed)
    ensures InState(u.status, c.nodes, k + 1, |c.nodes|, NotStarted)
  {
    var s, done := Untouched(c), [];
    u, done := StartFailing(c, t, k);
    u := ScanFront(FAILING, c, s, u, k, KNOWN_FAILED);
    u := OverlookOne(c, s, u, done);
  }

  lemma FinishOverlooking(c: Config, t: System, k: nat) returns (u: System)
    requires Distinct(c.nodes) && CanStart(c) && k + 1 == Bound(UnavailableLimit, c) < |c.nodes|
    requires Reaches(FAILING, c, Untouched(c), t) && t.pass == Scanning(k + 1, InitLoad, [], 0, k)
    requires InState(t.status, c.nodes, 0, k + 1, CordonFailed)
    requires InState(t.status, c.nodes, k + 1, |c.nodes|, NotStarted)
    ensures Reaches(FAILING, c, Untouched(c), u)
    ensures InState(u.status, c.nodes, 0, k + 1, CordonFailed) && StateOf(u.status, c.nodes[k + 1]) == Started
  {
    var s, n := Untouched(c), c.nodes[k + 1];
    u := ScanToEnd(c, t, CANDIDATE);
    RoomForOne(c, 0, k);
    u := StartOnly(FAILING, c, s, u, n);
  }

  lemma ScanToEnd(c: Config, t: System, p: Part) returns (u: System)
    requires Distinct(c.nodes) && Reaches(FAILING, c, Untouched(c), t)
    requires t.pass.Scanning? && t.pass.check == InitLoad && t.pass.i < |c.nodes| && t.pass.candidates == []
    requires Fares(p) && p.before == NotStarted && p.bucket == Candidate && Harmless(FAILING, p.facts)
    requires InState(t.status, c.nodes, 0, t.pass.i, CordonFailed)
    requires InState(t.status, c.nodes, t.pass.i, |c.nodes|, NotStarted)
    ensures Reaches(FAILING, c, Untouched(c), u)
    ensures u.pass == Scanning(|c.nodes|, InitLoad, [c.nodes[t.pass.i]], t.pass.upgrading, t.pass.failed)
    ensures InState(u.status, c.nodes, 0, t.pass.i, CordonFailed)
  {
    var i := t.pass.i;
    assert StateOf(t.status, c.nodes[i]) == NotStarted;
    var v := ScanApart(FAILING, c, Untouched(c), t, p, CordonFailed);
    u := ScanRest(FAILING, c, Untouched(c), v);
    FrontKept(c.nodes, i, i + 1, v.status, u.status, CordonFailed);
  }

  // ----- all three -----

  /** The limit in one run. */
  ghost predicate KeepsUnavailable(c: Config, s: System, actions: seq<Action>)
    requires Run(c, s, actions)
  {
    Used(UnavailableLimit, Final(c, s, actions).status, c.nodes) <=
    Max(Bound(UnavailableLimit, c), Used(UnavailableLimit, s.status, c.nodes))
  }

  /** Nobody was started. */
  predicate Workless(s: System) {
    s.workers == [] && (s.pass.Admitting? ==> s.pass.quota == 0 && !s.pass.stored)
  }

  /** Where nothing can be started, the premises on workers cannot be left. */
  lemma {:induction false} WorklessObeys(w: Waiver, c: Config, s: System, actions: seq<Action>)
    requires !CanStart(c) && !w.Uncordons? && Workless(s) && Run(c, s, actions) && Follows(Without(w), c, s, actions)
    ensures Obeys(UnavailableLimit, c, s, actions)
    decreases |actions|
  {
    if actions != [] {
      if actions[0].Decide? {
        NothingStarted(c, s.pass.upgrading, s.pass.failed, |s.pass.candidates|);
      }
      WorklessObeys(w, c, After(c, s, actions[0]), actions[1..]);
    }
  }

  lemma BrokenWithout(w: Waiver, c: Config) returns (t: System)
    requires Distinct(c.nodes) && Max(Bound(UnavailableLimit, c), 0) < |c.nodes| && (w.Uncordons? || CanStart(c))
    ensures Exceeds(Without(w), UnavailableLimit, c, Bound(UnavailableLimit, c), t)
  {
    match w
    case Uncordons => t := BrokenByUncordons(c);
    case Retries => t := BrokenByRetries(c);
    case Failures => t := BrokenByFailures(c);
  }

  lemma KeptWithout(w: Waiver, c: Config, s: System, actions: seq<Action>)
    requires Distinct(c.nodes) && Quiet(s) && Run(c, s, actions) && Follows(Without(w), c, s, actions)
    requires Max(Bound(UnavailableLimit, c), 0) >= |c.nodes| || (!w.Uncordons? && !CanStart(c))
    ensures KeepsUnavailable(c, s, actions)
  {
    if Max(Bound(UnavailableLimit, c), 0) >= |c.nodes| {
      UsedAtMost(UnavailableLimit, Final(c, s, actions).status, c.nodes);
    } else {
      WorklessObeys(w, c, s, actions);
      LimitKeptOverRuns(UnavailableLimit, c, s, actions);
    }
  }

  /**
   * Every premise of the limit on unavailable nodes is needed. With one of them waived, all runs from a
   * quiet start keep the limit if and only if it is no smaller than the number of nodes or, for the
   * premises on workers, no node can be started at all.
   */
  lemma PremiseNeededExactly(w: Waiver, c: Config)
    requires Distinct(c.nodes)
    ensures (forall s, actions ::
               Quiet(s) && Run(c, s, actions) && Follows(Without(w), c, s, actions) ==> KeepsUnavailable(c, s, actions))
            <==> Max(Bound(UnavailableLimit, c), 0) >= |c.nodes| || (!w.Uncordons? && !CanStart(c))
  {
    if Max(Bound(UnavailableLimit, c), 0) >= |c.nodes| || (!w.Uncordons? && !CanStart(c)) {
      forall s, actions | Quiet(s) && Run(c, s, actions) && Follows(Without(w), c, s, actions)
        ensures KeepsUnavailable(c, s, actions)
      {
        KeptWithout(w, c, s, actions);
      }
    } else {
      var t := BrokenWithout(w, c);
      UntouchedIsClean(c);
      var run :| && Run(c, Untouched(c), run) && Final(c, Untouched(c), run) == t
                 && Follows(Without(w), c, Untouched(c), run);
      assert !KeepsUnavailable(c, Untouched(c), run);
    }
  }
}
