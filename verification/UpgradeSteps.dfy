/** Runs of the transition system put together step by step. */
module UpgradeSteps {
  import opened Common
  import opened UpgradeTypes
  import opened Classification
  import opened UpgradeRuns
  import NodeWorker

  /** A premise of the limit on unavailable nodes that may be left. */
  datatype Waiver = Uncordons | Retries | Failures

  /** What a run is held to: nothing, the premises of a limit, or all but one of them. */
  datatype Rule = Free | Obeying(limit: Limit) | Without(waived: Waiver)

  predicate PremiseWithout(w: Waiver, c: Config, s: System, a: Action) {
    match a
    case Look(f) => (w.Uncordons? || UncordonsSucceed(f)) && (w.Retries? || RetryWaits(c, s, f))
    case Work(v, _) => w.Failures? || FailureInTime(c, s, v)
    case _ => true
  }

  predicate Permits(r: Rule, c: Config, s: System, a: Action) {
    match r
    case Free => true
    case Obeying(l) => Premise(l, c, s, a)
    case Without(w) => PremiseWithout(w, c, s, a)
  }

  /** Every action of the run is taken within the rule. */
  predicate Follows(r: Rule, c: Config, s: System, actions: seq<Action>)
    requires Run(c, s, actions)
    decreases |actions|
  {
    actions == [] || (Permits(r, c, s, actions[0]) && Follows(r, c, After(c, s, actions[0]), actions[1..]))
  }

  lemma {:induction false} FollowsIsObeys(l: Limit, c: Config, s: System, actions: seq<Action>)
    requires Run(c, s, actions)
    ensures Follows(Obeying(l), c, s, actions) <==> Obeys(l, c, s, actions)
    decreases |actions|
  {
    if actions != [] {
      FollowsIsObeys(l, c, After(c, s, actions[0]), actions[1..]);
    }
  }

  ghost predicate Reaches(r: Rule, c: Config, s: System, t: System) {
    exists run :: Run(c, s, run) && Final(c, s, run) == t && Follows(r, c, s, run)
  }

  lemma Stays(r: Rule, c: Config, s: System)
    ensures Reaches(r, c, s, s)
  {
    assert Run(c, s, []) && Final(c, s, []) == s && Follows(r, c, s, []);
  }

  lemma {:induction false} AppendStep(r: Rule, c: Config, s: System, run: seq<Action>, a: Action)
    requires Run(c, s, run) && Follows(r, c, s, run)
    requires Possible(c, Final(c, s, run), a) && Permits(r, c, Final(c, s, run), a)
    ensures Run(c, s, run + [a]) && Final(c, s, run + [a]) == After(c, Final(c, s, run), a)
    ensures Follows(r, c, s, run + [a])
    decreases |run|
  {
    if run == [] {
      assert run + [a] == [a] && [a][1..] == [];
      assert Run(c, After(c, s, a), []);
      assert Run(c, s, [a]) && Final(c, s, [a]) == After(c, s, a);
    } else {
      AppendStep(r, c, After(c, s, run[0]), run[1..], a);
      assert (run + [a])[1..] == run[1..] + [a];
    }
  }

  lemma Then(r: Rule, c: Config, s: System, t: System, a: Action)
    requires Reaches(r, c, s, t) && Possible(c, t, a) && Permits(r, c, t, a)
    ensures Reaches(r, c, s, After(c, t, a))
  {
    var run :| Run(c, s, run) && Final(c, s, run) == t && Follows(r, c, s, run);
    AppendStep(r, c, s, run, a);
  }

  lemma Begin(r: Rule, c: Config, s: System, t: System) returns (u: System)
    requires Reaches(r, c, s, t) && t.pass.Idle?
    ensures Reaches(r, c, s, u) && u == System(t.status, t.workers, Scanning(0, InitLoad, [], 0, 0))
  {
    Then(r, c, s, t, BeginPass);
    u := After(c, t, BeginPass);
  }

  /** Applies the policy and stores the first started node. */
  lemma Start(r: Rule, c: Config, s: System, t: System, quota: nat) returns (u: System)
    requires Reaches(r, c, s, t) && t.pass.Scanning? && t.pass.i == |c.nodes|
    requires quota == Quota(t.pass.upgrading, t.pass.failed, |c.nodes|, |t.pass.candidates|, c.limits)
    requires 0 < quota
    ensures Reaches(r, c, s, u)
    ensures u == System(t.status[t.pass.candidates[0] := Started], t.workers,
                        Admitting(0, true, quota, t.pass.candidates))
  {
    Then(r, c, s, t, Decide);
    u := After(c, t, Decide);
    Then(r, c, s, u, StoreStarted);
    u := After(c, u, StoreStarted);
  }

  /** Launches the worker of the only started node and ends the pass. */
  lemma Finish(r: Rule, c: Config, s: System, t: System) returns (u: System)
    requires Reaches(r, c, s, t) && t.pass.Admitting? && t.pass.stored
    requires t.pass.k == 0 && t.pass.quota == 1 && |t.pass.admitted| > 0
    ensures Reaches(r, c, s, u)
    ensures u == System(t.status, t.workers + [Worker(t.pass.admitted[0], NodeWorker.ReadNode)], Idle)
  {
    Then(r, c, s, t, Launch);
    u := After(c, t, Launch);
    Then(r, c, s, u, EndPass);
    u := After(c, u, EndPass);
  }

  /** Worker w makes its next call. */
  lemma WorkAt(r: Rule, c: Config, s: System, t: System, w: nat, answer: NodeWorker.Answer) returns (u: System)
    requires Reaches(r, c, s, t) && w < |t.workers| && Live(t.workers[w])
    requires t.pass.Idle? || r.Free? || r == Without(Failures)
    ensures Reaches(r, c, s, u)
    ensures var k := t.workers[w];
            u == System(if k.pc.Store? then t.status[k.node := k.pc.state] else t.status,
                        t.workers[w := Worker(k.node, NodeWorker.Step(c.reboot, k.pc, answer).0)], t.pass)
  {
    Then(r, c, s, t, Work(w, answer));
    u := After(c, t, Work(w, answer));
  }

  /** The worker launched last, behind `done` earlier ones, makes its next call. */
  lemma WorkOn(r: Rule, c: Config, s: System, t: System, done: seq<Worker>, n: string, pc: NodeWorker.Pc,
               answer: NodeWorker.Answer) returns (u: System)
    requires Reaches(r, c, s, t) && t.workers == done + [Worker(n, pc)] && !pc.Returned?
    requires t.pass.Idle? || r.Free? || r == Without(Failures)
    ensures Reaches(r, c, s, u)
    ensures u == System(if pc.Store? then t.status[n := pc.state] else t.status,
                        done + [Worker(n, NodeWorker.Step(c.reboot, pc, answer).0)], t.pass)
  {
    var w := |done|;
    assert t.workers[w] == Worker(n, pc);
    u := WorkAt(r, c, s, t, w, answer);
    assert u.workers == done + [Worker(n, NodeWorker.Step(c.reboot, pc, answer).0)];
  }

  /** A node is under scan. */
  predicate Looking(c: Config, t: System) {
    t.pass.Scanning? && t.pass.i < |c.nodes| && !t.pass.check.Placed?
  }

  function Seen(c: Config, t: System): UpgradeState
    requires Looking(c, t)
  {
    StateOf(t.status, c.nodes[t.pass.i])
  }

  /** The node under scan is placed, and the scan moves on. */
  function Settled(c: Config, t: System, x: UpgradeState, b: Bucket): System
    requires Looking(c, t)
  {
    var n := c.nodes[t.pass.i];
    System(t.status[n := x], t.workers, Place(t.pass, n, b))
  }

  lemma LookOnce(r: Rule, c: Config, s: System, t: System, f: Facts, check: Check, x: UpgradeState) returns (u: System)
    requires Reaches(r, c, s, t) && Looking(c, t) && Permits(r, c, t, Look(f))
    requires (check, x) == Advance(t.pass.check, f, Seen(c, t))
    ensures Reaches(r, c, s, u)
    ensures u == if check.Placed? then Settled(c, t, x, check.bucket)
                 else System(t.status[c.nodes[t.pass.i] := x], t.workers, t.pass.(check := check))
  {
    Then(r, c, s, t, Look(f));
    u := After(c, t, Look(f));
  }

  /** Whether a look is permitted depends on the node and the workers only. */
  lemma StillPermitted(r: Rule, c: Config, t: System, u: System, f: Facts)
    requires Looking(c, t) && Looking(c, u) && u.pass.i == t.pass.i && u.workers == t.workers
    requires Permits(r, c, t, Look(f))
    ensures Permits(r, c, u, Look(f))
  {
    assert BusyUnderScan(c, t) <==> BusyUnderScan(c, u);
  }

  /**
   * A pass that looks at a node without interference places it as the one-shot chain does, from
   * any position of the chain.
   */
  lemma {:induction false} LookOn(r: Rule, c: Config, s: System, t: System, f: Facts, x: UpgradeState, b: Bucket)
    returns (u: System)
    requires Reaches(r, c, s, t) && Looking(c, t) && Permits(r, c, t, Look(f))
    requires (x, b) == Chain(t.pass.check, f, Seen(c, t))
    ensures Reaches(r, c, s, u) && u == Settled(c, t, x, b)
    decreases Remaining(t.pass.check)
  {
    var (check, y) := Advance(t.pass.check, f, Seen(c, t));
    u := LookOnce(r, c, s, t, f, check, y);
    if !check.Placed? {
      StepDown(t.pass.check, f, Seen(c, t));
      SettledLater(c, t, check, y, u, x, b);
      StillPermitted(r, c, t, u, f);
      u := LookOn(r, c, s, u, f, x, b);
    }
  }

  lemma SettledLater(c: Config, t: System, check: Check, y: UpgradeState, u: System, x: UpgradeState, b: Bucket)
    requires Looking(c, t) && !check.Placed?
    requires u == System(t.status[c.nodes[t.pass.i] := y], t.workers, t.pass.(check := check))
    ensures Looking(c, u) && Seen(c, u) == y && Settled(c, u, x, b) == Settled(c, t, x, b)
  {
    var n := c.nodes[t.pass.i];
    assert t.status[n := y][n := x] == t.status[n := x];
  }

  lemma StepDown(check: Check, f: Facts, x: UpgradeState)
    requires !check.Placed?
    ensures Remaining(Advance(check, f, x).0) < Remaining(check)
  {
  }

  // ----- whole stretches of the node list -----

  /** A schedulable labelled node with an outdated driver, and the API in good shape. */
  const NEAR := Facts(retry := false, timeUp := false, tracked := true, imageEmpty := false, upToDate := false,
                      wasInstalling := false, labelled := true, labelCurrent := false,
                      uncordonMissingOk := true, uncordonReadyOk := true, updateOk := true, schedulable := true)

  /** The same, but not schedulable. */
  const AWAY := NEAR.(schedulable := false)

  /** The nodes from one position of the list up to another are in this state. */
  ghost predicate InState(m: StatusMap, nodes: seq<string>, from: nat, upto: nat, x: UpgradeState) {
    forall j {:trigger nodes[j]} :: from <= j < upto && j < |nodes| ==> StateOf(m, nodes[j]) == x
  }

  /** The nodes outside the stretch have kept their states. */
  ghost predicate SameOutside(m: StatusMap, m': StatusMap, nodes: seq<string>, from: nat, upto: nat) {
    forall j {:trigger nodes[j]} :: 0 <= j < |nodes| && !(from <= j < upto) ==>
        StateOf(m', nodes[j]) == StateOf(m, nodes[j])
  }

  /** How a node fares in a pass. */
  datatype Part = Part(facts: Facts, before: UpgradeState, after: UpgradeState, bucket: Bucket)

  predicate Fares(p: Part) {
    Classify(p.facts, p.before) == (p.after, p.bucket)
  }

  /** A look with these facts is within the rule, whoever is busy. */
  predicate Harmless(r: Rule, f: Facts) {
    && (UncordonsSucceed(f) || r.Free? || r == Without(Uncordons))
    && (!f.retry || r.Free? || r == Without(Retries))
    && (!f.timeUp || r != Obeying(ParallelLimit))
  }

  /** The scan looks at one node. */
  lemma ScanOne(r: Rule, c: Config, s: System, t: System, p: Part) returns (u: System)
    requires Distinct(c.nodes) && Reaches(r, c, s, t) && Looking(c, t) && t.pass.check == InitLoad
    requires Seen(c, t) == p.before && Fares(p) && Harmless(r, p.facts)
    ensures Reaches(r, c, s, u) && u.workers == t.workers && u.pass == Place(t.pass, c.nodes[t.pass.i], p.bucket)
    ensures StateOf(u.status, c.nodes[t.pass.i]) == p.after
    ensures SameOutside(t.status, u.status, c.nodes, t.pass.i, t.pass.i + 1)
  {
    ChainIsClassify(t.pass.check, p.facts, p.before);
    u := LookOn(r, c, s, t, p.facts, p.after, p.bucket);
    OnlyHere(c.nodes, t.pass.i, t.status, p.after);
  }

  lemma OnlyHere(nodes: seq<string>, i: nat, m: StatusMap, y: UpgradeState)
    requires Distinct(nodes) && i < |nodes|
    ensures SameOutside(m, m[nodes[i] := y], nodes, i, i + 1)
  {
  }

  /** What k nodes in this bucket add to the counters of the pass. */
  function Upgraded(b: Bucket, k: nat): nat {
    if b.Upgrading? then k else 0
  }

  function FailedOf(b: Bucket, k: nat): nat {
    if b.FailedNode? then k else 0
  }

  /** The scan looks at the nodes up to position `upto`, all alike. */
  lemma {:induction false} ScanStretch(r: Rule, c: Config, s: System, t: System, upto: nat, p: Part) returns (u: System)
    requires Distinct(c.nodes) && Reaches(r, c, s, t) && t.pass.Scanning? && t.pass.check == InitLoad
    requires t.pass.i <= upto <= |c.nodes| && InState(t.status, c.nodes, t.pass.i, upto, p.before)
    requires Fares(p) && !p.bucket.Candidate? && Harmless(r, p.facts)
    ensures Reaches(r, c, s, u) && u.workers == t.workers
    ensures u.pass == Scanning(upto, InitLoad, t.pass.candidates,
                               t.pass.upgrading + Upgraded(p.bucket, upto - t.pass.i),
                               t.pass.failed + FailedOf(p.bucket, upto - t.pass.i))
    ensures InState(u.status, c.nodes, t.pass.i, upto, p.after)
    ensures SameOutside(t.status, u.status, c.nodes, t.pass.i, upto)
    decreases upto
  {
    u := t;
    if t.pass.i < upto {
      var k := upto - 1;
      var v := ScanStretch(r, c, s, t, k, p);
      assert StateOf(v.status, c.nodes[k]) == StateOf(t.status, c.nodes[k]) == p.before;
      u := ScanOne(r, c, s, v, p);
      StretchGrows(c.nodes, t.pass.i, k, t.status, v.status, u.status, p.after);
    }
  }

  lemma StretchGrows(nodes: seq<string>, from: nat, k: nat, m: StatusMap, m1: StatusMap, m2: StatusMap, y: UpgradeState)
    requires from <= k < |nodes|
    requires InState(m1, nodes, from, k, y) && SameOutside(m, m1, nodes, from, k)
    requires StateOf(m2, nodes[k]) == y && SameOutside(m1, m2, nodes, k, k + 1)
    ensures InState(m2, nodes, from, k + 1, y) && SameOutside(m, m2, nodes, from, k + 1)
  {
  }

  lemma FrontKept(nodes: seq<string>, k: nat, from: nat, m: StatusMap, m': StatusMap, x: UpgradeState)
    requires k <= from <= |nodes| && InState(m, nodes, 0, k, x) && SameOutside(m, m', nodes, from, |nodes|)
    ensures InState(m', nodes, 0, k, x)
  {
  }

  /** A pass that found no candidates ends. */
  lemma EndEmpty(r: Rule, c: Config, s: System, t: System) returns (u: System)
    requires Reaches(r, c, s, t) && t.pass.Scanning? && t.pass.i == |c.nodes| && t.pass.candidates == []
    ensures Reaches(r, c, s, u) && u == System(t.status, t.workers, Idle)
  {
    Then(r, c, s, t, Decide);
    u := After(c, t, Decide);
    Then(r, c, s, u, EndPass);
    u := After(c, u, EndPass);
  }

  /** A pass with one candidate and room for it starts the candidate and ends. */
  lemma StartOnly(r: Rule, c: Config, s: System, t: System, n: string) returns (u: System)
    requires Reaches(r, c, s, t) && t.pass.Scanning? && t.pass.i == |c.nodes| && t.pass.candidates == [n]
    requires Quota(t.pass.upgrading, t.pass.failed, |c.nodes|, 1, c.limits) == 1
    ensures Reaches(r, c, s, u)
    ensures u == System(t.status[n := Started], t.workers + [Worker(n, NodeWorker.ReadNode)], Idle)
  {
    u := Start(r, c, s, t, 1);
    u := Finish(r, c, s, u);
  }

  // ----- passes with one node apart -----

  /** An untouched node that is or is not schedulable. */
  const CANDIDATE := Part(NEAR, NotStarted, NotStarted, Candidate)
  const LEFT_ALONE := Part(AWAY, NotStarted, NotStarted, NotReady)

  /** A scan in which the first k nodes fare alike, the k-th as it does, and the untouched rest is not schedulable. */
  lemma ScanOver(r: Rule, c: Config, s: System, t: System, k: nat, front: Part, apart: Part)
    returns (u: System)
    requires Distinct(c.nodes) && k < |c.nodes| && Reaches(r, c, s, t) && t.pass.Idle?
    requires InState(t.status, c.nodes, 0, k, front.before) && StateOf(t.status, c.nodes[k]) == apart.before
    requires InState(t.status, c.nodes, k + 1, |c.nodes|, NotStarted)
    requires Fares(front) && !front.bucket.Candidate? && Harmless(r, front.facts)
    requires Fares(apart) && Harmless(r, apart.facts)
    ensures Reaches(r, c, s, u) && u.workers == t.workers
    ensures u.pass == Scanning(|c.nodes|, InitLoad, if apart.bucket.Candidate? then [c.nodes[k]] else [],
                               Upgraded(front.bucket, k) + Upgraded(apart.bucket, 1),
                               FailedOf(front.bucket, k) + FailedOf(apart.bucket, 1))
    ensures InState(u.status, c.nodes, 0, k, front.after) && StateOf(u.status, c.nodes[k]) == apart.after
    ensures InState(u.status, c.nodes, k + 1, |c.nodes|, NotStarted)
  {
    u := ScanFront(r, c, s, t, k, front);
    var v := ScanApart(r, c, s, u, apart, front.after);
    u := ScanRest(r, c, s, v);
    FrontKept(c.nodes, k, k + 1, v.status, u.status, front.after);
  }

  lemma ScanFront(r: Rule, c: Config, s: System, t: System, k: nat, front: Part) returns (u: System)
    requires Distinct(c.nodes) && k <= |c.nodes| && Reaches(r, c, s, t) && t.pass.Idle?
    requires InState(t.status, c.nodes, 0, k, front.before)
    requires Fares(front) && !front.bucket.Candidate? && Harmless(r, front.facts)
    ensures Reaches(r, c, s, u) && u.workers == t.workers
    ensures u.pass == Scanning(k, InitLoad, [], Upgraded(front.bucket, k), FailedOf(front.bucket, k))
    ensures InState(u.status, c.nodes, 0, k, front.after) && SameOutside(t.status, u.status, c.nodes, 0, k)
  {
    u := Begin(r, c, s, t);
    u := ScanStretch(r, c, s, u, k, front);
  }

  lemma ScanApart(r: Rule, c: Config, s: System, t: System, apart: Part, x: UpgradeState) returns (u: System)
    requires Distinct(c.nodes) && Reaches(r, c, s, t) && t.pass.Scanning? && t.pass.check == InitLoad
    requires t.pass.i < |c.nodes| && t.pass.candidates == [] && StateOf(t.status, c.nodes[t.pass.i]) == apart.before
    requires InState(t.status, c.nodes, 0, t.pass.i, x)
    requires InState(t.status, c.nodes, t.pass.i + 1, |c.nodes|, NotStarted)
    requires Fares(apart) && Harmless(r, apart.facts)
    ensures Reaches(r, c, s, u) && u.workers == t.workers
    ensures u.pass == Scanning(t.pass.i + 1, InitLoad, if apart.bucket.Candidate? then [c.nodes[t.pass.i]] else [],
                               t.pass.upgrading + Upgraded(apart.bucket, 1), t.pass.failed + FailedOf(apart.bucket, 1))
    ensures StateOf(u.status, c.nodes[t.pass.i]) == apart.after
    ensures InState(u.status, c.nodes, 0, t.pass.i, x)
    ensures InState(u.status, c.nodes, t.pass.i + 1, |c.nodes|, NotStarted)
  {
    u := ScanOne(r, c, s, t, apart);
    assert [] + [c.nodes[t.pass.i]] == [c.nodes[t.pass.i]];
  }

  /** The remaining nodes are untouched and not schedulable. */
  lemma ScanRest(r: Rule, c: Config, s: System, t: System) returns (u: System)
    requires Distinct(c.nodes) && Reaches(r, c, s, t) && t.pass.Scanning? && t.pass.check == InitLoad
    requires t.pass.i <= |c.nodes| && InState(t.status, c.nodes, t.pass.i, |c.nodes|, NotStarted)
    ensures Reaches(r, c, s, u) && u.workers == t.workers && u.pass == t.pass.(i := |c.nodes|)
    ensures InState(u.status, c.nodes, t.pass.i, |c.nodes|, NotStarted)
    ensures SameOutside(t.status, u.status, c.nodes, t.pass.i, |c.nodes|)
  {
    u := ScanStretch(r, c, s, t, |c.nodes|, LEFT_ALONE);
  }

  // ----- configurations -----

  /** A pass can start a node. */
  predicate CanStart(c: Config) {
    c.limits.maxParallel >= 0 && Bound(UnavailableLimit, c) > 0
  }

  lemma NothingStarted(c: Config, upgrading: nat, failed: nat, candidates: nat)
    requires !CanStart(c)
    ensures Quota(upgrading, failed, |c.nodes|, candidates, c.limits) == 0
  {
    QuotaIsExact(upgrading, failed, |c.nodes|, candidates, c.limits);
  }

  /** One candidate is started if both limits leave room for it. */
  lemma RoomForOne(c: Config, upgrading: nat, failed: nat)
    requires CanStart(c) && upgrading + failed < Bound(UnavailableLimit, c)
    requires c.limits.maxParallel > upgrading || c.limits.maxParallel == 0
    ensures Quota(upgrading, failed, |c.nodes|, 1, c.limits) == 1
  {
    QuotaIsExact(upgrading, failed, |c.nodes|, 1, c.limits);
  }

  /** No node was touched yet. */
  function Untouched(c: Config): System {
    System(map n | n in c.nodes :: NotStarted, [], Idle)
  }

  lemma {:induction false} UsedAtLeast(l: Limit, m: StatusMap, nodes: seq<string>, k: nat)
    requires k <= |nodes| && forall j :: 0 <= j < k ==> Counts(l, StateOf(m, nodes[j]))
    ensures Used(l, m, nodes) >= k
  {
    if nodes != [] && k > 0 {
      UsedAtLeast(l, m, nodes[..|nodes| - 1], if k == |nodes| then k - 1 else k);
    }
  }

  lemma {:induction false} UsedAtMost(l: Limit, m: StatusMap, nodes: seq<string>)
    ensures Used(l, m, nodes) <= |nodes|
  {
    if nodes != [] {
      UsedAtMost(l, m, nodes[..|nodes| - 1]);
    }
  }

  lemma {:induction false} NothingUsed(l: Limit, m: StatusMap, nodes: seq<string>)
    requires forall n :: n in nodes ==> !Counts(l, StateOf(m, n))
    ensures Used(l, m, nodes) == 0
  {
    if nodes != [] {
      NothingUsed(l, m, nodes[..|nodes| - 1]);
    }
  }
}
