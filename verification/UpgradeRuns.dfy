/**
 * Passes of the upgrade manager and the workers they launch, as one transition system. The pass
 * runs in one goroutine and every worker in its own; they share the node status map. A step is one
 * load or store of that map, or one API call of a worker, so all interleavings are covered.
 */
module UpgradeRuns {
  import opened Common
  import opened UpgradeTypes
  import opened Classification
  import NodeWorker

  /** One DeviceConfig with a fixed version, policy and node list. */
  datatype Config = Config(nodes: seq<string>, limits: Limits, reboot: bool)

  datatype Worker = Worker(node: string, pc: NodeWorker.Pc)

  datatype Pass =
    | Idle
    | Scanning(i: nat, check: Check, candidates: seq<string>, upgrading: nat, failed: nat)
    | Admitting(k: nat, stored: bool, quota: nat, admitted: seq<string>)

  datatype System = System(status: StatusMap, workers: seq<Worker>, pass: Pass)

  datatype Action =
    | BeginPass
    | Look(facts: Facts)                                // next step of the chain of checks
    | Decide                                            // all nodes placed: apply the policy
    | StoreStarted                                      // admission: write Started
    | Launch                                            // admission: start the goroutine
    | EndPass
    | Work(w: nat, answer: NodeWorker.Answer)           // next call of worker w

  // ----- steps -----

  predicate Live(w: Worker) {
    !w.pc.Returned?
  }

  predicate Busy(s: System, n: string) {
    exists w :: 0 <= w < |s.workers| && s.workers[w].node == n && Live(s.workers[w])
  }

  /** The node whose chain of checks is under way. */
  predicate UnderScan(c: Config, s: System, n: string) {
    s.pass.Scanning? && s.pass.i < |c.nodes| && c.nodes[s.pass.i] == n
  }

  predicate Possible(c: Config, s: System, a: Action) {
    match a
    case BeginPass => s.pass.Idle?
    case Look(_) => s.pass.Scanning? && s.pass.i < |c.nodes| && !s.pass.check.Placed?
    case Decide => s.pass.Scanning? && s.pass.i == |c.nodes|
    case StoreStarted =>
      s.pass.Admitting? && s.pass.k < s.pass.quota <= |s.pass.admitted| && !s.pass.stored
    case Launch => s.pass.Admitting? && s.pass.k < |s.pass.admitted| && s.pass.stored
    case EndPass => s.pass.Admitting? && s.pass.k == s.pass.quota && !s.pass.stored
    case Work(w, _) => w < |s.workers| && Live(s.workers[w])
  }

  /** A worker is about to give up on its node. */
  predicate GivesUp(w: Worker) {
    w.pc.Store? && !w.pc.state.InProgress? && !w.pc.state.RebootInProgress?
  }

  /** The chain, at this position, copes with the node getting this state. */
  predicate Copes(check: Check, x: UpgradeState) {
    || EarlyLoad(check)
    || (check.TimeoutStore? && IsFailed(x))
    || (LateLoad(check) && x.RebootFailed?)
  }

  /** The two limits of the policy. */
  datatype Limit = UnavailableLimit | ParallelLimit

  /**
   * The circumstances under which a limit is kept: uncordon calls succeed, a retry label is only
   * honoured on a node whose worker has returned, and no worker gives up on a node while that very
   * node is being looked at and has already passed the look for failed states. For the limit on
   * parallel upgrades, also: the two-hour timeout does not strike a node whose worker is still
   * running. Workers may make progress at any time.
   */
  predicate Premise(l: Limit, c: Config, s: System, a: Action) {
    match a
    case Look(f) => UncordonsSucceed(f) && RetryWaits(c, s, f) && (l.ParallelLimit? ==> TimeoutWaits(c, s, f))
    case Work(w, _) => FailureInTime(c, s, w)
    case _ => true
  }

  predicate UncordonsSucceed(f: Facts) {
    f.uncordonMissingOk && f.uncordonReadyOk
  }

  /** The node that is being looked at has a running worker. */
  predicate BusyUnderScan(c: Config, s: System) {
    s.pass.Scanning? && s.pass.i < |c.nodes| && Busy(s, c.nodes[s.pass.i])
  }

  predicate RetryWaits(c: Config, s: System, f: Facts) {
    BusyUnderScan(c, s) ==> !f.retry
  }

  predicate TimeoutWaits(c: Config, s: System, f: Facts) {
    BusyUnderScan(c, s) ==> !f.timeUp
  }

  predicate FailureInTime(c: Config, s: System, w: nat) {
    w < |s.workers| && GivesUp(s.workers[w]) && UnderScan(c, s, s.workers[w].node) ==>
      Copes(s.pass.check, s.workers[w].pc.state)
  }

  function Place(p: Pass, n: string, b: Bucket): Pass
    requires p.Scanning?
  {
    Scanning(p.i + 1, InitLoad,
             if b.Candidate? then p.candidates + [n] else p.candidates,
             if b.Upgrading? then p.upgrading + 1 else p.upgrading,
             if b.FailedNode? then p.failed + 1 else p.failed)
  }

  function After(c: Config, s: System, a: Action): System
    requires Possible(c, s, a)
  {
    match a
    case BeginPass => s.(pass := Scanning(0, InitLoad, [], 0, 0))
    case Look(f) =>
      var n := c.nodes[s.pass.i];
      var (check, state) := Advance(s.pass.check, f, StateOf(s.status, n));
      s.(status := s.status[n := state],
         pass := if check.Placed? then Place(s.pass, n, check.bucket) else s.pass.(check := check))
    case Decide =>
      var q := Quota(s.pass.upgrading, s.pass.failed, |c.nodes|, |s.pass.candidates|, c.limits);
      s.(pass := Admitting(0, false, q, s.pass.candidates))
    case StoreStarted =>
      s.(status := s.status[s.pass.admitted[s.pass.k] := Started], pass := s.pass.(stored := true))
    case Launch =>
      s.(workers := s.workers + [Worker(s.pass.admitted[s.pass.k], NodeWorker.ReadNode)],
         pass := s.pass.(k := s.pass.k + 1, stored := false))
    case EndPass => s.(pass := Idle)
    case Work(w, answer) =>
      var wk := s.workers[w];
      s.(workers := s.workers[w := wk.(pc := NodeWorker.Step(c.reboot, wk.pc, answer).0)],
         status := if wk.pc.Store? then s.status[wk.node := wk.pc.state] else s.status)
  }

  /** The actions can be taken one after the other from `s`. */
  predicate Run(c: Config, s: System, actions: seq<Action>)
    decreases |actions|
  {
    actions == [] || (Possible(c, s, actions[0]) && Run(c, After(c, s, actions[0]), actions[1..]))
  }

  function Final(c: Config, s: System, actions: seq<Action>): System
    requires Run(c, s, actions)
    decreases |actions|
  {
    if actions == [] then s else Final(c, After(c, s, actions[0]), actions[1..])
  }

  /** Every action of the run is taken within the premises. */
  predicate Obeys(l: Limit, c: Config, s: System, actions: seq<Action>)
    requires Run(c, s, actions)
    decreases |actions|
  {
    actions == [] || (Premise(l, c, s, actions[0]) && Obeys(l, c, After(c, s, actions[0]), actions[1..]))
  }

  // ----- counting -----

  /** Which states use up the limit. */
  predicate Counts(l: Limit, x: UpgradeState) {
    if l.UnavailableLimit? then Unavailable(x) else InFlight(x)
  }

  /** How many of the listed nodes use up the limit. */
  function Used(l: Limit, m: StatusMap, nodes: seq<string>): nat {
    if nodes == [] then 0
    else Used(l, m, nodes[..|nodes| - 1]) + if Counts(l, StateOf(m, nodes[|nodes| - 1])) then 1 else 0
  }

  lemma {:induction false} UsedMonotone(l: Limit, m: StatusMap, m': StatusMap, nodes: seq<string>)
    requires forall n :: n in nodes && Counts(l, StateOf(m', n)) ==> Counts(l, StateOf(m, n))
    ensures Used(l, m', nodes) <= Used(l, m, nodes)
  {
    if nodes != [] {
      UsedMonotone(l, m, m', nodes[..|nodes| - 1]);
    }
  }

  /** Writing one node's state adds at most one, and nothing if the node counted before or does not now. */
  lemma {:induction false} UsedUpdate(l: Limit, m: StatusMap, n: string, x: UpgradeState, nodes: seq<string>)
    requires Distinct(nodes)
    ensures Used(l, m[n := x], nodes) <= Used(l, m, nodes) + 1
    ensures Counts(l, StateOf(m, n)) || !Counts(l, x) ==> Used(l, m[n := x], nodes) <= Used(l, m, nodes)
    ensures n !in nodes ==> Used(l, m[n := x], nodes) == Used(l, m, nodes)
  {
    if nodes != [] {
      var rest := nodes[..|nodes| - 1];
      UsedUpdate(l, m, n, x, rest);
      assert nodes[|nodes| - 1] == n ==> n !in rest;
    }
  }

  // ----- invariant -----

  /** States a node can have while its worker is still running. */
  predicate Held(l: Limit, x: UpgradeState) {
    x.Started? || x.RebootInProgress? || (l.UnavailableLimit? && x.TimedOut?)
  }

  ghost predicate WorkersOk(l: Limit, s: System) {
    && (forall w :: 0 <= w < |s.workers| && Live(s.workers[w]) ==> Held(l, StateOf(s.status, s.workers[w].node)))
    && (forall v, w :: 0 <= v < w < |s.workers| && Live(s.workers[v]) && Live(s.workers[w]) ==>
          s.workers[v].node != s.workers[w].node)
  }

  /** What the position in the chain says about the node's current state. */
  predicate CheckOk(l: Limit, check: Check, x: UpgradeState, busy: bool) {
    match check
    case InitLoad | RetryLoad | TimeoutLoad | FailedLoad => true
    case InitStore => x.Empty?
    case RetryStore => !busy
    case TimeoutStore => Unavailable(x) && (l.ParallelLimit? ==> InFlight(x) && !busy)
    case MissingLoad | StartedLoad => !IsFailed(x)
    case RebootLoad => !IsFailed(x) && !x.Started?
    case MissingStore | ReadyFailStore => false
    case ReadyLoad | ReadyStore(_) | NewTest | NewStore | InstallLoad | ProgressLoad | ProgressReload =>
      !IsFailed(x) && !x.Started? && !x.RebootInProgress?
    case ProgressFailStore => x.InProgress?
    case AdmitTest => !Unavailable(x)
    case Placed(_) => false
  }

  /** Nodes that may be admitted: neither in flight nor failed, and without a running worker. */
  ghost predicate Free(s: System, ns: seq<string>) {
    forall j :: 0 <= j < |ns| ==> !Unavailable(StateOf(s.status, ns[j])) && !Busy(s, ns[j])
  }

  ghost predicate ScanOk(l: Limit, c: Config, s: System)
    requires s.pass.Scanning?
  {
    var p := s.pass;
    && p.i <= |c.nodes|
    && Used(l, s.status, c.nodes[..p.i]) <= p.upgrading + (if l.UnavailableLimit? then p.failed else 0)
    && Distinct(p.candidates) && Free(s, p.candidates)
    && (forall j :: 0 <= j < |p.candidates| ==> p.candidates[j] in c.nodes[..p.i])
    && (p.i < |c.nodes| ==> CheckOk(l, p.check, StateOf(s.status, c.nodes[p.i]), Busy(s, c.nodes[p.i])))
  }

  ghost predicate AdmitOk(l: Limit, c: Config, bound: int, s: System)
    requires s.pass.Admitting?
  {
    var p := s.pass;
    && p.k <= p.quota <= |p.admitted| && Distinct(p.admitted)
    && (p.stored ==> p.k < p.quota && StateOf(s.status, p.admitted[p.k]).Started? && !Busy(s, p.admitted[p.k]))
    && Free(s, p.admitted[if p.stored then p.k + 1 else p.k..])
    && Used(l, s.status, c.nodes) + (p.quota - p.k - if p.stored then 1 else 0) <= bound
  }

  ghost predicate Inv(l: Limit, c: Config, bound: int, s: System) {
    && Distinct(c.nodes)
    && WorkersOk(l, s)
    && Used(l, s.status, c.nodes) <= bound
    && (s.pass.Scanning? ==> ScanOk(l, c, s))
    && (s.pass.Admitting? ==> AdmitOk(l, c, bound, s))
  }

  /** The limit in nodes; a malformed maxUnavailableNodes admits nothing. */
  function Bound(l: Limit, c: Config): int {
    if l.ParallelLimit? then c.limits.maxParallel
    else
      match Scaled(c.limits.maxUnavailable, |c.nodes|)
      case Some(m) => m
      case None => 0
  }

  /** What the bounds are in terms of the configuration. */
  lemma BoundIsConfigured(c: Config)
    ensures Bound(ParallelLimit, c) == c.limits.maxParallel
    ensures var b := Bound(UnavailableLimit, c);
            match c.limits.maxUnavailable
            case Absolute(n) => b == n
            case Percent(p) => p * |c.nodes| <= 100 * b < p * |c.nodes| + 100
            case Malformed => b == 0
  {
    match c.limits.maxUnavailable
    case Percent(p) => ScaledPercent(p, |c.nodes|);
    case _ =>
  }

  /** Which states count: for both limits the three of an upgrade under way, for the first also five failed ones. */
  lemma CountedStates(x: UpgradeState)
    ensures Counts(ParallelLimit, x) <==> x in {Started, RebootInProgress, InProgress}
    ensures Counts(UnavailableLimit, x) <==>
            x in {Started, RebootInProgress, InProgress, Failed, CordonFailed, UncordonFailed, DrainFailed, TimedOut}
  {
  }

  // ----- preservation -----

  /** A status write that adds nothing to the limit and respects running workers. */
  lemma WriteKeepsRest(l: Limit, c: Config, s: System, n: string, x: UpgradeState, t: System)
    requires Distinct(c.nodes) && WorkersOk(l, s)
    requires t.status == s.status[n := x] && t.workers == s.workers
    requires Counts(l, x) ==> Counts(l, StateOf(s.status, n))
    requires Busy(s, n) ==> Held(l, x)
    ensures WorkersOk(l, t)
    ensures Used(l, t.status, c.nodes) <= Used(l, s.status, c.nodes)
    ensures forall m :: Busy(t, m) <==> Busy(s, m)
    ensures forall i :: 0 <= i < |c.nodes| && c.nodes[i] == n ==>
              Used(l, t.status, c.nodes[..i]) == Used(l, s.status, c.nodes[..i])
  {
    UsedUpdate(l, s.status, n, x, c.nodes);
    forall i | 0 <= i < |c.nodes| && c.nodes[i] == n
      ensures Used(l, t.status, c.nodes[..i]) == Used(l, s.status, c.nodes[..i])
    {
      UsedUpdate(l, s.status, n, x, c.nodes[..i]);
    }
  }

  /** The step from state `x` to position `check` and state `y` adds nothing to the limit unnoticed. */
  predicate Sound(l: Limit, x: UpgradeState, busy: bool, check: Check, y: UpgradeState) {
    && (Counts(l, y) ==> Counts(l, x))
    && (busy ==> Held(l, y))
    && (if !check.Placed? then CheckOk(l, check, y, busy)
        else
          && (Counts(l, y) ==> check.bucket.Upgrading? || (l.UnavailableLimit? && check.bucket.FailedNode?))
          && (check.bucket.Candidate? ==> !Unavailable(y) && !busy))
  }

  /** What the chain may assume about the environment. */
  predicate Calm(l: Limit, f: Facts, x: UpgradeState, busy: bool) {
    && f.uncordonMissingOk && f.uncordonReadyOk
    && (busy ==> Held(l, x) && !f.retry && (l.ParallelLimit? ==> !f.timeUp))
  }

  lemma LookStep(l: Limit, check: Check, f: Facts, x: UpgradeState, busy: bool)
    requires !check.Placed? && CheckOk(l, check, x, busy) && Calm(l, f, x, busy)
    ensures var (check', y) := Advance(check, f, x); Sound(l, x, busy, check', y)
  {
    if Remaining(check) >= 14 {
      LookStepEarly(l, check, f, x, busy);
    } else {
      LookStepLate(l, check, f, x, busy);
    }
  }

  lemma LookStepEarly(l: Limit, check: Check, f: Facts, x: UpgradeState, busy: bool)
    requires Remaining(check) >= 14 && CheckOk(l, check, x, busy) && Calm(l, f, x, busy)
    ensures var (check', y) := Advance(check, f, x); Sound(l, x, busy, check', y)
  {
  }

  lemma LookStepLate(l: Limit, check: Check, f: Facts, x: UpgradeState, busy: bool)
    requires 0 < Remaining(check) < 14 && CheckOk(l, check, x, busy) && Calm(l, f, x, busy)
    ensures var (check', y) := Advance(check, f, x); Sound(l, x, busy, check', y)
  {
  }

  lemma LookKeepsInv(l: Limit, c: Config, bound: int, s: System, f: Facts)
    requires Inv(l, c, bound, s) && Possible(c, s, Look(f)) && Premise(l, c, s, Look(f))
    ensures Inv(l, c, bound, After(c, s, Look(f)))
  {
    var n := c.nodes[s.pass.i];
    var x := StateOf(s.status, n);
    var (check, y) := Advance(s.pass.check, f, x);
    LookStep(l, s.pass.check, f, x, Busy(s, n));
    if check.Placed? {
      PlaceKeepsInv(l, c, bound, s, check, y, After(c, s, Look(f)));
    } else {
      MoveKeepsInv(l, c, bound, s, check, y, After(c, s, Look(f)));
    }
  }

  ghost predicate ScanMove(l: Limit, c: Config, s: System, check: Check, y: UpgradeState, t: System) {
    && s.pass.Scanning? && s.pass.i < |c.nodes|
    && var n := c.nodes[s.pass.i];
    && Sound(l, StateOf(s.status, n), Busy(s, n), check, y)
    && t.status == s.status[n := y] && t.workers == s.workers
    && t.pass == if check.Placed? then Place(s.pass, n, check.bucket) else s.pass.(check := check)
  }

  lemma MoveKeepsInv(l: Limit, c: Config, bound: int, s: System, check: Check, y: UpgradeState, t: System)
    requires Inv(l, c, bound, s) && ScanMove(l, c, s, check, y, t) && !check.Placed?
    ensures Inv(l, c, bound, t)
  {
    ScanMoveKeepsRest(l, c, bound, s, check, y, t);
  }

  lemma PlaceKeepsInv(l: Limit, c: Config, bound: int, s: System, check: Check, y: UpgradeState, t: System)
    requires Inv(l, c, bound, s) && ScanMove(l, c, s, check, y, t) && check.Placed?
    ensures Inv(l, c, bound, t)
  {
    ScanMoveKeepsRest(l, c, bound, s, check, y, t);
    PlaceCounts(l, c, s, check, y, t);
    PlaceOffers(c, s, check.bucket, t);
  }

  lemma PlaceCounts(l: Limit, c: Config, s: System, check: Check, y: UpgradeState, t: System)
    requires ScanMove(l, c, s, check, y, t) && check.Placed?
    requires Used(l, t.status, c.nodes[..s.pass.i]) <= s.pass.upgrading + (if l.UnavailableLimit?
             then s.pass.failed else 0)
    ensures Used(l, t.status, c.nodes[..t.pass.i]) <= t.pass.upgrading + (if l.UnavailableLimit?
            then t.pass.failed else 0)
  {
    var i := s.pass.i;
    assert c.nodes[..i + 1][..i] == c.nodes[..i];
  }

  lemma PlaceOffers(c: Config, s: System, b: Bucket, t: System)
    requires s.pass.Scanning? && s.pass.i < |c.nodes| && t.pass == Place(s.pass, c.nodes[s.pass.i], b)
    requires Distinct(s.pass.candidates) && c.nodes[s.pass.i] !in s.pass.candidates && Free(t, s.pass.candidates)
    requires b.Candidate? ==> Free(t, [c.nodes[s.pass.i]])
    requires forall j :: 0 <= j < |s.pass.candidates| ==> s.pass.candidates[j] in c.nodes[..s.pass.i]
    ensures Distinct(t.pass.candidates) && Free(t, t.pass.candidates)
    ensures forall j :: 0 <= j < |t.pass.candidates| ==> t.pass.candidates[j] in c.nodes[..t.pass.i]
  {
    var i := s.pass.i;
    StillListed(c.nodes, i, s.pass.candidates);
    if b.Candidate? {
      OneMoreOffer(t, s.pass.candidates, c.nodes[i]);
      assert c.nodes[..i + 1][i] == c.nodes[i];
    }
  }

  lemma StillListed(nodes: seq<string>, i: nat, candidates: seq<string>)
    requires i < |nodes| && forall j :: 0 <= j < |candidates| ==> candidates[j] in nodes[..i]
    ensures forall j :: 0 <= j < |candidates| ==> candidates[j] in nodes[..i + 1]
  {
    assert nodes[..i + 1] == nodes[..i] + [nodes[i]];
  }

  lemma OneMoreOffer(t: System, candidates: seq<string>, n: string)
    requires Distinct(candidates) && n !in candidates && Free(t, candidates) && Free(t, [n])
    ensures Distinct(candidates + [n]) && Free(t, candidates + [n])
  {
    assert [n][0] == n;
  }

  lemma ScanMoveKeepsRest(l: Limit, c: Config, bound: int, s: System, check: Check, y: UpgradeState, t: System)
    requires Inv(l, c, bound, s) && ScanMove(l, c, s, check, y, t)
    ensures WorkersOk(l, t) && Used(l, t.status, c.nodes) <= bound
    ensures Used(l, t.status, c.nodes[..s.pass.i]) == Used(l, s.status, c.nodes[..s.pass.i])
    ensures Free(t, s.pass.candidates) && c.nodes[s.pass.i] !in s.pass.candidates
    ensures forall m :: Busy(t, m) <==> Busy(s, m)
  {
    var n := c.nodes[s.pass.i];
    WriteKeepsRest(l, c, s, n, y, t);
    assert n !in c.nodes[..s.pass.i];
    assert forall j :: 0 <= j < |s.pass.candidates| ==> s.pass.candidates[j] != n;
  }

  lemma WorkKeepsWorkers(l: Limit, c: Config, s: System, w: nat, a: NodeWorker.Answer)
    requires WorkersOk(l, s) && Possible(c, s, Work(w, a))
    ensures var s' := After(c, s, Work(w, a));
            && WorkersOk(l, s')
            && (forall m :: Busy(s', m) ==> Busy(s, m))
            && (forall m :: m != s.workers[w].node ==> StateOf(s'.status, m) == StateOf(s.status, m))
  {
    var s' := After(c, s, Work(w, a));
    forall m | Busy(s', m) ensures Busy(s, m) {
      var v :| 0 <= v < |s'.workers| && s'.workers[v].node == m && Live(s'.workers[v]);
      assert s.workers[v].node == m && Live(s.workers[v]);
    }
  }

  lemma WorkKeepsInv(l: Limit, c: Config, bound: int, s: System, w: nat, a: NodeWorker.Answer)
    requires Inv(l, c, bound, s) && Possible(c, s, Work(w, a)) && Premise(l, c, s, Work(w, a))
    ensures Inv(l, c, bound, After(c, s, Work(w, a)))
  {
    var t := After(c, s, Work(w, a));
    assert Busy(s, s.workers[w].node);
    WorkKeepsWorkers(l, c, s, w, a);
    UsedMonotone(l, s.status, t.status, c.nodes);
    if s.pass.Scanning? {
      WorkKeepsScan(l, c, s, w, a);
    }
  }

  lemma WorkKeepsScan(l: Limit, c: Config, s: System, w: nat, a: NodeWorker.Answer)
    requires WorkersOk(l, s) && Possible(c, s, Work(w, a)) && Premise(l, c, s, Work(w, a))
    requires s.pass.Scanning? && ScanOk(l, c, s)
    ensures ScanOk(l, c, After(c, s, Work(w, a)))
  {
    var t := After(c, s, Work(w, a));
    var n := s.workers[w].node;
    assert Busy(s, n);
    WorkKeepsWorkers(l, c, s, w, a);
    UsedMonotone(l, s.status, t.status, c.nodes[..s.pass.i]);
    assert Free(t, s.pass.candidates) by {
      forall j | 0 <= j < |s.pass.candidates| ensures s.pass.candidates[j] != n {
        assert !Busy(s, s.pass.candidates[j]);
      }
    }
  }

  lemma DecideKeepsInv(l: Limit, c: Config, bound: int, s: System)
    requires bound >= Bound(l, c) && (l.ParallelLimit? ==> c.limits.maxParallel != 0)
    requires Inv(l, c, bound, s) && Possible(c, s, Decide)
    ensures Inv(l, c, bound, After(c, s, Decide))
  {
    var p := s.pass;
    assert c.nodes[..|c.nodes|] == c.nodes;
    QuotaIsExact(p.upgrading, p.failed, |c.nodes|, |p.candidates|, c.limits);
    assert p.candidates[0..] == p.candidates;
    var s' := After(c, s, Decide);
    assert forall m {:trigger Busy(s', m)} :: Busy(s', m) <==> Busy(s, m);
  }

  lemma StoreKeepsInv(l: Limit, c: Config, bound: int, s: System)
    requires Inv(l, c, bound, s) && Possible(c, s, StoreStarted)
    ensures Inv(l, c, bound, After(c, s, StoreStarted))
  {
    var s' := After(c, s, StoreStarted);
    var n := s.pass.admitted[s.pass.k];
    var rest := s.pass.admitted[s.pass.k..];
    assert rest[0] == n && !Busy(s, n);
    UsedUpdate(l, s.status, n, Started, c.nodes);
    assert forall m {:trigger Busy(s', m)} :: Busy(s', m) <==> Busy(s, m);
    var tail := s.pass.admitted[s.pass.k + 1..];
    forall j {:trigger tail[j]} | 0 <= j < |tail| ensures tail[j] == rest[j + 1] && tail[j] != n {
      assert rest[j + 1] == s.pass.admitted[s.pass.k + j + 1];
    }
  }

  lemma LaunchKeepsInv(l: Limit, c: Config, bound: int, s: System)
    requires Inv(l, c, bound, s) && Possible(c, s, Launch)
    ensures Inv(l, c, bound, After(c, s, Launch))
  {
    var s' := After(c, s, Launch);
    var n := s.pass.admitted[s.pass.k];
    assert !Busy(s, n);
    forall m | m != n && Busy(s', m) ensures Busy(s, m) {
      var v :| 0 <= v < |s'.workers| && s'.workers[v].node == m && Live(s'.workers[v]);
      assert s.workers[v] == s'.workers[v];
    }
    var rest := s.pass.admitted[s.pass.k + 1..];
    forall j {:trigger rest[j]} | 0 <= j < |rest| ensures rest[j] != n {
      assert rest[j] == s.pass.admitted[s.pass.k + 1 + j];
    }
  }

  lemma StepKeepsInv(l: Limit, c: Config, bound: int, s: System, a: Action)
    requires bound >= Bound(l, c) && (l.ParallelLimit? ==> c.limits.maxParallel != 0)
    requires Inv(l, c, bound, s) && Possible(c, s, a) && Premise(l, c, s, a)
    ensures Inv(l, c, bound, After(c, s, a))
  {
    match a
    case BeginPass =>
    case Look(f) => LookKeepsInv(l, c, bound, s, f);
    case Decide => DecideKeepsInv(l, c, bound, s);
    case StoreStarted => StoreKeepsInv(l, c, bound, s);
    case Launch => LaunchKeepsInv(l, c, bound, s);
    case EndPass =>
    case Work(w, answer) => WorkKeepsInv(l, c, bound, s, w, answer);
  }

  lemma {:induction false} RunKeepsInv(l: Limit, c: Config, bound: int, s: System, actions: seq<Action>)
    requires bound >= Bound(l, c) && (l.ParallelLimit? ==> c.limits.maxParallel != 0)
    requires Inv(l, c, bound, s) && Run(c, s, actions) && Obeys(l, c, s, actions)
    ensures Inv(l, c, bound, Final(c, s, actions))
    decreases |actions|
  {
    if actions != [] {
      StepKeepsInv(l, c, bound, s, actions[0]);
      RunKeepsInv(l, c, bound, After(c, s, actions[0]), actions[1..]);
    }
  }

  // ----- theorems -----

  /** Outside a pass and without workers, as after the start of the operator. */
  predicate Quiet(s: System) {
    s.pass.Idle? && s.workers == []
  }

  /** Between two passes: each running worker has a node of its own, in a state workers leave it in. */
  ghost predicate BetweenPasses(l: Limit, s: System) {
    s.pass.Idle? && WorkersOk(l, s)
  }

  /**
   * Upgrade safety over whole runs: no interleaving of passes and workers lets the number of
   * in-flight and failed nodes rise above the scaled maxUnavailableNodes, nor the number of
   * in-flight nodes above a nonzero maxParallelUpgrades (or above where it started, if that was
   * already more).
   */
  lemma LimitKeptOverRuns(l: Limit, c: Config, s: System, actions: seq<Action>)
    requires Distinct(c.nodes) && BetweenPasses(l, s)
    requires l.ParallelLimit? ==> c.limits.maxParallel != 0
    requires Run(c, s, actions) && Obeys(l, c, s, actions)
    ensures Used(l, Final(c, s, actions).status, c.nodes) <= Max(Bound(l, c), Used(l, s.status, c.nodes))
  {
    RunKeepsInv(l, c, Max(Bound(l, c), Used(l, s.status, c.nodes)), s, actions);
  }

  /**
   * The order of the checks tolerates concurrent progress: at any moment of any run, whatever the
   * worker does between two loads of the chain, a node waiting for admission is neither in flight
   * nor failed, and has no running worker; and no node ever has two running workers.
   */
  lemma InFlightNeverCandidate(c: Config, s: System, actions: seq<Action>)
    requires Distinct(c.nodes) && BetweenPasses(UnavailableLimit, s)
    requires Run(c, s, actions) && Obeys(UnavailableLimit, c, s, actions)
    ensures var t := Final(c, s, actions);
            && (t.pass.Scanning? ==> Free(t, t.pass.candidates))
            && (t.pass.Admitting? ==>
                  t.pass.k <= |t.pass.admitted| && forall j :: t.pass.k < j < |t.pass.admitted| ==>
                    !Unavailable(StateOf(t.status, t.pass.admitted[j])) && !Busy(t, t.pass.admitted[j]))
            && (forall v, w :: 0 <= v < w < |t.workers| && Live(t.workers[v]) && Live(t.workers[w]) ==>
                  t.workers[v].node != t.workers[w].node)
  {
    var l := UnavailableLimit;
    RunKeepsInv(l, c, Max(Bound(l, c), Used(l, s.status, c.nodes)), s, actions);
    var t := Final(c, s, actions);
    if t.pass.Admitting? {
      var from := if t.pass.stored then t.pass.k + 1 else t.pass.k;
      var rest := t.pass.admitted[from..];
      forall j | t.pass.k < j < |t.pass.admitted|
        ensures !Unavailable(StateOf(t.status, t.pass.admitted[j])) && !Busy(t, t.pass.admitted[j])
      {
        assert rest[j - from] == t.pass.admitted[j];
      }
    }
  }
}
