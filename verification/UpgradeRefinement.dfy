/** A pass of the upgrade manager that nobody interrupts is a run of the transition system. */
module UpgradeRefinement {
  import opened Common
  import opened UpgradeTypes
  import opened Classification
  import opened UpgradePass
  import opened UpgradeRuns
  import opened UpgradeSteps
  import NodeWorker

  /** Both maps give every node the same state. */
  ghost predicate SameStates(a: StatusMap, b: StatusMap) {
    forall n :: StateOf(a, n) == StateOf(b, n)
  }

  lemma PutSame(a: StatusMap, b: StatusMap, n: string, x: UpgradeState)
    requires SameStates(a, b)
    ensures SameStates(a[n := x], Put(b, n, x)) && SameStates(Put(a, n, x), Put(b, n, x))
  {
    forall m ensures StateOf(a[n := x], m) == StateOf(Put(b, n, x), m) == StateOf(Put(a, n, x), m) {
      assert StateOf(a, m) == StateOf(b, m);
    }
  }

  /** What the pass learns about the i-th node, given its start time in memory. */
  type Learn = (nat, Option<int>) -> Facts

  ghost predicate Judges(look: Look, learn: Learn) {
    forall i, t, s :: look(i, t, s) == Classify(learn(i, t), s)
  }

  ghost predicate ScanAgrees(t: System, k: nat, sc: Scan, workers: seq<Worker>) {
    && t.workers == workers
    && t.pass == Scanning(k, InitLoad, sc.candidates, sc.upgrading, sc.failed)
    && SameStates(t.status, sc.status)
  }

  /** The facts about a node are such that a pass may look at it under the rule. */
  ghost predicate Fine(r: Rule, s: System, n: string, f: Facts)
    requires !r.Without?
  {
    r.Obeying? ==>
      UncordonsSucceed(f) && (Busy(s, n) ==> !f.retry && (r.limit.ParallelLimit? ==> !f.timeUp))
  }

  /** What the pass learns when it gets to the i-th node. */
  ghost function Learned(learn: Learn, look: Look, names: seq<string>, status: StatusMap, times: Times, i: nat): Facts
    requires i < |names|
  {
    learn(i, TimeOf(ScanTo(look, names, status, times, i).times, names[i]))
  }

  lemma {:induction false} ScanIsRun(
    r: Rule, c: Config, s: System, learn: Learn, look: Look, status: StatusMap, times: Times, k: nat)
        returns (t: System)
    requires !r.Without?
    requires k <= |c.nodes| && s.pass.Idle? && SameStates(s.status, status) && Judges(look, learn)
    requires forall i {:trigger Learned(learn, look, c.nodes, status, times, i)} :: 0 <= i < k ==>
               Fine(r, s, c.nodes[i], Learned(learn, look, c.nodes, status, times, i))
    ensures Reaches(r, c, s, t) && ScanAgrees(t, k, ScanTo(look, c.nodes, status, times, k), s.workers)
  {
    if k == 0 {
      t := ScanBegins(r, c, s, status, times);
    } else {
      t := ScanIsRun(r, c, s, learn, look, status, times, k - 1);
      var i: nat, sc := k - 1, ScanTo(look, c.nodes, status, times, k - 1);
      assert learn(i, TimeOf(sc.times, c.nodes[i])) == Learned(learn, look, c.nodes, status, times, i);
      t := LookIsStep(r, c, s, t, learn, look, i, sc);
    }
  }

  lemma ScanBegins(r: Rule, c: Config, s: System, status: StatusMap, times: Times) returns (t: System)
    requires s.pass.Idle? && SameStates(s.status, status)
    ensures Reaches(r, c, s, t) && ScanAgrees(t, 0, Scan(status, times, 0, 0, 0, 0, 0, []), s.workers)
  {
    Stays(r, c, s);
    t := Begin(r, c, s, s);
  }

  lemma LookIsStep(r: Rule, c: Config, s: System, t: System, learn: Learn, look: Look, i: nat, sc: Scan)
      returns (u: System)
    requires !r.Without?
    requires Reaches(r, c, s, t) && i < |c.nodes| && ScanAgrees(t, i, sc, s.workers) && Judges(look, learn)
    requires Fine(r, s, c.nodes[i], learn(i, TimeOf(sc.times, c.nodes[i])))
    ensures Reaches(r, c, s, u) && ScanAgrees(u, i + 1, ScanStep(look, i, c.nodes[i], sc), s.workers)
  {
    var n := c.nodes[i];
    var f := learn(i, TimeOf(sc.times, n));
    var x := StateOf(sc.status, n);
    var (y, b) := look(i, TimeOf(sc.times, n), x);
    assert Seen(c, t) == x;
    ChainIsClassify(t.pass.check, f, x);
    FinePermits(r, c, s, t, f);
    u := LookOn(r, c, s, t, f, y, b);
    SettledAgrees(c, t, i, sc, y, b);
  }

  lemma FinePermits(r: Rule, c: Config, s: System, t: System, f: Facts)
    requires !r.Without?
    requires Looking(c, t) && t.workers == s.workers && Fine(r, s, c.nodes[t.pass.i], f)
    ensures Permits(r, c, t, Look(f))
  {
    assert BusyUnderScan(c, t) <==> Busy(s, c.nodes[t.pass.i]);
  }

  lemma SettledAgrees(c: Config, t: System, i: nat, sc: Scan, y: UpgradeState, b: Bucket)
    requires i < |c.nodes| && ScanAgrees(t, i, sc, t.workers)
    ensures ScanAgrees(Settled(c, t, y, b), i + 1, Record(sc, c.nodes[i], y, b), t.workers)
  {
    PutSame(t.status, sc.status, c.nodes[i], y);
  }

  lemma StartOne(r: Rule, c: Config, s: System, t: System) returns (u: System)
    requires Reaches(r, c, s, t) && t.pass.Admitting? && !t.pass.stored && t.pass.k < t.pass.quota <= |t.pass.admitted|
    ensures Reaches(r, c, s, u)
    ensures var n := t.pass.admitted[t.pass.k];
            u == System(t.status[n := Started], t.workers + [Worker(n, NodeWorker.ReadNode)],
                t.pass.(k := t.pass.k + 1))
  {
    Then(r, c, s, t, StoreStarted);
    u := UpgradeRuns.After(c, t, StoreStarted);
    Then(r, c, s, u, Launch);
    u := UpgradeRuns.After(c, u, Launch);
  }

  function Launched(workers: seq<Worker>, started: seq<string>): seq<Worker> {
    workers + seq(|started|, i requires 0 <= i < |started| => Worker(started[i], NodeWorker.ReadNode))
  }

  lemma {:induction false} AdmissionIsRun(
    r: Rule, c: Config, s: System, t: System, times: Times, starts: seq<int>, k: nat) returns (u: System)
    requires Reaches(r, c, s, t) && t.pass.Admitting? && !t.pass.stored && t.pass.k == 0
    requires k <= t.pass.quota <= |t.pass.admitted| <= |starts|
    ensures Reaches(r, c, s, u)
    ensures var p := t.pass;
            && u.pass == Admitting(k, false, p.quota, p.admitted)
            && u.workers == Launched(t.workers, p.admitted[..k])
            && SameStates(u.status, StartTo(t.status, times, p.admitted, starts, k).0)
  {
    if k == 0 {
      u := t;
      assert Launched(t.workers, []) == t.workers;
    } else {
      var v := AdmissionIsRun(r, c, s, t, times, starts, k - 1);
      u := StartOne(r, c, s, v);
      var a := t.pass.admitted;
      PutSame(v.status, StartTo(t.status, times, a, starts, k - 1).0, a[k - 1], Started);
      assert a[..k] == a[..k - 1] + [a[k - 1]];
      assert Launched(t.workers, a[..k]) == Launched(t.workers, a[..k - 1]) + [Worker(a[k - 1], NodeWorker.ReadNode)];
    }
  }

  lemma {:induction false} StartToSame(a: StatusMap, b: StatusMap, times: Times, candidates: seq<string>,
      starts: seq<int>, k: nat)
    requires k <= |candidates| <= |starts| && SameStates(a, b)
    ensures SameStates(StartTo(a, times, candidates, starts, k).0, StartTo(b, times, candidates, starts, k).0)
  {
    if k > 0 {
      StartToSame(a, b, times, candidates, starts, k - 1);
      PutSame(StartTo(a, times, candidates, starts, k - 1).0, StartTo(b, times, candidates, starts, k - 1).0,
              candidates[k - 1], Started);
    }
  }

  lemma ConcludeIsRun(r: Rule, c: Config, s: System, t: System, sc: Scan, starts: seq<int>) returns (u: System)
    requires Reaches(r, c, s, t) && ScanAgrees(t, |c.nodes|, sc, s.workers) && |sc.candidates| <= |starts|
    ensures var p := Conclude(sc, c.limits, |c.nodes|, starts);
            Reaches(r, c, s, u) && u.pass.Idle? && SameStates(u.status, p.status)
                && u.workers == Launched(s.workers, p.started)
  {
    Then(r, c, s, t, Decide);
    u := UpgradeRuns.After(c, t, Decide);
    var q := u.pass.quota;
    var m := u.status;
    u := AdmissionIsRun(r, c, s, u, sc.times, starts, q);
    StartToSame(m, sc.status, sc.times, sc.candidates, starts, q);
    Then(r, c, s, u, EndPass);
    u := UpgradeRuns.After(c, u, EndPass);
  }

  /**
   * The circumstances of a pass under which a limit is kept: uncordon calls succeed, and no node with
   * a running worker gets a retry or, for the limit on parallel upgrades, runs out of time.
   */
  ghost predicate Orderly(l: Limit, dc: DeviceConfig, nodes: seq<Node>, apis: seq<Api>, times: Times, s: System)
    requires |nodes| == |apis|
  {
    forall i :: 0 <= i < |nodes| ==>
        Fine(Obeying(l), s, nodes[i].name, FactsOf(dc, nodes[i], apis[i], TimeOf(times, nodes[i].name)))
  }

  /**
   * HandleUpgrade refines the transition system: run without interference on a DeviceConfig whose
   * version has not changed, a pass is a run from idle to idle that ends with the same node states
   * and has launched one worker for every started node. In orderly circumstances the run obeys the
   * premises of the limit.
   */
  lemma PassIsRun(r: Rule, dc: DeviceConfig, nodes: seq<Node>, apis: seq<Api>, starts: seq<int>,
                  current: string, status: StatusMap, times: Times, reboot: bool, s: System) returns (t: System)
    requires !r.Without?
    requires |nodes| == |apis| == |starts| && Managed(dc) && (current == "" || current == dc.version)
    requires s.pass.Idle? && SameStates(s.status, status)
    requires r.Obeying? ==> Distinct(Names(nodes)) && Orderly(r.limit, dc, nodes, apis, times, s)
    ensures var p := RunPass(dc, nodes, apis, starts, current, status, times);
            && Reaches(r, ConfigOf(dc, nodes, reboot), s, t)
            && t.pass.Idle? && SameStates(t.status, p.status) && t.workers == Launched(s.workers, p.started)
  {
    var c := ConfigOf(dc, nodes, reboot);
    var look := LookOf(dc, nodes, apis);
    var learn := LearnOf(dc, nodes, apis);
    LookFollows(dc, nodes, apis, look, learn);
    var total := Extended(look, learn, |nodes|);
    SameScan(look, total, c.nodes, status, times, |nodes|);
    forall i | 0 <= i < |nodes| ensures Fine(r, s, c.nodes[i], Learned(learn, total, c.nodes, status, times, i)) {
      if r.Obeying? {
        OrderlyScan(r.limit, dc, nodes, apis, times, s, total, status, i);
      }
    }
    t := ScanIsRun(r, c, s, learn, total, status, times, |nodes|);
    t := ConcludeIsRun(r, c, s, t, PassScan(dc, nodes, apis, current, status, times), starts);
  }

  function ConfigOf(dc: DeviceConfig, nodes: seq<Node>, reboot: bool): Config
    requires Managed(dc)
  {
    Config(Names(nodes), dc.policy.value.limits, reboot)
  }

  /** When the scan gets to a node, its start time in memory is still that of the beginning. */
  lemma OrderlyScan(l: Limit, dc: DeviceConfig, nodes: seq<Node>, apis: seq<Api>, times: Times, s: System,
                    look: Look, status: StatusMap, i: nat)
    requires |nodes| == |apis| && i < |nodes| && Distinct(Names(nodes)) && Orderly(l, dc, nodes, apis, times, s)
    ensures Fine(Obeying(l), s, Names(nodes)[i],
                 Learned(LearnOf(dc, nodes, apis), look, Names(nodes), status, times, i))
  {
    var names := Names(nodes);
    ScanForgetsTimes(look, names, status, times, i);
    assert names[i] !in names[..i];
    assert Fine(Obeying(l), s, nodes[i].name, FactsOf(dc, nodes[i], apis[i], TimeOf(times, nodes[i].name)));
  }

  lemma UsedSame(l: Limit, a: StatusMap, b: StatusMap, nodes: seq<string>)
    requires SameStates(a, b)
    ensures Used(l, a, nodes) == Used(l, b, nodes)
  {
    UsedMonotone(l, a, b, nodes);
    UsedMonotone(l, b, a, nodes);
  }

  /**
   * The limits hold for the passes the manager makes: whatever workers are running, a pass in
   * orderly circumstances leaves no more nodes counted than the limit allows, or than there were;
   * and afterwards each running worker again has a node of its own.
   */
  lemma PassKeepsLimit(l: Limit, dc: DeviceConfig, nodes: seq<Node>, apis: seq<Api>, starts: seq<int>,
                       current: string, status: StatusMap, times: Times, reboot: bool, s: System)
    requires |nodes| == |apis| == |starts| && Managed(dc) && (current == "" || current == dc.version)
    requires Distinct(Names(nodes)) && BetweenPasses(l, s) && SameStates(s.status, status)
    requires Orderly(l, dc, nodes, apis, times, s)
    requires l.ParallelLimit? ==> dc.policy.value.limits.maxParallel != 0
    ensures var p := RunPass(dc, nodes, apis, starts, current, status, times);
            var bound := Bound(l, ConfigOf(dc, nodes, reboot));
            && Used(l, p.status, Names(nodes)) <= Max(bound, Used(l, status, Names(nodes)))
            && BetweenPasses(l, System(p.status, Launched(s.workers, p.started), Idle))
  {
    var c := ConfigOf(dc, nodes, reboot);
    var t := PassIsRun(Obeying(l), dc, nodes, apis, starts, current, status, times, reboot, s);
    var actions :| Run(c, s, actions) && Final(c, s, actions) == t && Follows(Obeying(l), c, s, actions);
    FollowsIsObeys(l, c, s, actions);
    LimitKeptOverRuns(l, c, s, actions);
    RunKeepsInv(l, c, Max(Bound(l, c), Used(l, s.status, c.nodes)), s, actions);
    var p := RunPass(dc, nodes, apis, starts, current, status, times);
    UsedSame(l, s.status, status, c.nodes);
    UsedSame(l, t.status, p.status, c.nodes);
  }

  function LearnOf(dc: DeviceConfig, nodes: seq<Node>, apis: seq<Api>): Learn
    requires |nodes| == |apis|
  {
    var unknown := Facts(false, false, false, false, false, false, false, false, false, false, false, false);
    (i: nat, t: Option<int>) => if i < |nodes| then FactsOf(dc, nodes[i], apis[i], t) else unknown
  }

  /** The verdicts of a look within the list, and those of the chain beyond it. */
  function Extended(look: Look, learn: Learn, total: nat): Look {
    (i: nat, t: Option<int>, s: UpgradeState) => if i < total then look(i, t, s) else Classify(learn(i, t), s)
  }

  lemma LookFollows(dc: DeviceConfig, nodes: seq<Node>, apis: seq<Api>, look: Look, learn: Learn)
    requires |nodes| == |apis| && look == LookOf(dc, nodes, apis) && learn == LearnOf(dc, nodes, apis)
    ensures Judges(Extended(look, learn, |nodes|), learn)
  {
  }

  lemma {:induction false} SameScan(a: Look, b: Look, names: seq<string>, status: StatusMap, times: Times, k: nat)
    requires k <= |names| && forall i: nat, t, s :: i < |names| ==> a(i, t, s) == b(i, t, s)
    ensures ScanTo(a, names, status, times, k) == ScanTo(b, names, status, times, k)
  {
    if k > 0 {
      SameScan(a, b, names, status, times, k - 1);
    }
  }
}
