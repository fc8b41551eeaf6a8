/**
 * One pass of the upgrade manager: the objects it reads, the class that holds its state, and what
 * the pass does to that state. Answers of the API server and clock readings are parameters.
 */
module UpgradePass {
  import opened Common
  import opened UpgradeTypes
  import opened Classification
  import NodeWorker

  datatype ConditionKind = NodeReady | OtherKind

  datatype ConditionStatus = IsTrue | IsFalse | IsUnknown

  datatype Condition = Condition(kind: ConditionKind, status: ConditionStatus)

  datatype Node = Node(
    name: string,
    moduleVersion: Option<string>,   // value of the KMM version label of this DeviceConfig
    upgradeRequired: bool,           // the retry label asks for another upgrade
    unschedulable: bool,
    conditions: seq<Condition>)

  /** Persisted status of one node; None stands for an empty or unreadable start time. */
  datatype ModuleStatus = ModuleStatus(image: string, status: UpgradeState, startTime: Option<int>, bootId: string)

  datatype UpgradePolicy = UpgradePolicy(enable: Option<bool>, limits: Limits, reboot: bool)

  datatype DeviceConfig = DeviceConfig(
    namespace: string,
    name: string,
    version: string,
    driverEnable: Option<bool>,
    policy: Option<UpgradePolicy>,
    nodeModuleStatus: map<string, ModuleStatus>)

  /** How the calls made while looking at one node turn out. */
  datatype Api = Api(
    removeLabelOk: bool,
    resetVersionOk: bool,
    uncordonMissingOk: bool,
    uncordonReadyOk: bool,
    updateOk: bool,
    defaultVersion: string,    // default driver version for the node's OS, empty if there is none
    now: int)                  // seconds

  const TIMEOUT := 2 * 60 * 60

  type Times = map<string, Option<int>>

  function TimeOf(m: Times, n: string): Option<int> {
    if n in m then m[n] else None
  }

  function DriverVersion(dc: DeviceConfig, api: Api): string {
    if dc.version != "" then dc.version else api.defaultVersion
  }

  predicate Schedulable(node: Node) {
    !node.unschedulable &&
    forall i :: 0 <= i < |node.conditions| && node.conditions[i].kind.NodeReady? ==> node.conditions[i].status.IsTrue?
  }

  /** The start time on which the two-hour check is based, if there is one. */
  function StartUsed(dc: DeviceConfig, n: string, inMemory: Option<int>): Option<int> {
    if n !in dc.nodeModuleStatus then None
    else if inMemory.Some? then inMemory
    else
      var entry := dc.nodeModuleStatus[n];
      if InFlight(entry.status) || entry.status.InstallInProgress? then entry.startTime else None
  }

  predicate TimeExceeded(dc: DeviceConfig, n: string, inMemory: Option<int>, now: int) {
    var start := StartUsed(dc, n, inMemory);
    start.Some? && now - start.value > TIMEOUT
  }

  function FactsOf(dc: DeviceConfig, node: Node, api: Api, inMemory: Option<int>): Facts {
    var tracked := node.name in dc.nodeModuleStatus;
    Facts(
      retry := node.upgradeRequired && api.removeLabelOk && api.resetVersionOk,
      timeUp := TimeExceeded(dc, node.name, inMemory, api.now),
      tracked := tracked,
      imageEmpty := tracked && dc.nodeModuleStatus[node.name].image == "",
      upToDate := tracked && HasSuffix(dc.nodeModuleStatus[node.name].image, DriverVersion(dc, api)),
      wasInstalling := tracked && dc.nodeModuleStatus[node.name].status.InstallInProgress?,
      labelled := node.moduleVersion.Some?,
      labelCurrent := node.moduleVersion == Some(dc.version),
      uncordonMissingOk := api.uncordonMissingOk,
      uncordonReadyOk := api.uncordonReadyOk,
      updateOk := api.updateOk,
      schedulable := Schedulable(node))
  }

  // ----- the first pass after a start -----

  /** What the first pass after a start of the operator finds out about a node. */
  datatype Boot = Boot(
    bootId: Option<string>,                // of the node, if it can be read
    answers: seq<NodeWorker.Answer>,       // to the calls of a reboot that the pass makes up for
    podFound: bool)                        // the reboot pod is still there

  /** The answers lead a worker from `pc` to its end. */
  predicate Completes(pc: NodeWorker.Pc, answers: seq<NodeWorker.Answer>)
    decreases |answers|
  {
    pc.Returned? || (answers != [] && Completes(NodeWorker.Step(true, pc, answers[0]).0, answers[1..]))
  }

  /** The events of a worker that goes on from `pc`. */
  function Trail(pc: NodeWorker.Pc, answers: seq<NodeWorker.Answer>): seq<NodeWorker.Event>
    decreases |answers|
  {
    if pc.Returned? || answers == [] then []
    else
      var (pc', e) := NodeWorker.Step(true, pc, answers[0]);
      [e] + Trail(pc', answers[1..])
  }

  /** The state stored last. */
  function LastStore(h: seq<NodeWorker.Event>): Option<UpgradeState> {
    if h == [] then None
    else
      var later := LastStore(h[1..]);
      if later.None? && h[0].Wrote? then Some(h[0].state) else later
  }

  lemma {:induction false} LastStoreIsLast(h: seq<NodeWorker.Event>, x: UpgradeState)
    ensures LastStore(h) == None <==> forall k :: 0 <= k < |h| ==> !h[k].Wrote?
    ensures LastStore(h) == Some(x) <==>
            exists k :: 0 <= k < |h| && h[k] == NodeWorker.Wrote(x) && forall j :: k < j < |h| ==> !h[j].Wrote?
  {
    if h != [] {
      var t := h[1..];
      LastStoreIsLast(t, x);
      assert forall j :: 0 <= j < |t| ==> t[j] == h[j + 1];
      if k :| 0 <= k < |t| && t[k] == NodeWorker.Wrote(x) && forall j :: k < j < |t| ==> !t[j].Wrote? {
        assert h[k + 1] == NodeWorker.Wrote(x);
        forall j | k + 1 < j < |h| ensures !h[j].Wrote? {
          assert t[j - 1] == h[j];
        }
      }
      if k :| 0 <= k < |h| && h[k] == NodeWorker.Wrote(x) && forall j :: k < j < |h| ==> !h[j].Wrote? {
        if k > 0 {
          assert t[k - 1] == NodeWorker.Wrote(x);
        }
      }
    }
  }

  /** The state that a reboot made up for leaves behind, if it stores one. */
  function Rebooted(boot: Boot): Option<UpgradeState> {
    LastStore(Trail(NodeWorker.FindOldPod, boot.answers))
  }

  /** The node has not rebooted since its upgrade was started. */
  predicate SameBoot(entry: ModuleStatus, boot: Boot) {
    boot.bootId == Some(entry.bootId)
  }

  /** The state that the first pass stores for a node with this persisted entry. */
  function Restored(reboot: bool, entry: ModuleStatus, boot: Boot): Option<UpgradeState> {
    if entry.status.Started? then
      if !reboot then Some(Empty)
      else if SameBoot(entry, boot) then Rebooted(boot)
      else None
    else if entry.status.RebootInProgress? && !boot.podFound then Some(InProgress)
    else Some(entry.status)
  }

  /** Whether a goroutine is started to delete the reboot pod of the node, and if so whether at once. */
  function Cleaner(reboot: bool, entry: ModuleStatus, boot: Boot): Option<bool> {
    if entry.status.Started? && !reboot then Some(true)
    else if entry.status.Started? && boot.bootId.Some? && !SameBoot(entry, boot) then Some(false)
    else if entry.status.RebootInProgress? && boot.podFound then Some(false)
    else None
  }

  type Boots = string -> Boot

  /** The statuses after the first pass has gone through the persisted ones. */
  ghost predicate RestoredFrom(status: StatusMap, before: StatusMap, dc: DeviceConfig, reboot: bool, boots: Boots) {
    forall n :: StateOf(status, n) ==
      if n in dc.nodeModuleStatus && Restored(reboot, dc.nodeModuleStatus[n], boots(n)).Some?
      then Restored(reboot, dc.nodeModuleStatus[n], boots(n)).value
      else StateOf(before, n)
  }

  /** The goroutines that the first pass starts. */
  ghost predicate CleanersOf(cleaners: map<string, bool>, dc: DeviceConfig, reboot: bool, boots: Boots) {
    forall n :: (if n in cleaners then Some(cleaners[n]) else None) ==
      if n in dc.nodeModuleStatus then Cleaner(reboot, dc.nodeModuleStatus[n], boots(n)) else None
  }

  predicate RebootState(x: UpgradeState) {
    x.InProgress? || x.RebootInProgress? || x.Failed? || x.RebootFailed?
  }

  lemma {:induction false} RebootStores(pc: NodeWorker.Pc, answers: seq<NodeWorker.Answer>)
    requires pc.Store? ==> RebootState(pc.state)
    requires !pc.ReadNode? && !pc.Cordon? && !pc.AfterCordon? && !pc.Drain? && !pc.AfterDrain?
    ensures var x := LastStore(Trail(pc, answers)); x.Some? ==> RebootState(x.value)
    decreases |answers|
  {
    if !pc.Returned? && answers != [] {
      var (pc', e) := NodeWorker.Step(true, pc, answers[0]);
      RebootStores(pc', answers[1..]);
      assert Trail(pc, answers)[1..] == Trail(pc', answers[1..]);
    }
  }

  /** The restored state and the goroutine for every persisted state. */
  lemma RestoredExactly(reboot: bool, entry: ModuleStatus, boot: Boot)
    ensures var x, g := Restored(reboot, entry, boot), Cleaner(reboot, entry, boot);
            match entry.status
            case Started =>
              if !reboot then x == Some(Empty) && g == Some(true)
              else if boot.bootId.None? then x == None && g == None
              else if boot.bootId.value == entry.bootId then x == Rebooted(boot) && g == None
              else x == None && g == Some(false)
            case RebootInProgress =>
              if boot.podFound then x == Some(RebootInProgress) && g == Some(false)
              else x == Some(InProgress) && g == None
            case other => x == Some(other) && g == None
  {
  }

  /**
   * What a restart forgets. A fresh manager takes a node that was persisted as in flight or failed for
   * such a node again, except exactly in these cases: its upgrade was only started, and no reboot is
   * asked for, or the node cannot be read, or it has rebooted meanwhile, or the reboot made up for
   * returns without having stored a state, or fails.
   */
  lemma RestartForgetsExactly(status: StatusMap, dc: DeviceConfig, reboot: bool, boots: Boots, n: string)
    requires RestoredFrom(status, map[], dc, reboot, boots) && n in dc.nodeModuleStatus
    requires Unavailable(dc.nodeModuleStatus[n].status) && Completes(NodeWorker.FindOldPod, boots(n).answers)
    ensures var entry, boot := dc.nodeModuleStatus[n], boots(n);
            !Unavailable(StateOf(status, n)) <==>
              && entry.status.Started?
              && (|| !reboot || boot.bootId != Some(entry.bootId)
                  || Rebooted(boot).None? || Rebooted(boot) == Some(RebootFailed))
  {
    RebootStores(NodeWorker.FindOldPod, boots(n).answers);
  }

  // ----- what a pass does -----

  /** Storing the state a node is already in leaves the map alone. */
  function Put(m: StatusMap, n: string, s: UpgradeState): StatusMap {
    if StateOf(m, n) == s then m else m[n := s]
  }

  /** Of two states stored one after the other, the second remains. */
  lemma PutTwice(m: StatusMap, n: string, a: UpgradeState, b: UpgradeState)
    requires !b.Empty?
    ensures Put(Put(m, n, a), n, b) == Put(m, n, b) && StateOf(Put(m, n, a), n) == a
  {
    if StateOf(m, n) == b {
      assert m[n := a][n := b] == m;
    } else if StateOf(m, n) != a {
      assert m[n := a][n := b] == m[n := b];
    }
  }

  datatype Scan = Scan(
    status: StatusMap,
    times: Times,
    failed: nat,
    upgrading: nat,
    done: nat,
    installing: nat,
    notReady: nat,
    candidates: seq<string>)

  /** The counters of the scanning loop. */
  datatype Tally = Tally(
    failed: nat, upgrading: nat, done: nat, installing: nat, notReady: nat, candidates: seq<string>)

  function TallyOf(sc: Scan): Tally {
    Tally(sc.failed, sc.upgrading, sc.done, sc.installing, sc.notReady, sc.candidates)
  }

  function Record(sc: Scan, n: string, s: UpgradeState, b: Bucket): Scan {
    var status := Put(sc.status, n, s);
    match b
    case FailedNode => sc.(status := status, times := sc.times[n := None], failed := sc.failed + 1)
    case Upgrading => sc.(status := status, upgrading := sc.upgrading + 1)
    case Done => sc.(status := status, times := sc.times[n := None], done := sc.done + 1)
    case Installing => sc.(status := status, installing := sc.installing + 1)
    case NotReady => sc.(status := status, notReady := sc.notReady + 1)
    case Candidate => sc.(status := status, candidates := sc.candidates + [n])
  }

  /** The verdict on the i-th node, given its start time in memory and its state. */
  type Look = (nat, Option<int>, UpgradeState) -> (UpgradeState, Bucket)

  function LookOf(dc: DeviceConfig, nodes: seq<Node>, apis: seq<Api>): Look {
    (i: nat, t: Option<int>, s: UpgradeState) =>
      if i < |nodes| && i < |apis| then Classify(FactsOf(dc, nodes[i], apis[i], t), s) else (s, NotReady)
  }

  /** The state of a pass after it has looked at the first k nodes. */
  function ScanTo(look: Look, names: seq<string>, status: StatusMap, times: Times, k: nat): Scan
    requires k <= |names|
  {
    if k == 0 then Scan(status, times, 0, 0, 0, 0, 0, [])
    else
      ScanStep(look, k - 1, names[k - 1], ScanTo(look, names, status, times, k - 1))
  }

  /** The scan after one more node. */
  function ScanStep(look: Look, i: nat, n: string, sc: Scan): Scan {
    var (s, b) := look(i, TimeOf(sc.times, n), StateOf(sc.status, n));
    Record(sc, n, s, b)
  }

  function Names(nodes: seq<Node>): seq<string> {
    seq(|nodes|, i requires 0 <= i < |nodes| => nodes[i].name)
  }

  /** Statuses and start times after the first k candidates were started at the given times. */
  function StartTo(status: StatusMap, times: Times, candidates: seq<string>, starts: seq<int>, k: nat)
    : (StatusMap, Times)
    requires k <= |candidates| <= |starts|
  {
    if k == 0 then (status, times)
    else
      var (m, t) := StartTo(status, times, candidates, starts, k - 1);
      (Put(m, candidates[k - 1], Started), t[candidates[k - 1] := Some(starts[k - 1])])
  }

  predicate Managed(dc: DeviceConfig) {
    && dc.driverEnable == Some(true)
    && dc.policy.Some? && dc.policy.value.enable != Some(false)
  }

  datatype PassResult = PassResult(status: StatusMap, times: Times, started: seq<string>, requeue: bool)

  /** The statuses a pass starts from: all forgotten when the driver version has changed. */
  function Kept(current: string, dc: DeviceConfig, status: StatusMap): StatusMap {
    if current != "" && current != dc.version then map[] else status
  }

  /** The scan of a whole pass. */
  function PassScan(dc: DeviceConfig, nodes: seq<Node>, apis: seq<Api>,
                    current: string, status: StatusMap, times: Times): (sc: Scan)
    ensures |sc.candidates| <= |nodes|
  {
    CandidatesFit(LookOf(dc, nodes, apis), Names(nodes), Kept(current, dc, status), times, |nodes|);
    ScanTo(LookOf(dc, nodes, apis), Names(nodes), Kept(current, dc, status), times, |nodes|)
  }

  /** What is left of a pass once all nodes are placed. */
  function Conclude(sc: Scan, limits: Limits, total: nat, starts: seq<int>): PassResult
    requires |sc.candidates| <= |starts|
  {
    var q := Quota(sc.upgrading, sc.failed, total, |sc.candidates|, limits);
    var (m, t) := StartTo(sc.status, sc.times, sc.candidates, starts, q);
    PassResult(m, t, sc.candidates[..q], sc.done != total)
  }

  function RunPass(dc: DeviceConfig, nodes: seq<Node>, apis: seq<Api>, starts: seq<int>,
                   current: string, status: StatusMap, times: Times): PassResult
    requires |nodes| == |apis| == |starts|
  {
    if !Managed(dc) then PassResult(status, times, [], false)
    else Conclude(PassScan(dc, nodes, apis, current, status, times), dc.policy.value.limits, |nodes|, starts)
  }

  // ----- properties of the scan -----

  function PlacedCount(sc: Scan): nat {
    sc.failed + sc.upgrading + sc.done + sc.installing + sc.notReady + |sc.candidates|
  }

  lemma OneMorePlaced(sc: Scan, n: string, s: UpgradeState, b: Bucket)
    ensures PlacedCount(Record(sc, n, s, b)) == PlacedCount(sc) + 1
  {
  }

  /** Classification is a partition: every node is counted in exactly one bucket. */
  lemma {:induction false} BucketsPartition(look: Look, names: seq<string>, status: StatusMap, times: Times, k: nat)
    requires k <= |names|
    ensures PlacedCount(ScanTo(look, names, status, times, k)) == k
  {
    if k > 0 {
      BucketsPartition(look, names, status, times, k - 1);
      var sc := ScanTo(look, names, status, times, k - 1);
      var n := names[k - 1];
      var (s, b) := look(k - 1, TimeOf(sc.times, n), StateOf(sc.status, n));
      OneMorePlaced(sc, n, s, b);
    }
  }

  lemma CandidatesFit(look: Look, names: seq<string>, status: StatusMap, times: Times, k: nat)
    requires k <= |names|
    ensures |ScanTo(look, names, status, times, k).candidates| <= k
  {
    BucketsPartition(look, names, status, times, k);
  }

  /** `index[j]` is the position of the j-th candidate in the node list; positions increase. */
  ghost predicate InListOrder(candidates: seq<string>, names: seq<string>, index: seq<nat>) {
    && |index| == |candidates|
    && (forall j :: 0 <= j < |index| ==> index[j] < |names| && names[index[j]] == candidates[j])
    && (forall i, j :: 0 <= i < j < |index| ==> index[i] < index[j])
  }

  /**
   * Candidates keep the order of the node list, and for distinct names the state of each candidate
   * at the end of the scan is the one with which its own verdict made it a candidate.
   */
  lemma {:induction false} CandidatesInOrder(
    look: Look, names: seq<string>, status: StatusMap, times: Times, k: nat)
    returns (index: seq<nat>, seen: seq<(Option<int>, UpgradeState)>)
    requires k <= |names| && Distinct(names)
    ensures var sc := ScanTo(look, names, status, times, k);
            && InListOrder(sc.candidates, names[..k], index)
            && Verdicts(look, index, seen, sc.candidates, sc.status)
  {
    index, seen := [], [];
    if k > 0 {
      var i, sc := k - 1, ScanTo(look, names, status, times, k - 1);
      index, seen := CandidatesInOrder(look, names, status, times, i);
      index, seen := OneMoreScanned(look, names, sc, i, index, seen);
      assert ScanTo(look, names, status, times, k) == ScanStep(look, i, names[i], sc);
    }
  }

  lemma OneMoreScanned(
    look: Look, names: seq<string>, sc: Scan, i: nat, index: seq<nat>, seen: seq<(Option<int>, UpgradeState)>)
    returns (index': seq<nat>, seen': seq<(Option<int>, UpgradeState)>)
    requires i < |names| && Distinct(names) && InListOrder(sc.candidates, names[..i], index)
    requires Verdicts(look, index, seen, sc.candidates, sc.status)
    ensures var next := ScanStep(look, i, names[i], sc);
            && InListOrder(next.candidates, names[..i + 1], index')
            && Verdicts(look, index', seen', next.candidates, next.status)
  {
    var n := names[i];
    var t, s := TimeOf(sc.times, n), StateOf(sc.status, n);
    index', seen' := index, seen;
    OlderCandidatesKept(look, names, sc, i, index);
    if look(i, t, s).1.Candidate? {
      OneMoreInOrder(sc.candidates, names, i, index);
      OneMoreVerdict(look, index, seen, sc.candidates, ScanStep(look, i, n, sc).status, i, (t, s), n);
      index', seen' := index + [i], seen + [(t, s)];
    }
  }

  /** Each candidate got its current state from the verdict that made it a candidate. */
  ghost predicate Verdicts(
    look: Look, index: seq<nat>, seen: seq<(Option<int>, UpgradeState)>, candidates: seq<string>, status: StatusMap) {
    && |seen| == |index| == |candidates|
    && forall j :: 0 <= j < |index| ==>
         look(index[j], seen[j].0, seen[j].1) == (StateOf(status, candidates[j]), Candidate)
  }

  lemma OneMoreVerdict(
    look: Look, index: seq<nat>, seen: seq<(Option<int>, UpgradeState)>, candidates: seq<string>, status: StatusMap,
    i: nat, now: (Option<int>, UpgradeState), n: string)
    requires Verdicts(look, index, seen, candidates, status)
    requires look(i, now.0, now.1) == (StateOf(status, n), Candidate)
    ensures Verdicts(look, index + [i], seen + [now], candidates + [n], status)
  {
  }

  lemma OneMoreInOrder(candidates: seq<string>, names: seq<string>, i: nat, index: seq<nat>)
    requires i < |names| && InListOrder(candidates, names[..i], index)
    ensures InListOrder(candidates + [names[i]], names[..i + 1], index + [i])
  {
    forall j | 0 <= j < |index| ensures names[..i + 1][index[j]] == candidates[j] {
      assert names[..i][index[j]] == names[index[j]];
    }
  }

  /** One more node does not change the state of the candidates before it. */
  lemma OlderCandidatesKept(look: Look, names: seq<string>, sc: Scan, i: nat, index: seq<nat>)
    requires i < |names| && Distinct(names) && InListOrder(sc.candidates, names[..i], index)
    ensures var next := ScanStep(look, i, names[i], sc);
            && sc.candidates <= next.candidates && InListOrder(sc.candidates, names[..i + 1], index)
            && forall j :: 0 <= j < |index| ==>
                StateOf(next.status, sc.candidates[j]) == StateOf(sc.status, sc.candidates[j])
  {
    forall j | 0 <= j < |index| ensures sc.candidates[j] != names[i] && names[..i + 1][index[j]] == sc.candidates[j] {
      assert names[..i][index[j]] == names[index[j]];
    }
  }

  /** A scan only forgets start times, and only of nodes it has already looked at. */
  lemma {:induction false} ScanForgetsTimes(look: Look, names: seq<string>, status: StatusMap, times: Times, k: nat)
    requires k <= |names|
    ensures var t := ScanTo(look, names, status, times, k).times;
            && (forall n :: TimeOf(t, n).None? || TimeOf(t, n) == TimeOf(times, n))
            && (forall n :: n !in names[..k] ==> TimeOf(t, n) == TimeOf(times, n))
  {
    if k > 0 {
      ScanForgetsTimes(look, names, status, times, k - 1);
      assert names[..k] == names[..k - 1] + [names[k - 1]];
    }
  }

  /**
   * Every candidate of a pass is a schedulable, ready node of the list, taken in list order, whose
   * state is neither in flight nor an installation.
   */
  lemma CandidatesAreOffered(dc: DeviceConfig, nodes: seq<Node>, apis: seq<Api>,
                             current: string, status: StatusMap, times: Times) returns (index: seq<nat>)
    requires |nodes| == |apis| && Distinct(Names(nodes))
    ensures var sc := PassScan(dc, nodes, apis, current, status, times);
            && InListOrder(sc.candidates, Names(nodes), index) && Distinct(sc.candidates)
            && forall j :: 0 <= j < |index| ==>
                 var s := StateOf(sc.status, sc.candidates[j]);
                 Schedulable(nodes[index[j]]) && !InFlight(s) && !s.InstallInProgress? && !s.Empty?
  {
    var seen;
    var look := LookOf(dc, nodes, apis);
    index, seen := CandidatesInOrder(look, Names(nodes), Kept(current, dc, status), times, |nodes|);
    assert Names(nodes)[..|nodes|] == Names(nodes);
    var sc := PassScan(dc, nodes, apis, current, status, times);
    forall i, j | 0 <= i < j < |sc.candidates| ensures sc.candidates[i] != sc.candidates[j] {
      assert index[i] < index[j];
    }
    forall j | 0 <= j < |index|
      ensures var s := StateOf(sc.status, sc.candidates[j]);
              Schedulable(nodes[index[j]]) && !InFlight(s) && !s.InstallInProgress? && !s.Empty?
    {
      var i := index[j];
      CandidateState(FactsOf(dc, nodes[i], apis[i], seen[j].0), seen[j].1);
    }
  }

  lemma CandidateState(f: Facts, s: UpgradeState)
    ensures var (x, b) := Classify(f, s);
            && !x.Empty?
            && (b.Candidate? ==> f.schedulable && !IsNew(f) && !InFlight(x) && !x.InstallInProgress?)
  {
  }

  // ----- what the scan makes of one node -----

  /** A scan leaves nodes alone that it has not looked at. */
  lemma {:induction false} NotYetScanned(
    look: Look, names: seq<string>, status: StatusMap, times: Times, k: nat, n: string)
    requires k <= |names| && n !in names[..k]
    ensures var sc := ScanTo(look, names, status, times, k);
            StateOf(sc.status, n) == StateOf(status, n) && TimeOf(sc.times, n) == TimeOf(times, n)
                && n !in sc.candidates
  {
    if k > 0 {
      assert names[..k] == names[..k - 1] + [names[k - 1]];
      NotYetScanned(look, names, status, times, k - 1, n);
    }
  }

  /**
   * The verdict on a node stands in the outcome of a scan: the node has the state of the verdict, is among
   * the candidates exactly if the verdict says so, and has lost its start time exactly if it failed or is
   * done.
   */
  predicate Stands(verdict: (UpgradeState, Bucket), time: Option<int>, sc: Scan, n: string) {
    && StateOf(sc.status, n) == verdict.0 && (n in sc.candidates <==> verdict.1 == Candidate)
    && TimeOf(sc.times, n) == if verdict.1 == FailedNode || verdict.1 == Done then None else time
  }

  /** For each node a scan has looked at, the verdict on the node's own state and start time stands. */
  lemma {:induction false} NodeVerdict(
    look: Look, names: seq<string>, status: StatusMap, times: Times, k: nat, i: nat)
    requires i < k <= |names| && Distinct(names)
    ensures var n := names[i];
            Stands(look(i, TimeOf(times, n), StateOf(status, n)), TimeOf(times, n),
                   ScanTo(look, names, status, times, k), n)
  {
    if i == k - 1 {
      JustScanned(look, names, status, times, i);
    } else {
      var n, time, verdict := names[i], TimeOf(times, names[i]), look(i, TimeOf(times, names[i]), StateOf(status,
          names[i]));
      NodeVerdict(look, names, status, times, k - 1, i);
      StillStands(look, names, status, times, k - 1, n, verdict, time);
    }
  }

  lemma JustScanned(look: Look, names: seq<string>, status: StatusMap, times: Times, i: nat)
    requires i < |names| && Distinct(names)
    ensures var n := names[i];
            Stands(look(i, TimeOf(times, n), StateOf(status, n)), TimeOf(times, n),
                   ScanTo(look, names, status, times, i + 1), n)
  {
    var n := names[i];
    assert n !in names[..i];
    NotYetScanned(look, names, status, times, i, n);
    OwnStep(look, i, n, ScanTo(look, names, status, times, i));
  }

  lemma StillStands(look: Look, names: seq<string>, status: StatusMap, times: Times, k: nat, n: string,
                    verdict: (UpgradeState, Bucket), time: Option<int>)
    requires k < |names| && names[k] != n && Stands(verdict, time, ScanTo(look, names, status, times, k), n)
    ensures Stands(verdict, time, ScanTo(look, names, status, times, k + 1), n)
  {
    OtherStep(look, k, names[k], ScanTo(look, names, status, times, k), n, verdict, time);
  }

  lemma OwnStep(look: Look, i: nat, n: string, sc: Scan)
    requires n !in sc.candidates
    ensures Stands(look(i, TimeOf(sc.times, n), StateOf(sc.status, n)), TimeOf(sc.times, n), ScanStep(look, i, n,
            sc), n)
  {
  }

  lemma OtherStep(look: Look, i: nat, m: string, sc: Scan, n: string, verdict: (UpgradeState, Bucket),
      time: Option<int>)
    requires m != n && Stands(verdict, time, sc, n)
    ensures Stands(verdict, time, ScanStep(look, i, m, sc), n)
  {
  }

  /** The buckets of the verdicts on all nodes. */
  function Buckets(look: Look, names: seq<string>, status: StatusMap, times: Times): (r: seq<Bucket>)
    ensures |r| == |names|
    ensures forall i :: 0 <= i < |r| ==> r[i] == look(i, TimeOf(times, names[i]), StateOf(status, names[i])).1
  {
    seq(|names|, i requires 0 <= i < |names| => look(i, TimeOf(times, names[i]), StateOf(status, names[i])).1)
  }

  /** The counters of a scan are the numbers of verdicts. */
  predicate CountsVerdicts(sc: Scan, buckets: seq<Bucket>) {
    var count := multiset(buckets);
    && sc.failed == count[FailedNode] && sc.upgrading == count[Upgrading] && sc.done == count[Done]
    && sc.installing == count[Installing] && sc.notReady == count[NotReady]
  }

  lemma {:induction false} CountersExactly(
    look: Look, names: seq<string>, status: StatusMap, times: Times, buckets: seq<Bucket>, k: nat)
    requires k <= |names| && Distinct(names) && buckets == Buckets(look, names, status, times)
    ensures CountsVerdicts(ScanTo(look, names, status, times, k), buckets[..k])
  {
    if k > 0 {
      var i: nat, n := k - 1, names[k - 1];
      CountersExactly(look, names, status, times, buckets, i);
      assert n !in names[..i];
      NotYetScanned(look, names, status, times, i, n);
      StepCounted(look, i, n, ScanTo(look, names, status, times, i), buckets);
    }
  }

  lemma StepCounted(look: Look, i: nat, n: string, sc: Scan, buckets: seq<Bucket>)
    requires i < |buckets| && CountsVerdicts(sc, buckets[..i])
    requires look(i, TimeOf(sc.times, n), StateOf(sc.status, n)).1 == buckets[i]
    ensures CountsVerdicts(ScanStep(look, i, n, sc), buckets[..i + 1])
  {
    var (x, b) := look(i, TimeOf(sc.times, n), StateOf(sc.status, n));
    OneMoreCounted(sc, n, x, b, buckets[..i]);
    assert buckets[..i + 1] == buckets[..i] + [b];
  }

  lemma OneMoreCounted(sc: Scan, n: string, x: UpgradeState, b: Bucket, buckets: seq<Bucket>)
    requires CountsVerdicts(sc, buckets)
    ensures CountsVerdicts(Record(sc, n, x, b), buckets + [b])
  {
    assert multiset(buckets + [b]) == multiset(buckets) + multiset{b};
  }

  /** The state a pass finds a node in: none, if the driver version has changed since the last pass. */
  function FoundIn(dc: DeviceConfig, current: string, status: StatusMap, n: string): UpgradeState {
    if current != "" && current != dc.version then Empty else StateOf(status, n)
  }

  /** The verdict of a pass on a node. */
  function Judged(dc: DeviceConfig, node: Node, api: Api, current: string, status: StatusMap, times: Times)
    : (UpgradeState, Bucket)
  {
    Classify(FactsOf(dc, node, api, TimeOf(times, node.name)), FoundIn(dc, current, status, node.name))
  }

  /** What a pass makes of each node. */
  lemma PassVerdict(dc: DeviceConfig, nodes: seq<Node>, apis: seq<Api>,
                    current: string, status: StatusMap, times: Times, i: nat)
    requires |nodes| == |apis| && Distinct(Names(nodes)) && i < |nodes|
    ensures var n := nodes[i].name;
            Stands(Judged(dc, nodes[i], apis[i], current, status, times), TimeOf(times, n),
                   PassScan(dc, nodes, apis, current, status, times), n)
  {
    NodeVerdict(LookOf(dc, nodes, apis), Names(nodes), Kept(current, dc, status), times, |nodes|, i);
  }

  /**
   * A pass is repeated until it finds the wanted driver on every node: it asks for another one exactly if
   * some node's verdict is not that it is done.
   */
  lemma RequeuedUntilDone(dc: DeviceConfig, nodes: seq<Node>, apis: seq<Api>, starts: seq<int>,
                          current: string, status: StatusMap, times: Times)
    requires |nodes| == |apis| == |starts| && Managed(dc) && Distinct(Names(nodes))
    ensures var r := RunPass(dc, nodes, apis, starts, current, status, times);
            r.requeue <==>
            exists i :: 0 <= i < |nodes| && Judged(dc, nodes[i], apis[i], current, status, times).1 != Done
  {
    var look, names, m := LookOf(dc, nodes, apis), Names(nodes), Kept(current, dc, status);
    var buckets := Buckets(look, names, m, times);
    CountersExactly(look, names, m, times, buckets, |nodes|);
    assert buckets[..|nodes|] == buckets;
    AllAlike(buckets, Done);
    forall i | 0 <= i < |nodes| ensures buckets[i] == Judged(dc, nodes[i], apis[i], current, status, times).1 {
      assert names[i] == nodes[i].name;
    }
  }

  lemma {:induction false} AllAlike(buckets: seq<Bucket>, b: Bucket)
    ensures multiset(buckets)[b] <= |buckets|
    ensures multiset(buckets)[b] == |buckets| <==> forall i :: 0 <= i < |buckets| ==> buckets[i] == b
  {
    if buckets != [] {
      var rest, last := buckets[..|buckets| - 1], buckets[|buckets| - 1];
      AllAlike(rest, b);
      assert buckets == rest + [last];
    }
  }

  // ----- what a pass is for -----

  /** The driver version the node is to run. */
  function Wanted(dc: DeviceConfig, api: Api): string {
    if dc.version != "" then dc.version else api.defaultVersion
  }

  /**
   * A labelled, schedulable and ready node on which another driver is loaded, in a state in which nothing
   * is going on and nothing has failed.
   */
  predicate Outdated(dc: DeviceConfig, node: Node, api: Api, s: UpgradeState) {
    && node.moduleVersion.Some? && !node.unschedulable
    && (forall c :: c in node.conditions && c.kind == NodeReady ==> c.status == IsTrue)
    && (node.name in dc.nodeModuleStatus ==>
          var entry := dc.nodeModuleStatus[node.name];
          && !HasSuffix(entry.image, Wanted(dc, api))
          && (node.moduleVersion == Some(dc.version) || entry.status != InstallInProgress))
    && (s.Empty? || s.NotStarted? || s.Complete? || s.InstallComplete? || s.RebootFailed?)
  }

  /** There is room for all candidates below both limits. */
  predicate RoomForAll(sc: Scan, limits: Limits, total: nat) {
    && Scaled(limits.maxUnavailable, total).Some?
    && sc.upgrading + sc.failed + |sc.candidates| <= Scaled(limits.maxUnavailable, total).value
    && (limits.maxParallel == 0 || sc.upgrading + |sc.candidates| <= limits.maxParallel)
  }

  lemma OutdatedIsOffered(dc: DeviceConfig, node: Node, api: Api, time: Option<int>, s: UpgradeState)
    requires Outdated(dc, node, api, s)
    ensures Classify(FactsOf(dc, node, api, time), s).1 == Candidate
  {
    PendingExactly(FactsOf(dc, node, api, time), s);
    forall i | 0 <= i < |node.conditions|
        && node.conditions[i].kind.NodeReady? ensures node.conditions[i].status.IsTrue? {
      assert node.conditions[i] in node.conditions;
    }
  }

  /**
   * A pass with room for all candidates starts every outdated node, whatever its state was when the
   * driver it runs was installed, and stores its start time.
   */
  lemma OutdatedNodesStarted(dc: DeviceConfig, nodes: seq<Node>, apis: seq<Api>, starts: seq<int>,
                             current: string, status: StatusMap, times: Times, i: nat)
    requires |nodes| == |apis| == |starts| && Distinct(Names(nodes)) && i < |nodes|
    requires dc.driverEnable == Some(true) && dc.policy.Some? && dc.policy.value.enable != Some(false)
    requires Outdated(dc, nodes[i], apis[i], FoundIn(dc, current, status, nodes[i].name))
    requires RoomForAll(PassScan(dc, nodes, apis, current, status, times), dc.policy.value.limits, |nodes|)
    ensures var r, n := RunPass(dc, nodes, apis, starts, current, status, times), nodes[i].name;
            n in r.started && StateOf(r.status, n) == Started && TimeOf(r.times, n).Some?
  {
    var n := nodes[i].name;
    var sc := PassScan(dc, nodes, apis, current, status, times);
    OutdatedIsOffered(dc, nodes[i], apis[i], TimeOf(times, n), FoundIn(dc, current, status, n));
    PassVerdict(dc, nodes, apis, current, status, times, i);
    var index := CandidatesAreOffered(dc, nodes, apis, current, status, times);
    AllAdmitted(sc, dc.policy.value.limits, |nodes|, starts, n);
  }

  lemma AllAdmitted(sc: Scan, limits: Limits, total: nat, starts: seq<int>, n: string)
    requires |sc.candidates| <= |starts| && Distinct(sc.candidates) && RoomForAll(sc, limits, total)
    requires n in sc.candidates
    ensures var r := Conclude(sc, limits, total, starts);
            n in r.started && StateOf(r.status, n) == Started && TimeOf(r.times, n).Some?
  {
    AdmissionIsExact(sc, limits, total, starts);
    var r := Conclude(sc, limits, total, starts);
    assert r.started == sc.candidates;
    var j :| 0 <= j < |r.started| && r.started[j] == n;
  }

  /** Without drivers to manage or with upgrades switched off, a pass does nothing. */
  lemma SkippedPass(dc: DeviceConfig, nodes: seq<Node>, apis: seq<Api>, starts: seq<int>,
                    current: string, status: StatusMap, times: Times)
    requires |nodes| == |apis| == |starts|
    requires dc.driverEnable != Some(true) || dc.policy.None? || dc.policy.value.enable == Some(false)
    ensures RunPass(dc, nodes, apis, starts, current, status, times) == PassResult(status, times, [], false)
  {
  }

  /**
   * What a pass starts: the first q candidates in list order, where q is the free room below both
   * limits. Whenever it starts a node, in-progress plus started plus failed nodes stay within the
   * scaled maxUnavailableNodes and in-progress plus started nodes within a nonzero
   * maxParallelUpgrades; every started node is in state Started with its own start time, and
   * nothing else changes.
   */
  lemma AdmissionIsExact(sc: Scan, limits: Limits, total: nat, starts: seq<int>)
    requires |sc.candidates| <= |starts| && Distinct(sc.candidates)
    ensures var r := Conclude(sc, limits, total, starts);
            && r.started <= sc.candidates
            && (match Scaled(limits.maxUnavailable, total)
                case None => r.started == []
                case Some(max) =>
                  var room := if limits.maxParallel == 0 then max - sc.failed - sc.upgrading
                              else Min(limits.maxParallel, max - sc.failed) - sc.upgrading;
                  && |r.started| == Min(Max(0, room), |sc.candidates|)
                  && (r.started != [] ==> sc.upgrading + |r.started| + sc.failed <= max)
                  && (r.started != [] && limits.maxParallel != 0 ==> sc.upgrading + |r.started| <= limits.maxParallel))
            && (forall j :: 0 <= j < |r.started| ==>
                  StateOf(r.status, r.started[j]) == Started && TimeOf(r.times, r.started[j]) == Some(starts[j]))
            && (forall n :: n !in r.started ==>
                  StateOf(r.status, n) == StateOf(sc.status, n) && TimeOf(r.times, n) == TimeOf(sc.times, n))
  {
    QuotaIsExact(sc.upgrading, sc.failed, total, |sc.candidates|, limits);
    StartedStates(sc.status, sc.times, sc.candidates, starts,
                  Quota(sc.upgrading, sc.failed, total, |sc.candidates|, limits));
  }

  lemma {:induction false} StartedStates(
    status: StatusMap, times: Times, candidates: seq<string>, starts: seq<int>, k: nat)
    requires k <= |candidates| <= |starts| && Distinct(candidates)
    ensures var (m, t) := StartTo(status, times, candidates, starts, k);
            && (forall j :: 0 <= j < k ==>
                  StateOf(m, candidates[j]) == Started && TimeOf(t, candidates[j]) == Some(starts[j]))
            && (forall n :: n !in candidates[..k] ==>
                  StateOf(m, n) == StateOf(status, n) && TimeOf(t, n) == TimeOf(times, n))
  {
    if k > 0 {
      StartedStates(status, times, candidates, starts, k - 1);
      var (m, t) := StartTo(status, times, candidates, starts, k - 1);
      var last := candidates[k - 1];
      assert candidates[..k] == candidates[..k - 1] + [last];
      StartOneMore(m, t, last, starts[k - 1]);
      forall j | 0 <= j < k - 1 ensures candidates[j] != last {
      }
    }
  }

  lemma StartOneMore(m: StatusMap, t: Times, n: string, at: int)
    ensures StateOf(Put(m, n, Started), n) == Started && TimeOf(t[n := Some(at)], n) == Some(at)
    ensures forall x :: x != n ==>
              StateOf(Put(m, n, Started), x) == StateOf(m, x) && TimeOf(t[n := Some(at)], x) == TimeOf(t, x)
  {
  }

  // ----- the manager -----

  class UpgradeManager {
    var nodeStatus: StatusMap
    var nodeUpgradeStartTime: Times
    var currentVersion: string
    var initialised: bool

    constructor ()
      ensures nodeStatus == map[] && nodeUpgradeStartTime == map[] && currentVersion == "" && !initialised
    {
      nodeStatus, nodeUpgradeStartTime, currentVersion, initialised := map[], map[], "", false;
    }

    function GetNodeStatus(n: string): UpgradeState
      reads this
    {
      StateOf(nodeStatus, n)
    }

    /** Afterwards the node is in the state, and every other node in its own. */
    method SetNodeStatus(n: string, s: UpgradeState)
      modifies this`nodeStatus
      ensures GetNodeStatus(n) == s
      ensures forall m :: m != n ==> GetNodeStatus(m) == old(GetNodeStatus(m))
      ensures nodeStatus == Put(old(nodeStatus), n, s)
    {
      if GetNodeStatus(n) != s {
        nodeStatus := nodeStatus[n := s];
      }
    }

    method HandleInitStatus(node: Node, api: Api)
      modifies this`nodeStatus
      ensures var s := old(GetNodeStatus(node.name));
              var s1 := if s.Empty? then NotStarted else s;
              nodeStatus == Put(old(nodeStatus), node.name,
                                if IsFailed(s1) && node.upgradeRequired && api.removeLabelOk && api.resetVersionOk
                                then NotStarted else s1)
    {
      if GetNodeStatus(node.name).Empty? {
        SetNodeStatus(node.name, NotStarted);
      }
      if IsFailed(GetNodeStatus(node.name)) && node.upgradeRequired {
        if !api.removeLabelOk {
          return;
        }
        if !api.resetVersionOk {
          return;
        }
        SetNodeStatus(node.name, NotStarted);
      }
    }

    method HandleUpgradeTimedOut(node: Node, dc: DeviceConfig, now: int)
      modifies this`nodeStatus
      ensures var s := old(GetNodeStatus(node.name));
              var start := TimeOf(nodeUpgradeStartTime, node.name);
              var used := StartUsed(dc, node.name, start);
              nodeStatus == Put(old(nodeStatus), node.name,
                                if InFlight(s) && used.Some? && now - used.value > 7200 then TimedOut else s)
    {
      if InFlight(GetNodeStatus(node.name)) {
        if TimeExceeded(dc, node.name, TimeOf(nodeUpgradeStartTime, node.name), now) {
          SetNodeStatus(node.name, TimedOut);
        }
      }
    }

    /** True if the node is still upgrading although KMM dropped its module status. */
    method IsNodeNmcStatusMissing(node: Node, dc: DeviceConfig, api: Api) returns (missing: bool)
      modifies this`nodeStatus
      ensures var s := old(GetNodeStatus(node.name));
              var hit := node.name in dc.nodeModuleStatus && dc.nodeModuleStatus[node.name].image == ""
                  && s.InProgress?;
              && missing == (hit && api.uncordonMissingOk)
              && nodeStatus == Put(old(nodeStatus), node.name, if hit && !missing then UncordonFailed else s)
    {
      if node.name in dc.nodeModuleStatus {
        var current := GetNodeStatus(node.name);
        if dc.nodeModuleStatus[node.name].image == "" && current.InProgress? {
          if !api.uncordonMissingOk {
            SetNodeStatus(node.name, UncordonFailed);
            return false;
          }
          return true;
        }
      }
      return false;
    }

    /** True if the wanted driver is installed on the node. */
    method IsNodeReady(node: Node, dc: DeviceConfig, api: Api) returns (ready: bool)
      modifies this`nodeStatus
      ensures var s := old(GetNodeStatus(node.name));
              var wanted := if dc.version != "" then dc.version else api.defaultVersion;
              var hit := node.name in dc.nodeModuleStatus && HasSuffix(dc.nodeModuleStatus[node.name].image, wanted);
              var known := s.Complete? || s.InstallComplete?;
              && ready == (hit && (known || api.uncordonReadyOk))
              && nodeStatus == Put(old(nodeStatus), node.name,
                                   if !hit || known then s
                                   else if !ready then UncordonFailed
                                   else if s.InstallInProgress? then InstallComplete
                                   else Complete)
    {
      if node.name in dc.nodeModuleStatus {
        if HasSuffix(dc.nodeModuleStatus[node.name].image, DriverVersion(dc, api)) {
          var current := GetNodeStatus(node.name);
          if current.Complete? || current.InstallComplete? {
            return true;
          }
          if !api.uncordonReadyOk {
            SetNodeStatus(node.name, UncordonFailed);
            return false;
          }
          if current.InstallInProgress? {
            SetNodeStatus(node.name, InstallComplete);
          } else {
            SetNodeStatus(node.name, Complete);
          }
          return true;
        }
      }
      return false;
    }

    /** True if the driver is installed on the node for the first time. */
    method IsNodeNew(node: Node, dc: DeviceConfig, api: Api) returns (isNew: bool)
      modifies this`nodeStatus
      ensures isNew <==>
                || node.moduleVersion.None?
                || (&& node.name in dc.nodeModuleStatus && node.moduleVersion != Some(dc.version)
                    && dc.nodeModuleStatus[node.name].status == InstallInProgress)
      ensures nodeStatus == if isNew then Put(old(nodeStatus), node.name, InstallInProgress) else old(nodeStatus)
    {
      if node.moduleVersion.None? {
        SetNodeStatus(node.name, InstallInProgress);
        return true;
      } else if node.name in dc.nodeModuleStatus {
        if node.moduleVersion.value != dc.version &&
           dc.nodeModuleStatus[node.name].status.InstallInProgress?
        {
          if !api.updateOk {
            SetNodeStatus(node.name, Failed);
          }
          SetNodeStatus(node.name, InstallInProgress);
          return true;
        }
      }
      return false;
    }

    method IsNodeStateUpgradeInProgress(node: Node, dc: DeviceConfig, api: Api) returns (inProgress: bool)
      modifies this`nodeStatus
      ensures var s := old(GetNodeStatus(node.name));
              var stale := node.moduleVersion.Some? && node.moduleVersion.value != dc.version;
              && inProgress == s.InProgress?
              && nodeStatus == Put(old(nodeStatus), node.name, if s.InProgress? && stale && !api.updateOk
                  then Failed else s)
    {
      var current := GetNodeStatus(node.name);
      if node.moduleVersion.Some? {
        if node.moduleVersion.value != dc.version && current.InProgress? {
          if !api.updateOk {
            SetNodeStatus(node.name, Failed);
          }
          return true;
        }
      }
      return GetNodeStatus(node.name).InProgress?;
    }

    method IsNodeReadyForUpgrade(node: Node) returns (ready: bool)
      ensures ready <==>
                !node.unschedulable && forall c :: c in node.conditions && c.kind == NodeReady ==> c.status == IsTrue
    {
      if node.unschedulable {
        return false;
      }
      for i := 0 to |node.conditions|
        invariant forall j :: 0 <= j < i && node.conditions[j].kind.NodeReady? ==> node.conditions[j].status.IsTrue?
      {
        if node.conditions[i].kind.NodeReady? && !node.conditions[i].status.IsTrue? {
          return false;
        }
      }
      return true;
    }

    /** The init step and the timeout step. */
    method Prepare(node: Node, dc: DeviceConfig, api: Api)
      modifies this`nodeStatus
      ensures var p := Prepared(FactsOf(dc, node, api, TimeOf(nodeUpgradeStartTime, node.name)),
                                old(GetNodeStatus(node.name)));
              !p.Empty? && nodeStatus == Put(old(nodeStatus), node.name, p)
    {
      ghost var m, n := nodeStatus, node.name;
      HandleInitStatus(node, api);
      ghost var s := GetNodeStatus(n);
      assert nodeStatus == Put(m, n, s) && !s.Empty?;
      HandleUpgradeTimedOut(node, dc, api.now);
      PutTwice(m, n, s, GetNodeStatus(n));
    }

    /** The chain of checks of one node. */
    method ClassifyNode(node: Node, dc: DeviceConfig, api: Api) returns (bucket: Bucket)
      modifies this`nodeStatus
      ensures var (s, b) := Classify(FactsOf(dc, node, api, TimeOf(nodeUpgradeStartTime, node.name)),
                                     old(GetNodeStatus(node.name)));
              bucket == b && nodeStatus == Put(old(nodeStatus), node.name, s)
    {
      ghost var m, n := nodeStatus, node.name;
      Prepare(node, dc, api);
      ghost var p := GetNodeStatus(n);
      assert nodeStatus == Put(m, n, p);
      if IsFailed(GetNodeStatus(node.name)) {
        return FailedNode;
      }
      var missing := IsNodeNmcStatusMissing(node, dc, api);
      ghost var q := GetNodeStatus(n);
      PutTwice(m, n, p, q);
      assert nodeStatus == Put(m, n, q);
      if missing {
        return Upgrading;
      }
      bucket := ClassifyUnfailed(node, dc, api);
      PutTwice(m, n, q, GetNodeStatus(n));
    }

    method ClassifyUnfailed(node: Node, dc: DeviceConfig, api: Api) returns (bucket: Bucket)
      requires !GetNodeStatus(node.name).Empty?
      modifies this`nodeStatus
      ensures var f := FactsOf(dc, node, api, TimeOf(nodeUpgradeStartTime, node.name));
              var (s, b) := FromStarted(f, old(GetNodeStatus(node.name)));
              !s.Empty? && bucket == b && nodeStatus == Put(old(nodeStatus), node.name, s)
    {
      ghost var m, n := nodeStatus, node.name;
      if GetNodeStatus(node.name).Started? || GetNodeStatus(node.name).RebootInProgress? {
        return Upgrading;
      }
      var ready := IsNodeReady(node, dc, api);
      ghost var q := GetNodeStatus(n);
      assert nodeStatus == Put(m, n, q);
      if ready {
        return Done;
      }
      bucket := ClassifyUnready(node, dc, api);
      PutTwice(m, n, q, GetNodeStatus(n));
    }

    method ClassifyUnready(node: Node, dc: DeviceConfig, api: Api) returns (bucket: Bucket)
      requires !GetNodeStatus(node.name).Empty?
      modifies this`nodeStatus
      ensures var f := FactsOf(dc, node, api, TimeOf(nodeUpgradeStartTime, node.name));
              var (s, b) := FromNew(f, old(GetNodeStatus(node.name)));
              !s.Empty? && bucket == b && nodeStatus == Put(old(nodeStatus), node.name, s)
    {
      var isNew := IsNodeNew(node, dc, api);
      if isNew {
        return Installing;
      }
      bucket := ClassifyRest(node, dc, api);
    }

    method ClassifyRest(node: Node, dc: DeviceConfig, api: Api) returns (bucket: Bucket)
      requires !GetNodeStatus(node.name).Empty?
      requires !IsNew(FactsOf(dc, node, api, TimeOf(nodeUpgradeStartTime, node.name)))
      modifies this`nodeStatus
      ensures var f := FactsOf(dc, node, api, TimeOf(nodeUpgradeStartTime, node.name));
              var (s, b) := FromNew(f, old(GetNodeStatus(node.name)));
              !s.Empty? && bucket == b && nodeStatus == Put(old(nodeStatus), node.name, s)
    {
      if GetNodeStatus(node.name).InstallInProgress? {
        return Installing;
      }
      var inProgress := IsNodeStateUpgradeInProgress(node, dc, api);
      if inProgress {
        return Upgrading;
      }
      var schedulable := IsNodeReadyForUpgrade(node);
      return if schedulable then Candidate else NotReady;
    }

    /** Looks at one node and files it. */
    method ScanNode(i: nat, dc: DeviceConfig, nodes: seq<Node>, apis: seq<Api>, tally: Tally,
                    ghost sc: Scan, ghost look: Look) returns (tally': Tally)
      requires i < |nodes| == |apis| && look == LookOf(dc, nodes, apis)
      requires nodeStatus == sc.status && nodeUpgradeStartTime == sc.times && TallyOf(sc) == tally
      modifies this`nodeStatus, this`nodeUpgradeStartTime
      ensures var sc' := ScanStep(look, i, nodes[i].name, sc);
              nodeStatus == sc'.status && nodeUpgradeStartTime == sc'.times && TallyOf(sc') == tally'
    {
      var n := nodes[i].name;
      var bucket := ClassifyNode(nodes[i], dc, apis[i]);
      match bucket
      case FailedNode =>
        nodeUpgradeStartTime := nodeUpgradeStartTime[n := None];
        tally' := tally.(failed := tally.failed + 1);
      case Upgrading => tally' := tally.(upgrading := tally.upgrading + 1);
      case Done =>
        nodeUpgradeStartTime := nodeUpgradeStartTime[n := None];
        tally' := tally.(done := tally.done + 1);
      case Installing => tally' := tally.(installing := tally.installing + 1);
      case NotReady => tally' := tally.(notReady := tally.notReady + 1);
      case Candidate => tally' := tally.(candidates := tally.candidates + [n]);
    }

    /** The loop over the node list. */
    method ScanNodes(dc: DeviceConfig, nodes: seq<Node>, apis: seq<Api>, ghost look: Look) returns (tally: Tally)
      requires |nodes| == |apis| && look == LookOf(dc, nodes, apis)
      modifies this`nodeStatus, this`nodeUpgradeStartTime
      ensures var sc := ScanTo(look, Names(nodes), old(nodeStatus), old(nodeUpgradeStartTime), |nodes|);
              nodeStatus == sc.status && nodeUpgradeStartTime == sc.times && TallyOf(sc) == tally
    {
      tally := Tally(0, 0, 0, 0, 0, []);
      ghost var names := Names(nodes);
      ghost var sc := ScanTo(look, names, nodeStatus, nodeUpgradeStartTime, 0);
      for i := 0 to |nodes|
        invariant sc == ScanTo(look, names, old(nodeStatus), old(nodeUpgradeStartTime), i)
        invariant nodeStatus == sc.status && nodeUpgradeStartTime == sc.times && TallyOf(sc) == tally
      {
        tally := ScanNode(i, dc, nodes, apis, tally, sc, look);
        sc := ScanStep(look, i, names[i], sc);
      }
    }

    /** Takes over the persisted states, in the order in which the map of them is iterated. */
    method InitNodeStates(dc: DeviceConfig, reboot: bool, boots: Boots) returns (cleaners: map<string, bool>)
      modifies this`nodeStatus
      ensures RestoredFrom(nodeStatus, old(nodeStatus), dc, reboot, boots)
      ensures CleanersOf(cleaners, dc, reboot, boots)
    {
      cleaners := map[];
      var todo := dc.nodeModuleStatus.Keys;
      while todo != {}
        invariant todo <= dc.nodeModuleStatus.Keys
        invariant forall n :: n in todo || n !in dc.nodeModuleStatus ==>
                    StateOf(nodeStatus, n) == StateOf(old(nodeStatus), n) && n !in cleaners
        invariant forall n :: n in dc.nodeModuleStatus && n !in todo ==>
                    var r := Restored(reboot, dc.nodeModuleStatus[n], boots(n));
                    StateOf(nodeStatus, n) == if r.Some? then r.value else StateOf(old(nodeStatus), n)
        invariant forall n :: n in dc.nodeModuleStatus && n !in todo ==>
                    (if n in cleaners then Some(cleaners[n]) else None) ==
                        Cleaner(reboot, dc.nodeModuleStatus[n], boots(n))
        decreases todo
      {
        var n :| n in todo;
        var entry, boot := dc.nodeModuleStatus[n], boots(n);
        var r := Restored(reboot, entry, boot);
        if r.Some? {
          SetNodeStatus(n, r.value);
        }
        var cleaner := Cleaner(reboot, entry, boot);
        if cleaner.Some? {
          cleaners := cleaners[n := cleaner.value];
        }
        todo := todo - {n};
      }
    }

    /**
     * One pass. Its effect on the statuses and start times, the workers it launches and whether it
     * is to be run again are those of RunPass, from the statuses `begun` with: those in memory or, in
     * the first pass that is not skipped, those restored from the persisted ones.
     */
    method HandleUpgrade(dc: DeviceConfig, nodes: seq<Node>, apis: seq<Api>, starts: seq<int>, boots: Boots)
      returns (started: seq<string>, cleaners: map<string, bool>, requeue: bool, ghost begun: StatusMap)
      requires |nodes| == |apis| == |starts|
      modifies this
      ensures if Managed(dc) && !old(initialised)
              then RestoredFrom(begun, old(nodeStatus), dc, dc.policy.value.reboot, boots)
                   && CleanersOf(cleaners, dc, dc.policy.value.reboot, boots)
              else begun == old(nodeStatus) && cleaners == map[]
      ensures var r := RunPass(dc, nodes, apis, starts, old(currentVersion), begun, old(nodeUpgradeStartTime));
              && nodeStatus == r.status && nodeUpgradeStartTime == r.times
              && started == r.started && requeue == r.requeue
      ensures currentVersion == if Managed(dc) then dc.version else old(currentVersion)
      ensures initialised == (old(initialised) || Managed(dc))
    {
      begun, cleaners := nodeStatus, map[];
      if dc.driverEnable != Some(true) {
        return [], map[], false, begun;
      }
      if dc.policy.None? || dc.policy.value.enable == Some(false) {
        return [], map[], false, begun;
      }
      if !initialised {
        initialised := true;
        cleaners := InitNodeStates(dc, dc.policy.value.reboot, boots);
      }
      begun := nodeStatus;
      if currentVersion != "" && currentVersion != dc.version {
        nodeStatus := map[];
      }
      currentVersion := dc.version;
      ghost var sc := PassScan(dc, nodes, apis, old(currentVersion), begun, old(nodeUpgradeStartTime));
      BucketsPartition(LookOf(dc, nodes, apis), Names(nodes), nodeStatus, nodeUpgradeStartTime, |nodes|);
      var tally := ScanNodes(dc, nodes, apis, LookOf(dc, nodes, apis));
      started, requeue := Finish(tally, dc.policy.value.limits, |nodes|, starts, sc);
    }

    /** Applies the policy to the outcome of the scan. */
    method Finish(tally: Tally, limits: Limits, total: nat, starts: seq<int>, ghost sc: Scan)
      returns (started: seq<string>, requeue: bool)
      requires nodeStatus == sc.status && nodeUpgradeStartTime == sc.times && TallyOf(sc) == tally
      requires PlacedCount(sc) == total
      requires |sc.candidates| <= |starts|
      modifies this`nodeStatus, this`nodeUpgradeStartTime
      ensures var r := Conclude(sc, limits, total, starts);
              && nodeStatus == r.status && nodeUpgradeStartTime == r.times
              && started == r.started && requeue == r.requeue
    {
      var candidates := tally.candidates;
      if |candidates| == 0 && (tally.upgrading > 0 || tally.failed > 0 || tally.installing > 0) {
        return [], true;
      }
      if tally.done == total || |candidates| == 0 {
        return [], tally.notReady > 0;
      }
      var verdict := CheckPolicy(tally.upgrading, tally.failed, total, limits);
      if verdict.violated {
        return [], true;
      }
      started := Admit(candidates, starts, verdict.allowed - tally.upgrading);
      return started, true;
    }

    /** Starts candidates in order until the free room or the candidates run out. */
    method Admit(candidates: seq<string>, starts: seq<int>, room: int) returns (started: seq<string>)
      requires |candidates| <= |starts|
      modifies this`nodeStatus, this`nodeUpgradeStartTime
      ensures var q := Max(0, Min(room, |candidates|));
              && started == candidates[..q]
              && (nodeStatus, nodeUpgradeStartTime) ==
                 StartTo(old(nodeStatus), old(nodeUpgradeStartTime), candidates, starts, q)
    {
      started := [];
      var i := 0;
      while i < room && i < |candidates|
        invariant 0 <= i <= Max(0, Min(room, |candidates|))
        invariant started == candidates[..i]
        invariant (nodeStatus, nodeUpgradeStartTime) ==
                  StartTo(old(nodeStatus), old(nodeUpgradeStartTime), candidates, starts, i)
      {
        SetNodeStatus(candidates[i], Started);
        nodeUpgradeStartTime := nodeUpgradeStartTime[candidates[i] := Some(starts[i])];
        started := started + [candidates[i]];
        i := i + 1;
      }
    }
  }
}
