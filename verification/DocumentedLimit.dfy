/**
 * The limit as the documentation puts it: all nodes in a failed state count, also those whose
 * reboot failed. The code does not count these, so the documented limit needs a condition.
 */
module DocumentedLimit {
  import opened Common
  import opened UpgradeTypes
  import opened Classification
  import opened UpgradeRuns
  import opened UpgradeSteps
  import NodeWorker

  /** In flight or in any failed state. */
  predicate Down(x: UpgradeState) {
    Unavailable(x) || x.RebootFailed?
  }

  function DownCount(m: StatusMap, nodes: seq<string>): nat {
    if nodes == [] then 0
    else DownCount(m, nodes[..|nodes| - 1]) + if Down(StateOf(m, nodes[|nodes| - 1])) then 1 else 0
  }

  /** The configuration lets a pass start a node that may then fail to reboot. */
  predicate RebootsHappen(c: Config) {
    c.reboot && CanStart(c)
  }

  ghost predicate NoFailedReboot(c: Config, m: StatusMap) {
    forall n :: n in c.nodes ==> !StateOf(m, n).RebootFailed?
  }

  /** The documented limit in one run. */
  ghost predicate KeepsDocumented(c: Config, s: System, actions: seq<Action>)
    requires Run(c, s, actions)
  {
    DownCount(Final(c, s, actions).status, c.nodes) <= Max(Bound(UnavailableLimit, c), DownCount(s.status, c.nodes))
  }

  // ----- where no reboot can fail -----

  /** Positions a worker without reboot goes through. */
  predicate Tame(pc: NodeWorker.Pc) {
    || pc.ReadNode? || pc.Cordon? || pc.AfterCordon? || pc.Drain? || pc.AfterDrain? || pc.WriteLabel? || pc.Returned?
    || (pc.Store? && !pc.state.RebootFailed? && !pc.state.RebootInProgress?)
  }

  ghost predicate TameInv(c: Config, s: System) {
    && NoFailedReboot(c, s.status)
    && (c.reboot ==> s.workers == [])
    && (forall w :: 0 <= w < |s.workers| ==> Tame(s.workers[w].pc))
    && (c.reboot && s.pass.Admitting? ==> s.pass.quota == 0 && !s.pass.stored)
  }

  lemma LookStaysTame(c: Config, s: System, f: Facts)
    requires TameInv(c, s) && Possible(c, s, Look(f))
    ensures TameInv(c, After(c, s, Look(f)))
  {
    var x := StateOf(s.status, c.nodes[s.pass.i]);
    NoRebootVerdict(s.pass.check, f, x);
  }

  lemma NoRebootVerdict(check: Check, f: Facts, x: UpgradeState)
    requires !check.Placed?
    ensures Advance(check, f, x).1.RebootFailed? ==> x.RebootFailed?
  {
  }

  lemma StepStaysTame(c: Config, s: System, a: Action)
    requires !RebootsHappen(c) && TameInv(c, s) && Possible(c, s, a)
    ensures TameInv(c, After(c, s, a))
  {
    match a
    case Look(f) => LookStaysTame(c, s, f);
    case Decide =>
      if c.reboot {
        NothingStarted(c, s.pass.upgrading, s.pass.failed, |s.pass.candidates|);
      }
    case BeginPass =>
    case StoreStarted =>
    case Launch =>
    case EndPass =>
    case Work(w, answer) =>
  }

  lemma {:induction false} RunStaysTame(c: Config, s: System, actions: seq<Action>)
    requires !RebootsHappen(c) && TameInv(c, s) && Run(c, s, actions)
    ensures TameInv(c, Final(c, s, actions))
    decreases |actions|
  {
    if actions != [] {
      StepStaysTame(c, s, actions[0]);
      RunStaysTame(c, After(c, s, actions[0]), actions[1..]);
    }
  }

  lemma {:induction false} DownIsUsed(m: StatusMap, nodes: seq<string>)
    requires forall n :: n in nodes ==> !StateOf(m, n).RebootFailed?
    ensures DownCount(m, nodes) == Used(UnavailableLimit, m, nodes)
  {
    if nodes != [] {
      DownIsUsed(m, nodes[..|nodes| - 1]);
    }
  }

  lemma {:induction false} DownAtMost(m: StatusMap, nodes: seq<string>)
    ensures DownCount(m, nodes) <= |nodes|
  {
    if nodes != [] {
      DownAtMost(m, nodes[..|nodes| - 1]);
    }
  }

  lemma KeptWithoutReboots(c: Config, s: System, actions: seq<Action>)
    requires Distinct(c.nodes) && !RebootsHappen(c) && Quiet(s) && NoFailedReboot(c, s.status)
    requires Run(c, s, actions) && Obeys(UnavailableLimit, c, s, actions)
    ensures KeepsDocumented(c, s, actions)
  {
    RunStaysTame(c, s, actions);
    LimitKeptOverRuns(UnavailableLimit, c, s, actions);
    DownIsUsed(s.status, c.nodes);
    DownIsUsed(Final(c, s, actions).status, c.nodes);
  }

  // ----- where a reboot can fail: one node after the other does -----

  const OBEYING := Obeying(UnavailableLimit)
  const WAITING := Part(AWAY, RebootFailed, RebootFailed, NotReady)

  lemma Drains(c: Config, s: System, t: System, done: seq<Worker>, n: string) returns (u: System)
    requires c.reboot && Reaches(OBEYING, c, s, t) && t.pass.Idle?
    requires t.workers == done + [Worker(n, NodeWorker.ReadNode)]
    ensures Reaches(OBEYING, c, s, u) && u == System(t.status, done + [Worker(n, NodeWorker.FindOldPod)], Idle)
  {
    u := WorkOn(OBEYING, c, s, t, done, n, NodeWorker.ReadNode, NodeWorker.No);
    u := WorkOn(OBEYING, c, s, u, done, n, NodeWorker.Cordon, NodeWorker.Yes);
    u := WorkOn(OBEYING, c, s, u, done, n, NodeWorker.AfterCordon(true), NodeWorker.Yes);
    u := WorkOn(OBEYING, c, s, u, done, n, NodeWorker.Drain, NodeWorker.Yes);
    u := WorkOn(OBEYING, c, s, u, done, n, NodeWorker.AfterDrain(true), NodeWorker.Yes);
  }

  /** The worker drains its node and then cannot remove the pod of an earlier reboot. */
  lemma RebootFails(c: Config, s: System, t: System, done: seq<Worker>, n: string) returns (u: System)
    requires c.reboot && Reaches(OBEYING, c, s, t) && t.pass.Idle?
    requires t.workers == done + [Worker(n, NodeWorker.ReadNode)]
    ensures Reaches(OBEYING, c, s, u) && u.pass.Idle? && u.status == t.status[n := RebootFailed]
  {
    u := Drains(c, s, t, done, n);
    u := WorkOn(OBEYING, c, s, u, done, n, NodeWorker.FindOldPod, NodeWorker.Yes);
    u := WorkOn(OBEYING, c, s, u, done, n, NodeWorker.DropOldPod, NodeWorker.No);
    u := WorkOn(OBEYING, c, s, u, done, n, NodeWorker.Store(RebootFailed), NodeWorker.Yes);
  }

  /** The first k nodes failed to reboot; the others were not touched. */
  ghost predicate FailedFront(c: Config, t: System, k: nat) {
    && Reaches(OBEYING, c, Untouched(c), t) && t.pass.Idle?
    && InState(t.status, c.nodes, 0, k, RebootFailed) && InState(t.status, c.nodes, k, |c.nodes|, NotStarted)
  }

  lemma FailNext(c: Config, t: System, k: nat) returns (u: System)
    requires RebootsHappen(c) && Distinct(c.nodes) && k < |c.nodes| && FailedFront(c, t, k)
    ensures FailedFront(c, u, k + 1)
  {
    var s, n, done := Untouched(c), c.nodes[k], t.workers;
    u := ScanOver(OBEYING, c, s, t, k, WAITING, CANDIDATE);
    RoomForOne(c, 0, 0);
    u := StartOnly(OBEYING, c, s, u, n);
    u := RebootFails(c, s, u, done, n);
  }

  lemma {:induction false} RebootsPileUp(c: Config, k: nat) returns (t: System)
    requires RebootsHappen(c) && Distinct(c.nodes) && k <= |c.nodes|
    ensures FailedFront(c, t, k)
  {
    if k == 0 {
      Stays(OBEYING, c, Untouched(c));
      t := Untouched(c);
    } else {
      t := RebootsPileUp(c, k - 1);
      t := FailNext(c, t, k - 1);
    }
  }

  lemma {:induction false} DownAtLeast(m: StatusMap, nodes: seq<string>, k: nat)
    requires k <= |nodes| && forall j :: 0 <= j < k ==> Down(StateOf(m, nodes[j]))
    ensures DownCount(m, nodes) >= k
  {
    if nodes != [] && k > 0 {
      DownAtLeast(m, nodes[..|nodes| - 1], if k == |nodes| then k - 1 else k);
    }
  }

  lemma {:induction false} NothingDown(m: StatusMap, nodes: seq<string>)
    requires forall n :: n in nodes ==> !Down(StateOf(m, n))
    ensures DownCount(m, nodes) == 0
  {
    if nodes != [] {
      NothingDown(m, nodes[..|nodes| - 1]);
    }
  }

  lemma BrokenByReboots(c: Config) returns (s: System, actions: seq<Action>)
    requires Distinct(c.nodes) && RebootsHappen(c) && Bound(UnavailableLimit, c) < |c.nodes|
    ensures Quiet(s) && NoFailedReboot(c, s.status)
    ensures Run(c, s, actions) && Obeys(UnavailableLimit, c, s, actions) && !KeepsDocumented(c, s, actions)
  {
    var k := Bound(UnavailableLimit, c) + 1;
    s := Untouched(c);
    var t := RebootsPileUp(c, k);
    actions :| Run(c, s, actions) && Final(c, s, actions) == t && Follows(OBEYING, c, s, actions);
    FollowsIsObeys(UnavailableLimit, c, s, actions);
    NothingDown(s.status, c.nodes);
    DownAtLeast(t.status, c.nodes, k);
  }

  /**
   * The documented limit holds in every run within the premises, from a quiet start without failed
   * reboots, if and only if no reboot can follow an upgrade, or no node can be started at all, or the
   * limit is no smaller than the number of nodes.
   */
  lemma DocumentedLimitExactly(c: Config)
    requires Distinct(c.nodes)
    ensures (forall s, actions ::
               Quiet(s) && NoFailedReboot(c, s.status) && Run(c, s, actions)
                   && Obeys(UnavailableLimit, c, s, actions) ==>
                 KeepsDocumented(c, s, actions))
            <==> !RebootsHappen(c) || Bound(UnavailableLimit, c) >= |c.nodes|
  {
    if RebootsHappen(c) && Bound(UnavailableLimit, c) < |c.nodes| {
      var s, actions := BrokenByReboots(c);
      assert !KeepsDocumented(c, s, actions);
    } else {
      forall s, actions |
        Quiet(s) && NoFailedReboot(c, s.status) && Run(c, s, actions) && Obeys(UnavailableLimit, c, s, actions)
        ensures KeepsDocumented(c, s, actions)
      {
        if RebootsHappen(c) {
          DownAtMost(Final(c, s, actions).status, c.nodes);
        } else {
          KeptWithoutReboots(c, s, actions);
        }
      }
    }
  }
}
