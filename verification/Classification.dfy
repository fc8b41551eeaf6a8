/**
 * The chain of checks that one pass of the upgrade manager applies to one node, in two forms:
 * `Classify`, its effect when nothing else happens, and `Advance`, the same chain cut into steps
 * that each load or store the shared status at most once.
 */
module Classification {
  import opened UpgradeTypes

  /** What the chain learns about a node from sources other than the shared status. */
  datatype Facts = Facts(
    retry: bool,               // retry label present, and its removal and the version reset succeed
    timeUp: bool,              // the upgrade has been going on for more than two hours
    tracked: bool,             // the DeviceConfig status has an entry for the node
    imageEmpty: bool,          // ... whose container image is empty
    upToDate: bool,            // ... whose container image ends with the wanted version
    wasInstalling: bool,       // ... whose state is InstallInProgress
    labelled: bool,            // the node carries the module version label
    labelCurrent: bool,        // ... with the version of the DeviceConfig
    uncordonMissingOk: bool,   // uncordon succeeds in the missing-status check
    uncordonReadyOk: bool,     // uncordon succeeds in the ready check
    updateOk: bool,            // writing the module version label succeeds
    schedulable: bool)         // neither unschedulable nor NotReady

  datatype Bucket = FailedNode | Upgrading | Done | Installing | NotReady | Candidate

  predicate IsNew(f: Facts) {
    !f.labelled || (f.tracked && !f.labelCurrent && f.wasInstalling)
  }

  /** States after the init step and after the timeout step. */
  function Prepared(f: Facts, s: UpgradeState): UpgradeState {
    var s1 := if s.Empty? then NotStarted else s;
    var s2 := if IsFailed(s1) && f.retry then NotStarted else s1;
    if InFlight(s2) && f.timeUp then TimedOut else s2
  }

  /** The whole chain without interference: the node's new state and its bucket. */
  function Classify(f: Facts, s: UpgradeState): (UpgradeState, Bucket) {
    var p := Prepared(f, s);
    if IsFailed(p) then (p, FailedNode)
    else if f.tracked && f.imageEmpty && p.InProgress? && f.uncordonMissingOk then (p, Upgrading)
    else
      FromStarted(f, if f.tracked && f.imageEmpty && p.InProgress? then UncordonFailed else p)
  }

  function FromStarted(f: Facts, s: UpgradeState): (UpgradeState, Bucket) {
    if s.Started? || s.RebootInProgress? then (s, Upgrading)
    else if f.tracked && f.upToDate then
      if s.Complete? || s.InstallComplete? then (s, Done)
      else if f.uncordonReadyOk then (if s.InstallInProgress? then InstallComplete else Complete, Done)
      else FromNew(f, UncordonFailed)
    else FromNew(f, s)
  }

  function FromNew(f: Facts, s: UpgradeState): (UpgradeState, Bucket) {
    if IsNew(f) then (InstallInProgress, Installing)
    else if s.InstallInProgress? then (s, Installing)
    else if s.InProgress? then
      (if f.labelled && !f.labelCurrent && !f.updateOk then Failed else s, Upgrading)
    else (s, if f.schedulable then Candidate else NotReady)
  }

  /** Position inside the chain. Every position but `Placed` is one load, one store or one local test. */
  datatype Check =
    | InitLoad | InitStore
    | RetryLoad | RetryStore
    | TimeoutLoad | TimeoutStore
    | FailedLoad
    | MissingLoad | MissingStore
    | StartedLoad | RebootLoad
    | ReadyLoad | ReadyStore(seen: UpgradeState) | ReadyFailStore
    | NewTest | NewStore
    | InstallLoad
    | ProgressLoad | ProgressFailStore | ProgressReload
    | AdmitTest
    | Placed(bucket: Bucket)

  /**
   * One step of the chain when the shared status of the node is `s`. The two consecutive stores
   * of the new-node check after a failed label update (Failed, then InstallInProgress) are one step.
   */
  function Advance(c: Check, f: Facts, s: UpgradeState): (Check, UpgradeState)
    requires !c.Placed?
  {
    match c
    case InitLoad => (if s.Empty? then InitStore else RetryLoad, s)
    case InitStore => (RetryLoad, NotStarted)
    case RetryLoad => (if IsFailed(s) && f.retry then RetryStore else TimeoutLoad, s)
    case RetryStore => (TimeoutLoad, NotStarted)
    case TimeoutLoad => (if InFlight(s) && f.timeUp then TimeoutStore else FailedLoad, s)
    case TimeoutStore => (FailedLoad, TimedOut)
    case FailedLoad => (if IsFailed(s) then Placed(FailedNode) else MissingLoad, s)
    case MissingLoad =>
      if f.tracked && f.imageEmpty && s.InProgress? then
        (if f.uncordonMissingOk then Placed(Upgrading) else MissingStore, s)
      else (StartedLoad, s)
    case MissingStore => (StartedLoad, UncordonFailed)
    case StartedLoad => (if s.Started? then Placed(Upgrading) else RebootLoad, s)
    case RebootLoad => (if s.RebootInProgress? then Placed(Upgrading) else ReadyLoad, s)
    case ReadyLoad =>
      if f.tracked && f.upToDate then
        if s.Complete? || s.InstallComplete? then (Placed(Done), s)
        else (if f.uncordonReadyOk then ReadyStore(s) else ReadyFailStore, s)
      else (NewTest, s)
    case ReadyStore(seen) => (Placed(Done), if seen.InstallInProgress? then InstallComplete else Complete)
    case ReadyFailStore => (NewTest, UncordonFailed)
    case NewTest => (if IsNew(f) then NewStore else InstallLoad, s)
    case NewStore => (Placed(Installing), InstallInProgress)
    case InstallLoad => (if s.InstallInProgress? then Placed(Installing) else ProgressLoad, s)
    case ProgressLoad =>
      if f.labelled && !f.labelCurrent && s.InProgress? then
        (if f.updateOk then Placed(Upgrading) else ProgressFailStore, s)
      else (ProgressReload, s)
    case ProgressFailStore => (Placed(Upgrading), Failed)
    case ProgressReload => (if s.InProgress? then Placed(Upgrading) else AdmitTest, s)
    case AdmitTest => (Placed(if f.schedulable then Candidate else NotReady), s)
  }

  /** Steps left until the node is placed. */
  function Remaining(c: Check): nat {
    match c
    case InitLoad => 20 case InitStore => 19
    case RetryLoad => 18 case RetryStore => 17
    case TimeoutLoad => 16 case TimeoutStore => 15
    case FailedLoad => 14
    case MissingLoad => 13 case MissingStore => 12
    case StartedLoad => 11 case RebootLoad => 10
    case ReadyLoad => 9 case ReadyStore(_) => 1 case ReadyFailStore => 8
    case NewTest => 7 case NewStore => 1
    case InstallLoad => 6
    case ProgressLoad => 5 case ProgressFailStore => 1 case ProgressReload => 4
    case AdmitTest => 3
    case Placed(_) => 0
  }

  /** The chain run from position `c` to its end while nobody else touches the status. */
  function Chain(c: Check, f: Facts, s: UpgradeState): (UpgradeState, Bucket)
    decreases Remaining(c)
  {
    if c.Placed? then (s, c.bucket)
    else
      var (c', s') := Advance(c, f, s);
      Chain(c', f, s')
  }

  /** The step-by-step chain refines the one-shot classification. */
  lemma ChainIsClassify(first: Check, f: Facts, s: UpgradeState)
    requires first == InitLoad
    ensures Chain(first, f, s) == Classify(f, s)
  {
    var p := Prepared(f, s);
    var next := FailedLoad;
    ChainPrepares(first, next, f, s);
    if IsFailed(p) {
      assert Chain(next, f, p) == (p, FailedNode);
    } else {
      ChainFromMissing(next, f, p);
    }
  }

  lemma ChainPrepares(first: Check, next: Check, f: Facts, s: UpgradeState)
    requires first == InitLoad && next == FailedLoad
    ensures Chain(first, f, s) == Chain(next, f, Prepared(f, s))
  {
    var s1 := if s.Empty? then NotStarted else s;
    var retry, timeout := RetryLoad, TimeoutLoad;
    assert Chain(first, f, s) == Chain(retry, f, s1);
    var s2 := if IsFailed(s1) && f.retry then NotStarted else s1;
    assert Chain(retry, f, s1) == Chain(timeout, f, s2);
  }

  lemma ChainFromMissing(next: Check, f: Facts, p: UpgradeState)
    requires next == FailedLoad && !IsFailed(p)
    ensures Chain(next, f, p) ==
            if f.tracked && f.imageEmpty && p.InProgress? && f.uncordonMissingOk then (p, Upgrading)
            else FromStarted(f, if f.tracked && f.imageEmpty && p.InProgress? then UncordonFailed else p)
  {
    var missing, started := MissingLoad, StartedLoad;
    ChainUnrolled(next, f, p, missing, p);
    var hit := f.tracked && f.imageEmpty && p.InProgress?;
    if !hit {
      ChainUnrolled(missing, f, p, started, p);
      ChainFromStarted(started, f, p);
    } else if !f.uncordonMissingOk {
      MissingFails(missing, f, p, started);
      ChainFromStarted(started, f, UncordonFailed);
    }
  }

  lemma MissingFails(missing: Check, f: Facts, p: UpgradeState, started: Check)
    requires missing == MissingLoad && started == StartedLoad
    requires f.tracked && f.imageEmpty && p.InProgress? && !f.uncordonMissingOk
    ensures Chain(missing, f, p) == Chain(started, f, UncordonFailed)
  {
    var store := MissingStore;
    ChainUnrolled(missing, f, p, store, p);
    ChainUnrolled(store, f, p, started, UncordonFailed);
  }

  lemma ChainFromStarted(started: Check, f: Facts, s: UpgradeState)
    requires started == StartedLoad
    ensures Chain(started, f, s) == FromStarted(f, s)
  {
    if !s.Started? && !s.RebootInProgress? {
      var reboot, ready := RebootLoad, ReadyLoad;
      assert Chain(started, f, s) == Chain(reboot, f, s) == Chain(ready, f, s);
      ChainFromReady(ready, f, s);
    }
  }

  lemma ChainFromReady(ready: Check, f: Facts, s: UpgradeState)
    requires ready == ReadyLoad && !s.Started? && !s.RebootInProgress?
    ensures Chain(ready, f, s) == FromStarted(f, s)
  {
    var isNew := NewTest;
    if !(f.tracked && f.upToDate) {
      ChainUnrolled(ready, f, s, isNew, s);
      ChainFromNew(isNew, f, s);
    } else if !s.Complete? && !s.InstallComplete? && !f.uncordonReadyOk {
      var store := ReadyFailStore;
      ChainUnrolled(ready, f, s, store, s);
      ChainUnrolled(store, f, s, isNew, UncordonFailed);
      ChainFromNew(isNew, f, UncordonFailed);
    }
  }

  lemma ChainFromNew(isNew: Check, f: Facts, s: UpgradeState)
    requires isNew == NewTest
    ensures Chain(isNew, f, s) == FromNew(f, s)
  {
    if !IsNew(f) {
      var install, progress := InstallLoad, ProgressLoad;
      ChainUnrolled(isNew, f, s, install, s);
      if !s.InstallInProgress? {
        ChainUnrolled(install, f, s, progress, s);
        ChainFromProgress(progress, f, s);
      }
    }
  }

  lemma ChainFromProgress(progress: Check, f: Facts, s: UpgradeState)
    requires progress == ProgressLoad && !IsNew(f) && !s.InstallInProgress?
    ensures Chain(progress, f, s) == FromNew(f, s)
  {
    var reload, admit := ProgressReload, AdmitTest;
    if !s.InProgress? {
      ChainUnrolled(progress, f, s, reload, s);
      ChainUnrolled(reload, f, s, admit, s);
    }
  }

  /** An uncordon call fails in a check that then lets the node fall through the rest of the chain. */
  predicate UncordonSlips(f: Facts, s: UpgradeState) {
    var p := Prepared(f, s);
    var missing := f.tracked && f.imageEmpty && p.InProgress?;
    && f.schedulable && !IsNew(f)
    && !IsFailed(p) && !p.Started? && !p.RebootInProgress?
    && (missing ==> !f.uncordonMissingOk)
    && (f.tracked && f.upToDate ==> !f.uncordonReadyOk && !p.Complete? && !p.InstallComplete?)
    && (missing || (f.tracked && f.upToDate))
  }

  /**
   * The classification is meant to offer only available nodes as candidates. It does so exactly
   * when no failed uncordon slips through: such a node is set to UncordonFailed and still offered.
   */
  lemma CandidateUnavailableExactly(f: Facts, s: UpgradeState)
    ensures var (s', b) := Classify(f, s); b.Candidate? && Unavailable(s') <==> UncordonSlips(f, s)
    ensures UncordonSlips(f, s) ==> Classify(f, s) == (UncordonFailed, Candidate)
  {
  }

  /** A load of the chain behind its look for failed states. */
  predicate LateLoad(c: Check) {
    || c.MissingLoad? || c.StartedLoad? || c.RebootLoad? || c.ReadyLoad? || c.NewTest?
    || c.InstallLoad? || c.ProgressLoad? || c.ProgressReload? || c.AdmitTest?
  }

  predicate EarlyLoad(c: Check) {
    c.InitLoad? || c.RetryLoad? || c.TimeoutLoad? || c.FailedLoad?
  }

  /** A node that fails at position `c` is taken for one that can be upgraded. */
  predicate Overlooked(c: Check, f: Facts) {
    && f.schedulable
    && (Remaining(c) >= Remaining(NewTest) ==> !IsNew(f))
    && (Remaining(c) >= Remaining(ReadyLoad) ==> !(f.tracked && f.upToDate))
  }

  /**
   * What becomes of a node that is found failed at some load of the chain: in front of the look for
   * failed states it is always counted as failed; behind it, it is offered as a candidate exactly
   * if nothing else stops it.
   */
  lemma FailureOverlookedExactly(c: Check, f: Facts, x: UpgradeState)
    requires EarlyLoad(c) || LateLoad(c)
    requires IsFailed(x) && !f.retry && f.uncordonReadyOk
    ensures EarlyLoad(c) ==> Chain(c, f, x) == (x, FailedNode)
    ensures LateLoad(c) ==> (Chain(c, f, x).1.Candidate? <==> Overlooked(c, f))
  {
    if EarlyLoad(c) {
      FailureNoticed(c, f, x);
    } else if Remaining(c) >= Remaining(ReadyLoad) {
      FailureBeforeReady(c, f, x);
    } else {
      FailureAfterReady(c, f, x);
    }
  }

  lemma {:induction false} FailureNoticed(c: Check, f: Facts, x: UpgradeState)
    requires EarlyLoad(c) && IsFailed(x) && !f.retry
    ensures Chain(c, f, x) == (x, FailedNode)
    decreases Remaining(c)
  {
    var next := Advance(c, f, x).0;
    if !next.Placed? {
      FailureNoticed(next, f, x);
    }
  }

  lemma {:induction false} FailureBeforeReady(c: Check, f: Facts, x: UpgradeState)
    requires LateLoad(c) && Remaining(c) >= Remaining(ReadyLoad)
    requires IsFailed(x) && f.uncordonReadyOk
    ensures Chain(c, f, x).1.Candidate? <==> Overlooked(c, f)
    decreases Remaining(c)
  {
    var next := Advance(c, f, x).0;
    if c.ReadyLoad? {
      if next.NewTest? {
        FailureAfterReady(next, f, x);
      }
    } else {
      FailureBeforeReady(next, f, x);
    }
  }

  lemma ChainUnrolled(c: Check, f: Facts, x: UpgradeState, next: Check, y: UpgradeState)
    requires !c.Placed? && (next, y) == Advance(c, f, x)
    ensures Chain(c, f, x) == Chain(next, f, y)
  {
  }

  lemma {:induction false} FailureAfterReady(c: Check, f: Facts, x: UpgradeState)
    requires LateLoad(c) && Remaining(c) < Remaining(ReadyLoad) && IsFailed(x)
    ensures Chain(c, f, x).1.Candidate? <==> Overlooked(c, f)
    decreases Remaining(c)
  {
    var (next, y) := Advance(c, f, x);
    ChainUnrolled(c, f, x, next, y);
    if LateLoad(next) {
      FailureAfterReady(next, f, x);
    }
  }

  // ----- the verdict in terms of the node alone -----

  /** The five failed states; a failed reboot is not among them. */
  predicate OneOfFailed(s: UpgradeState) {
    s.Failed? || s.CordonFailed? || s.UncordonFailed? || s.DrainFailed? || s.TimedOut?
  }

  /** The upgrade of the node has been going on for too long. */
  predicate Overdue(f: Facts, s: UpgradeState) {
    (s.Started? || s.RebootInProgress? || s.InProgress?) && f.timeUp
  }

  /** The node failed, and nobody asked for a retry. */
  predicate Stuck(f: Facts, s: UpgradeState) {
    OneOfFailed(s) && !f.retry
  }

  /** The node is upgrading and its module status is gone. */
  predicate Bereft(f: Facts, s: UpgradeState) {
    s.InProgress? && f.tracked && f.imageEmpty
  }

  /** The node gets as far as the question whether it runs the wanted driver. */
  predicate Questioned(f: Facts, s: UpgradeState) {
    && !Overdue(f, s) && !Stuck(f, s) && !s.Started? && !s.RebootInProgress?
    && !(Bereft(f, s) && f.uncordonMissingOk)
  }

  /** The wanted driver is loaded. */
  predicate Current(f: Facts) {
    f.tracked && f.upToDate
  }

  /** The driver is installed for the first time. */
  predicate FirstInstall(f: Facts) {
    !f.labelled || (f.tracked && !f.labelCurrent && f.wasInstalling)
  }

  /** The node is not found done, and goes on through the chain. */
  predicate Undone(f: Facts, s: UpgradeState) {
    Questioned(f, s) && !(Current(f) && (s.Complete? || s.InstallComplete? || f.uncordonReadyOk))
  }

  /** The node waits for an upgrade: nothing is going on and nothing keeps it from starting over. */
  predicate Pending(f: Facts, s: UpgradeState) {
    && Undone(f, s) && !FirstInstall(f)
    && !(s.InstallInProgress? && !Current(f))
    && !(s.InProgress? && !Current(f) && !Bereft(f, s))
  }

  lemma FailedExactly(f: Facts, s: UpgradeState)
    ensures Classify(f, s).1 == FailedNode <==> Overdue(f, s) || Stuck(f, s)
  {
  }

  lemma UpgradingExactly(f: Facts, s: UpgradeState)
    ensures Classify(f, s).1 == Upgrading <==>
            && !Overdue(f, s)
            && (|| s.Started? || s.RebootInProgress?
                || (Bereft(f, s) && f.uncordonMissingOk)
                || (s.InProgress? && !Bereft(f, s) && !Current(f) && !FirstInstall(f)))
  {
  }

  lemma DoneExactly(f: Facts, s: UpgradeState)
    ensures Classify(f, s).1 == Done <==>
            Questioned(f, s) && Current(f) && (s.Complete? || s.InstallComplete? || f.uncordonReadyOk)
  {
    var p := Prepared(f, s);
    if Questioned(f, s) {
      var x := if Bereft(f, s) then UncordonFailed else p;
      assert Classify(f, s) == FromStarted(f, x);
      assert x.Complete? || x.InstallComplete? <==> s.Complete? || s.InstallComplete?;
    } else {
      UpgradingExactly(f, s);
      FailedExactly(f, s);
    }
  }

  /** The state in which an unfinished node goes on. */
  function GoingOn(f: Facts, s: UpgradeState): UpgradeState {
    if Current(f) || Bereft(f, s) then UncordonFailed
    else if s.Empty? || OneOfFailed(s) then NotStarted
    else s
  }

  lemma UndoneGoesOn(f: Facts, s: UpgradeState)
    requires Undone(f, s)
    ensures Classify(f, s) == FromNew(f, GoingOn(f, s))
  {
    var x := if Bereft(f, s) then UncordonFailed else Prepared(f, s);
    assert Classify(f, s) == FromStarted(f, x);
  }

  lemma OtherwiseSettled(f: Facts, s: UpgradeState)
    requires !Undone(f, s)
    ensures var b := Classify(f, s).1; b == FailedNode || b == Upgrading || b == Done
  {
    FailedExactly(f, s);
    UpgradingExactly(f, s);
    DoneExactly(f, s);
  }

  lemma InstallingExactly(f: Facts, s: UpgradeState)
    ensures Classify(f, s).1 == Installing <==>
            Undone(f, s) && (FirstInstall(f) || (s.InstallInProgress? && !Current(f)))
  {
    if Undone(f, s) {
      UndoneGoesOn(f, s);
    } else {
      OtherwiseSettled(f, s);
    }
  }

  lemma PendingExactly(f: Facts, s: UpgradeState)
    ensures Classify(f, s).1 == Candidate <==> Pending(f, s) && f.schedulable
    ensures Classify(f, s).1 == NotReady <==> Pending(f, s) && !f.schedulable
  {
    if Undone(f, s) {
      UndoneGoesOn(f, s);
    } else {
      OtherwiseSettled(f, s);
    }
  }

  /**
   * Each bucket, exactly: which nodes are failed, upgrading, done, installing, candidates and not ready,
   * in terms of what is known of the node and its state before the pass.
   */
  lemma BucketsExactly(f: Facts, s: UpgradeState)
    ensures var b := Classify(f, s).1;
            && (b == FailedNode <==> Overdue(f, s) || Stuck(f, s))
            && (b == Upgrading <==>
                  && !Overdue(f, s)
                  && (|| s.Started? || s.RebootInProgress?
                      || (Bereft(f, s) && f.uncordonMissingOk)
                      || (s.InProgress? && !Bereft(f, s) && !Current(f) && !FirstInstall(f))))
            && (b == Done <==>
                  Questioned(f, s) && Current(f) && (s.Complete? || s.InstallComplete? || f.uncordonReadyOk))
            && (b == Installing <==> Undone(f, s) && (FirstInstall(f) || (s.InstallInProgress? && !Current(f))))
            && (b == Candidate <==> Pending(f, s) && f.schedulable)
            && (b == NotReady <==> Pending(f, s) && !f.schedulable)
  {
    FailedExactly(f, s);
    UpgradingExactly(f, s);
    DoneExactly(f, s);
    InstallingExactly(f, s);
    PendingExactly(f, s);
  }

  /**
   * The state that the pass leaves behind, exactly: an overdue node times out, a failed one stays as it
   * is, a finished one is complete, a first installation is in progress, a failed uncordon or label
   * update is recorded, and a node without state or with a retry starts over.
   */
  lemma StatesExactly(f: Facts, s: UpgradeState)
    ensures var (x, b) := Classify(f, s);
            x == if b == FailedNode then (if Overdue(f, s) then TimedOut else s)
                 else if b == Done then
                   (if s.Complete? || s.InstallComplete? then s
                    else if s.InstallInProgress? then InstallComplete
                    else Complete)
                 else if b == Installing then InstallInProgress
                 else if b == Upgrading then
                   (if s.InProgress? && !Bereft(f, s) && f.labelled && !f.labelCurrent && !f.updateOk
                       then Failed else s)
                 else if Current(f) || Bereft(f, s) then UncordonFailed
                 else if s.Empty? || OneOfFailed(s) then NotStarted
                 else s
  {
  }

  /**
   * While uncordon calls succeed, a node is offered for an upgrade exactly if it can be scheduled, has
   * another driver loaded or none, is no first installation, and is in none of the states in which
   * something is going on or has failed; a failed one is offered again when a retry is asked for.
   */
  lemma OfferedExactly(f: Facts, s: UpgradeState)
    requires f.uncordonMissingOk && f.uncordonReadyOk
    ensures Classify(f, s).1 == Candidate <==>
            && f.schedulable && !Current(f) && !FirstInstall(f)
            && (s.Empty? || s.NotStarted? || s.Complete? || s.InstallComplete? || s.RebootFailed?
                || (OneOfFailed(s) && f.retry))
  {
    BucketsExactly(f, s);
  }
}
