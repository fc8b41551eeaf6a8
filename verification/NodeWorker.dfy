/**
 * The goroutine that upgrades one admitted node: cordon, drain, write the module version label,
 * and, if the policy asks for it, reboot the node through a pod. Every API call is one step whose
 * outcome the environment chooses.
 */
module NodeWorker {
  import opened Common
  import opened UpgradeTypes

  const DRIVER_TICKS := 360
  const REBOOT_TICKS := 300
  const READY_TICKS := 360

  /** The call the worker is about to make. */
  datatype Pc =
    | ReadNode
    | Cordon
    | AfterCordon(ok: bool)
    | Drain
    | AfterDrain(ok: bool)
    | FindOldPod
    | DropOldPod
    | WriteLabel
    | AwaitDriver(tick: nat)
    | CreatePod
    | AwaitReboot(tick: nat)
    | AfterReboot
    | FindPod
    | PollConfig(tick: nat)
    | PollNode(tick: nat, same: bool)
    | DropPodReady(same: bool)
    | DropPodLast
    | LastConfig
    | Store(state: UpgradeState)
    | Returned

  /**
   * Outcome of a call. For a read of the DeviceConfig, Yes and No say whether its driver version
   * is still the worker's; for other calls Yes is success (or: label current, driver loaded, node
   * rebooted, node ready) and everything else is not.
   */
  datatype Answer = Yes | No | Error

  /** What a step did, with its outcome. */
  datatype Event =
    | NodeRead(current: bool)
    | Cordoned(ok: bool)
    | Reread(answer: Answer)
    | Drained(ok: bool)
    | OldPodFound(found: bool)
    | OldPodDropped(ok: bool)
    | LabelWritten(ok: bool)
    | DriverSeen(loaded: bool)
    | PodCreated(ok: bool)
    | RebootSeen(done: bool)
    | PodFound(found: bool)
    | NodeSeen(ready: bool)
    | PodDropped
    | Wrote(state: UpgradeState)

  function Step(reboot: bool, pc: Pc, a: Answer): (Pc, Event)
    requires !pc.Returned?
  {
    match pc
    case ReadNode => (if a.Yes? then Store(InProgress) else Cordon, NodeRead(a.Yes?))
    case Cordon => (AfterCordon(a.Yes?), Cordoned(a.Yes?))
    case AfterCordon(ok) =>
      (if !a.Yes? then Returned else if ok then Drain else Store(CordonFailed), Reread(a))
    case Drain => (AfterDrain(a.Yes?), Drained(a.Yes?))
    case AfterDrain(ok) =>
      (if !a.Yes? then Returned
       else if !ok then Store(DrainFailed)
       else if reboot then FindOldPod
       else WriteLabel, Reread(a))
    case FindOldPod => (if a.Yes? then DropOldPod else WriteLabel, OldPodFound(a.Yes?))
    case DropOldPod => (if a.Yes? then WriteLabel else Store(RebootFailed), OldPodDropped(a.Yes?))
    case WriteLabel =>
      (if !a.Yes? then Store(Failed) else if reboot then AwaitDriver(0) else Store(InProgress),
       LabelWritten(a.Yes?))
    case AwaitDriver(tick) =>
      (if a.Yes? || tick + 1 >= DRIVER_TICKS then CreatePod else AwaitDriver(tick + 1), DriverSeen(a.Yes?))
    case CreatePod => (if a.Yes? then AwaitReboot(0) else Store(RebootFailed), PodCreated(a.Yes?))
    case AwaitReboot(tick) =>
      (if a.Yes? || tick + 1 >= REBOOT_TICKS then AfterReboot else AwaitReboot(tick + 1), RebootSeen(a.Yes?))
    case AfterReboot =>
      (if a.Error? then Returned else if a.Yes? then Store(RebootInProgress) else FindPod, Reread(a))
    case FindPod => (if a.Yes? then PollConfig(0) else Returned, PodFound(a.Yes?))
    case PollConfig(tick) => (if a.Error? then Returned else PollNode(tick, a.Yes?), Reread(a))
    case PollNode(tick, same) =>
      (if a.Yes? then DropPodReady(same)
       else if tick + 1 >= READY_TICKS then DropPodLast
       else PollConfig(tick + 1), NodeSeen(a.Yes?))
    case DropPodReady(same) => (if same then Store(InProgress) else Returned, PodDropped)
    case DropPodLast => (LastConfig, PodDropped)
    case LastConfig => (if a.Yes? then Store(InProgress) else Returned, Reread(a))
    case Store(state) => (if state.RebootInProgress? then FindPod else Returned, Wrote(state))
  }

  /** Position and history of a worker after the given outcomes. */
  function Exec(reboot: bool, answers: seq<Answer>): (Pc, seq<Event>) {
    if answers == [] then (ReadNode, [])
    else
      var (pc, h) := Exec(reboot, answers[..|answers| - 1]);
      if pc.Returned? then (pc, h)
      else
        var (pc', e) := Step(reboot, pc, answers[|answers| - 1]);
        (pc', h + [e])
  }

  // ----- what the history demands next -----

  /** What a worker has to do next. */
  datatype Duty =
    | ReadingNode
    | Cordoning
    | Rereading
    | Draining
    | FindingOldPod
    | DroppingOldPod
    | Labelling
    | AwaitingDriver
    | CreatingPod
    | AwaitingReboot
    | FindingPod
    | LookingAtNode
    | DroppingPod
    | Storing(state: UpgradeState)
    | Nothing

  /**
   * What matters of a history: its last two events, how often the worker looked for the loaded driver,
   * for the reboot and at the node, and the latest read of the DeviceConfig.
   */
  datatype View = View(
    last: Option<Event>, before: Option<Event>, drivers: nat, reboots: nat, nodes: nat, reread: Option<Answer>)

  function Next(v: View, e: Event): View {
    View(Some(e), v.last,
         v.drivers + if e.DriverSeen? then 1 else 0,
         v.reboots + if e.RebootSeen? then 1 else 0,
         v.nodes + if e.NodeSeen? then 1 else 0,
         if e.Reread? then Some(e.answer) else v.reread)
  }

  function ViewOf(h: seq<Event>): View {
    if h == [] then View(None, None, 0, 0, 0, None) else Next(ViewOf(h[..|h| - 1]), h[|h| - 1])
  }

  /** Outcome of the latest read of the DeviceConfig. */
  function LastReread(h: seq<Event>): Option<Answer> {
    if h == [] then None
    else if h[|h| - 1].Reread? then Some(h[|h| - 1].answer)
    else LastReread(h[..|h| - 1])
  }

  /** The duty after a read of the DeviceConfig, by what was done before it. */
  function DueAfterReread(reboot: bool, before: Option<Event>, a: Answer): Duty {
    match before
    case None => Nothing
    case Some(Cordoned(ok)) => if !a.Yes? then Nothing else if ok then Draining else Storing(CordonFailed)
    case Some(Drained(ok)) =>
      if !a.Yes? then Nothing
      else if !ok then Storing(DrainFailed)
      else if reboot then FindingOldPod
      else Labelling
    case Some(RebootSeen(_)) =>
      if a.Error? then Nothing else if a.Yes? then Storing(RebootInProgress) else FindingPod
    case Some(PodDropped) => if a.Yes? then Storing(InProgress) else Nothing
    case Some(_) => if a.Error? then Nothing else LookingAtNode
  }

  /** What the history of a worker demands next; the positions of the worker play no part in it. */
  function Due(reboot: bool, v: View): Duty {
    match v.last
    case None => ReadingNode
    case Some(NodeRead(current)) => if current then Storing(InProgress) else Cordoning
    case Some(Cordoned(_)) => Rereading
    case Some(Drained(_)) => Rereading
    case Some(Reread(a)) => DueAfterReread(reboot, v.before, a)
    case Some(OldPodFound(found)) => if found then DroppingOldPod else Labelling
    case Some(OldPodDropped(ok)) => if ok then Labelling else Storing(RebootFailed)
    case Some(LabelWritten(ok)) =>
      if !ok then Storing(Failed) else if reboot then AwaitingDriver else Storing(InProgress)
    case Some(DriverSeen(loaded)) => if loaded || v.drivers >= 360 then CreatingPod else AwaitingDriver
    case Some(PodCreated(ok)) => if ok then AwaitingReboot else Storing(RebootFailed)
    case Some(RebootSeen(done)) => if done || v.reboots >= 300 then Rereading else AwaitingReboot
    case Some(PodFound(found)) => if found then Rereading else Nothing
    case Some(NodeSeen(ready)) => if ready || v.nodes >= 360 then DroppingPod else Rereading
    case Some(PodDropped) =>
      if v.before == Some(NodeSeen(true)) then if v.reread == Some(Yes) then Storing(InProgress) else Nothing
      else Rereading
    case Some(Wrote(state)) => if state.RebootInProgress? then FindingPod else Nothing
  }

  /** The event is the fulfilment of the duty. */
  predicate Fulfils(d: Duty, e: Event) {
    match d
    case ReadingNode => e.NodeRead?
    case Cordoning => e.Cordoned?
    case Rereading => e.Reread?
    case Draining => e.Drained?
    case FindingOldPod => e.OldPodFound?
    case DroppingOldPod => e.OldPodDropped?
    case Labelling => e.LabelWritten?
    case AwaitingDriver => e.DriverSeen?
    case CreatingPod => e.PodCreated?
    case AwaitingReboot => e.RebootSeen?
    case FindingPod => e.PodFound?
    case LookingAtNode => e.NodeSeen?
    case DroppingPod => e.PodDropped?
    case Storing(state) => e == Wrote(state)
    case Nothing => false
  }

  /** The duty that belongs to a position. */
  function DutyOf(pc: Pc): Duty {
    match pc
    case ReadNode => ReadingNode
    case Cordon => Cordoning
    case AfterCordon(_) => Rereading
    case Drain => Draining
    case AfterDrain(_) => Rereading
    case FindOldPod => FindingOldPod
    case DropOldPod => DroppingOldPod
    case WriteLabel => Labelling
    case AwaitDriver(_) => AwaitingDriver
    case CreatePod => CreatingPod
    case AwaitReboot(_) => AwaitingReboot
    case AfterReboot => Rereading
    case FindPod => FindingPod
    case PollConfig(_) => Rereading
    case PollNode(_, _) => LookingAtNode
    case DropPodReady(_) => DroppingPod
    case DropPodLast => DroppingPod
    case LastConfig => Rereading
    case Store(state) => Storing(state)
    case Returned => Nothing
  }

  function Last(h: seq<Event>): Event
    requires h != []
  {
    h[|h| - 1]
  }

  /** What the position knows about the history. */
  predicate Remembers(pc: Pc, v: View) {
    match pc
    case ReadNode => v.last.None?
    case AfterCordon(ok) => v.last == Some(Cordoned(ok))
    case AfterDrain(ok) => v.last == Some(Drained(ok))
    case AwaitDriver(tick) => v.drivers == tick && v.reboots == 0 && v.nodes == 0
    case CreatePod => v.reboots == 0 && v.nodes == 0
    case AwaitReboot(tick) => v.reboots == tick && v.nodes == 0
    case AfterReboot => v.last.Some? && v.last.value.RebootSeen? && v.nodes == 0
    case FindPod => v.nodes == 0
    case PollConfig(tick) => v.last.Some? && (v.last.value.PodFound? || v.last.value.NodeSeen?) && v.nodes == tick
    case PollNode(tick, same) => v.nodes == tick && v.reread == Some(if same then Yes else No)
    case DropPodReady(same) => v.last == Some(NodeSeen(true)) && v.reread == Some(if same then Yes else No)
    case DropPodLast => v.last == Some(NodeSeen(false))
    case LastConfig => v.last == Some(PodDropped)
    case Store(state) => state.RebootInProgress? ==> v.nodes == 0
    case Returned => true
    case _ => true
  }

  predicate Early(pc: Pc) {
    || pc.ReadNode? || pc.Cordon? || pc.AfterCordon? || pc.Drain? || pc.AfterDrain?
    || pc.FindOldPod? || pc.DropOldPod? || pc.WriteLabel?
  }

  /** Position and history fit together. */
  predicate InStep(reboot: bool, pc: Pc, v: View) {
    && DutyOf(pc) == Due(reboot, v) && Remembers(pc, v)
    && (Early(pc) ==> v.drivers == 0 && v.reboots == 0 && v.nodes == 0)
  }

  lemma StepInStep(reboot: bool, pc: Pc, v: View, a: Answer)
    requires !pc.Returned? && InStep(reboot, pc, v)
    ensures var (pc', e) := Step(reboot, pc, a); Fulfils(DutyOf(pc), e) && InStep(reboot, pc', Next(v, e))
  {
    if pc.ReadNode? || pc.Cordon? || pc.AfterCordon? {
      CordonInStep(reboot, pc, v, a);
    } else if pc.Drain? || pc.AfterDrain? {
      DrainInStep(reboot, pc, v, a);
    } else if pc.FindOldPod? || pc.DropOldPod? || pc.WriteLabel? {
      LabelInStep(reboot, pc, v, a);
    } else if pc.AwaitDriver? || pc.CreatePod? {
      DriverInStep(reboot, pc, v, a);
    } else if pc.AwaitReboot? || pc.AfterReboot? {
      RebootInStep(reboot, pc, v, a);
    } else if pc.FindPod? || pc.PollConfig? {
      FoundInStep(reboot, pc, v, a);
    } else if pc.PollNode? || pc.DropPodReady? {
      LookInStep(reboot, pc, v, a);
    } else if pc.DropPodLast? || pc.LastConfig? {
      DropInStep(reboot, pc, v, a);
    } else {
      StoreInStep(reboot, pc, v, a);
    }
  }

  lemma CordonInStep(reboot: bool, pc: Pc, v: View, a: Answer)
    requires (pc.ReadNode? || pc.Cordon? || pc.AfterCordon?) && InStep(reboot, pc, v)
    ensures var (pc', e) := Step(reboot, pc, a); Fulfils(DutyOf(pc), e) && InStep(reboot, pc', Next(v, e))
  {
  }

  lemma DrainInStep(reboot: bool, pc: Pc, v: View, a: Answer)
    requires (pc.Drain? || pc.AfterDrain?) && InStep(reboot, pc, v)
    ensures var (pc', e) := Step(reboot, pc, a); Fulfils(DutyOf(pc), e) && InStep(reboot, pc', Next(v, e))
  {
  }

  lemma LabelInStep(reboot: bool, pc: Pc, v: View, a: Answer)
    requires (pc.FindOldPod? || pc.DropOldPod? || pc.WriteLabel?) && InStep(reboot, pc, v)
    ensures var (pc', e) := Step(reboot, pc, a); Fulfils(DutyOf(pc), e) && InStep(reboot, pc', Next(v, e))
  {
  }

  lemma DriverInStep(reboot: bool, pc: Pc, v: View, a: Answer)
    requires (pc.AwaitDriver? || pc.CreatePod?) && InStep(reboot, pc, v)
    ensures var (pc', e) := Step(reboot, pc, a); Fulfils(DutyOf(pc), e) && InStep(reboot, pc', Next(v, e))
  {
  }

  lemma RebootInStep(reboot: bool, pc: Pc, v: View, a: Answer)
    requires (pc.AwaitReboot? || pc.AfterReboot?) && InStep(reboot, pc, v)
    ensures var (pc', e) := Step(reboot, pc, a); Fulfils(DutyOf(pc), e) && InStep(reboot, pc', Next(v, e))
  {
  }

  lemma FoundInStep(reboot: bool, pc: Pc, v: View, a: Answer)
    requires (pc.FindPod? || pc.PollConfig?) && InStep(reboot, pc, v)
    ensures var (pc', e) := Step(reboot, pc, a); Fulfils(DutyOf(pc), e) && InStep(reboot, pc', Next(v, e))
  {
  }

  lemma LookInStep(reboot: bool, pc: Pc, v: View, a: Answer)
    requires (pc.PollNode? || pc.DropPodReady?) && InStep(reboot, pc, v)
    ensures var (pc', e) := Step(reboot, pc, a); Fulfils(DutyOf(pc), e) && InStep(reboot, pc', Next(v, e))
  {
  }

  lemma DropInStep(reboot: bool, pc: Pc, v: View, a: Answer)
    requires (pc.DropPodLast? || pc.LastConfig?) && InStep(reboot, pc, v)
    ensures var (pc', e) := Step(reboot, pc, a); Fulfils(DutyOf(pc), e) && InStep(reboot, pc', Next(v, e))
  {
  }

  lemma StoreInStep(reboot: bool, pc: Pc, v: View, a: Answer)
    requires pc.Store? && InStep(reboot, pc, v)
    ensures var (pc', e) := Step(reboot, pc, a); Fulfils(DutyOf(pc), e) && InStep(reboot, pc', Next(v, e))
  {
  }

  /** Every event of the history fulfils what was due when it happened. */
  predicate Dutiful(reboot: bool, h: seq<Event>) {
    forall k {:trigger h[k]} :: 0 <= k < |h| ==> Fulfils(Due(reboot, ViewOf(h[..k])), h[k])
  }

  /**
   * In every run of a worker, whatever the API answers, each step does what its history demands, and
   * the worker returns exactly when nothing is due any more.
   */
  lemma {:induction false} WorkerIsDutiful(reboot: bool, answers: seq<Answer>)
    ensures var (pc, h) := Exec(reboot, answers);
            && Dutiful(reboot, h) && (pc.Returned? <==> Due(reboot, ViewOf(h)) == Nothing)
            && InStep(reboot, pc, ViewOf(h))
  {
    if answers != [] {
      var rest, a := answers[..|answers| - 1], answers[|answers| - 1];
      WorkerIsDutiful(reboot, rest);
      var (pc, h) := Exec(reboot, rest);
      if !pc.Returned? {
        StepInStep(reboot, pc, ViewOf(h), a);
        AppendDutiful(reboot, h, Step(reboot, pc, a).1);
      }
    }
  }

  lemma AppendDutiful(reboot: bool, h: seq<Event>, e: Event)
    requires Dutiful(reboot, h) && Fulfils(Due(reboot, ViewOf(h)), e)
    ensures Dutiful(reboot, h + [e]) && ViewOf(h + [e]) == Next(ViewOf(h), e)
  {
    var h' := h + [e];
    assert h'[..|h|] == h;
    forall k | 0 <= k < |h'| ensures Fulfils(Due(reboot, ViewOf(h'[..k])), h'[k]) {
      if k < |h| {
        assert h'[..k] == h[..k] && h'[k] == h[k];
      }
    }
  }

  /** The view of the first k events shows the last two of them. */
  lemma ViewEnds(h: seq<Event>, k: nat)
    requires k <= |h|
    ensures ViewOf(h[..k]).last == if k == 0 then None else Some(h[k - 1])
    ensures ViewOf(h[..k]).before == if k < 2 then None else Some(h[k - 2])
    ensures ViewOf(h[..k]).reread == LastReread(h[..k])
  {
    if k > 0 {
      assert h[..k][..k - 1] == h[..k - 1];
      ViewEnds(h, k - 1);
    }
  }

  // ----- how a worker ends -----

  /** The event is a call that did not do what it was made for. */
  predicate Fails(e: Event) {
    || e == Cordoned(false) || e == Drained(false) || e == OldPodDropped(false) || e == LabelWritten(false)
    || e == PodCreated(false) || e == PodFound(false) || (e.Reread? && !e.answer.Yes?)
  }

  /** The state that a failed call leads to, if the DeviceConfig still has the worker's version. */
  function Blame(e: Event): Option<UpgradeState> {
    match e
    case Cordoned(ok) => if ok then None else Some(CordonFailed)
    case Drained(ok) => if ok then None else Some(DrainFailed)
    case OldPodDropped(ok) => if ok then None else Some(RebootFailed)
    case LabelWritten(ok) => if ok then None else Some(Failed)
    case PodCreated(ok) => if ok then None else Some(RebootFailed)
    case _ => None
  }

  /** A last event after which nothing is left to do. */
  predicate Final(h: seq<Event>) {
    h != [] &&
    match Last(h)
    case Wrote(s) => !s.RebootInProgress?
    case Reread(a) => !a.Yes?
    case PodFound(found) => !found
    case PodDropped => LastReread(h).Some? && LastReread(h) != Some(Yes)
    case _ => false
  }

  /**
   * How a worker that has returned ended: its last event is the store of a final state, or a read of the
   * DeviceConfig that did not give its version, or a missing reboot pod, or the removal of that pod
   * after such a read.
   */
  lemma WorkerEnds(reboot: bool, answers: seq<Answer>)
    requires Exec(reboot, answers).0.Returned?
    ensures Final(Exec(reboot, answers).1)
  {
    WorkerIsDutiful(reboot, answers);
    NothingIsFinal(reboot, Exec(reboot, answers).1);
  }

  lemma NothingIsFinal(reboot: bool, h: seq<Event>)
    requires Dutiful(reboot, h) && Due(reboot, ViewOf(h)) == Nothing
    ensures Final(h)
  {
    var k := |h|;
    assert h[..k] == h;
    ViewEnds(h, k);
    if h[k - 1].PodDropped? {
      BeforeDrop(reboot, h, k - 1);
      RereadSeen(h, k - 3);
    } else if h[k - 1].Reread? {
      BeforeReread(reboot, h, k - 1);
    }
  }

  /** What is due before the k-th event. */
  lemma WasDue(reboot: bool, h: seq<Event>, k: nat)
    requires Dutiful(reboot, h) && k < |h|
    ensures Fulfils(Due(reboot, ViewOf(h[..k])), h[k])
  {
  }

  /** Before the reboot pod is removed the node was looked at, and before that the DeviceConfig was read. */
  lemma BeforeDrop(reboot: bool, h: seq<Event>, k: nat)
    requires Dutiful(reboot, h) && k < |h| && h[k].PodDropped?
    ensures k >= 2 && h[k - 1].NodeSeen? && h[k - 2].Reread?
  {
    WasDue(reboot, h, k);
    ViewEnds(h, k);
    DueBy(reboot, ViewOf(h[..k]), h[k]);
    WasDue(reboot, h, k - 1);
    ViewEnds(h, k - 1);
    DueBy(reboot, ViewOf(h[..k - 1]), h[k - 1]);
  }

  /** What an event says about the one before it. */
  lemma DueBy(reboot: bool, v: View, e: Event)
    requires Fulfils(Due(reboot, v), e)
    ensures e.PodDropped? ==> v.last.Some? && v.last.value.NodeSeen?
    ensures e.NodeSeen? ==> v.last.Some? && v.last.value.Reread?
    ensures e.Reread? ==> v.last.Some? && !v.last.value.Wrote?
  {
  }

  /** What is due after an event, by the event alone. */
  lemma DueFrom(reboot: bool, v: View, e: Event)
    requires v.last == Some(e)
    ensures e.Wrote? && !e.state.RebootInProgress? ==> Due(reboot, v) == Nothing
    ensures e.Cordoned? || e.Drained? ==> Due(reboot, v) == Rereading
    ensures Blame(e).Some? && !e.Cordoned? && !e.Drained? ==> Due(reboot, v) == Storing(Blame(e).value)
  {
  }

  /** A read of the DeviceConfig is not the first event, and what it follows is never a store. */
  lemma BeforeReread(reboot: bool, h: seq<Event>, k: nat)
    requires Dutiful(reboot, h) && k < |h| && h[k].Reread?
    ensures k >= 1 && !h[k - 1].Wrote?
  {
    WasDue(reboot, h, k);
    ViewEnds(h, k);
    DueBy(reboot, ViewOf(h[..k]), h[k]);
  }

  lemma {:induction false} RereadSeen(h: seq<Event>, i: nat)
    requires i < |h| && h[i].Reread?
    ensures LastReread(h).Some?
  {
    if !h[|h| - 1].Reread? {
      RereadSeen(h[..|h| - 1], i);
    }
  }

  /**
   * A worker whose calls all succeed and that always finds its version ends with InProgress; and if it
   * has rebooted the node, it has stored RebootInProgress before.
   */
  lemma SuccessEndsInProgress(reboot: bool, answers: seq<Answer>)
    requires Exec(reboot, answers).0.Returned?
    requires forall e :: e in Exec(reboot, answers).1 ==> !Fails(e)
    ensures var h := Exec(reboot, answers).1;
            && h != [] && Last(h) == Wrote(InProgress)
            && (reboot && h[0] == NodeRead(false) ==> Wrote(RebootInProgress) in h)
  {
    var h := Exec(reboot, answers).1;
    WorkerEnds(reboot, answers);
    WorkerTraceOrder(reboot, answers);
    RebootIsStored(reboot, answers);
    EndsWithWrite(h);
    var k := |h| - 1;
    assert Justified(h[..k], h[k]);
    NoFailureNoBlame(h, k);
  }

  lemma EndsWithWrite(h: seq<Event>)
    requires Final(h) && forall e :: e in h ==> !Fails(e)
    ensures Last(h).Wrote? && !Last(h).state.RebootInProgress?
  {
    assert Last(h) in h;
    if LastReread(h).Some? {
      LastRereadIn(h);
    }
  }

  lemma {:induction false} LastRereadIn(h: seq<Event>)
    requires LastReread(h).Some?
    ensures Reread(LastReread(h).value) in h
  {
    if !h[|h| - 1].Reread? {
      LastRereadIn(h[..|h| - 1]);
    }
  }

  /** A failed state is stored only after a call that failed. */
  lemma NoFailureNoBlame(h: seq<Event>, k: nat)
    requires k < |h| && h[k].Wrote? && Justified(h[..k], h[k]) && forall e :: e in h ==> !Fails(e)
    ensures h[k].state.InProgress? || h[k].state.RebootInProgress?
  {
    var g := h[..k];
    forall i | 0 <= i < k ensures !Fails(g[i]) {
      assert g[i] == h[i] && h[i] in h;
    }
    assert h[k].state.CordonFailed? ==> Fails(g[1]);
    assert h[k].state.DrainFailed? ==> Fails(g[3]);
  }

  /** From the reboot on, either RebootInProgress was stored or the version was found changed. */
  predicate Carries(reboot: bool, pc: Pc, h: seq<Event>) {
    var behind := Wrote(RebootInProgress) in h || Reread(No) in h;
    match pc
    case FindPod | PollConfig(_) | PollNode(_, _) | DropPodReady(_) | DropPodLast | LastConfig => behind
    case Store(state) => reboot && state.InProgress? ==> behind || (|h| == 1 && h[0] == NodeRead(true))
    case Returned => reboot && Wrote(InProgress) in h ==> behind || h[0] == NodeRead(true)
    case _ => true
  }

  lemma StepCarries(reboot: bool, pc: Pc, h: seq<Event>, a: Answer)
    requires !pc.Returned? && Carries(reboot, pc, h) && InStep(reboot, pc, ViewOf(h)) && Wrote(InProgress) !in h
    ensures var (pc', e) := Step(reboot, pc, a); Carries(reboot, pc', h + [e])
  {
    var e := Step(reboot, pc, a).1;
    assert e in h + [e] && forall x :: x in h ==> x in h + [e];
    assert forall x :: x in h + [e] ==> x in h || x == e;
  }

  lemma {:induction false} RebootIsStored(reboot: bool, answers: seq<Answer>)
    ensures var (pc, h) := Exec(reboot, answers);
            Carries(reboot, pc, h) && (!pc.Returned? ==> Wrote(InProgress) !in h)
  {
    if answers != [] {
      var rest, a := answers[..|answers| - 1], answers[|answers| - 1];
      RebootIsStored(reboot, rest);
      WorkerIsDutiful(reboot, rest);
      var (pc, h) := Exec(reboot, rest);
      if !pc.Returned? {
        StepCarries(reboot, pc, h, a);
      }
    }
  }

  /**
   * A failed call leads to the state it names: at once or, for the upgrade taint and the drain, after
   * the DeviceConfig was found unchanged; and that is the end. Without that, nothing is stored.
   */
  lemma FailureStored(reboot: bool, answers: seq<Answer>, k: nat)
    requires Exec(reboot, answers).0.Returned?
    requires k < |Exec(reboot, answers).1| && Blame(Exec(reboot, answers).1[k]).Some?
    ensures var h := Exec(reboot, answers).1;
            var s := Blame(h[k]).value;
            if h[k].Cordoned? || h[k].Drained? then
              && k + 1 < |h| && h[k + 1].Reread?
              && if h[k + 1].answer.Yes? then |h| == k + 3 && h[k + 2] == Wrote(s) else |h| == k + 2
            else |h| == k + 2 && h[k + 1] == Wrote(s)
  {
    var h := Exec(reboot, answers).1;
    WorkerIsDutiful(reboot, answers);
    if h[k].Cordoned? || h[k].Drained? {
      BlamedLater(reboot, h, k);
    } else {
      BlamedAtOnce(reboot, h, k);
    }
  }

  /** While something is due the history of a returned worker goes on with it. */
  lemma DueNext(reboot: bool, h: seq<Event>, k: nat) returns (d: Duty)
    requires Dutiful(reboot, h) && Due(reboot, ViewOf(h)) == Nothing && k <= |h|
    ensures d == Due(reboot, ViewOf(h[..k]))
    ensures if d == Nothing then k == |h| else k < |h| && Fulfils(d, h[k])
  {
    d := Due(reboot, ViewOf(h[..k]));
    if k < |h| {
      WasDue(reboot, h, k);
    } else {
      assert h[..k] == h;
    }
  }

  /** A store of a final state is the end. */
  lemma StoredIsEnd(reboot: bool, h: seq<Event>, k: nat)
    requires Dutiful(reboot, h) && Due(reboot, ViewOf(h)) == Nothing
    requires k < |h| && h[k].Wrote? && !h[k].state.RebootInProgress?
    ensures |h| == k + 1
  {
    ViewEnds(h, k + 1);
    DueFrom(reboot, ViewOf(h[..k + 1]), h[k]);
    var d := DueNext(reboot, h, k + 1);
  }

  lemma BlamedAtOnce(reboot: bool, h: seq<Event>, k: nat)
    requires Dutiful(reboot, h) && Due(reboot, ViewOf(h)) == Nothing
    requires k < |h| && Blame(h[k]).Some? && !h[k].Cordoned? && !h[k].Drained?
    ensures |h| == k + 2 && h[k + 1] == Wrote(Blame(h[k]).value)
  {
    ViewEnds(h, k + 1);
    DueFrom(reboot, ViewOf(h[..k + 1]), h[k]);
    var d := DueNext(reboot, h, k + 1);
    StoredIsEnd(reboot, h, k + 1);
  }

  lemma DueAfterFailure(reboot: bool, v: View, before: Event, e: Event)
    requires v.last == Some(e) && v.before == Some(before) && e.Reread?
    requires Blame(before).Some? && (before.Cordoned? || before.Drained?)
    ensures Due(reboot, v) == if e.answer.Yes? then Storing(Blame(before).value) else Nothing
  {
  }

  lemma BlamedLater(reboot: bool, h: seq<Event>, k: nat)
    requires Dutiful(reboot, h) && Due(reboot, ViewOf(h)) == Nothing
    requires k < |h| && Blame(h[k]).Some? && (h[k].Cordoned? || h[k].Drained?)
    ensures k + 1 < |h| && h[k + 1].Reread?
    ensures if h[k + 1].answer.Yes? then |h| == k + 3 && h[k + 2] == Wrote(Blame(h[k]).value) else |h| == k + 2
  {
    ViewEnds(h, k + 1);
    DueFrom(reboot, ViewOf(h[..k + 1]), h[k]);
    var d := DueNext(reboot, h, k + 1);
    ViewEnds(h, k + 2);
    DueAfterFailure(reboot, ViewOf(h[..k + 2]), h[k], h[k + 1]);
    d := DueNext(reboot, h, k + 2);
    if h[k + 1].answer.Yes? {
      StoredIsEnd(reboot, h, k + 2);
    }
  }

  // ----- order of the effects -----

  /** Node not labelled yet, upgrade taint set, version unchanged, pods drained, version unchanged. */
  predicate Began(h: seq<Event>) {
    |h| >= 5 && Tainted(h) && h[3] == Drained(true) && h[4] == Reread(Yes)
  }

  predicate Tainted(h: seq<Event>) {
    |h| >= 3 && h[0] == NodeRead(false) && h[1] == Cordoned(true) && h[2] == Reread(Yes)
  }

  /** The label was written, and the DeviceConfig was last seen with the worker's version. */
  predicate Confirmed(h: seq<Event>) {
    Began(h) && LabelWritten(true) in h && LastReread(h) == Some(Yes)
  }

  /** What must have happened before an event. */
  predicate Justified(before: seq<Event>, e: Event) {
    match e
    case LabelWritten(_) => LabelPending(before)
    case Wrote(s) =>
      (match s
       case InProgress => before == [NodeRead(true)] || Confirmed(before)
       case RebootInProgress => Confirmed(before)
       case CordonFailed => before == [NodeRead(false), Cordoned(false), Reread(Yes)]
       case DrainFailed => |before| == 5 && Tainted(before) && before[3] == Drained(false) && before[4] == Reread(Yes)
       case Failed => Began(before) && before[|before| - 1] == LabelWritten(false)
       case RebootFailed =>
         Began(before) && (before[|before| - 1] == OldPodDropped(false) || before[|before| - 1] == PodCreated(false))
       case _ => false)
    case _ => true
  }

  /** A status write other than RebootInProgress ends the worker; RebootInProgress comes at most once. */
  predicate WritesInOrder(h: seq<Event>) {
    forall i, j :: 0 <= i < j < |h| && h[i].Wrote? && h[j].Wrote? ==>
      h[i].state.RebootInProgress? && h[j].state.InProgress?
  }

  predicate WellOrdered(h: seq<Event>) {
    (forall k :: 0 <= k < |h| ==> Justified(h[..k], h[k])) && WritesInOrder(h)
  }

  predicate NoWrite(h: seq<Event>) {
    forall k :: 0 <= k < |h| ==> !h[k].Wrote?
  }

  predicate OnlyRebootWrites(h: seq<Event>) {
    forall k :: 0 <= k < |h| && h[k].Wrote? ==> h[k].state.RebootInProgress?
  }

  predicate LabelPending(h: seq<Event>) {
    Began(h) && forall k :: 5 <= k < |h| ==> h[k].OldPodFound? || h[k].OldPodDropped?
  }

  predicate Labelled(h: seq<Event>) {
    Began(h) && LabelWritten(true) in h && OnlyRebootWrites(h)
  }

  /** What the position says about the order of the history. */
  predicate At(pc: Pc, h: seq<Event>) {
    match pc
    case ReadNode => h == []
    case Cordon => h == [NodeRead(false)]
    case AfterCordon(ok) => h == [NodeRead(false), Cordoned(ok)]
    case Drain => |h| == 3 && Tainted(h)
    case AfterDrain(ok) => |h| == 4 && Tainted(h) && h[3] == Drained(ok)
    case FindOldPod => LabelPending(h)
    case DropOldPod => LabelPending(h)
    case WriteLabel => LabelPending(h)
    case AwaitDriver(_) => Labelled(h) && NoWrite(h)
    case CreatePod => Labelled(h) && NoWrite(h)
    case AwaitReboot(_) => Labelled(h) && NoWrite(h)
    case AfterReboot => Labelled(h) && NoWrite(h)
    case FindPod => Labelled(h)
    case PollConfig(_) => Labelled(h)
    case PollNode(_, same) => Labelled(h) && (same ==> LastReread(h) == Some(Yes))
    case DropPodReady(same) => Labelled(h) && (same ==> LastReread(h) == Some(Yes))
    case DropPodLast => Labelled(h)
    case LastConfig => Labelled(h)
    case Store(state) =>
      && Justified(h, Wrote(state))
      && (if state.InProgress? then OnlyRebootWrites(h) else NoWrite(h))
      && (state.RebootInProgress? ==> Labelled(h))
    case Returned => true
  }

  /**
   * In every run of a worker, whatever the API answers: the module version label is written only
   * after a successful taint and then a successful drain, with the DeviceConfig version re-read
   * unchanged after each; RebootInProgress and InProgress are written only when the latest re-read
   * gave the worker's version (or the label was current from the start); the failure states are
   * written only by the calls they name; and nothing is written after the final state.
   */
  lemma {:induction false} WorkerTraceOrder(reboot: bool, answers: seq<Answer>)
    ensures WellOrdered(Exec(reboot, answers).1)
    ensures At(Exec(reboot, answers).0, Exec(reboot, answers).1)
  {
    if answers != [] {
      var rest := answers[..|answers| - 1];
      WorkerTraceOrder(reboot, rest);
      var (pc, h) := Exec(reboot, rest);
      if !pc.Returned? {
        var (pc', e) := Step(reboot, pc, answers[|answers| - 1]);
        StepContinues(reboot, pc, h, answers[|answers| - 1]);
        AppendKeepsOrder(h, e, pc');
      }
    }
  }

  /** The event may come next, and leads to position `pc`. */
  predicate Continues(h: seq<Event>, e: Event, pc: Pc) {
    && Justified(h, e)
    && (e.Wrote? ==> if e.state.InProgress? then OnlyRebootWrites(h) else NoWrite(h))
    && At(pc, h + [e])
  }

  lemma StepContinues(reboot: bool, pc: Pc, h: seq<Event>, a: Answer)
    requires !pc.Returned? && At(pc, h)
    ensures Continues(h, Step(reboot, pc, a).1, Step(reboot, pc, a).0)
  {
    if pc.ReadNode? || pc.Cordon? || pc.AfterCordon? {
      CordonStep(reboot, pc, h, a);
    } else if pc.Drain? || pc.AfterDrain? {
      DrainStep(reboot, pc, h, a);
    } else if pc.FindOldPod? || pc.DropOldPod? || pc.WriteLabel? {
      LabelStep(reboot, pc, h, a);
    } else if pc.AwaitDriver? || pc.CreatePod? {
      DriverStep(reboot, pc, h, a);
    } else if pc.AwaitReboot? || pc.AfterReboot? {
      RebootStep(reboot, pc, h, a);
    } else if pc.Store? {
      StoreStep(reboot, pc, h, a);
    } else if pc.FindPod? || pc.PollConfig? {
      PollStep(reboot, pc, h, a);
    } else if pc.PollNode? || pc.DropPodReady? {
      LookStep(reboot, pc, h, a);
    } else {
      DropStep(reboot, pc, h, a);
    }
  }

  lemma CordonStep(reboot: bool, pc: Pc, h: seq<Event>, a: Answer)
    requires (pc.ReadNode? || pc.Cordon? || pc.AfterCordon?) && At(pc, h)
    ensures Continues(h, Step(reboot, pc, a).1, Step(reboot, pc, a).0)
  {
  }

  lemma DrainStep(reboot: bool, pc: Pc, h: seq<Event>, a: Answer)
    requires (pc.Drain? || pc.AfterDrain?) && At(pc, h)
    ensures Continues(h, Step(reboot, pc, a).1, Step(reboot, pc, a).0)
  {
  }

  lemma LabelStep(reboot: bool, pc: Pc, h: seq<Event>, a: Answer)
    requires (pc.FindOldPod? || pc.DropOldPod? || pc.WriteLabel?) && LabelPending(h)
    ensures Continues(h, Step(reboot, pc, a).1, Step(reboot, pc, a).0)
  {
    var e := Step(reboot, pc, a).1;
    PendingFacts(h);
    var h' := h + [e];
    assert h'[..|h|] == h && h'[|h|] == e;
    assert e in h';
  }

  lemma PendingFacts(h: seq<Event>)
    requires LabelPending(h)
    ensures LastReread(h) == Some(Yes) && NoWrite(h)
    decreases |h|
  {
    if |h| > 5 {
      PendingFacts(h[..|h| - 1]);
    }
  }

  lemma DriverStep(reboot: bool, pc: Pc, h: seq<Event>, a: Answer)
    requires (pc.AwaitDriver? || pc.CreatePod?) && Labelled(h) && NoWrite(h)
    ensures Continues(h, Step(reboot, pc, a).1, Step(reboot, pc, a).0)
  {
    AppendKeepsLabel(h, Step(reboot, pc, a).1);
  }

  lemma RebootStep(reboot: bool, pc: Pc, h: seq<Event>, a: Answer)
    requires (pc.AwaitReboot? || pc.AfterReboot?) && Labelled(h) && NoWrite(h)
    ensures Continues(h, Step(reboot, pc, a).1, Step(reboot, pc, a).0)
  {
    AppendKeepsLabel(h, Step(reboot, pc, a).1);
  }

  lemma PollStep(reboot: bool, pc: Pc, h: seq<Event>, a: Answer)
    requires (pc.FindPod? || pc.PollConfig?) && At(pc, h)
    ensures Continues(h, Step(reboot, pc, a).1, Step(reboot, pc, a).0)
  {
    AppendKeepsLabel(h, Step(reboot, pc, a).1);
  }

  lemma LookStep(reboot: bool, pc: Pc, h: seq<Event>, a: Answer)
    requires (pc.PollNode? || pc.DropPodReady?) && At(pc, h)
    ensures Continues(h, Step(reboot, pc, a).1, Step(reboot, pc, a).0)
  {
    AppendKeepsLabel(h, Step(reboot, pc, a).1);
  }

  lemma DropStep(reboot: bool, pc: Pc, h: seq<Event>, a: Answer)
    requires (pc.DropPodLast? || pc.LastConfig?) && At(pc, h)
    ensures Continues(h, Step(reboot, pc, a).1, Step(reboot, pc, a).0)
  {
    AppendKeepsLabel(h, Step(reboot, pc, a).1);
  }

  lemma StoreStep(reboot: bool, pc: Pc, h: seq<Event>, a: Answer)
    requires pc.Store? && At(pc, h)
    ensures Continues(h, Step(reboot, pc, a).1, Step(reboot, pc, a).0)
  {
    if pc.state.RebootInProgress? {
      AppendKeepsLabel(h, Wrote(pc.state));
    }
  }

  lemma AppendKeepsLabel(h: seq<Event>, e: Event)
    requires Labelled(h)
    requires e.Wrote? ==> e.state.RebootInProgress?
    ensures Labelled(h + [e])
    ensures NoWrite(h) && !e.Wrote? ==> NoWrite(h + [e])
    ensures LastReread(h + [e]) == if e.Reread? then Some(e.answer) else LastReread(h)
  {
    var h' := h + [e];
    assert h'[..|h|] == h;
    var i :| 0 <= i < |h| && h[i] == LabelWritten(true);
    assert h'[i] == LabelWritten(true);
  }

  lemma AppendKeepsOrder(h: seq<Event>, e: Event, pc: Pc)
    requires WellOrdered(h) && Continues(h, e, pc)
    ensures WellOrdered(h + [e])
  {
    var h' := h + [e];
    forall k | 0 <= k < |h'| ensures Justified(h'[..k], h'[k]) {
      assert h'[..k] == h[..k];
      if k == |h| {
        assert h[..k] == h;
      }
    }
  }

  // ----- termination -----

  /** An upper bound on the number of steps a worker still takes. */
  function Fuel(pc: Pc): nat {
    match pc
    case ReadNode => 2000
    case Cordon => 1999
    case AfterCordon(_) => 1998
    case Drain => 1997
    case AfterDrain(_) => 1996
    case FindOldPod => 1995
    case DropOldPod => 1994
    case WriteLabel => 1993
    case AwaitDriver(tick) => 1600 + Max(0, DRIVER_TICKS - tick)
    case CreatePod => 1500
    case AwaitReboot(tick) => 1100 + Max(0, REBOOT_TICKS - tick)
    case AfterReboot => 1000
    case FindPod => 900
    case PollConfig(tick) => 10 + 2 * Max(0, READY_TICKS - tick)
    case PollNode(tick, _) => 9 + 2 * Max(0, READY_TICKS - tick)
    case DropPodReady(_) => 8
    case DropPodLast => 7
    case LastConfig => 6
    case Store(state) => if state.RebootInProgress? then 950 else 1
    case Returned => 0
  }

  lemma StepUsesFuel(reboot: bool, pc: Pc, a: Answer)
    requires !pc.Returned?
    ensures Fuel(Step(reboot, pc, a).0) < Fuel(pc)
  {
  }

  /**
   * Every worker returns within 2000 steps, so no upgrade goroutine stays behind for ever. A step is one
   * position of the worker: cordoning, draining and one tick of a polling loop are single steps.
   */
  lemma {:induction false} WorkerReturns(reboot: bool, answers: seq<Answer>)
    ensures Fuel(Exec(reboot, answers).0) <= Max(0, 2000 - |answers|)
    ensures |answers| >= 2000 ==> Exec(reboot, answers).0.Returned?
  {
    if answers != [] {
      var rest := answers[..|answers| - 1];
      WorkerReturns(reboot, rest);
      var pc := Exec(reboot, rest).0;
      if !pc.Returned? {
        StepUsesFuel(reboot, pc, answers[|answers| - 1]);
      }
    }
  }
}
