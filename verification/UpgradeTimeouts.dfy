/**
 * The two-hour timeout across operator restarts. Start times live in memory; every reconcile also
 * writes them into the DeviceConfig status, from where they are read when memory has lost them.
 */
module UpgradeTimeouts {
  import opened Common
  import opened UpgradeTypes
  import opened Classification
  import opened UpgradePass

  type NodeStatuses = map<string, ModuleStatus>

  /** What the NodeModulesConfig of a node says: the image of this DeviceConfig's module, if listed. */
  type Images = map<string, string>

  /** What memory knows when the status is built. */
  datatype Memory = Memory(status: StatusMap, times: Times, bootIds: map<string, string>)

  /** The new status entry of one node. A driver state is only shown while drivers are managed. */
  function Entry(n: string, images: Images, managing: bool, memory: Memory, previous: NodeStatuses): ModuleStatus {
    var start := if TimeOf(memory.times, n).Some? then TimeOf(memory.times, n)
                 else if n in previous then previous[n].startTime
                 else None;
    var bootId := if n in memory.bootIds && memory.bootIds[n] != "" then memory.bootIds[n]
                  else if n in previous then previous[n].bootId
                  else "";
    if n in images then ModuleStatus(images[n], if managing then StateOf(memory.status, n) else Empty, start, bootId)
    else ModuleStatus("", StateOf(memory.status, n), start, bootId)
  }

  /** Each field of an entry: what comes from the node's modules, from memory, and from the entry before. */
  lemma EntryExactly(n: string, images: Images, managing: bool, memory: Memory, previous: NodeStatuses)
    ensures var e := Entry(n, images, managing, memory, previous);
            && (e.image == if n in images then images[n] else "")
            && (e.status == if (n in images && !managing) || n !in memory.status then Empty else memory.status[n])
            && (if n in memory.times && memory.times[n].Some? then e.startTime == memory.times[n]
                else if n in previous then e.startTime == previous[n].startTime
                else e.startTime == None)
            && (if n in memory.bootIds && memory.bootIds[n] != "" then e.bootId == memory.bootIds[n]
                else if n in previous then e.bootId == previous[n].bootId
                else e.bootId == "")
  {
  }

  /** Rebuilds the node part of the DeviceConfig status: one entry per listed node and nothing else. */
  method BuildNodeStatus(nodes: seq<Node>, images: Images, managing: bool, memory: Memory, previous: NodeStatuses)
    returns (built: NodeStatuses)
    ensures built.Keys == set i | 0 <= i < |nodes| :: nodes[i].name
    ensures forall n :: n in built ==> built[n] == Entry(n, images, managing, memory, previous)
  {
    built := map[];
    for i := 0 to |nodes|
      invariant built.Keys == set j | 0 <= j < i :: nodes[j].name
      invariant forall n :: n in built ==> built[n] == Entry(n, images, managing, memory, previous)
    {
      var n := nodes[i].name;
      var start := TimeOf(memory.times, n);
      if start.None? && n in previous {
        start := previous[n].startTime;
      }
      var bootId := if n in memory.bootIds then memory.bootIds[n] else "";
      if bootId == "" && n in previous {
        bootId := previous[n].bootId;
      }
      built := built[n := ModuleStatus("", StateOf(memory.status, n), start, bootId)];
      if n in images {
        var shown := Empty;
        if managing {
          shown := StateOf(memory.status, n);
        }
        built := built[n := ModuleStatus(images[n], shown, start, bootId)];
      }
    }
  }

  /**
   * In-memory statuses and start times, the persisted node statuses, and what the operator does not
   * keep: the time of each node's latest admission and those of the earlier ones; the nodes that were
   * in every node list since their latest admission was stored; and the stale nodes, whose latest
   * admission fell into a reconcile that stopped before its status was stored and has not been stored
   * since.
   */
  datatype World = World(
    status: StatusMap,
    times: Times,
    current: string,
    persisted: NodeStatuses,
    latest: map<string, int>,
    earlier: map<string, set<int>>,
    listed: set<string>,
    stale: set<string>)

  datatype Event =
    /** A reconcile with fresh reads: upgrade handling, then the status is built and, unless another
        step fails before, stored. Workers may have changed the statuses to `later` by then. */
    | Reconcile(dc: DeviceConfig, nodes: seq<Node>, apis: seq<Api>, starts: seq<int>,
                later: StatusMap, bootIds: map<string, string>, images: Images, managing: bool, stored: bool)
    /** The operator restarts; its memory is lost and the statuses are set up anew. */
    | Restart(status: StatusMap)
    /** Workers write statuses. */
    | WorkersWrite(status: StatusMap)

  /** The DeviceConfig as the pass reads it. */
  function Fresh(w: World, dc: DeviceConfig): DeviceConfig {
    dc.(nodeModuleStatus := w.persisted)
  }

  ghost predicate Enabled(e: Event) {
    e.Reconcile? ==> |e.nodes| == |e.apis| == |e.starts| && Distinct(Names(e.nodes))
  }

  function ReconcileResult(w: World, e: Event): PassResult
    requires e.Reconcile? && |e.nodes| == |e.apis| == |e.starts|
  {
    RunPass(Fresh(w, e.dc), e.nodes, e.apis, e.starts, w.current, w.status, w.times)
  }

  /** Admissions recorded with their times. */
  function Admitted(latest: map<string, int>, started: seq<string>, starts: seq<int>): map<string, int>
    requires |started| <= |starts|
  {
    if started == [] then latest
    else
      var k := |started| - 1;
      Admitted(latest, started[..k], starts)[started[k] := starts[k]]
  }

  function EarlierOf(w: World, n: string): set<int> {
    if n in w.earlier then w.earlier[n] else {}
  }

  /** The times of former admissions, with those that were the latest until now. */
  ghost function Superseded(w: World, started: seq<string>): map<string, set<int>> {
    map n | n in w.earlier.Keys + w.latest.Keys ::
      EarlierOf(w, n) + if n in started && n in w.latest then {w.latest[n]} else {}
  }

  ghost function After(w: World, e: Event): World
    requires Enabled(e)
  {
    match e
    case Reconcile(dc, nodes, apis, starts, later, bootIds, images, managing, stored) =>
      var r := ReconcileResult(w, e);
      StartsFit(w, e);
      var names := set i | 0 <= i < |nodes| :: nodes[i].name;
      var admitted := set n | n in r.started;
      var memory := Memory(later, r.times, bootIds);
      World(later, r.times, if Managed(dc) then dc.version else w.current,
            if stored then map n | n in names :: Entry(n, images, managing, memory, w.persisted) else w.persisted,
            Admitted(w.latest, r.started, starts), Superseded(w, r.started),
            if stored then set n | n in names && (n in w.listed || TimeOf(r.times, n).Some?) else w.listed - admitted,
            if stored then set n | n in w.stale && TimeOf(r.times, n).None? else w.stale + admitted)
    case Restart(status) => World(status, map[], "", w.persisted, w.latest, w.earlier, w.listed, w.stale)
    case WorkersWrite(status) => w.(status := status)
  }

  lemma StartsFit(w: World, e: Event)
    requires e.Reconcile? && |e.nodes| == |e.apis| == |e.starts|
    ensures |ReconcileResult(w, e).started| <= |e.starts|
  {
  }

  ghost predicate Run(events: seq<Event>) {
    forall i :: 0 <= i < |events| ==> Enabled(events[i])
  }

  ghost function Final(w: World, events: seq<Event>): World
    requires Run(events)
  {
    if events == [] then w else After(Final(w, events[..|events| - 1]), events[|events| - 1])
  }

  // ----- start times are those of the latest admission -----

  /** The start time in memory, if any, is that of the latest admission. */
  ghost predicate MemoryOk(w: World, n: string) {
    TimeOf(w.times, n).Some? ==> n in w.latest && TimeOf(w.times, n).value == w.latest[n]
  }

  /** The persisted one is, too, except for a stale node: there it is that of an earlier admission. */
  ghost predicate PersistedOk(w: World, n: string) {
    n in w.persisted && w.persisted[n].startTime.Some? ==>
      var t := w.persisted[n].startTime.value;
      n in w.latest && if n in w.stale then t in EarlierOf(w, n) else t == w.latest[n]
  }

  ghost predicate ListedOk(w: World, n: string) {
    n in w.listed ==>
      n in w.latest && n !in w.stale && n in w.persisted && w.persisted[n].startTime == Some(w.latest[n])
  }

  ghost predicate Inv(w: World) {
    forall n {:trigger MemoryOk(w, n)} {:trigger PersistedOk(w, n)} {:trigger ListedOk(w, n)} ::
      MemoryOk(w, n) && PersistedOk(w, n) && ListedOk(w, n)
  }

  lemma {:induction false} AdmittedLookup(latest: map<string, int>, started: seq<string>, starts: seq<int>)
    requires |started| <= |starts| && Distinct(started)
    ensures var m := Admitted(latest, started, starts);
            && (forall j :: 0 <= j < |started| ==> started[j] in m && m[started[j]] == starts[j])
            && (forall n :: n !in started ==> (n in m <==> n in latest) && (n in m ==> m[n] == latest[n]))
  {
    if started != [] {
      var k := |started| - 1;
      var rest, n := started[..k], started[k];
      AdmittedLookup(latest, rest, starts);
      OneMoreAdmitted(latest, rest, starts, n, Admitted(latest, rest, starts));
      assert started == rest + [n];
    }
  }

  lemma OneMoreAdmitted(
    latest: map<string, int>, rest: seq<string>, starts: seq<int>, n: string, m: map<string, int>)
    requires |rest| < |starts| && n !in rest
    requires forall j :: 0 <= j < |rest| ==> rest[j] in m && m[rest[j]] == starts[j]
    requires forall x :: x !in rest ==> (x in m <==> x in latest) && (x in m ==> m[x] == latest[x])
    ensures var m', all := m[n := starts[|rest|]], rest + [n];
            && (forall j :: 0 <= j < |all| ==> all[j] in m' && m'[all[j]] == starts[j])
            && (forall x :: x !in all ==> (x in m' <==> x in latest) && (x in m' ==> m'[x] == latest[x]))
  {
    var all := rest + [n];
    assert all[|rest|] == n;
    forall j | 0 <= j < |rest| ensures all[j] == rest[j] != n {
    }
  }

  lemma ConcludeTimes(sc: Scan, limits: Limits, total: nat, starts: seq<int>)
    requires |sc.candidates| <= |starts| && Distinct(sc.candidates)
    ensures var r := Conclude(sc, limits, total, starts);
            && r.started <= sc.candidates && Distinct(r.started)
            && (forall j :: 0 <= j < |r.started| ==> TimeOf(r.times, r.started[j]) == Some(starts[j]))
            && (forall n :: n !in r.started ==> TimeOf(r.times, n) == TimeOf(sc.times, n))
  {
    AdmissionIsExact(sc, limits, total, starts);
  }

  lemma ScanTimes(w: World, dc: DeviceConfig, nodes: seq<Node>, apis: seq<Api>)
    requires |nodes| == |apis| && Distinct(Names(nodes))
    ensures var sc := PassScan(dc, nodes, apis, w.current, w.status, w.times);
            && Distinct(sc.candidates)
            && (forall j :: 0 <= j < |sc.candidates| ==> sc.candidates[j] in Names(nodes))
            && (forall n :: TimeOf(sc.times, n).None? || TimeOf(sc.times, n) == TimeOf(w.times, n))
  {
    var index := CandidatesAreOffered(dc, nodes, apis, w.current, w.status, w.times);
    ScanForgetsTimes(LookOf(dc, nodes, apis), Names(nodes), Kept(w.current, dc, w.status), w.times, |nodes|);
    var sc := PassScan(dc, nodes, apis, w.current, w.status, w.times);
    forall j | 0 <= j < |sc.candidates| ensures sc.candidates[j] in Names(nodes) {
      assert sc.candidates[j] == Names(nodes)[index[j]];
    }
  }

  /** What a reconcile does to the start time in memory of any node. */
  lemma PassTimes(w: World, e: Event)
    requires e.Reconcile? && Enabled(e)
    ensures var r := ReconcileResult(w, e);
            && |r.started| <= |e.starts| && Distinct(r.started)
            && (forall j :: 0 <= j < |r.started| ==> TimeOf(r.times, r.started[j]) == Some(e.starts[j]))
            && (forall n :: n !in r.started ==> TimeOf(r.times, n).None? || TimeOf(r.times, n) == TimeOf(w.times, n))
            && (forall j :: 0 <= j < |r.started| ==> r.started[j] in Names(e.nodes))
  {
    var dc := Fresh(w, e.dc);
    if Managed(dc) {
      ScanTimes(w, dc, e.nodes, e.apis);
      var sc := PassScan(dc, e.nodes, e.apis, w.current, w.status, w.times);
      ConcludeTimes(sc, dc.policy.value.limits, |e.nodes|, e.starts);
    }
  }

  /** What a reconcile does to the admissions of one node. */
  lemma AdmissionsOf(w: World, e: Event, n: string)
    requires e.Reconcile? && Enabled(e) && MemoryOk(w, n)
    ensures var r, w' := ReconcileResult(w, e), After(w, e);
            && (n in r.started ==>
                  && n in w'.latest && TimeOf(w'.times, n) == Some(w'.latest[n])
                  && (n in w.latest ==> EarlierOf(w', n) == EarlierOf(w, n) + {w.latest[n]}))
            && (n !in r.started ==>
                  && (n in w.latest <==> n in w'.latest) && (n in w.latest ==> w'.latest[n] == w.latest[n])
                  && EarlierOf(w', n) == EarlierOf(w, n)
                  && (TimeOf(w'.times, n).None? || TimeOf(w'.times, n) == TimeOf(w.times, n)))
  {
    PassTimes(w, e);
    AdmissionIn(w, ReconcileResult(w, e), e.starts, n);
  }

  lemma AdmissionIn(w: World, r: PassResult, starts: seq<int>, n: string)
    requires |r.started| <= |starts| && Distinct(r.started)
    requires forall j :: 0 <= j < |r.started| ==> TimeOf(r.times, r.started[j]) == Some(starts[j])
    ensures var latest, earlier := Admitted(w.latest, r.started, starts), Superseded(w, r.started);
            && (n in r.started ==>
                  && n in latest && TimeOf(r.times, n) == Some(latest[n])
                  && (n in w.latest ==> n in earlier && earlier[n] == EarlierOf(w, n) + {w.latest[n]}))
            && (n !in r.started ==>
                  && (n in w.latest <==> n in latest) && (n in w.latest ==> latest[n] == w.latest[n])
                  && (if n in earlier then earlier[n] else {}) == EarlierOf(w, n))
  {
    AdmittedLookup(w.latest, r.started, starts);
    if n in r.started {
      var j :| 0 <= j < |r.started| && r.started[j] == n;
    }
  }

  lemma StoredKeepsInv(w: World, e: Event, n: string)
    requires e.Reconcile? && e.stored && Enabled(e) && MemoryOk(w, n) && PersistedOk(w, n) && ListedOk(w, n)
    ensures var w' := After(w, e); MemoryOk(w', n) && PersistedOk(w', n) && ListedOk(w', n)
  {
    AdmissionsOf(w, e, n);
  }

  lemma UnstoredKeepsInv(w: World, e: Event, n: string)
    requires e.Reconcile? && !e.stored && Enabled(e) && MemoryOk(w, n) && PersistedOk(w, n) && ListedOk(w, n)
    ensures var w' := After(w, e); MemoryOk(w', n) && PersistedOk(w', n) && ListedOk(w', n)
  {
    AdmissionsOf(w, e, n);
  }

  lemma EventKeepsInv(w: World, e: Event, n: string)
    requires Enabled(e) && MemoryOk(w, n) && PersistedOk(w, n) && ListedOk(w, n)
    ensures var w' := After(w, e); MemoryOk(w', n) && PersistedOk(w', n) && ListedOk(w', n)
  {
    if e.Reconcile? {
      if e.stored {
        StoredKeepsInv(w, e, n);
      } else {
        UnstoredKeepsInv(w, e, n);
      }
    }
  }

  lemma {:induction false} RunKeepsInv(w: World, events: seq<Event>)
    requires Inv(w) && Run(events)
    ensures Inv(Final(w, events))
  {
    if events != [] {
      var rest := events[..|events| - 1];
      RunKeepsInv(w, rest);
      var e := events[|events| - 1];
      assert Enabled(e);
      var v, v' := Final(w, rest), Final(w, events);
      forall n ensures MemoryOk(v', n) && PersistedOk(v', n) && ListedOk(v', n) {
        assert MemoryOk(v, n);
        EventKeepsInv(v, e, n);
      }
    }
  }

  /** Before the first reconcile. */
  predicate Initial(w: World) {
    && w.times == map[] && w.persisted == map[] && w.latest == map[] && w.earlier == map[]
    && w.listed == {} && w.stale == {}
  }

  /** The latest admission of the node is known: memory has its time, or the persisted time is up to date. */
  predicate Known(v: World, n: string) {
    TimeOf(v.times, n).Some? || n !in v.stale
  }

  /**
   * Restart-safe timeout: in every run of reconciles, stopped reconciles, worker writes and restarts,
   * whenever the two-hour check uses a start time for a node, it is the time of that node's latest
   * admission, whether it comes from memory or from the persisted status, if the latest admission is
   * known; otherwise it is the time of an earlier admission. So for admissions at different times it is
   * the latest exactly if that one is known. For a node that was listed ever since, the check finds
   * that time exactly as long as memory holds it or the persisted state is in flight or an installation.
   */
  lemma StartUsedIsLatestAdmission(w: World, events: seq<Event>, dc: DeviceConfig, n: string)
    requires Initial(w) && Run(events)
    ensures var v := Final(w, events);
            var used := StartUsed(Fresh(v, dc), n, TimeOf(v.times, n));
            && (used.Some? ==>
                  && n in v.latest
                  && (if Known(v, n) then used.value == v.latest[n] else used.value in EarlierOf(v, n))
                  && (v.latest[n] !in EarlierOf(v, n) ==> (used.value == v.latest[n] <==> Known(v, n))))
            && (n in v.listed ==>
                  && n in v.latest && n in v.persisted
                  && (used == Some(v.latest[n]) <==>
                        || TimeOf(v.times, n).Some?
                        || InFlight(v.persisted[n].status) || v.persisted[n].status == InstallInProgress))
  {
    InitialInv(w);
    RunKeepsInv(w, events);
    var v := Final(w, events);
    assert MemoryOk(v, n) && PersistedOk(v, n) && ListedOk(v, n);
    assert n in v.persisted ==> v.persisted[n] == Fresh(v, dc).nodeModuleStatus[n];
  }

  lemma InitialInv(w: World)
    requires Initial(w)
    ensures Inv(w)
  {
  }

  /**
   * The check is made in the middle of a scan, but the start time it sees is the one memory held
   * when the pass began; so a node in flight times out exactly when its latest admission, as far
   * as it is known, is more than two hours ago.
   */
  lemma TimedOutMeansTwoHours(w: World, events: seq<Event>, e: Event, i: nat)
    requires Initial(w) && Run(events)
    requires e.Reconcile? && Enabled(e) && i < |e.nodes|
    ensures var v := Final(w, events);
            var dc := Fresh(v, e.dc);
            var n := e.nodes[i].name;
            var sc := ScanTo(LookOf(dc, e.nodes, e.apis), Names(e.nodes), Kept(v.current, dc, v.status), v.times, i);
            var f := FactsOf(dc, e.nodes[i], e.apis[i], TimeOf(sc.times, n));
            && (f.timeUp && Known(v, n) ==> n in v.latest && e.apis[i].now - v.latest[n] > 7200)
            && (f.timeUp && !Known(v, n) ==> exists t :: t in EarlierOf(v, n) && e.apis[i].now - t > 7200)
            && (n in v.listed ==>
                  && n in v.latest && n in v.persisted
                  && (InFlight(v.persisted[n].status) && e.apis[i].now - v.latest[n] > 7200 ==> f.timeUp))
  {
    var v := Final(w, events);
    var dc := Fresh(v, e.dc);
    var n := e.nodes[i].name;
    var names := Names(e.nodes);
    ScanForgetsTimes(LookOf(dc, e.nodes, e.apis), names, Kept(v.current, dc, v.status), v.times, i);
    assert n !in names[..i] by {
      assert names[i] == n;
    }
    StartUsedIsLatestAdmission(w, events, e.dc, n);
  }
}
