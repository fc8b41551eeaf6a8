/** The remediation manager: its operations on record and tracker, and one pass over the nodes. */
module RemediationPass {
  import opened Common
  import opened AttemptLists
  import opened RecoveryLimiter
  import opened RemediationTaints
  import opened UpgradeTypes
  import Runs = RecoveryRuns

  datatype Phase = Succeeded | Running | OtherPhase

  /** A workflow found in the cluster, and how the calls made for it turn out. */
  datatype Existing = Existing(
    name: string,
    phase: Phase,
    deleteOk: bool,
    suspended: bool,       // one of its stages waits for somebody
    abortOk: bool,         // aborting it succeeds
    unlabelOk: bool)       // removing the abort label from the node succeeds

  /** A node as a pass finds it, and how the calls made for it turn out. */
  datatype Observation = Observation(
    name: string,
    conditions: seq<(string, bool)>,   // condition types and whether they are true
    listOk: bool,                      // the workflows could be listed
    existing: seq<Existing>,
    abortLabel: bool,                  // the node is labelled for abortion of its workflow
    taints: seq<Taint>,                // of the node
    configured: seq<Taint>,            // of the DeviceConfig
    driver: Option<UpgradeState>,      // the driver state of the node in the DeviceConfig status
    templateOk: bool,
    createOk: bool,
    patchOk: bool,                     // storing the registration is reported as a success
    patchStored: bool,                 // if it is not: the registration was stored nevertheless
    workflow: string,
    dropAt: int,
    at: int)

  /** How the calls on the record at the beginning of a pass turn out. */
  datatype RecordCalls = RecordCalls(
    cleanReadOk: bool,
    noStatus: bool,       // the record has no status at all
    patchOk: bool,
    patchStored: bool,
    syncReadOk: bool)

  /** The i-th condition is the first one that is true and has a mapping. */
  predicate FirstMapped(conditions: seq<(string, bool)>, ms: Mappings, i: nat) {
    && i < |conditions| && conditions[i].1 && conditions[i].0 in ms
    && forall j :: 0 <= j < i ==> !(conditions[j].1 && conditions[j].0 in ms)
  }

  /** The first true condition that has a mapping decides about the workflow. */
  function Matching(conditions: seq<(string, bool)>, ms: Mappings): (r: Option<string>)
    ensures r.None? <==> forall i :: 0 <= i < |conditions| ==> !(conditions[i].1 && conditions[i].0 in ms)
    ensures r.Some? ==> r.value in ms && exists i: nat :: FirstMapped(conditions, ms, i) && r.value == conditions[i].0
  {
    if conditions == [] then None
    else if conditions[0].1 && conditions[0].0 in ms then
      assert FirstMapped(conditions, ms, 0);
      Some(conditions[0].0)
    else
      var r := Matching(conditions[1..], ms);
      MappedLater(conditions, ms, r);
      r
  }

  lemma MappedLater(conditions: seq<(string, bool)>, ms: Mappings, r: Option<string>)
    requires conditions != [] && !(conditions[0].1 && conditions[0].0 in ms)
    requires r.None? <==> forall i :: 0 <= i < |conditions| - 1 ==>
             !(conditions[1..][i].1 && conditions[1..][i].0 in ms)
    requires r.Some? ==> exists i: nat :: FirstMapped(conditions[1..], ms, i) && r.value == conditions[1..][i].0
    ensures r.None? <==> forall i :: 0 <= i < |conditions| ==> !(conditions[i].1 && conditions[i].0 in ms)
    ensures r.Some? ==> exists i: nat :: FirstMapped(conditions, ms, i) && r.value == conditions[i].0
  {
    var rest := conditions[1..];
    assert forall i :: 0 <= i < |rest| ==> rest[i] == conditions[i + 1];
    if r.Some? {
      var i: nat :| FirstMapped(rest, ms, i) && r.value == rest[i].0;
      forall j | 0 <= j < i + 1 ensures !(conditions[j].1 && conditions[j].0 in ms) {
        if j > 0 {
          assert rest[j - 1] == conditions[j];
        }
      }
      assert FirstMapped(conditions, ms, i + 1);
    } else {
      forall i | 0 <= i < |conditions| ensures !(conditions[i].1 && conditions[i].0 in ms) {
        if i > 0 {
          assert rest[i - 1] == conditions[i];
        }
      }
    }
  }

  lemma FirstIsMatching(conditions: seq<(string, bool)>, ms: Mappings, i: nat)
    requires FirstMapped(conditions, ms, i)
    ensures Matching(conditions, ms) == Some(conditions[i].0)
  {
    var k: nat :| FirstMapped(conditions, ms, k) && Matching(conditions, ms).value == conditions[k].0;
  }

  /** The clock does not go back while the nodes are handled. */
  predicate InOrder(now: int, nodes: seq<Observation>) {
    forall i {:trigger ReadingAt(now, nodes, i)} :: 0 <= i < |nodes| ==>
      ReadingAt(now, nodes, i) <= nodes[i].dropAt <= nodes[i].at
  }

  /** The look at existing workflows ends with this one: it runs, or cannot be cleaned up. */
  predicate Stops(n: string, w: Existing) {
    n + "-" <= w.name && (w.phase.Running? || (w.phase.Succeeded? && !w.deleteOk))
  }

  /** The i-th workflow belongs to the node and is running, or has succeeded and cannot be deleted. */
  predicate InTheWay(o: Observation, i: nat) {
    && i < |o.existing| && o.name + "-" <= o.existing[i].name
    && (o.existing[i].phase.Running? || (o.existing[i].phase.Succeeded? && !o.existing[i].deleteOk))
  }

  /** A suspended workflow was aborted at the request of the node's label. */
  predicate Aborted(o: Observation, w: Existing) {
    w.suspended && o.abortLabel && w.abortOk && w.unlabelOk
  }

  /** No workflow is in the way, or the first one that is has been aborted. */
  predicate Unobstructed(o: Observation) {
    o.listOk && forall i :: 0 <= i < |o.existing| && Stops(o.name, o.existing[i]) ==>
      (exists j :: 0 <= j < i && Stops(o.name, o.existing[j])) ||
      (o.existing[i].phase.Running? && Aborted(o, o.existing[i]))
  }

  /**
   * When existing workflows let a new one pass: they could be listed, and the first one of the node that is
   * running or cannot be deleted, if any, is running, suspended and was aborted, with the label removed.
   */
  lemma UnobstructedExactly(o: Observation)
    ensures Unobstructed(o) <==>
            o.listOk &&
            forall i: nat :: InTheWay(o, i) && (forall j: nat :: j < i ==> !InTheWay(o, j)) ==>
              && o.existing[i].phase == Running && o.existing[i].suspended && o.abortLabel
              && o.existing[i].abortOk && o.existing[i].unlabelOk
  {
    forall i: nat ensures InTheWay(o, i) <==> i < |o.existing| && Stops(o.name, o.existing[i]) {
    }
    if Unobstructed(o) {
      forall i: nat | InTheWay(o, i) && (forall j: nat :: j < i ==> !InTheWay(o, j))
        ensures o.existing[i].phase == Running && Aborted(o, o.existing[i])
      {
        assert Stops(o.name, o.existing[i]);
        if j :| 0 <= j < i && Stops(o.name, o.existing[j]) {
          assert InTheWay(o, j);
        }
      }
    }
  }

  /** The driver of the node is being installed or upgraded, or waits for it. */
  predicate DriverBusy(o: Observation) {
    o.driver.Some? && (InFlight(o.driver.value) || o.driver.value.NotStarted? || o.driver.value.InstallInProgress?)
  }

  /** A workflow is created for the node: nothing stands in its way and the limit is not reached. */
  predicate Creates(t: Tracker, o: Observation, ms: Mappings) {
    var found := Matching(o.conditions, ms);
    && found.Some? && Unobstructed(o) && !Blocked(o.taints, o.configured, found.value) && !DriverBusy(o)
    && !Violated(t, o.name, found.value, ms[found.value])
    && o.templateOk && o.createOk
  }

  /** The workflow launched and registered for one node, if any. */
  function LaunchOf(ms: Mappings, t: Tracker, o: Observation): seq<Runs.Action> {
    if Creates(t, o, ms) && WindowOf(ms, Matching(o.conditions, ms).value).Some?
    then [Runs.Start(o.name, Matching(o.conditions, ms).value, o.workflow, o.dropAt, o.at)]
    else []
  }

  function TrackerAfter(ms: Mappings, t: Tracker, o: Observation): Tracker {
    if LaunchOf(ms, t, o) == [] then t
    else
      var c := Matching(o.conditions, ms).value;
      Noted(Dropped(t, o.name, c, o.dropAt - WindowOf(ms, c).value), o.name, c, o.at)
  }

  /** Workflows launched so far and the tracker after them. */
  type Progress = (seq<Runs.Action>, Tracker)

  type Launch = (Progress, Observation) -> Progress

  /** How one more node adds to the progress of a pass. */
  function LaunchWith(ms: Mappings): Launch {
    (p: Progress, o: Observation) => (p.0 + LaunchOf(ms, p.1, o), TrackerAfter(ms, p.1, o))
  }

  /** The progress of a pass after its first k nodes. */
  function LaunchesTo(launch: Launch, t: Tracker, nodes: seq<Observation>, k: nat): Progress
    requires k <= |nodes|
  {
    if k == 0 then ([], t) else launch(LaunchesTo(launch, t, nodes, k - 1), nodes[k - 1])
  }

  /**
   * When a node gets a workflow, in terms of the node and its first true mapped condition alone: nothing
   * is in the way, neither taints nor driver work forbid it, fewer workflows are tracked than the
   * condition allows, its window can be read, and template and creation succeed. The workflow is for
   * that condition.
   */
  lemma LaunchExactly(ms: Mappings, t: Tracker, o: Observation, i: nat)
    requires FirstMapped(o.conditions, ms, i)
    ensures var c := o.conditions[i].0;
            LaunchOf(ms, t, o) ==
            if && Unobstructed(o) && !Blocked(o.taints, o.configured, c) && !DriverBusy(o)
               && |TrackedOf(t, o.name, c)| < (if ms[c].maxRuns == 0 then 3 else ms[c].maxRuns)
               && !ms[c].window.Unreadable? && o.templateOk && o.createOk
            then [Runs.Start(o.name, c, o.workflow, o.dropAt, o.at)]
            else []
  {
    FirstIsMatching(o.conditions, ms, i);
  }

  /** A node without a true mapped condition gets none. */
  lemma NoLaunchUnmapped(ms: Mappings, t: Tracker, o: Observation)
    requires forall i :: 0 <= i < |o.conditions| ==> !(o.conditions[i].1 && o.conditions[i].0 in ms)
    ensures LaunchOf(ms, t, o) == []
  {
  }

  /** In a pass every node gets its due: its workflow, if any, comes behind those of the nodes before it. */
  lemma LaunchInPass(ms: Mappings, t: Tracker, nodes: seq<Observation>, j: nat)
    requires j < |nodes|
    ensures var before := LaunchesTo(LaunchWith(ms), t, nodes, j);
            LaunchesTo(LaunchWith(ms), t, nodes, j + 1).0 == before.0 + LaunchOf(ms, before.1, nodes[j])
  {
  }

  class RemediationManager {
    var record: Record
    var recoveryTracker: Tracker

    constructor (record: Record)
      ensures this.record == record && recoveryTracker == map[]
    {
      this.record, recoveryTracker := record, map[];
    }

    /** The number that the gate compares with the limit of the condition. */
    function RecentRecoveryCount(n: string, c: string): (count: nat)
      reads this
      ensures forall m: Mapping :: count >= MaxRuns(m) <==> Violated(recoveryTracker, n, c, m)
    {
      var k := Key(n, c);
      if k in recoveryTracker then |recoveryTracker[k]| else 0
    }

    static method RecentOnly(attempts: seq<Attempt>, cut: int) returns (ok: bool, recent: seq<Attempt>)
      ensures ok == Readable(attempts)
      ensures ok ==> recent == FilterAttempts(attempts, cut)
    {
      recent := [];
      for i := 0 to |attempts|
        invariant Readable(attempts[..i])
        invariant recent == FilterAttempts(attempts[..i], cut)
      {
        assert attempts[..i + 1][..i] == attempts[..i];
        if attempts[i].start.None? {
          return false, [];
        }
        if attempts[i].start.value > cut {
          recent := recent + [attempts[i]];
        }
      }
      assert attempts[..|attempts|] == attempts;
      return true, recent;
    }

    static method CleanConditions(conditions: map<string, seq<Attempt>>, cut: int)
      returns (ok: bool, cleaned: map<string, seq<Attempt>>)
      ensures ok == forall c :: c in conditions ==> Readable(conditions[c])
      ensures ok ==> cleaned == CleanedNode(conditions, cut)
    {
      cleaned := conditions;
      var todo := conditions.Keys;
      while todo != {}
        invariant todo <= conditions.Keys
        invariant forall c :: c in conditions && c !in todo ==> Readable(conditions[c])
        invariant forall c :: c in todo ==> c in cleaned && cleaned[c] == conditions[c]
        invariant forall c :: c in conditions && c !in todo ==>
                    (c in cleaned <==> FilterAttempts(conditions[c], cut) != [])
        invariant forall c :: c in cleaned && c !in todo ==>
                    c in conditions && cleaned[c] == FilterAttempts(conditions[c], cut)
        decreases todo
      {
        var c :| c in todo;
        var readable, recent := RecentOnly(conditions[c], cut);
        if !readable {
          return false, map[];
        }
        if |recent| > 0 {
          cleaned := cleaned[c := recent];
        } else {
          cleaned := cleaned - {c};
        }
        todo := todo - {c};
      }
      return true, cleaned;
    }

    static method CleanRecord(rec: Record, cut: int) returns (ok: bool, cleaned: Record)
      ensures ok == AllReadable(rec)
      ensures ok ==> cleaned == Cleaned(rec, cut)
    {
      cleaned := rec;
      var todo := rec.Keys;
      while todo != {}
        invariant PartlyCleaned(rec, cut, todo, cleaned)
        decreases todo
      {
        var n :| n in todo;
        var readable, conditions := CleanConditions(rec[n], cut);
        if !readable {
          return false, map[];
        }
        OneMoreCleaned(rec, cut, todo, cleaned, n, conditions);
        cleaned := cleaned[n := conditions];
        if |conditions| == 0 {
          cleaned := cleaned - {n};
        }
        todo := todo - {n};
      }
      return true, cleaned;
    }

    /**
     * Drops attempts older than 72 hours from the record, unless something in it cannot be read. A
     * record without status is left alone. A patch may be stored although it is reported as an error.
     */
    method DropOlderFromRecord(now: int, readOk: bool, noStatus: bool, patchOk: bool, patchStored: bool)
        returns (ok: bool)
      requires noStatus ==> record == map[]
      modifies this`record
      ensures ok == (readOk && (noStatus || (AllReadable(old(record)) && patchOk)))
      ensures record == if ok || (readOk && AllReadable(old(record)) && patchStored)
                        then Cleaned(old(record), now - CLEANUP_WINDOW) else old(record)
    {
      assert record == map[] ==> Cleaned(record, now - CLEANUP_WINDOW) == record;
      if !readOk {
        return false;
      }
      if noStatus {
        return true;
      }
      var readable, cleaned := CleanRecord(record, now - CLEANUP_WINDOW);
      if !readable {
        return false;
      }
      if patchOk || patchStored {
        record := cleaned;
      }
      return patchOk;
    }

    static method RecentTimes(attempts: seq<Attempt>, w: int, clock: nat -> int) returns (ok: bool, times: seq<int>)
      ensures ok == Readable(attempts)
      ensures ok ==> times == KeepRecent(Starts(attempts), w, clock)
    {
      times := [];
      for i := 0 to |attempts|
        invariant Readable(attempts[..i])
        invariant times == KeepRecent(Starts(attempts[..i]), w, clock)
      {
        if attempts[i].start.None? {
          return false, [];
        }
        assert Starts(attempts[..i + 1])[..i] == Starts(attempts[..i]);
        if !(attempts[i].start.value < clock(i) - w) {
          times := times + [attempts[i].start.value];
        }
      }
      assert attempts[..|attempts|] == attempts;
      return true, times;
    }

    /** The pairs of node and condition in the record. */
    static function Pairs(rec: Record): set<(string, string)> {
      set n, c | n in rec && c in rec[n] :: (n, c)
    }

    /** Rebuilds the tracker from the record. */
    method SyncFromRecord(ms: Mappings, readOk: bool, clock: Clock) returns (ok: bool)
      modifies this`recoveryTracker
      ensures ok == (readOk && AllReadable(record) && WindowsReadable(record, ms))
      ensures ok ==> Synced(recoveryTracker, record, ms, clock)
      ensures !readOk ==> recoveryTracker == old(recoveryTracker)
    {
      if !readOk {
        return false;
      }
      recoveryTracker := map[];
      var todo := Pairs(record);
      while todo != {}
        invariant todo <= Pairs(record)
        invariant forall p :: p in Pairs(record) && p !in todo ==>
                    Readable(record[p.0][p.1]) && WindowOf(ms, p.1).Some? && Key(p.0, p.1) in recoveryTracker
        invariant forall k :: k in recoveryTracker ==> exists n, c ::
                    && n in record && c in record[n] && Key(n, c) == k && Readable(record[n][c])
                    && WindowOf(ms, c).Some?
                    && recoveryTracker[k] == SyncedList(record, n, c, WindowOf(ms, c).value, clock)
        decreases todo
      {
        var p :| p in todo;
        var (n, c) := p;
        var window := WindowOf(ms, c);
        if window.None? {
          return false;
        }
        var readable, times := RecentTimes(record[n][c], window.value, (i: nat) => clock(n, c, i));
        if !readable {
          return false;
        }
        assert times == SyncedList(record, n, c, window.value, clock);
        recoveryTracker := recoveryTracker[Key(n, c) := times];
        todo := todo - {p};
      }
      forall n, c {:trigger Key(n, c)} | n in record && c in record[n] ensures Key(n, c) in recoveryTracker
      {
        assert (n, c) in Pairs(record);
      }
      forall n, c | n in record && c in record[n] ensures Readable(record[n][c]) {
        assert (n, c) in Pairs(record);
      }
      forall n, c | n in record && c in record[n] ensures WindowOf(ms, c).Some? {
        assert (n, c) in Pairs(record);
      }
      return true;
    }

    /** Forgets the tracked attempts in front of the first one inside the window. */
    method DropOlderInternal(n: string, c: string, w: int, now: int)
      modifies this`recoveryTracker
      ensures recoveryTracker == Dropped(old(recoveryTracker), n, c, now - w)
    {
      var attempts := if Key(n, c) in recoveryTracker then recoveryTracker[Key(n, c)] else [];
      var cut := now - w;
      var start := 0;
      while start < |attempts| && !(attempts[start] > cut)
        invariant start <= |attempts|
        invariant DropPrefix(attempts, cut) == DropPrefix(attempts[start..], cut)
      {
        assert attempts[start..][1..] == attempts[start + 1..];
        start := start + 1;
      }
      recoveryTracker := recoveryTracker[Key(n, c) := attempts[start..]];
    }

    /** Notes the attempt in the tracker and then, if the patch is stored, in the record. */
    method RegisterAttempt(n: string, c: string, workflow: string, at: int, patchOk: bool, patchStored: bool)
      returns (ok: bool)
      modifies this`recoveryTracker, this`record
      ensures ok == patchOk
      ensures recoveryTracker == Noted(old(recoveryTracker), n, c, at)
      ensures record == if patchOk || patchStored then Registered(old(record), n, c, Attempt(workflow, Some(at)))
                        else old(record)
    {
      var attempts := if Key(n, c) in recoveryTracker then recoveryTracker[Key(n, c)] else [];
      recoveryTracker := recoveryTracker[Key(n, c) := attempts + [at]];
      if patchOk || patchStored {
        var conditions := if n in record then record[n] else map[];
        var list := if c in conditions then conditions[c] else [];
        record := record[n := conditions[c := list + [Attempt(workflow, Some(at))]]];
      }
      return patchOk;
    }

    static method FindCondition(conditions: seq<(string, bool)>, ms: Mappings) returns (found: Option<string>)
      ensures found == Matching(conditions, ms)
      ensures found.None? <==> forall i :: 0 <= i < |conditions| ==> !(conditions[i].1 && conditions[i].0 in ms)
      ensures found.Some? ==> exists i: nat :: FirstMapped(conditions, ms, i) && found.value == conditions[i].0
    {
      for i := 0 to |conditions|
        invariant Matching(conditions, ms) == Matching(conditions[i..], ms)
      {
        assert conditions[i..][1..] == conditions[i + 1..];
        if conditions[i].1 && conditions[i].0 in ms {
          return Some(conditions[i].0);
        }
      }
      return None;
    }

    /** Looks through the existing workflows; a new one may be created unless one is in the way. */
    static method HandleExistingWorkflows(o: Observation) returns (allow: bool)
      ensures allow == Unobstructed(o)
    {
      if !o.listOk {
        return false;
      }
      for i := 0 to |o.existing|
        invariant forall j :: 0 <= j < i ==> !Stops(o.name, o.existing[j])
      {
        var w := o.existing[i];
        if !(o.name + "-" <= w.name) {
          continue;
        }
        if w.phase.Succeeded? {
          if !w.deleteOk {
            assert Stops(o.name, o.existing[i]);
            return false;
          }
        } else if w.phase.Running? {
          assert Stops(o.name, o.existing[i]);
          if !w.suspended || !o.abortLabel {
            return false;
          }
          return w.abortOk && w.unlabelOk;
        }
      }
      return true;
    }

    /** The gate in front of a new workflow for condition c. */
    method IsWorkflowSchedulable(o: Observation, c: string, m: Mapping) returns (schedulable: bool)
      ensures schedulable <==>
                && !Blocked(o.taints, o.configured, c)
                && !(o.driver.Some? && o.driver.value in
                     {NotStarted, Started, InstallInProgress, InProgress, RebootInProgress})
                && |TrackedOf(recoveryTracker, o.name, c)| < if m.maxRuns == 0 then 3 else m.maxRuns
    {
      var tainted := CheckIfTaintExists(o.taints, o.configured);
      if tainted || DriverBusy(o) {
        return false;
      }
      return RecentRecoveryCount(o.name, c) < MaxRuns(m);
    }

    /** The condition for which a workflow is created, if any. */
    method Decide(o: Observation, ms: Mappings) returns (go: Option<string>)
      ensures go.Some? <==> Creates(recoveryTracker, o, ms)
      ensures go.Some? ==> go == Matching(o.conditions, ms)
    {
      var found := FindCondition(o.conditions, ms);
      if found.None? {
        return None;
      }
      var allow := HandleExistingWorkflows(o);
      if !allow {
        return None;
      }
      var schedulable := IsWorkflowSchedulable(o, found.value, ms[found.value]);
      if !schedulable || !o.templateOk || !o.createOk {
        return None;
      }
      return found;
    }

    /**
     * Handles one node: at most one workflow is created, and only through the gate. Its effect on
     * record and tracker is the Start step of the limiter; a workflow that was created is left
     * unregistered exactly when the patch fails or the window of its condition cannot be read.
     */
    method HandleNode(o: Observation, ms: Mappings, ghost s: Runs.Limiter)
      returns (ok: bool, created: bool, ghost steps: seq<Runs.Action>)
      requires s.record == record && s.tracker == recoveryTracker && s.synced
      requires s.now <= o.dropAt <= o.at
      modifies this
      ensures Runs.Run(ms, s, steps)
      ensures var t := Runs.Final(ms, s, steps);
              t.record == record && t.now <= o.at && (ok ==> t.tracker == recoveryTracker && t.synced)
      ensures created == Creates(old(recoveryTracker), o, ms)
      ensures ok == (created ==> o.patchOk && WindowOf(ms, Matching(o.conditions, ms).value).Some?)
      ensures steps == if o.patchOk || o.patchStored then LaunchOf(ms, old(recoveryTracker), o) else []
      ensures ok ==> recoveryTracker == TrackerAfter(ms, old(recoveryTracker), o)
    {
      created, steps := false, [];
      var go := Decide(o, ms);
      if go.None? {
        return true, false, [];
      }
      var c := go.value;
      created := true;
      var window := WindowOf(ms, c);
      if window.None? {
        return false, true, [];
      }
      DropOlderInternal(o.name, c, window.value, o.dropAt);
      ok := RegisterAttempt(o.name, c, o.workflow, o.at, o.patchOk, o.patchStored);
      ghost var a := Runs.Start(o.name, c, o.workflow, o.dropAt, o.at);
      assert Runs.Possible(ms, s, a);
      steps := if o.patchOk || o.patchStored then [a] else [];
      Runs.RunOne(ms, s, a);
    }

    /** Handles one more node of a pass. */
    method HandleNext(nodes: seq<Observation>, i: nat, ms: Mappings, ghost s: Runs.Limiter, ghost before: Trail)
      returns (ok: bool, ghost after: Trail)
      requires i < |nodes| && InOrder(s.now, nodes) && Underway(ms, s, nodes, i, before, record, recoveryTracker)
      modifies this
      ensures ok ==> Underway(ms, s, nodes, i + 1, after, record, recoveryTracker)
      ensures Ends(ms, s, after.steps, record, LastReading(s.now, nodes))
    {
      ghost var more;
      var created;
      LastReadingIsLate(s.now, nodes, i + 1);
      ok, created, more := HandleNode(nodes[i], ms, before.at);
      Runs.RunAppend(ms, s, before.steps, more);
      after := Trail(before.steps + more, Runs.Final(ms, before.at, more));
    }

    /** The loop over the nodes, after a successful sync. */
    method HandleNodes(nodes: seq<Observation>, ms: Mappings, ghost s: Runs.Limiter)
      returns (ok: bool, ghost steps: seq<Runs.Action>)
      requires s.record == record && s.tracker == recoveryTracker && s.synced
      requires InOrder(s.now, nodes)
      modifies this
      ensures Ends(ms, s, steps, record, LastReading(s.now, nodes))
      ensures ok ==> steps == LaunchesTo(LaunchWith(ms), s.tracker, nodes, |nodes|).0
    {
      ghost var trail := Trail([], s);
      var i := 0;
      while i < |nodes|
        invariant 0 <= i <= |nodes|
        invariant Underway(ms, s, nodes, i, trail, record, recoveryTracker)
      {
        ok, trail := HandleNext(nodes, i, ms, s, trail);
        if !ok {
          return false, trail.steps;
        }
        i := i + 1;
      }
      return true, trail.steps;
    }

    /** Cleans the record and rebuilds the tracker from it. */
    method Begin(ms: Mappings, calls: RecordCalls, cleanAt: int, clock: Clock, end: int, ghost s: Runs.Limiter)
      returns (ok: bool, ghost steps: seq<Runs.Action>)
      requires s.record == record && s.now <= cleanAt <= end && (calls.noStatus ==> record == map[])
      requires forall n, c, i :: cleanAt <= clock(n, c, i) <= end
      modifies this
      ensures Ends(ms, s, steps, record, end)
      ensures ok ==> var t := Runs.Final(ms, s, steps); t.tracker == recoveryTracker && t.synced && t.now == end
      ensures ok ==> steps == [Runs.Clean(cleanAt), Runs.Sync(clock, end, recoveryTracker)]
    {
      steps := [];
      ok := DropOlderFromRecord(cleanAt, calls.cleanReadOk, calls.noStatus, calls.patchOk, calls.patchStored);
      if ok || (calls.cleanReadOk && AllReadable(s.record) && calls.patchStored) {
        steps := [Runs.Clean(cleanAt)];
        CleanStep(ms, s, cleanAt, record);
      }
      if !ok {
        return;
      }
      ok := SyncFromRecord(ms, calls.syncReadOk, clock);
      if ok {
        steps := steps + [Runs.Sync(clock, end, recoveryTracker)];
        SyncStep(ms, s, cleanAt, clock, end, record, recoveryTracker);
      }
    }

    /**
     * One pass: clean the record, rebuild the tracker, then look at the nodes. Whatever fails on the way,
     * the pass is a run of the limiter that ends with the manager's record. A pass that gets through all
     * nodes cleans, syncs, and launches exactly the workflows that the gate lets through, in the order of
     * the nodes.
     */
    method HandleRemediation(nodes: seq<Observation>, ms: Mappings, calls: RecordCalls, cleanAt: int, clock: Clock,
                             end: int, ghost s: Runs.Limiter) returns (ok: bool, ghost steps: seq<Runs.Action>)
      requires s.record == record && s.now <= cleanAt <= end && (calls.noStatus ==> record == map[])
      requires forall n, c, i :: cleanAt <= clock(n, c, i) <= end
      requires InOrder(end, nodes)
      modifies this
      ensures Ends(ms, s, steps, record, LastReading(end, nodes))
      ensures ok ==> exists t: Tracker ::
                steps == [Runs.Clean(cleanAt), Runs.Sync(clock, end, t)] +
                         LaunchesTo(LaunchWith(ms), t, nodes, |nodes|).0
    {
      LastReadingIsLate(end, nodes, 0);
      ok, steps := Begin(ms, calls, cleanAt, clock, end, s);
      if ok {
        ghost var more;
        ghost var tracker := recoveryTracker;
        ok, more := HandleNodes(nodes, ms, Runs.Final(ms, s, steps));
        Runs.RunAppend(ms, s, steps, more);
        steps := steps + more;
      }
    }
  }

  /** The steps are a run of the limiter that ends with this record, by this time. */
  ghost predicate Ends(ms: Mappings, s: Runs.Limiter, steps: seq<Runs.Action>, record: Record, time: int) {
    && Runs.Run(ms, s, steps)
    && var t := Runs.Final(ms, s, steps);
       t.record == record && t.now <= time
  }

  /** The steps a pass has taken and the limiter after them. */
  datatype Trail = Trail(steps: seq<Runs.Action>, at: Runs.Limiter)

  /** The pass has handled the first i nodes; the manager holds record and tracker of the limiter. */
  ghost predicate Underway(ms: Mappings, s: Runs.Limiter, nodes: seq<Observation>, i: nat, trail: Trail,
                           record: Record, tracker: Tracker)
    requires i <= |nodes|
  {
    && Runs.Run(ms, s, trail.steps) && Runs.Final(ms, s, trail.steps) == trail.at
    && trail.at.record == record && trail.at.tracker == tracker && trail.at.synced
    && trail.at.now <= ReadingAt(s.now, nodes, i)
    && LaunchesTo(LaunchWith(ms), s.tracker, nodes, i) == (trail.steps, tracker)
  }

  lemma CleanStep(ms: Mappings, s: Runs.Limiter, cleanAt: int, record: Record)
    requires s.now <= cleanAt && AllReadable(s.record) && record == Cleaned(s.record, cleanAt - CLEANUP_WINDOW)
    ensures Ends(ms, s, [Runs.Clean(cleanAt)], record, cleanAt)
    ensures Runs.Final(ms, s, [Runs.Clean(cleanAt)]) == s.(record := record, now := cleanAt)
  {
    Runs.RunOne(ms, s, Runs.Clean(cleanAt));
  }

  lemma SyncStep(ms: Mappings, s: Runs.Limiter, cleanAt: int, clock: Clock, end: int, record: Record, tracker: Tracker)
    requires s.now <= cleanAt && AllReadable(s.record) && record == Cleaned(s.record, cleanAt - CLEANUP_WINDOW)
    requires AllReadable(record) && WindowsReadable(record, ms) && Synced(tracker, record, ms, clock)
    requires cleanAt <= end && forall n, c, i :: cleanAt <= clock(n, c, i) <= end
    ensures var steps := [Runs.Clean(cleanAt)] + [Runs.Sync(clock, end, tracker)];
            && Ends(ms, s, steps, record, end)
            && Runs.Final(ms, s, steps) == s.(record := record, tracker := tracker, now := end, synced := true)
  {
    CleanStep(ms, s, cleanAt, record);
    Runs.RunOne(ms, s.(record := record, now := cleanAt), Runs.Sync(clock, end, tracker));
    Runs.RunAppend(ms, s, [Runs.Clean(cleanAt)], [Runs.Sync(clock, end, tracker)]);
  }

  /** The nodes that are not in `todo` are cleaned, or gone if nothing is left of them. */
  ghost predicate PartlyCleaned(rec: Record, cut: int, todo: set<string>, cleaned: Record) {
    && todo <= rec.Keys
    && (forall n, c :: n in rec && n !in todo && c in rec[n] ==> Readable(rec[n][c]))
    && (forall n :: n in todo ==> n in cleaned && cleaned[n] == rec[n])
    && (forall n :: n in rec && n !in todo ==> (n in cleaned <==> CleanedNode(rec[n], cut) != map[]))
    && (forall n :: n in cleaned && n !in todo ==> n in rec && cleaned[n] == CleanedNode(rec[n], cut))
  }

  lemma OneMoreCleaned(rec: Record, cut: int, todo: set<string>, cleaned: Record, n: string,
      conditions: map<string, seq<Attempt>>)
    requires PartlyCleaned(rec, cut, todo, cleaned) && n in todo
    requires forall c :: c in rec[n] ==> Readable(rec[n][c])
    requires conditions == CleanedNode(rec[n], cut)
    ensures PartlyCleaned(rec, cut, todo - {n},
                          if |conditions| == 0 then cleaned[n := conditions] - {n} else cleaned[n := conditions])
  {
  }

  /** The last clock reading before the i-th node is handled. */
  function ReadingAt(now: int, nodes: seq<Observation>, i: nat): int
    requires i <= |nodes|
  {
    if i == 0 then now else nodes[i - 1].at
  }

  function LastReading(now: int, nodes: seq<Observation>): int {
    ReadingAt(now, nodes, |nodes|)
  }

  lemma {:induction false} LastReadingIsLate(now: int, nodes: seq<Observation>, i: nat)
    requires InOrder(now, nodes) && i <= |nodes|
    ensures ReadingAt(now, nodes, i) <= LastReading(now, nodes)
    decreases |nodes| - i
  {
    if i < |nodes| {
      LastReadingIsLate(now, nodes, i + 1);
    }
  }
}
