/** Runs of the remediation limiter: passes, aborted passes and operator restarts in any order. */
module RecoveryRuns {
  import opened Common
  import opened AttemptLists
  import opened RecoveryLimiter

  /** `log` holds every workflow ever registered; the operator itself only keeps `record`. */
  datatype Limiter = Limiter(
    record: Record,
    tracker: Tracker,
    log: map<(string, string), seq<int>>,
    now: int,
    synced: bool)

  datatype Action =
    | Clean(at: int)
    | Sync(clock: Clock, end: int, result: Tracker)
    | Start(n: string, c: string, workflow: string, dropAt: int, at: int)   // passed the gate; registered
    | EndPass                                                               // normally or with an error
    | Restart

  function LogOf(s: Limiter, n: string, c: string): seq<int> {
    if (n, c) in s.log then s.log[(n, c)] else []
  }

  ghost predicate Possible(ms: Mappings, s: Limiter, a: Action) {
    match a
    case Clean(at) => s.now <= at && AllReadable(s.record)
    case Sync(clock, end, result) =>
      && s.now <= end && (forall n, c, i :: s.now <= clock(n, c, i) <= end)
      && AllReadable(s.record) && WindowsReadable(s.record, ms)
      && Synced(result, s.record, ms, clock)
    case Start(n, c, _, dropAt, at) =>
      && s.synced && c in ms && WindowOf(ms, c).Some? && !Violated(s.tracker, n, c, ms[c])
      && s.now <= dropAt <= at
    case EndPass | Restart => true
  }

  ghost function After(ms: Mappings, s: Limiter, a: Action): Limiter
    requires Possible(ms, s, a)
  {
    match a
    case Clean(at) => s.(record := Cleaned(s.record, at - CLEANUP_WINDOW), now := at)
    case Sync(_, end, result) => s.(tracker := result, now := end, synced := true)
    case Start(n, c, workflow, dropAt, at) =>
      s.(tracker := Noted(Dropped(s.tracker, n, c, dropAt - WindowOf(ms, c).value), n, c, at),
         record := Registered(s.record, n, c, Attempt(workflow, Some(at))),
         log := s.log[(n, c) := LogOf(s, n, c) + [at]],
         now := at)
    case EndPass => s.(synced := false)
    case Restart => s.(tracker := map[], synced := false)
  }

  ghost predicate Run(ms: Mappings, s: Limiter, actions: seq<Action>)
    decreases |actions|
  {
    actions == [] || (Possible(ms, s, actions[0]) && Run(ms, After(ms, s, actions[0]), actions[1..]))
  }

  /** The workflows of the run are for nodes. */
  predicate Named(actions: seq<Action>) {
    actions == [] || ((actions[0].Start? ==> NodeName(actions[0].n)) && Named(actions[1..]))
  }

  ghost function Final(ms: Mappings, s: Limiter, actions: seq<Action>): Limiter
    requires Run(ms, s, actions)
    decreases |actions|
  {
    if actions == [] then s else Final(ms, After(ms, s, actions[0]), actions[1..])
  }

  lemma {:induction false} RunAppend(ms: Mappings, s: Limiter, first: seq<Action>, second: seq<Action>)
    requires Run(ms, s, first) && Run(ms, Final(ms, s, first), second)
    ensures Run(ms, s, first + second)
    ensures Final(ms, s, first + second) == Final(ms, Final(ms, s, first), second)
    decreases |first|
  {
    if first == [] {
      assert first + second == second;
    } else {
      RunAppend(ms, After(ms, s, first[0]), first[1..], second);
      assert (first + second)[1..] == first[1..] + second;
    }
  }

  lemma RunOne(ms: Mappings, s: Limiter, a: Action)
    requires Possible(ms, s, a)
    ensures Run(ms, s, [a]) && Final(ms, s, [a]) == After(ms, s, a)
  {
    assert Run(ms, After(ms, s, a), []);
    assert [a][1..] == [];
  }

  // ----- one node and condition -----

  /** The limiter makes no promise for a window beyond the 72 hours the record is kept. */
  predicate Promised(ms: Mappings, c: string) {
    c in ms && WindowOf(ms, c).Some? && WindowOf(ms, c).value <= CLEANUP_WINDOW
  }

  /**
   * Log, record and tracker of a pair are in chronological order; record and log agree on the last
   * 72 hours, tracker and log on the last window; and the log respects the limit.
   */
  predicate PairOk(ms: Mappings, c: string, log: seq<int>, kept: seq<int>, tracked: seq<int>, now: int, synced: bool) {
    && Sorted(log) && UpTo(log, now)
    && Sorted(kept) && UpTo(kept, now) && Agree(kept, log, now - CLEANUP_WINDOW)
    && (Promised(ms, c) ==>
          var w := WindowOf(ms, c).value;
          && Spaced(log, MaxRuns(ms[c]), w)
          && (synced ==> Sorted(tracked) && UpTo(tracked, now) && Agree(tracked, log, now - w)))
  }

  lemma PairLater(ms: Mappings, c: string, log: seq<int>, kept: seq<int>, tracked: seq<int>, now: int, later: int,
      synced: bool)
    requires PairOk(ms, c, log, kept, tracked, now, synced) && now <= later
    ensures PairOk(ms, c, log, kept, tracked, later, synced)
  {
    AgreeLater(kept, log, now - CLEANUP_WINDOW, later - CLEANUP_WINDOW);
    if Promised(ms, c) && synced {
      var w := WindowOf(ms, c).value;
      AgreeLater(tracked, log, now - w, later - w);
    }
  }

  lemma PairCleaned(ms: Mappings, c: string, log: seq<int>, kept: seq<int>, tracked: seq<int>, now: int, synced: bool)
    requires PairOk(ms, c, log, kept, tracked, now, synced)
    ensures PairOk(ms, c, log, AttemptLists.After(kept, now - CLEANUP_WINDOW), tracked, now, synced)
  {
    var cut := now - CLEANUP_WINDOW;
    AfterKeepsOrder(kept, cut);
    AfterTwice(kept, cut, cut);
    var r := AttemptLists.After(kept, cut);
    forall i | 0 <= i < |r| ensures r[i] <= now {
      assert r[i] in kept;
    }
  }

  lemma PairSynced(ms: Mappings, c: string, log: seq<int>, kept: seq<int>, tracked: seq<int>,
                   now: int, synced: bool, clock: nat -> int, end: int)
    requires PairOk(ms, c, log, kept, tracked, now, synced) && now <= end
    requires forall i: nat :: clock(i) <= end
    requires Promised(ms, c)
    ensures PairOk(ms, c, log, kept, KeepRecent(kept, WindowOf(ms, c).value, clock), end, true)
  {
    var w := WindowOf(ms, c).value;
    PairLater(ms, c, log, kept, tracked, now, end, synced);
    KeepRecentAgrees(kept, w, clock, end);
    KeepRecentKeepsOrder(kept, w, clock);
    AgreeLater(kept, log, end - CLEANUP_WINDOW, end - w);
    var r := KeepRecent(kept, w, clock);
    forall i | 0 <= i < |r| ensures r[i] <= end {
      assert r[i] in kept;
    }
  }

  /** Passing the gate and registering one more workflow. */
  lemma PairStarted(ms: Mappings, c: string, log: seq<int>, kept: seq<int>, tracked: seq<int>, now: int,
      dropAt: int, at: int)
    requires PairOk(ms, c, log, kept, tracked, now, true) && now <= dropAt <= at
    requires WindowOf(ms, c).Some? && (c in ms ==> |tracked| < MaxRuns(ms[c]))
    ensures PairOk(ms, c, log + [at], kept + [at], DropPrefix(tracked, dropAt - WindowOf(ms, c).value) + [at], at, true)
  {
    PairLater(ms, c, log, kept, tracked, now, at, true);
    RecordStarted(log, kept, at);
    if Promised(ms, c) {
      TrackStarted(log, tracked, WindowOf(ms, c).value, MaxRuns(ms[c]), dropAt, at);
    }
  }

  lemma RecordStarted(log: seq<int>, kept: seq<int>, at: int)
    requires Sorted(log) && UpTo(log, at) && Sorted(kept) && UpTo(kept, at) && Agree(kept, log, at - CLEANUP_WINDOW)
    ensures Sorted(log + [at]) && UpTo(log + [at], at) && Sorted(kept + [at]) && UpTo(kept + [at], at)
    ensures Agree(kept + [at], log + [at], at - CLEANUP_WINDOW)
  {
    AfterAppend(log, at, at - CLEANUP_WINDOW);
    AfterAppend(kept, at, at - CLEANUP_WINDOW);
    SortedThen(log, log, at);
    SortedThen(kept, kept, at);
  }

  lemma TrackStarted(log: seq<int>, tracked: seq<int>, w: int, m: int, dropAt: int, at: int)
    requires Sorted(log) && Spaced(log, m, w)
    requires Sorted(tracked) && UpTo(tracked, at) && Agree(tracked, log, at - w)
    requires |tracked| < m && dropAt <= at
    ensures Spaced(log + [at], m, w)
    ensures var t := DropPrefix(tracked, dropAt - w) + [at]; Sorted(t) && UpTo(t, at) && Agree(t, log + [at], at - w)
  {
    SpacedAppend(log, m, w, at);
    DropKeepsRecent(tracked, dropAt - w, at - w, at);
    AfterAppend(log, at, at - w);
  }

  lemma DropKeepsRecent(tracked: seq<int>, cut: int, later: int, at: int)
    requires Sorted(tracked) && UpTo(tracked, at) && cut <= later
    ensures var t := DropPrefix(tracked, cut) + [at];
            Sorted(t) && UpTo(t, at) &&
            AttemptLists.After(t, later) == AttemptLists.After(tracked, later) + if at > later then [at] else []
  {
    SortedDropIsFilter(tracked, cut);
    AfterKeepsOrder(tracked, cut);
    var r := AttemptLists.After(tracked, cut);
    SortedThen(r, tracked, at);
    forall i | 0 <= i < |r| ensures r[i] <= at {
      assert r[i] in tracked;
    }
    AfterTwice(tracked, cut, later);
    AfterAppend(r, at, later);
  }

  // ----- all nodes and conditions -----

  /** The condition names in use, which keep the tracker keys apart. */
  ghost predicate Separate(ms: Mappings, conditions: set<string>) {
    CollisionFree(conditions) && ms.Keys <= conditions
  }

  ghost predicate PairIn(ms: Mappings, s: Limiter, n: string, c: string) {
    && Readable(ListOf(s.record, n, c))
    && PairOk(ms, c, LogOf(s, n, c), Starts(ListOf(s.record, n, c)), TrackedOf(s.tracker, n, c), s.now, s.synced)
  }

  ghost predicate Inv(ms: Mappings, conditions: set<string>, s: Limiter) {
    && AllReadable(s.record) && NodesNamed(s.record)
    && (forall n, c :: n in s.record && c in s.record[n] ==> c in conditions)
    && (forall n, c {:trigger PairIn(ms, s, n, c)} :: NodeName(n) && c in conditions ==> PairIn(ms, s, n, c))
  }

  lemma CleanPair(ms: Mappings, s: Limiter, t: Limiter, n: string, c: string)
    requires PairIn(ms, s, n, c) && s.now <= t.now && s.synced == t.synced
    requires LogOf(t, n, c) == LogOf(s, n, c) && TrackedOf(t.tracker, n, c) == TrackedOf(s.tracker, n, c)
    requires Readable(ListOf(t.record, n, c))
    requires Starts(ListOf(t.record, n, c)) ==
             AttemptLists.After(Starts(ListOf(s.record, n, c)), t.now - CLEANUP_WINDOW)
    ensures PairIn(ms, t, n, c)
  {
    var log, kept, tracked := LogOf(s, n, c), Starts(ListOf(s.record, n, c)), TrackedOf(s.tracker, n, c);
    PairLater(ms, c, log, kept, tracked, s.now, t.now, s.synced);
    PairCleaned(ms, c, log, kept, tracked, t.now, s.synced);
  }

  lemma CleanedPair(ms: Mappings, s: Limiter, t: Limiter, n: string, c: string)
    requires PairIn(ms, s, n, c) && s.now <= t.now && AllReadable(s.record)
    requires t == s.(record := Cleaned(s.record, t.now - CLEANUP_WINDOW), now := t.now)
    ensures PairIn(ms, t, n, c)
  {
    CleanedContents(s.record, t.now - CLEANUP_WINDOW, n, c);
    CleanPair(ms, s, t, n, c);
  }

  lemma CleanedConditions(conditions: set<string>, rec: Record, cut: int)
    requires AllReadable(rec) && NodesNamed(rec) && forall n, c :: n in rec && c in rec[n] ==> c in conditions
    ensures AllReadable(Cleaned(rec, cut)) && NodesNamed(Cleaned(rec, cut))
    ensures forall n, c :: n in Cleaned(rec, cut) && c in Cleaned(rec, cut)[n] ==> c in conditions
  {
    forall n, c | n in Cleaned(rec, cut) && c in Cleaned(rec, cut)[n] ensures c in conditions {
      CleanedContents(rec, cut, n, c);
    }
  }

  lemma CleanKeepsInv(ms: Mappings, conditions: set<string>, s: Limiter, a: Action)
    requires Inv(ms, conditions, s) && a.Clean? && Possible(ms, s, a)
    ensures Inv(ms, conditions, After(ms, s, a))
  {
    CleanedInv(ms, conditions, s, After(ms, s, a));
  }

  lemma CleanedInv(ms: Mappings, conditions: set<string>, s: Limiter, t: Limiter)
    requires Inv(ms, conditions, s) && s.now <= t.now
    requires t == s.(record := Cleaned(s.record, t.now - CLEANUP_WINDOW), now := t.now)
    ensures Inv(ms, conditions, t)
  {
    CleanedConditions(conditions, s.record, t.now - CLEANUP_WINDOW);
    AllPairsCleaned(ms, conditions, s, t);
  }

  lemma AllPairsCleaned(ms: Mappings, conditions: set<string>, s: Limiter, t: Limiter)
    requires Inv(ms, conditions, s) && s.now <= t.now
    requires t == s.(record := Cleaned(s.record, t.now - CLEANUP_WINDOW), now := t.now)
    ensures forall n, c {:trigger PairIn(ms, t, n, c)} :: NodeName(n) && c in conditions ==> PairIn(ms, t, n, c)
  {
    forall n, c | NodeName(n) && c in conditions ensures PairIn(ms, t, n, c) {
      assert PairIn(ms, s, n, c);
      CleanedPair(ms, s, t, n, c);
    }
  }

  lemma SyncKeepsInv(ms: Mappings, conditions: set<string>, s: Limiter, a: Action)
    requires Separate(ms, conditions) && Inv(ms, conditions, s) && a.Sync? && Possible(ms, s, a)
    ensures Inv(ms, conditions, After(ms, s, a))
  {
    var t := After(ms, s, a);
    forall n, c | NodeName(n) && c in conditions ensures PairIn(ms, t, n, c) {
      assert PairIn(ms, s, n, c);
      var log, kept, tracked := LogOf(s, n, c), Starts(ListOf(s.record, n, c)), TrackedOf(s.tracker, n, c);
      PairLater(ms, c, log, kept, tracked, s.now, a.end, s.synced);
      if Promised(ms, c) {
        SyncedLookup(conditions, s.record, a.result, ms, a.clock, n, c);
        PairSynced(ms, c, log, kept, tracked, s.now, s.synced, (i: nat) => a.clock(n, c, i), a.end);
      }
    }
  }

  lemma StartPair(ms: Mappings, conditions: set<string>, s: Limiter, a: Action, n: string, c: string)
    requires Separate(ms, conditions) && c in conditions && NodeName(n)
    requires PairIn(ms, s, n, c) && a.Start? && NodeName(a.n) && Possible(ms, s, a)
    ensures PairIn(ms, After(ms, s, a), n, c)
  {
    var t := After(ms, s, a);
    if n == a.n && c == a.c {
      StartedLists(ms, s, a);
      StartedPair(ms, s, t, n, c, a.dropAt);
    } else {
      StartedElsewhere(ms, conditions, s, a, n, c);
      LaterPair(ms, s, t, n, c);
    }
  }

  lemma StartedPair(ms: Mappings, s: Limiter, t: Limiter, n: string, c: string, dropAt: int)
    requires PairIn(ms, s, n, c) && s.synced && t.synced && s.now <= dropAt <= t.now
    requires c in ms && WindowOf(ms, c).Some? && !Violated(s.tracker, n, c, ms[c])
    requires LogOf(t, n, c) == LogOf(s, n, c) + [t.now]
    requires Readable(ListOf(t.record, n, c))
    requires Starts(ListOf(t.record, n, c)) == Starts(ListOf(s.record, n, c)) + [t.now]
    requires TrackedOf(t.tracker, n, c) ==
             DropPrefix(TrackedOf(s.tracker, n, c), dropAt - WindowOf(ms, c).value) + [t.now]
    ensures PairIn(ms, t, n, c)
  {
    PairStarted(ms, c, LogOf(s, n, c), Starts(ListOf(s.record, n, c)), TrackedOf(s.tracker, n, c), s.now, dropAt,
        t.now);
  }

  lemma LaterPair(ms: Mappings, s: Limiter, t: Limiter, n: string, c: string)
    requires PairIn(ms, s, n, c) && s.now <= t.now && s.synced == t.synced
    requires LogOf(t, n, c) == LogOf(s, n, c) && TrackedOf(t.tracker, n, c) == TrackedOf(s.tracker, n, c)
    requires ListOf(t.record, n, c) == ListOf(s.record, n, c)
    ensures PairIn(ms, t, n, c)
  {
    PairLater(ms, c, LogOf(s, n, c), Starts(ListOf(s.record, n, c)), TrackedOf(s.tracker, n, c), s.now, t.now,
        s.synced);
  }

  lemma StartKeepsInv(ms: Mappings, conditions: set<string>, s: Limiter, a: Action)
    requires Separate(ms, conditions) && Inv(ms, conditions, s) && a.Start? && NodeName(a.n) && Possible(ms, s, a)
    ensures Inv(ms, conditions, After(ms, s, a))
  {
    forall n, c | NodeName(n) && c in conditions ensures PairIn(ms, After(ms, s, a), n, c) {
      assert PairIn(ms, s, n, c);
      StartPair(ms, conditions, s, a, n, c);
    }
  }

  lemma StartedLists(ms: Mappings, s: Limiter, a: Action)
    requires a.Start? && Possible(ms, s, a) && Readable(ListOf(s.record, a.n, a.c))
    ensures var t := After(ms, s, a);
            && LogOf(t, a.n, a.c) == LogOf(s, a.n, a.c) + [a.at]
            && Readable(ListOf(t.record, a.n, a.c))
            && Starts(ListOf(t.record, a.n, a.c)) == Starts(ListOf(s.record, a.n, a.c)) + [a.at]
            && TrackedOf(t.tracker, a.n, a.c) ==
               DropPrefix(TrackedOf(s.tracker, a.n, a.c), a.dropAt - WindowOf(ms, a.c).value) + [a.at]
  {
  }

  lemma StartedElsewhere(ms: Mappings, conditions: set<string>, s: Limiter, a: Action, n: string, c: string)
    requires Separate(ms, conditions) && a.Start? && Possible(ms, s, a) && NodeName(n) && NodeName(a.n)
    requires c in conditions && (n != a.n || c != a.c)
    ensures var t := After(ms, s, a);
            && LogOf(t, n, c) == LogOf(s, n, c)
            && ListOf(t.record, n, c) == ListOf(s.record, n, c)
            && TrackedOf(t.tracker, n, c) == TrackedOf(s.tracker, n, c)
  {
    if Key(n, c) == Key(a.n, a.c) {
      KeyDecides(conditions, n, c, a.n, a.c);
    }
  }

  lemma StepKeepsInv(ms: Mappings, conditions: set<string>, s: Limiter, a: Action)
    requires Separate(ms, conditions) && Inv(ms, conditions, s) && Possible(ms, s, a) && (a.Start? ==> NodeName(a.n))
    ensures Inv(ms, conditions, After(ms, s, a))
  {
    match a
    case Clean(_) => CleanKeepsInv(ms, conditions, s, a);
    case Sync(_, _, _) => SyncKeepsInv(ms, conditions, s, a);
    case Start(_, _, _, _, _) => StartKeepsInv(ms, conditions, s, a);
    case EndPass | Restart =>
      forall n, c | NodeName(n) && c in conditions ensures PairIn(ms, After(ms, s, a), n, c) {
        assert PairIn(ms, s, n, c);
      }
  }

  lemma {:induction false} RunKeepsInv(ms: Mappings, conditions: set<string>, s: Limiter, actions: seq<Action>)
    requires Separate(ms, conditions) && Inv(ms, conditions, s) && Run(ms, s, actions) && Named(actions)
    ensures Inv(ms, conditions, Final(ms, s, actions))
    decreases |actions|
  {
    if actions != [] {
      StepKeepsInv(ms, conditions, s, actions[0]);
      RunKeepsInv(ms, conditions, After(ms, s, actions[0]), actions[1..]);
    }
  }

  /** Nothing registered yet. */
  predicate Initial(s: Limiter) {
    s.record == map[] && s.log == map[] && !s.synced
  }

  lemma InitialInv(ms: Mappings, conditions: set<string>, s: Limiter)
    requires Initial(s)
    ensures Inv(ms, conditions, s)
  {
  }

  lemma PairAlwaysIn(ms: Mappings, conditions: set<string>, s: Limiter, actions: seq<Action>, n: string, c: string)
    requires Separate(ms, conditions) && Initial(s) && Run(ms, s, actions) && Named(actions)
    requires NodeName(n) && c in conditions
    ensures PairIn(ms, Final(ms, s, actions), n, c)
  {
    InitialInv(ms, conditions, s);
    RunKeepsInv(ms, conditions, s, actions);
  }

  // ----- theorems -----

  /**
   * Sliding-window limit over whole runs: in every run of sequential passes, with a clock that
   * never goes back and mappings that do not change, no half-open interval as long as the window
   * of a condition contains more than maxAllowedRunsPerWindow registered workflows for any node
   * and that condition.
   */
  lemma RateLimited(ms: Mappings, conditions: set<string>, s: Limiter, actions: seq<Action>, n: string, c: string,
                    w: int, m: int, from: int)
    requires Separate(ms, conditions) && Initial(s) && Run(ms, s, actions) && Named(actions) && NodeName(n)
    requires Policy(ms, c, w, m) && w <= 72 * 3600
    ensures |Within(LogOf(Final(ms, s, actions), n, c), from, w)| <= Max(0, m)
  {
    PolicyIsUsed(ms, c, w, m);
    PairAlwaysIn(ms, conditions, s, actions, n, c);
    SpacedMeansFew(LogOf(Final(ms, s, actions), n, c), m, w, from);
  }

  /**
   * The tracker is a faithful cache: after a sync, for every node and condition, it agrees with
   * the log of all workflows ever registered on everything inside the window, and cutting its list
   * at the first recent time is the same as filtering it, for any cut.
   */
  lemma TrackerAgreesWithLog(ms: Mappings, conditions: set<string>, s: Limiter, actions: seq<Action>, n: string,
                             c: string, w: int, m: int, cut: int)
    requires Separate(ms, conditions) && Initial(s) && Run(ms, s, actions) && Named(actions) && NodeName(n)
    requires Policy(ms, c, w, m) && w <= 72 * 3600 && Final(ms, s, actions).synced
    ensures var t := Final(ms, s, actions);
            && Agree(TrackedOf(t.tracker, n, c), LogOf(t, n, c), t.now - w)
            && DropPrefix(TrackedOf(t.tracker, n, c), cut) == AttemptLists.After(TrackedOf(t.tracker, n, c), cut)
  {
    PolicyIsUsed(ms, c, w, m);
    PairAlwaysIn(ms, conditions, s, actions, n, c);
    SortedDropIsFilter(TrackedOf(Final(ms, s, actions).tracker, n, c), cut);
  }

  /**
   * What the count behind the gate means. After a sync whose clock readings lie between `low` and `end`,
   * the gate is closed for a node and condition if as many of all workflows ever registered for it as
   * the limit allows started within the window before `end`, and only if as many started within the
   * window before `low`; so for a sync at one moment it is exact. (A window of 72 hours itself may lose
   * the attempt that is exactly that old.)
   */
  lemma GateIsExact(ms: Mappings, conditions: set<string>, s: Limiter, actions: seq<Action>, a: Action, low: int,
                    n: string, c: string, w: int, m: int)
    requires Separate(ms, conditions) && Initial(s) && Run(ms, s, actions) && Named(actions) && NodeName(n)
    requires a.Sync? && Possible(ms, Final(ms, s, actions), a) && Final(ms, s, actions).now <= low
    requires forall k, d, i :: low <= a.clock(k, d, i) <= a.end
    requires Policy(ms, c, w, m) && w < 72 * 3600
    ensures var u := Final(ms, s, actions);
            && (Violated(a.result, n, c, ms[c]) <==> |TrackedOf(a.result, n, c)| >= m)
            && (|AtLeast(LogOf(u, n, c), a.end - w)| >= m ==> Violated(a.result, n, c, ms[c]))
            && (Violated(a.result, n, c, ms[c]) ==> |AtLeast(LogOf(u, n, c), low - w)| >= m)
  {
    AlwaysInv(ms, conditions, s, actions);
    PolicyIsUsed(ms, c, w, m);
    GateInState(ms, conditions, Final(ms, s, actions), a.result, a.clock, low, a.end, n, c);
  }

  lemma AlwaysInv(ms: Mappings, conditions: set<string>, s: Limiter, actions: seq<Action>)
    requires Separate(ms, conditions) && Initial(s) && Run(ms, s, actions) && Named(actions)
    ensures Inv(ms, conditions, Final(ms, s, actions))
  {
    InitialInv(ms, conditions, s);
    RunKeepsInv(ms, conditions, s, actions);
  }

  lemma GateInState(ms: Mappings, conditions: set<string>, u: Limiter, t: Tracker, clock: Clock, low: int, end: int,
                    n: string, c: string)
    requires Separate(ms, conditions) && Inv(ms, conditions, u) && NodeName(n) && c in ms && WindowOf(ms, c).Some?
    requires Synced(t, u.record, ms, clock) && u.now <= low && forall m, d, i :: low <= clock(m, d, i) <= end
    requires WindowOf(ms, c).value < CLEANUP_WINDOW
    ensures var w := WindowOf(ms, c).value;
            |AtLeast(LogOf(u, n, c), end - w)| <= |TrackedOf(t, n, c)| <= |AtLeast(LogOf(u, n, c), low - w)|
  {
    assert PairIn(ms, u, n, c);
    GateAfterSync(ms, conditions, u, t, clock, low, end, n, c);
  }

  lemma GateAfterSync(ms: Mappings, conditions: set<string>, u: Limiter, t: Tracker, clock: Clock, low: int, end: int,
                      n: string, c: string)
    requires Separate(ms, conditions) && PairIn(ms, u, n, c) && NodeName(n) && c in ms && WindowOf(ms, c).Some?
    requires AllReadable(u.record) && NodesNamed(u.record)
    requires forall m, d :: m in u.record && d in u.record[m] ==> d in conditions
    requires Synced(t, u.record, ms, clock) && u.now <= low && forall m, d, i :: low <= clock(m, d, i) <= end
    requires WindowOf(ms, c).value < CLEANUP_WINDOW
    ensures var w := WindowOf(ms, c).value;
            |AtLeast(LogOf(u, n, c), end - w)| <= |TrackedOf(t, n, c)| <= |AtLeast(LogOf(u, n, c), low - w)|
  {
    KeptAgrees(ms, c, LogOf(u, n, c), Starts(ListOf(u.record, n, c)), TrackedOf(u.tracker, n, c), u.now, u.synced);
    SyncedLookup(conditions, u.record, t, ms, clock, n, c);
    TrackedCount(ms, u.record, t, clock, n, c, LogOf(u, n, c), u.now, low, end);
  }

  lemma TrackedCount(ms: Mappings, rec: Record, t: Tracker, clock: Clock, n: string, c: string, log: seq<int>,
                     now: int, low: int, end: int)
    requires ShowsOwn(t, rec, ms, clock, n, c) && Agree(Starts(ListOf(rec, n, c)), log, now - CLEANUP_WINDOW)
    requires WindowOf(ms, c).value < CLEANUP_WINDOW && now <= low && forall m, d, i :: low <= clock(m, d, i) <= end
    ensures var w := WindowOf(ms, c).value;
            |AtLeast(log, end - w)| <= |TrackedOf(t, n, c)| <= |AtLeast(log, low - w)|
  {
    CountedInWindow(log, Starts(ListOf(rec, n, c)), now, WindowOf(ms, c).value, low, end, (i: nat) => clock(n, c, i));
  }

  lemma KeptAgrees(ms: Mappings, c: string, log: seq<int>, kept: seq<int>, tracked: seq<int>, now: int, synced: bool)
    requires PairOk(ms, c, log, kept, tracked, now, synced)
    ensures Agree(kept, log, now - CLEANUP_WINDOW)
  {
  }

  lemma CountedInWindow(log: seq<int>, kept: seq<int>, now: int, w: int, low: int, end: int, clock: nat -> int)
    requires Agree(kept, log, now - CLEANUP_WINDOW) && now <= low && w < CLEANUP_WINDOW
    requires forall i :: low <= clock(i) <= end
    ensures |AtLeast(log, end - w)| <= |KeepRecent(kept, w, clock)| <= |AtLeast(log, low - w)|
  {
    BetweenReadings(kept, w, clock, low, end);
    assert clock(0) <= end;
    AgreeLater(kept, log, now - CLEANUP_WINDOW, low - w - 1);
    AgreeLater(kept, log, now - CLEANUP_WINDOW, end - w - 1);
  }

  lemma {:induction false} BetweenReadings(l: seq<int>, w: int, clock: nat -> int, low: int, end: int)
    requires forall i :: low <= clock(i) <= end
    ensures |AtLeast(l, end - w)| <= |KeepRecent(l, w, clock)| <= |AtLeast(l, low - w)|
  {
    if l != [] {
      BetweenReadings(l[..|l| - 1], w, clock, low, end);
      assert low <= clock(|l| - 1) <= end;
    }
  }
}
