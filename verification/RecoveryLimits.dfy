/**
 * When the limit on remediation workflows holds: runs of the limiter that break it for every window
 * above 72 hours and for every pair of conditions whose tracker keys can coincide.
 */
module RecoveryLimits {
  import opened Common
  import opened AttemptLists
  import opened RecoveryLimiter
  import opened RecoveryRuns

  ghost predicate Reaches(ms: Mappings, s: Limiter, t: Limiter) {
    exists run :: Run(ms, s, run) && Final(ms, s, run) == t && Named(run)
  }

  lemma {:induction false} NamedAppend(run: seq<Action>, a: Action)
    requires Named(run) && (a.Start? ==> NodeName(a.n))
    ensures Named(run + [a])
  {
    if run == [] {
      assert run + [a] == [a] && [a][1..] == [];
    } else {
      NamedAppend(run[1..], a);
      assert (run + [a])[1..] == run[1..] + [a];
    }
  }

  lemma Then(ms: Mappings, s: Limiter, t: Limiter, a: Action)
    requires Reaches(ms, s, t) && Possible(ms, t, a) && (a.Start? ==> NodeName(a.n))
    ensures Reaches(ms, s, RecoveryRuns.After(ms, t, a))
  {
    var run :| Run(ms, s, run) && Final(ms, s, run) == t && Named(run);
    RunOne(ms, t, a);
    RunAppend(ms, s, run, [a]);
    NamedAppend(run, a);
  }

  const START := Limiter(map[], map[], map[], 0, false)

  function Attempts(at: int, k: nat): (r: seq<Attempt>)
    ensures |r| == k && Readable(r)
  {
    seq(k, i => Attempt("w", Some(at)))
  }

  function Times(at: int, k: nat): (r: seq<int>)
    ensures |r| == k
  {
    seq(k, i => at)
  }

  function WithList(rec: Record, n: string, c: string, list: seq<Attempt>): Record {
    rec[n := (if n in rec then rec[n] else map[])[c := list]]
  }

  /** The limiter after k workflows of a pair were registered at the present moment. */
  function Registering(s: Limiter, n: string, c: string, k: nat): Limiter {
    if k == 0 then s
    else
      s.(record := WithList(s.record, n, c, ListOf(s.record, n, c) + Attempts(s.now, k)),
         tracker := s.tracker[Key(n, c) := Times(s.now, k)],
         log := s.log[(n, c) := LogOf(s, n, c) + Times(s.now, k)])
  }

  /** As many workflows as the limit allows pass the gate at one moment, if none is tracked. */
  lemma {:induction false} Burst(ms: Mappings, s: Limiter, t: Limiter, n: string, c: string, k: nat)
    requires Reaches(ms, s, t) && t.synced && TrackedOf(t.tracker, n, c) == [] && NodeName(n)
    requires c in ms && WindowOf(ms, c).Some? && WindowOf(ms, c).value > 0 && k <= MaxRuns(ms[c])
    ensures Reaches(ms, s, Registering(t, n, c, k))
  {
    if k > 0 {
      Burst(ms, s, t, n, c, k - 1);
      var u := Registering(t, n, c, k - 1);
      var a := Start(n, c, "w", t.now, t.now);
      TrackedSoFar(t, n, c, k - 1);
      assert Possible(ms, u, a);
      Then(ms, s, u, a);
      OneMoreRegistered(ms, t, n, c, k, u, a);
    }
  }

  lemma TrackedSoFar(t: Limiter, n: string, c: string, k: nat)
    requires TrackedOf(t.tracker, n, c) == []
    ensures TrackedOf(Registering(t, n, c, k).tracker, n, c) == Times(t.now, k)
    ensures LogOf(Registering(t, n, c, k), n, c) == LogOf(t, n, c) + Times(t.now, k)
    ensures ListOf(Registering(t, n, c, k).record, n, c) == ListOf(t.record, n, c) + Attempts(t.now, k)
  {
  }

  lemma OneMoreRegistered(ms: Mappings, t: Limiter, n: string, c: string, k: nat, u: Limiter, a: Action)
    requires k > 0 && u == Registering(t, n, c, k - 1) && a == Start(n, c, "w", t.now, t.now)
    requires TrackedOf(t.tracker, n, c) == [] && WindowOf(ms, c).Some? && WindowOf(ms, c).value > 0
    requires Possible(ms, u, a)
    ensures RecoveryRuns.After(ms, u, a) == Registering(t, n, c, k)
  {
    TrackedSoFar(t, n, c, k - 1);
    var cut := t.now - WindowOf(ms, c).value;
    NothingDropped(t.now, k - 1, cut);
    Appended(t.now, k);
    SameRecord(t, n, c, k);
    SameLog(t, n, c, k);
    SameTracker(t.tracker, n, c, t.now, k, u.tracker, cut);
  }

  lemma SameLog(t: Limiter, n: string, c: string, k: nat)
    requires k > 0
    ensures var u := Registering(t, n, c, k - 1);
            u.log[(n, c) := LogOf(u, n, c) + [t.now]] == Registering(t, n, c, k).log
  {
    Appended(t.now, k);
    var log := LogOf(t, n, c);
    assert log + Times(t.now, k - 1) + [t.now] == log + Times(t.now, k);
    assert k == 1 ==> log + [t.now] == log + Times(t.now, 1);
  }

  lemma NothingDropped(at: int, k: nat, cut: int)
    requires cut < at
    ensures DropPrefix(Times(at, k), cut) == Times(at, k)
  {
  }

  lemma Appended(at: int, k: nat)
    requires k > 0
    ensures Times(at, k - 1) + [at] == Times(at, k) && Attempts(at, k - 1) + [Attempt("w", Some(at))] == Attempts(at, k)
  {
  }

  lemma SameTracker(t: Tracker, n: string, c: string, at: int, k: nat, u: Tracker, cut: int)
    requires k > 0 && cut < at && TrackedOf(t, n, c) == []
    requires u == if k == 1 then t else t[Key(n, c) := Times(at, k - 1)]
    ensures Noted(Dropped(u, n, c, cut), n, c, at) == t[Key(n, c) := Times(at, k)]
  {
    NothingDropped(at, k - 1, cut);
    Appended(at, k);
    assert Times(at, 0) == [];
  }

  lemma SameRecord(t: Limiter, n: string, c: string, k: nat)
    requires k > 0
    ensures Registered(Registering(t, n, c, k - 1).record, n, c, Attempt("w", Some(t.now))) ==
            Registering(t, n, c, k).record
  {
    var list, w := ListOf(t.record, n, c), Attempt("w", Some(t.now));
    Appended(t.now, k);
    assert list + Attempts(t.now, k - 1) + [w] == list + Attempts(t.now, k);
    assert k == 1 ==> list + Attempts(t.now, 0) == list;
    RegisteredTwice(t.record, n, c, list + Attempts(t.now, k - 1), w);
  }

  lemma RegisteredTwice(rec: Record, n: string, c: string, list: seq<Attempt>, w: Attempt)
    ensures Registered(WithList(rec, n, c, list), n, c, w) == WithList(rec, n, c, list + [w])
    ensures list == ListOf(rec, n, c) ==> Registered(rec, n, c, w) == WithList(rec, n, c, list + [w])
  {
    var conditions := if n in rec then rec[n] else map[];
    assert conditions[c := list][c := list + [w]] == conditions[c := list + [w]];
    assert WithList(rec, n, c, list)[n := conditions[c := list + [w]]] == rec[n := conditions[c := list + [w]]];
  }

  /** A pass begins at one moment: the cleanup leaves `record`, the sync produces `tracker`. */
  lemma Open(ms: Mappings, s: Limiter, t: Limiter, at: int, record: Record, tracker: Tracker, clock: Clock)
      returns (u: Limiter)
    requires Reaches(ms, s, t) && t.now <= at && AllReadable(t.record)
    requires record == Cleaned(t.record, at - CLEANUP_WINDOW)
    requires AllReadable(record) && WindowsReadable(record, ms) && Synced(tracker, record, ms, clock)
    requires forall n, c, i :: clock(n, c, i) == at
    ensures Reaches(ms, s, u) && u == Limiter(record, tracker, t.log, at, true)
  {
    Then(ms, s, t, Clean(at));
    u := t.(record := record, now := at);
    u := Fill(ms, s, u, tracker, clock);
  }

  lemma Fill(ms: Mappings, s: Limiter, t: Limiter, tracker: Tracker, clock: Clock) returns (u: Limiter)
    requires Reaches(ms, s, t) && forall n, c, i :: clock(n, c, i) == t.now
    requires AllReadable(t.record) && WindowsReadable(t.record, ms) && Synced(tracker, t.record, ms, clock)
    ensures Reaches(ms, s, u) && u == t.(tracker := tracker, synced := true)
  {
    var a := Sync(clock, t.now, tracker);
    Then(ms, s, t, a);
    u := RecoveryRuns.After(ms, t, a);
  }

  lemma NothingToSync(ms: Mappings, clock: Clock)
    ensures Synced(map[], map[], ms, clock)
  {
  }

  /** The first pass, at time 0. */
  lemma OpenFirst(ms: Mappings) returns (u: Limiter)
    ensures Reaches(ms, START, u) && u == Limiter(map[], map[], map[], 0, true)
  {
    var none: seq<Action> := [];
    assert Run(ms, START, none) && Final(ms, START, none) == START && Named(none);
    var empty: Record := map[];
    assert Cleaned(empty, -CLEANUP_WINDOW) == empty;
    NothingToSync(ms, STOPPED);
    u := Open(ms, START, START, 0, empty, map[], STOPPED);
  }

  // ----- the limit and its two conditions -----

  /** At most m workflows of a condition started in any w seconds, on every node. */
  ghost predicate Kept(c: string, w: int, m: int, t: Limiter) {
    forall n, from {:trigger Within(LogOf(t, n, c), from, w)} :: NodeName(n) ==>
      |Within(LogOf(t, n, c), from, w)| <= Max(0, m)
  }

  /** All runs keep the limit of the condition's policy. */
  ghost predicate AlwaysKept(ms: Mappings, c: string, w: int, m: int) {
    forall s, actions :: Initial(s) && Run(ms, s, actions) && Named(actions) ==> Kept(c, w, m, Final(ms, s, actions))
  }

  lemma {:induction false} WithinAll(log: seq<int>, from: int, w: int)
    requires forall i :: 0 <= i < |log| ==> from <= log[i] < from + w
    ensures Within(log, from, w) == log
  {
    if log != [] {
      var k := |log| - 1;
      WithinAll(log[..k], from, w);
      assert log == log[..k] + [log[k]];
    }
  }

  /** One workflow too many, all of them inside one window. */
  lemma Exceeded(ms: Mappings, t: Limiter, n: string, c: string, w: int, m: int, from: int)
    requires Policy(ms, c, w, m) && Reaches(ms, START, t) && NodeName(n) && |LogOf(t, n, c)| > Max(0, m)
    requires forall i :: 0 <= i < |LogOf(t, n, c)| ==> from <= LogOf(t, n, c)[i] < from + w
    ensures !AlwaysKept(ms, c, w, m)
  {
    WithinAll(LogOf(t, n, c), from, w);
    assert !Kept(c, w, m, t);
    var run :| Run(ms, START, run) && Final(ms, START, run) == t && Named(run);
    assert Initial(START);
  }

  /** In a window longer than 72 hours the cleanup forgets workflows that still count. */
  lemma LongWindowBreaksLimit(ms: Mappings, n: string, c: string, w: int, m: int)
    requires Policy(ms, c, w, m) && w > CLEANUP_WINDOW && m > 0 && NodeName(n)
    ensures !AlwaysKept(ms, c, w, m)
  {
    PolicyIsUsed(ms, c, w, m);
    var t := FullLimit(ms, n, c, m);
    t := Forget(ms, n, c, m, t);
    Burst(ms, START, t, n, c, 1);
    t := Registering(t, n, c, 1);
    Exceeded(ms, t, n, c, w, m, 0);
  }

  /** All workflows that the limit allows are registered at time 0. */
  lemma FullLimit(ms: Mappings, n: string, c: string, m: nat) returns (t: Limiter)
    requires c in ms && WindowOf(ms, c).Some? && WindowOf(ms, c).value > 0 && m == MaxRuns(ms[c]) > 0 && NodeName(n)
    ensures Reaches(ms, START, t) && t.now == 0 && LogOf(t, n, c) == Times(0, m)
    ensures t.record == map[n := map[c := Attempts(0, m)]]
  {
    t := OpenFirst(ms);
    Burst(ms, START, t, n, c, m);
    t := Registering(t, n, c, m);
    assert [] + Attempts(0, m) == Attempts(0, m) && [] + Times(0, m) == Times(0, m);
  }

  /** After 72 hours the record is empty. */
  lemma Forget(ms: Mappings, n: string, c: string, m: nat, t: Limiter) returns (u: Limiter)
    requires m > 0 && Reaches(ms, START, t) && t.now == 0 && t.record == map[n := map[c := Attempts(0, m)]]
    ensures Reaches(ms, START, u) && u == Limiter(map[], map[], t.log, CLEANUP_WINDOW, true)
  {
    AllForgotten(n, c, m, t.record);
    var clock: Clock := (x, d, i) => CLEANUP_WINDOW;
    NothingToSync(ms, clock);
    u := Open(ms, START, t, CLEANUP_WINDOW, map[], map[], clock);
  }

  lemma AllForgotten(n: string, c: string, m: nat, rec: Record)
    requires m > 0 && rec == map[n := map[c := Attempts(0, m)]]
    ensures AllReadable(rec) && Cleaned(rec, 0) == map[]
  {
    var list := Attempts(0, m);
    FilterIsAfter(list, 0);
    assert Starts(list) == Times(0, m);
    NoneAfter(Times(0, m), 0);
    assert |Starts(FilterAttempts(list, 0))| == 0;
    assert CleanedNode(rec[n], 0) == map[];
  }

  lemma {:induction false} NoneAfter(s: seq<int>, cut: int)
    requires forall i :: 0 <= i < |s| ==> s[i] <= cut
    ensures AttemptLists.After(s, cut) == []
  {
    if s != [] {
      NoneAfter(s[..|s| - 1], cut);
    }
  }

  /**
   * With names that keep the tracker keys apart and a positive limit, all runs keep the limit of a
   * condition if and only if its window is at most 72 hours.
   */
  lemma LimitNeedsShortWindowExactly(ms: Mappings, conditions: set<string>, c: string, w: int, m: int)
    requires Separate(ms, conditions) && Policy(ms, c, w, m) && m > 0
    ensures AlwaysKept(ms, c, w, m) <==> w <= 72 * 3600
  {
    if w <= 72 * 3600 {
      AlwaysRateLimited(ms, conditions, c, w, m);
    } else {
      LongWindowBreaksLimit(ms, "n", c, w, m);
    }
  }

  lemma AlwaysRateLimited(ms: Mappings, conditions: set<string>, c: string, w: int, m: int)
    requires Separate(ms, conditions) && Policy(ms, c, w, m) && w <= 72 * 3600
    ensures AlwaysKept(ms, c, w, m)
  {
    forall s, actions | Initial(s) && Run(ms, s, actions) && Named(actions)
      ensures Kept(c, w, m, Final(ms, s, actions))
    {
      forall n, from | NodeName(n) ensures |Within(LogOf(Final(ms, s, actions), n, c), from, w)| <= Max(0, m) {
        RateLimited(ms, conditions, s, actions, n, c, w, m, from);
      }
    }
  }

  // ----- colliding keys -----

  /** The record is about two pairs only, with these start times. */
  ghost predicate Holds(rec: Record, n2: string, c2: string, n1: string, c1: string, l2: seq<int>, l1: seq<int>) {
    && AllReadable(rec)
    && (forall n, c :: n in rec && c in rec[n] ==> (n == n2 && c == c2) || (n == n1 && c == c1))
    && Readable(ListOf(rec, n2, c2)) && Starts(ListOf(rec, n2, c2)) == l2
    && Readable(ListOf(rec, n1, c1)) && Starts(ListOf(rec, n1, c1)) == l1
  }

  /** A cleanup for which nothing is old enough. */
  lemma CleanHolds(rec: Record, n2: string, c2: string, n1: string, c1: string, l2: seq<int>, l1: seq<int>, cut: int)
    requires Holds(rec, n2, c2, n1, c1, l2, l1)
    requires (forall i :: 0 <= i < |l2| ==> l2[i] > cut) && (forall i :: 0 <= i < |l1| ==> l1[i] > cut)
    ensures Holds(Cleaned(rec, cut), n2, c2, n1, c1, l2, l1)
  {
    CleanedContents(rec, cut, n2, c2);
    CleanedContents(rec, cut, n1, c1);
    AllAfter(l2, cut);
    AllAfter(l1, cut);
    forall n, c | n in Cleaned(rec, cut) && c in Cleaned(rec, cut)[n] ensures n in rec && c in rec[n] {
      CleanedContents(rec, cut, n, c);
    }
  }

  /** One more workflow of the first pair. */
  lemma RegisterHolds(rec: Record, n2: string, c2: string, n1: string, c1: string, l2: seq<int>, l1: seq<int>, at: int)
    requires Holds(rec, n2, c2, n1, c1, l2, l1) && n1 != n2
    ensures Holds(Registered(rec, n1, c1, Attempt("w", Some(at))), n2, c2, n1, c1, l2, l1 + [at])
  {
    var a := Attempt("w", Some(at));
    var rec', list := Registered(rec, n1, c1, a), ListOf(rec, n1, c1);
    assert ListOf(rec', n1, c1) == list + [a] && ListOf(rec', n2, c2) == ListOf(rec, n2, c2);
    assert Starts(list + [a]) == Starts(list) + [at];
  }

  /** A sync that keeps the list of (n2, c2) under the common key. */
  lemma CoverSync(ms: Mappings, rec: Record, n2: string, c2: string, n1: string, c1: string, l2: seq<int>, l1: seq<int>,
                  clock: Clock, kept: seq<int>)
    requires Holds(rec, n2, c2, n1, c1, l2, l1) && l2 != [] && Key(n1, c1) == Key(n2, c2)
    requires WindowOf(ms, c2).Some? && kept == KeepRecent(l2, WindowOf(ms, c2).value, (i: nat) => clock(n2, c2, i))
    ensures Synced(map[Key(n1, c1) := kept], rec, ms, clock)
  {
    assert n2 in rec && c2 in rec[n2] && Key(n2, c2) == Key(n1, c1);
    assert kept == SyncedList(rec, n2, c2, WindowOf(ms, c2).value, clock);
  }

  /** A workflow of the pair passes the gate at the present moment. */
  lemma StartOne(ms: Mappings, s: Limiter, t: Limiter, n: string, c: string) returns (u: Limiter)
    requires Reaches(ms, s, t) && t.synced && NodeName(n)
    requires c in ms && WindowOf(ms, c).Some? && !Violated(t.tracker, n, c, ms[c])
    ensures Reaches(ms, s, u) && u.now == t.now && LogOf(u, n, c) == LogOf(t, n, c) + [t.now]
    ensures u.record == Registered(t.record, n, c, Attempt("w", Some(t.now)))
    ensures forall m, d :: m != n ==> LogOf(u, m, d) == LogOf(t, m, d)
  {
    var a := Start(n, c, "w", t.now, t.now);
    Then(ms, s, t, a);
    u := RecoveryRuns.After(ms, t, a);
  }

  /** The old workflow of (n2, c2) at time 0 shows as `kept` in a sync at time `at`. */
  ghost predicate Shows(ms: Mappings, c2: string, at: int, kept: seq<int>) {
    && WindowOf(ms, c2).Some?
    && kept == if WindowOf(ms, c2).value < at then [] else [0]
  }

  lemma ShowsInSync(ms: Mappings, c2: string, at: int, kept: seq<int>, clock: nat -> int)
    requires Shows(ms, c2, at, kept) && forall i :: clock(i) == at
    ensures KeepRecent([0], WindowOf(ms, c2).value, clock) == kept
  {
    assert [0][..0] == [] && clock(0) == at;
  }

  /** (n1, c1) and (n2, c2) share a key, and a sync at time `at` may show too few workflows of the former. */
  ghost predicate Covered(ms: Mappings, n1: string, c1: string, n2: string, c2: string, at: int, kept: seq<int>) {
    && n1 != n2 && NodeName(n1) && NodeName(n2) && Key(n1, c1) == Key(n2, c2)
    && c1 in ms && c2 in ms && WindowOf(ms, c1).Some? && 0 <= at < CLEANUP_WINDOW
    && Shows(ms, c2, at, kept) && |kept| < MaxRuns(ms[c1])
  }

  /** k workflows of (n1, c1) were registered at time `at`, after the one of (n2, c2) at time 0. */
  ghost predicate Piled(ms: Mappings, t: Limiter, n1: string, c1: string, n2: string, c2: string, at: int, k: nat) {
    && Reaches(ms, START, t) && t.now <= at && LogOf(t, n1, c1) == Times(at, k)
    && Holds(t.record, n2, c2, n1, c1, [0], Times(at, k))
  }

  /** A pass that does not see the workflows of (n1, c1) launches another. */
  lemma PileOne(ms: Mappings, t: Limiter, n1: string, c1: string, n2: string, c2: string, at: int, kept: seq<int>,
      k: nat)
    returns (u: Limiter)
    requires Covered(ms, n1, c1, n2, c2, at, kept) && Piled(ms, t, n1, c1, n2, c2, at, k)
    ensures Piled(ms, u, n1, c1, n2, c2, at, k + 1)
  {
    u := OpenCovered(ms, t, n1, c1, n2, c2, at, kept, k);
    RegisterHolds(u.record, n2, c2, n1, c1, [0], Times(at, k), at);
    u := StartOne(ms, START, u, n1, c1);
    assert Times(at, k) + [at] == Times(at, k + 1);
  }

  lemma OpenCovered(ms: Mappings, t: Limiter, n1: string, c1: string, n2: string, c2: string, at: int,
      kept: seq<int>, k: nat)
    returns (u: Limiter)
    requires Covered(ms, n1, c1, n2, c2, at, kept) && Piled(ms, t, n1, c1, n2, c2, at, k)
    ensures Reaches(ms, START, u) && u.now == at && u.synced && LogOf(u, n1, c1) == Times(at, k)
    ensures Holds(u.record, n2, c2, n1, c1, [0], Times(at, k)) && TrackedOf(u.tracker, n1, c1) == kept
  {
    var clock: Clock := (n, c, i) => at;
    var record := Cleaned(t.record, at - CLEANUP_WINDOW);
    CleanHolds(t.record, n2, c2, n1, c1, [0], Times(at, k), at - CLEANUP_WINDOW);
    ShowsInSync(ms, c2, at, kept, (i: nat) => clock(n2, c2, i));
    CoverSync(ms, record, n2, c2, n1, c1, [0], Times(at, k), clock, kept);
    HoldsWindows(ms, record, n2, c2, n1, c1, [0], Times(at, k));
    u := Open(ms, START, t, at, record, map[Key(n1, c1) := kept], clock);
  }

  lemma HoldsWindows(ms: Mappings, rec: Record, n2: string, c2: string, n1: string, c1: string, l2: seq<int>,
      l1: seq<int>)
    requires Holds(rec, n2, c2, n1, c1, l2, l1) && WindowOf(ms, c1).Some? && WindowOf(ms, c2).Some?
    ensures WindowsReadable(rec, ms)
  {
  }

  /** The first workflow, of (n2, c2) at time 0. */
  lemma PileFirst(ms: Mappings, n1: string, c1: string, n2: string, c2: string, at: int) returns (t: Limiter)
    requires n1 != n2 && NodeName(n2) && c2 in ms && WindowOf(ms, c2).Some? && MaxRuns(ms[c2]) > 0 && at >= 0
    ensures Piled(ms, t, n1, c1, n2, c2, at, 0)
  {
    var u := OpenFirst(ms);
    t := StartOne(ms, START, u, n2, c2);
    var empty: seq<int> := [];
    assert Starts(ListOf(t.record, n2, c2)) == [0] && Starts(ListOf(t.record, n1, c1)) == empty == Times(at, 0);
    assert LogOf(t, n1, c1) == LogOf(u, n1, c1) == empty;
  }

  lemma {:induction false} Pile(ms: Mappings, n1: string, c1: string, n2: string, c2: string, at: int,
      kept: seq<int>, k: nat)
    returns (t: Limiter)
    requires Covered(ms, n1, c1, n2, c2, at, kept) && MaxRuns(ms[c2]) > 0
    ensures Piled(ms, t, n1, c1, n2, c2, at, k)
  {
    if k == 0 {
      t := PileFirst(ms, n1, c1, n2, c2, at);
    } else {
      t := Pile(ms, n1, c1, n2, c2, at, kept, k - 1);
      t := PileOne(ms, t, n1, c1, n2, c2, at, kept, k - 1);
    }
  }

  /** Windows and limits for which only the names of the conditions matter. */
  predicate Ordinary(w: int, m: int) {
    0 < w <= 72 * 3600 && m > 0 && (w < 72 * 3600 - 1 || m > 1)
  }

  ghost predicate AllOrdinary(ms: Mappings) {
    forall c :: c in ms ==> exists w, m :: Policy(ms, c, w, m) && Ordinary(w, m)
  }

  /**
   * Two conditions with a common key: an old workflow of one hides the workflows of the other, either
   * because it is itself too old for its window or because it counts only once.
   */
  lemma CollisionBreaksLimit(ms: Mappings, n1: string, c1: string, w1: int, m1: int,
                             n2: string, c2: string, w2: int, m2: int)
    requires c1 != c2 && NodeName(n1) && NodeName(n2) && Key(n1, c1) == Key(n2, c2)
    requires Policy(ms, c1, w1, m1) && Ordinary(w1, m1) && Policy(ms, c2, w2, m2) && Ordinary(w2, m2)
    requires w2 < CLEANUP_WINDOW - 1 || m1 > 1
    ensures !AlwaysKept(ms, c1, w1, m1)
  {
    PolicyIsUsed(ms, c1, w1, m1);
    PolicyIsUsed(ms, c2, w2, m2);
    KeyOf(n1, n2, c1, c2);
    var at, kept := if w2 < CLEANUP_WINDOW - 1 then w2 + 1 else 0, if w2 < CLEANUP_WINDOW - 1 then [] else [0];
    var t := Pile(ms, n1, c1, n2, c2, at, kept, m1 + 1);
    Exceeded(ms, t, n1, c1, w1, m1, at);
  }

  /**
   * For ordinary windows and limits, all runs keep the limits of all conditions if and only if no
   * condition name is a piece of a node name, a dash and another condition name.
   */
  lemma LimitsNeedSeparateNamesExactly(ms: Mappings)
    requires AllOrdinary(ms)
    ensures (forall c, w, m :: Policy(ms, c, w, m) ==> AlwaysKept(ms, c, w, m)) <==> CollisionFree(ms.Keys)
  {
    if CollisionFree(ms.Keys) {
      forall c, w, m | Policy(ms, c, w, m) ensures AlwaysKept(ms, c, w, m) {
        AlwaysRateLimited(ms, ms.Keys, c, w, m);
      }
    } else {
      var a, b :| a in ms.Keys && b in ms.Keys && Shares(a, b);
      var wa, ma :| Policy(ms, a, wa, ma) && Ordinary(wa, ma);
      var wb, mb :| Policy(ms, b, wb, mb) && Ordinary(wb, mb);
      var n, k := SplitKey(a, b);
      if wb < CLEANUP_WINDOW - 1 || ma > 1 {
        CollisionBreaksLimit(ms, n, a, wa, ma, k, b, wb, mb);
      } else {
        CollisionBreaksLimit(ms, k, b, wb, mb, n, a, wa, ma);
      }
    }
  }
}
