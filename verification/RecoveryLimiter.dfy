/**
 * The limiter of remediation workflows: a persisted record of started workflows, an in-memory
 * tracker that every pass rebuilds from it, and the gate in front of new workflows. Times are
 * whole seconds.
 */
module RecoveryLimiter {
  import opened Common
  import opened AttemptLists

  const CLEANUP_WINDOW := 72 * 60 * 60
  const DEFAULT_WINDOW := 300 * 60
  const DEFAULT_MAX_RUNS := 3

  /** One started workflow; None stands for a start time that cannot be parsed. */
  datatype Attempt = Attempt(workflow: string, start: Option<int>)

  /** The status CR: node name, then condition, then attempts in the order they were registered. */
  type Record = map<string, map<string, seq<Attempt>>>

  datatype Window = Unset | Unreadable | Seconds(s: int)

  /** Recovery policy of one condition. */
  datatype Mapping = Mapping(window: Window, maxRuns: int)

  type Mappings = map<string, Mapping>

  type Tracker = map<string, seq<int>>

  function WindowOf(ms: Mappings, c: string): Option<int> {
    if c !in ms || ms[c].window.Unset? then Some(DEFAULT_WINDOW)
    else if ms[c].window.Unreadable? then None
    else Some(ms[c].window.s)
  }

  function MaxRuns(m: Mapping): int {
    if m.maxRuns == 0 then DEFAULT_MAX_RUNS else m.maxRuns
  }

  /**
   * The policy of a condition: a window of w seconds, 300 minutes unless it is set, and at most m runs in
   * it, three unless another number is set.
   */
  predicate Policy(ms: Mappings, c: string, w: int, m: int) {
    && c in ms && !ms[c].window.Unreadable?
    && w == (if ms[c].window.Unset? then 18000 else ms[c].window.s)
    && m == (if ms[c].maxRuns == 0 then 3 else ms[c].maxRuns)
  }

  /** The limiter goes by the policy; for attempts of a condition without mapping the window is 300 minutes. */
  lemma PolicyIsUsed(ms: Mappings, c: string, w: int, m: int)
    ensures Policy(ms, c, w, m) <==> c in ms && WindowOf(ms, c) == Some(w) && MaxRuns(ms[c]) == m
    ensures c !in ms ==> WindowOf(ms, c) == Some(18000)
  {
  }

  predicate Readable(attempts: seq<Attempt>) {
    forall i :: 0 <= i < |attempts| ==> attempts[i].start.Some?
  }

  function Starts(attempts: seq<Attempt>): seq<int>
    requires Readable(attempts)
  {
    seq(|attempts|, i requires 0 <= i < |attempts| => attempts[i].start.value)
  }

  function ListOf(rec: Record, n: string, c: string): seq<Attempt> {
    if n in rec && c in rec[n] then rec[n][c] else []
  }

  predicate AllReadable(rec: Record) {
    forall n, c :: n in rec && c in rec[n] ==> Readable(rec[n][c])
  }

  // ----- tracker keys -----

  function Key(n: string, c: string): string {
    n + "-" + c
  }

  predicate NodeChar(c: char) {
    'a' <= c <= 'z' || '0' <= c <= '9' || c == '-' || c == '.'
  }

  /** Text that may stand inside the name of a node. */
  predicate NodePart(x: string) {
    forall i :: 0 <= i < |x| ==> NodeChar(x[i])
  }

  predicate NodeName(n: string) {
    n != "" && NodePart(n)
  }

  /** a is text that may stand inside a node name, then a dash, then b. */
  predicate Shares(a: string, b: string) {
    && |a| > |b| && a[|a| - |b| - 1] == '-' && a[|a| - |b|..] == b
    && NodePart(a[..|a| - |b| - 1])
  }

  lemma KeyOfNode(n1: string, n2: string, c: string)
    requires Key(n1, c) == Key(n2, c)
    ensures n1 == n2
  {
    assert Key(n1, c)[..|n1|] == n1 && Key(n2, c)[..|n2|] == n2;
    assert |Key(n1, c)| == |n1| + 1 + |c| && |Key(n2, c)| == |n2| + 1 + |c|;
  }

  lemma LongerCondition(n1: string, c1: string, n2: string, c2: string)
    requires Key(n1, c1) == Key(n2, c2) && |c1| >= |c2| && NodeName(n2)
    ensures c1 == c2 || Shares(c1, c2)
  {
    var k := Key(n1, c1);
    assert |k| == |n1| + 1 + |c1| == |n2| + 1 + |c2|;
    assert c1 == k[|n1| + 1..] && c2 == k[|n2| + 1..];
    if |c1| > |c2| {
      var d := |c1| - |c2| - 1;
      assert c1[d + 1..] == c2;
      assert c1[d] == k[|n2|] == '-';
      forall i | 0 <= i < d ensures NodeChar(c1[..d][i]) {
        assert c1[..d][i] == k[|n1| + 1 + i] == n2[|n1| + 1 + i];
      }
    }
  }

  /**
   * Different conditions of different nodes can get the same tracker key, exactly when one of the
   * conditions is a piece of a node name, a dash and the other condition.
   */
  lemma KeysCollideExactly(c1: string, c2: string)
    requires c1 != c2
    ensures (exists n1, n2 :: NodeName(n1) && NodeName(n2) && Key(n1, c1) == Key(n2, c2))
            <==> Shares(c1, c2) || Shares(c2, c1)
  {
    if n1, n2 :| NodeName(n1) && NodeName(n2) && Key(n1, c1) == Key(n2, c2) {
      if |c1| >= |c2| {
        LongerCondition(n1, c1, n2, c2);
      } else {
        LongerCondition(n2, c2, n1, c1);
      }
    }
    if Shares(c1, c2) {
      var n1, n2 := SplitKey(c1, c2);
    }
    if Shares(c2, c1) {
      var n2, n1 := SplitKey(c2, c1);
    }
  }

  lemma SplitKey(a: string, b: string) returns (n: string, m: string)
    requires Shares(a, b)
    ensures NodeName(n) && NodeName(m) && Key(n, a) == Key(m, b)
  {
    var x := a[..|a| - |b| - 1];
    n, m := "n", "n" + "-" + x;
    assert a == x + "-" + b;
    assert "n" + "-" + (x + "-" + b) == "n" + "-" + x + "-" + b;
    forall i | 0 <= i < |m| ensures NodeChar(m[i]) {
      assert i >= 2 ==> m[i] == x[i - 2];
    }
  }

  /** Condition names that keep all tracker keys apart, for any nodes. */
  predicate CollisionFree(conditions: set<string>) {
    forall a, b :: a in conditions && b in conditions ==> !Shares(a, b)
  }

  /** Names without dashes are enough. */
  lemma NoDashesNoCollision(conditions: set<string>)
    requires forall c :: c in conditions ==> '-' !in c
    ensures CollisionFree(conditions)
  {
  }

  lemma KeyDecides(conditions: set<string>, n1: string, c1: string, n2: string, c2: string)
    requires CollisionFree(conditions) && c1 in conditions && c2 in conditions && NodeName(n1) && NodeName(n2)
    requires Key(n1, c1) == Key(n2, c2)
    ensures n1 == n2 && c1 == c2
  {
    if |c1| >= |c2| {
      LongerCondition(n1, c1, n2, c2);
    } else {
      LongerCondition(n2, c2, n1, c1);
    }
    KeyOfNode(n1, n2, c1);
  }

  // ----- what the operations compute -----

  function FilterAttempts(attempts: seq<Attempt>, cut: int): (r: seq<Attempt>)
    requires Readable(attempts)
    ensures Readable(r)
  {
    if attempts == [] then []
    else
      var k := |attempts| - 1;
      FilterAttempts(attempts[..k], cut) + if attempts[k].start.value > cut then [attempts[k]] else []
  }

  /** The conditions of one node without attempts up to the cut, and without empty lists. */
  function CleanedNode(conditions: map<string, seq<Attempt>>, cut: int): map<string, seq<Attempt>>
    requires forall c :: c in conditions ==> Readable(conditions[c])
  {
    map c | c in conditions && FilterAttempts(conditions[c], cut) != [] :: FilterAttempts(conditions[c], cut)
  }

  function Cleaned(rec: Record, cut: int): Record
    requires AllReadable(rec)
  {
    map n | n in rec && CleanedNode(rec[n], cut) != map[] :: CleanedNode(rec[n], cut)
  }

  /** The clock reading when the i-th attempt of a node and condition is examined. */
  type Clock = (string, string, nat) -> int

  function SyncedList(rec: Record, n: string, c: string, w: int, clock: Clock): seq<int>
    requires n in rec && c in rec[n] && Readable(rec[n][c])
  {
    KeepRecent(Starts(rec[n][c]), w, (i: nat) => clock(n, c, i))
  }

  /**
   * A tracker that a sync of the record can produce: it has exactly the keys of the record, and
   * under each key the list of some entry with that key (entries that share a key overwrite each
   * other in no particular order).
   */
  ghost predicate Synced(t: Tracker, rec: Record, ms: Mappings, clock: Clock)
    requires AllReadable(rec)
  {
    && (forall n, c {:trigger Key(n, c)} :: n in rec && c in rec[n] ==> Key(n, c) in t)
    && (forall k :: k in t ==> exists n, c ::
          && n in rec && c in rec[n] && Key(n, c) == k
          && WindowOf(ms, c).Some? && t[k] == SyncedList(rec, n, c, WindowOf(ms, c).value, clock))
  }

  predicate WindowsReadable(rec: Record, ms: Mappings) {
    forall n, c :: n in rec && c in rec[n] ==> WindowOf(ms, c).Some?
  }

  function TrackedOf(t: Tracker, n: string, c: string): seq<int> {
    if Key(n, c) in t then t[Key(n, c)] else []
  }

  function Dropped(t: Tracker, n: string, c: string, cut: int): Tracker {
    t[Key(n, c) := DropPrefix(TrackedOf(t, n, c), cut)]
  }

  function Noted(t: Tracker, n: string, c: string, at: int): Tracker {
    t[Key(n, c) := TrackedOf(t, n, c) + [at]]
  }

  function Registered(rec: Record, n: string, c: string, a: Attempt): Record {
    var conditions := if n in rec then rec[n] else map[];
    rec[n := conditions[c := (if c in conditions then conditions[c] else []) + [a]]]
  }

  predicate Violated(t: Tracker, n: string, c: string, m: Mapping) {
    |TrackedOf(t, n, c)| >= MaxRuns(m)
  }

  // ----- the cleanup of the record -----

  lemma {:induction false} FilterIsAfter(attempts: seq<Attempt>, cut: int)
    requires Readable(attempts)
    ensures Starts(FilterAttempts(attempts, cut)) == After(Starts(attempts), cut)
  {
    if attempts != [] {
      var k := |attempts| - 1;
      FilterIsAfter(attempts[..k], cut);
      assert Starts(attempts)[..k] == Starts(attempts[..k]);
      var rest := FilterAttempts(attempts[..k], cut);
      assert Starts(rest + [attempts[k]]) == Starts(rest) + [attempts[k].start.value];
    }
  }

  /**
   * The cleanup drops exactly the attempts that are 72 hours old or older, and leaves behind
   * neither an empty list nor a node without conditions.
   */
  lemma CleanedContents(rec: Record, cut: int, n: string, c: string)
    requires AllReadable(rec)
    ensures AllReadable(Cleaned(rec, cut))
    ensures Readable(ListOf(rec, n, c)) && Readable(ListOf(Cleaned(rec, cut), n, c))
    ensures Starts(ListOf(Cleaned(rec, cut), n, c)) == After(Starts(ListOf(rec, n, c)), cut)
    ensures n in Cleaned(rec, cut) ==> n in rec && Cleaned(rec, cut)[n] != map[]
    ensures n in Cleaned(rec, cut) && c in Cleaned(rec, cut)[n] ==> c in rec[n] && Cleaned(rec, cut)[n][c] != []
  {
    FilterIsAfter(ListOf(rec, n, c), cut);
    if n in rec && c in rec[n] && FilterAttempts(rec[n][c], cut) != [] {
      assert c in CleanedNode(rec[n], cut);
    }
  }

  function AtLeast(s: seq<int>, low: int): seq<int> {
    After(s, low - 1)
  }

  /** Forgetting times up to `cut` never changes which times from `low` on are seen. */
  ghost predicate Invisible(cut: int, low: int) {
    forall l: seq<int> :: AtLeast(After(l, cut), low) == AtLeast(l, low)
  }

  /**
   * A cleanup at time d before a sync at time s cannot be noticed in any attempt list exactly
   * when the sync's window starts after the cleanup's: in particular for every window shorter
   * than 72 hours.
   */
  lemma CleanupInvisibleExactly(d: int, s: int, w: int)
    ensures Invisible(d - CLEANUP_WINDOW, s - w) <==> s - w > d - CLEANUP_WINDOW
    ensures d <= s && w < CLEANUP_WINDOW ==> s - w > d - CLEANUP_WINDOW
  {
    var cut := d - CLEANUP_WINDOW;
    if s - w > cut {
      forall l: seq<int> ensures AtLeast(After(l, cut), s - w) == AtLeast(l, s - w) {
        AfterTwice(l, cut, s - w - 1);
      }
    } else {
      var l := [s - w];
      assert l[..0] == [];
      assert After(l, cut) == [] && AtLeast(l, s - w) == l;
      assert AtLeast(After(l, cut), s - w) != AtLeast(l, s - w);
    }
  }

  /**
   * Cleanup then sync tracks the same times as sync alone, provided each attempt is examined at the
   * same moment in both, not before the cleanup, and the window is shorter than 72 hours.
   */
  lemma SyncIgnoresCleanup(rec: Record, n: string, c: string, d: int, w: int, clock: nat -> int, clock': nat -> int)
    requires AllReadable(rec) && w < CLEANUP_WINDOW
    requires forall i :: d <= clock(i)
    requires Readable(ListOf(rec, n, c)) ==>
               var kept := Positions(Starts(ListOf(rec, n, c)), d - CLEANUP_WINDOW);
               forall j :: 0 <= j < |kept| ==> clock'(j) == clock(kept[j])
    ensures Readable(ListOf(rec, n, c)) && Readable(ListOf(Cleaned(rec, d - CLEANUP_WINDOW), n, c))
    ensures KeepRecent(Starts(ListOf(Cleaned(rec, d - CLEANUP_WINDOW), n, c)), w, clock') ==
            KeepRecent(Starts(ListOf(rec, n, c)), w, clock)
  {
    CleanedContents(rec, d - CLEANUP_WINDOW, n, c);
    KeepRecentSkips(Starts(ListOf(rec, n, c)), d - CLEANUP_WINDOW, w, clock, clock');
  }

  // ----- what a sync shows -----

  ghost predicate NodesNamed(rec: Record) {
    forall n :: n in rec ==> NodeName(n)
  }

  /** A record of nodes as the cleanup leaves it, about these conditions. */
  ghost predicate Tidy(rec: Record, conditions: set<string>) {
    && AllReadable(rec) && NodesNamed(rec)
    && (forall n, c :: n in rec && c in rec[n] ==> c in conditions && rec[n][c] != [])
  }

  /** The tracker shows the recent attempts of this very node and condition. */
  ghost predicate ShowsOwn(t: Tracker, rec: Record, ms: Mappings, clock: Clock, n: string, c: string) {
    && Readable(ListOf(rec, n, c)) && WindowOf(ms, c).Some?
    && TrackedOf(t, n, c) == KeepRecent(Starts(ListOf(rec, n, c)), WindowOf(ms, c).value, (i: nat) => clock(n, c, i))
  }

  /** A sync finds for each pair of the record its own list, because no two pairs share a key. */
  lemma SyncedLookup(conditions: set<string>, rec: Record, t: Tracker, ms: Mappings, clock: Clock, n: string, c: string)
    requires CollisionFree(conditions) && AllReadable(rec) && NodesNamed(rec) && WindowOf(ms, c).Some? && NodeName(n)
    requires forall m, d :: m in rec && d in rec[m] ==> d in conditions
    requires Synced(t, rec, ms, clock) && c in conditions
    ensures ShowsOwn(t, rec, ms, clock, n, c)
  {
    var k := Key(n, c);
    if k in t {
      var m, d :| && m in rec && d in rec[m] && Key(m, d) == k
                  && WindowOf(ms, d).Some? && t[k] == SyncedList(rec, m, d, WindowOf(ms, d).value, clock);
      KeyDecides(conditions, m, d, n, c);
    }
  }

  /** A clock that shows 0 all the time. */
  const STOPPED: Clock := (m, d, i) => 0

  /** Two attempts of one pair, one of the other, and a sync that keeps the list of the other. */
  lemma CollisionHides(a: string, b: string) returns (rec: Record, t: Tracker, n: string)
    requires Shares(a, b)
    ensures NodeName(n) && Tidy(rec, {a, b}) && |ListOf(rec, n, a)| == 2
    ensures forall i :: 0 <= i < 2 ==> ListOf(rec, n, a)[i].start == Some(0)
    ensures Synced(t, rec, map[], STOPPED) && |TrackedOf(t, n, a)| == 1
  {
    var m;
    n, m := SplitKey(a, b);
    KeyOf(n, m, a, b);
    rec, t := SharedKey(n, a, m, b);
  }

  lemma SharedKey(n: string, a: string, m: string, b: string) returns (rec: Record, t: Tracker)
    requires n != m && Key(n, a) == Key(m, b) && NodeName(n) && NodeName(m)
    ensures Tidy(rec, {a, b}) && |ListOf(rec, n, a)| == 2
    ensures forall i :: 0 <= i < 2 ==> ListOf(rec, n, a)[i].start == Some(0)
    ensures Synced(t, rec, map[], STOPPED) && |TrackedOf(t, n, a)| == 1
  {
    var now := Attempt("w", Some(0));
    rec := map[n := map[a := [now, now]], m := map[b := [now]]];
    t := map[Key(n, a) := [0]];
    OneRecent(rec, m, b, [now]);
    assert m in rec && b in rec[m] && Key(m, b) == Key(n, a);
    forall x, d | x in rec && d in rec[x] ensures Key(x, d) in t {
      assert (x == n && d == a) || (x == m && d == b);
    }
  }

  lemma OneRecent(rec: Record, m: string, b: string, list: seq<Attempt>)
    requires m in rec && b in rec[m] && rec[m][b] == list && |list| == 1 && list[0].start == Some(0)
    ensures SyncedList(rec, m, b, DEFAULT_WINDOW, STOPPED) == [0]
  {
    assert Starts(list) == [0] && [0][..0] == [];
  }

  lemma KeyOf(n: string, m: string, a: string, b: string)
    requires Key(n, a) == Key(m, b) && a != b
    ensures n != m
  {
    assert Key(n, a)[|n| + 1..] == a && Key(m, b)[|m| + 1..] == b;
  }

  ghost predicate SyncFaithful(conditions: set<string>) {
    forall rec, t, ms, clock, n, c {:trigger Synced(t, rec, ms, clock), TrackedOf(t, n, c)} ::
      Tidy(rec, conditions) && NodeName(n) && c in conditions && WindowOf(ms, c).Some? && Synced(t, rec, ms, clock) ==>
        ShowsOwn(t, rec, ms, clock, n, c)
  }

  /**
   * Every sync of every record the cleanup can leave behind shows each node and condition its own
   * recent attempts if and only if no condition is a piece of a node name, a dash and another one.
   */
  lemma SyncFaithfulExactly(conditions: set<string>)
    ensures SyncFaithful(conditions) <==> CollisionFree(conditions)
  {
    if CollisionFree(conditions) {
      forall rec, t, ms, clock, n, c |
        Tidy(rec, conditions) && NodeName(n) && c in conditions && WindowOf(ms, c).Some? && Synced(t, rec, ms, clock)
        ensures ShowsOwn(t, rec, ms, clock, n, c)
      {
        SyncedLookup(conditions, rec, t, ms, clock, n, c);
      }
    } else {
      var a, b :| a in conditions && b in conditions && Shares(a, b);
      CollisionIsUnfaithful(conditions, a, b);
    }
  }

  lemma CollisionIsUnfaithful(conditions: set<string>, a: string, b: string)
    requires a in conditions && b in conditions && Shares(a, b)
    ensures !SyncFaithful(conditions)
  {
    var rec, t, n := CollisionHides(a, b);
    var ms: Mappings := map[];
    HiddenNotOwn(rec, t, n, a, ms);
    TidyWider(rec, {a, b}, conditions);
    assert Synced(t, rec, ms, STOPPED) && |TrackedOf(t, n, a)| == 1 && WindowOf(ms, a).Some?;
  }

  lemma TidyWider(rec: Record, conditions: set<string>, more: set<string>)
    requires Tidy(rec, conditions) && conditions <= more
    ensures Tidy(rec, more)
  {
  }

  lemma HiddenNotOwn(rec: Record, t: Tracker, n: string, a: string, ms: Mappings)
    requires Readable(ListOf(rec, n, a)) && |ListOf(rec, n, a)| == 2 && |TrackedOf(t, n, a)| == 1
    requires ms == map[] && forall i :: 0 <= i < 2 ==> ListOf(rec, n, a)[i].start == Some(0)
    ensures !ShowsOwn(t, rec, ms, STOPPED, n, a)
  {
    var l := Starts(ListOf(rec, n, a));
    assert l == [0, 0] && l[..1] == [0] && [0][..0] == [];
    var reading := (i: nat) => STOPPED(n, a, i);
    assert KeepRecent([0], DEFAULT_WINDOW, reading) == [0];
    assert KeepRecent(l, DEFAULT_WINDOW, reading) == [0, 0];
  }
}
