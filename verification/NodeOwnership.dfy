/**
 * Ownership of nodes by DeviceConfigs: an in-memory map from nodes to owners that is consulted at
 * the start of a reconcile, extended at its end, and rebuilt from persisted status after a restart.
 */
module NodeOwnership {
  import opened Common

  /** Node name to the DeviceConfig (namespace and name) that owns it. */
  type Owners = map<string, string>

  /** Persisted status of a DeviceConfig: its Ready condition and the nodes in NodeModuleStatus. */
  datatype Stored = Stored(ready: bool, nodes: set<string>)

  type Configs = map<string, Stored>

  /** No node is owned by somebody else. */
  predicate Unclaimed(o: Owners, name: string, nodes: set<string>) {
    forall n :: n in nodes && n in o ==> o[n] == name
  }

  function Claim(o: Owners, name: string, nodes: set<string>): Owners {
    o + map n | n in nodes :: name
  }

  function Release(o: Owners, name: string): Owners {
    map n | n in o && o[n] != name :: o[n]
  }

  /** Rebuilds the map from the first k DeviceConfigs of a listing, skipping those in conflict. */
  function Rebuild(o: Owners, list: seq<string>, configs: Configs, k: nat): Owners
    requires k <= |list| && forall i :: 0 <= i < |list| ==> list[i] in configs
  {
    if k == 0 then o
    else
      var before := Rebuild(o, list, configs, k - 1);
      var c := configs[list[k - 1]];
      if c.ready && Unclaimed(before, list[k - 1], c.nodes) then Claim(before, list[k - 1], c.nodes) else before
  }

  // ----- the greedy rebuild -----

  /** A Ready DeviceConfig of the listing that shares no node with an earlier accepted one. */
  predicate Accepted(list: seq<string>, configs: Configs, j: nat)
    requires j < |list| && forall i :: 0 <= i < |list| ==> list[i] in configs
    decreases j
  {
    && configs[list[j]].ready
    && forall i: nat :: i < j && Accepted(list, configs, i) ==> configs[list[i]].nodes !! configs[list[j]].nodes
  }

  /** The map after k DeviceConfigs of the listing, said without the order of the steps. */
  ghost predicate OwnedByAccepted(o: Owners, list: seq<string>, configs: Configs, k: nat)
    requires k <= |list| && forall i :: 0 <= i < |list| ==> list[i] in configs
  {
    && (forall j: nat, n :: j < k && Accepted(list, configs, j) && n in configs[list[j]].nodes ==>
          n in o && o[n] == list[j])
    && (forall n :: n in o ==> exists j: nat :: j < k && Accepted(list, configs, j) && n in configs[list[j]].nodes)
  }

  /**
   * Greedy all-or-nothing rebuild: from an empty map and distinct names, a Ready DeviceConfig is
   * taken over exactly when none of its nodes belongs to an earlier one that was; those taken over
   * own all their nodes, the others own none, and nothing is overwritten.
   */
  lemma {:induction false} RebuildIsGreedy(list: seq<string>, configs: Configs, k: nat)
    requires k <= |list| && Distinct(list) && forall i :: 0 <= i < |list| ==> list[i] in configs
    ensures OwnedByAccepted(Rebuild(map[], list, configs, k), list, configs, k)
  {
    if k > 0 {
      RebuildIsGreedy(list, configs, k - 1);
      var o := Rebuild(map[], list, configs, k - 1);
      var name, c := list[k - 1], configs[list[k - 1]];
      if c.ready {
        AcceptedWhenUnclaimed(o, list, configs, k);
      }
      if c.ready && Unclaimed(o, name, c.nodes) {
        ClaimExtends(o, list, configs, k);
      } else {
        SkipExtends(o, list, configs, k);
      }
    }
  }

  lemma SkipExtends(o: Owners, list: seq<string>, configs: Configs, k: nat)
    requires 0 < k <= |list| && forall i :: 0 <= i < |list| ==> list[i] in configs
    requires OwnedByAccepted(o, list, configs, k - 1) && !Accepted(list, configs, k - 1)
    ensures OwnedByAccepted(o, list, configs, k)
  {
    forall n | n in o ensures exists j: nat :: j < k && Accepted(list, configs, j) && n in configs[list[j]].nodes {
      var j: nat :| j < k - 1 && Accepted(list, configs, j) && n in configs[list[j]].nodes;
      assert j < k;
    }
  }

  lemma ClaimExtends(o: Owners, list: seq<string>, configs: Configs, k: nat)
    requires 0 < k <= |list| && forall i :: 0 <= i < |list| ==> list[i] in configs
    requires OwnedByAccepted(o, list, configs, k - 1) && Accepted(list, configs, k - 1)
    ensures OwnedByAccepted(Claim(o, list[k - 1], configs[list[k - 1]].nodes), list, configs, k)
  {
    var o' := Claim(o, list[k - 1], configs[list[k - 1]].nodes);
    forall n | n in o' ensures exists j: nat :: j < k && Accepted(list, configs, j) && n in configs[list[j]].nodes {
      if n in configs[list[k - 1]].nodes {
        assert k - 1 < k && Accepted(list, configs, k - 1);
      } else {
        var j: nat :| j < k - 1 && Accepted(list, configs, j) && n in configs[list[j]].nodes;
        assert j < k;
      }
    }
  }

  lemma AcceptedWhenUnclaimed(o: Owners, list: seq<string>, configs: Configs, k: nat)
    requires 0 < k <= |list| && Distinct(list) && forall i :: 0 <= i < |list| ==> list[i] in configs
    requires OwnedByAccepted(o, list, configs, k - 1) && configs[list[k - 1]].ready
    ensures Unclaimed(o, list[k - 1], configs[list[k - 1]].nodes) <==> Accepted(list, configs, k - 1)
  {
    var nodes := configs[list[k - 1]].nodes;
    if Unclaimed(o, list[k - 1], nodes) {
      forall i: nat | i < k - 1 && Accepted(list, configs, i) ensures configs[list[i]].nodes !! nodes {
        forall n | n in configs[list[i]].nodes ensures n !in nodes {
          assert o[n] == list[i] != list[k - 1];
        }
      }
    }
  }

  // ----- runs -----

  /** Progress of the reconcile that is under way; the work queue runs one at a time. */
  datatype Phase =
    | Idle
    | Validated(name: string, nodes: set<string>)   // ownership checked, status not yet stored
    | Patched(name: string, nodes: set<string>)     // status stored, map not yet updated

  /**
   * `unsettled` holds the DeviceConfigs whose latest status was stored although the API server reported
   * an error, and `deleted` those that were deleted while the process runs and whose deletion has not been
   * reconciled; the operator itself does not know of them.
   */
  datatype Cluster = Cluster(
    configs: Configs, owners: Owners, started: bool, phase: Phase, unsettled: set<string>, deleted: set<string>)

  datatype Action =
    | Create(name: string)
    | Delete(name: string)
    | Init(list: seq<string>)                           // first reconcile after a start
    | Gone(name: string)                                // reconcile of a deleted DeviceConfig
    | Select(name: string, nodes: set<string>)          // the ownership check succeeds
    | Reject(name: string, stored: bool)                // a check fails; Ready := False may be stored
    | Fail(stored: bool)                                // the reconcile stops with an error
    | Patch                                             // Ready := True and the node list are stored
    | Unreported                                        // the same, but reported as an error
    | Assign
    | Restart                                           // at any point

  ghost predicate Lists(list: seq<string>, configs: Configs) {
    Distinct(list) && (forall i :: 0 <= i < |list| ==> list[i] in configs) && (forall c :: c in configs ==> c in list)
  }

  ghost predicate Possible(s: Cluster, a: Action) {
    match a
    case Create(name) => name !in s.configs
    case Delete(name) => name in s.configs
    case Init(list) => !s.started && Lists(list, s.configs)
    case Gone(name) => s.started && s.phase.Idle? && name !in s.configs
    case Select(name, nodes) => s.started && s.phase.Idle? && name in s.configs && Unclaimed(s.owners, name, nodes)
    case Reject(name, _) => s.started && s.phase.Idle? && name in s.configs
    case Fail(_) => s.phase.Validated?
    case Patch | Unreported => s.phase.Validated? && s.phase.name in s.configs
    case Assign => s.phase.Patched?
    case Restart => true
  }

  function Unready(configs: Configs, name: string): Configs {
    if name in configs then configs[name := configs[name].(ready := false)] else configs
  }

  ghost function After(s: Cluster, a: Action): Cluster
    requires Possible(s, a)
  {
    match a
    case Create(name) => s.(configs := s.configs[name := Stored(false, {})], deleted := s.deleted - {name})
    case Delete(name) =>
      s.(configs := s.configs - {name}, unsettled := s.unsettled - {name}, deleted := s.deleted + {name})
    case Init(list) => s.(owners := Rebuild(map[], list, s.configs, |list|), started := true)
    case Gone(name) => s.(owners := Release(s.owners, name), deleted := s.deleted - {name})
    case Select(name, nodes) => s.(phase := Validated(name, nodes))
    case Reject(name, stored) => s.(configs := if stored then Unready(s.configs, name) else s.configs)
    case Fail(stored) => s.(configs := if stored then Unready(s.configs, s.phase.name) else s.configs, phase := Idle)
    case Patch =>
      s.(configs := s.configs[s.phase.name := Stored(true, s.phase.nodes)],
         phase := Patched(s.phase.name, s.phase.nodes))
    case Unreported =>
      s.(configs := s.configs[s.phase.name := Stored(true, s.phase.nodes)], phase := Idle,
         unsettled := s.unsettled + {s.phase.name})
    case Assign =>
      s.(owners := Claim(s.owners, s.phase.name, s.phase.nodes), phase := Idle,
         unsettled := s.unsettled - {s.phase.name})
    case Restart => Cluster(s.configs, map[], false, Idle, {}, {})
  }

  ghost predicate Run(s: Cluster, actions: seq<Action>)
    decreases |actions|
  {
    actions == [] || (Possible(s, actions[0]) && Run(After(s, actions[0]), actions[1..]))
  }

  ghost function Final(s: Cluster, actions: seq<Action>): Cluster
    requires Run(s, actions)
    decreases |actions|
  {
    if actions == [] then s else Final(After(s, actions[0]), actions[1..])
  }

  /** None of the nodes is in the status of an unsettled DeviceConfig other than this one. */
  ghost predicate Undisputed(s: Cluster, name: string, nodes: set<string>) {
    forall c :: c in s.unsettled && c != name && c in s.configs && s.configs[c].ready ==> s.configs[c].nodes !! nodes
  }

  /**
   * After a status was stored but reported as an error, that DeviceConfig is reconciled again, or
   * deleted, or the operator restarts, before another DeviceConfig that selects one of its nodes.
   */
  ghost predicate Premise(s: Cluster, a: Action) {
    a.Select? ==> Undisputed(s, a.name, a.nodes)
  }

  ghost predicate Obeys(s: Cluster, actions: seq<Action>)
    requires Run(s, actions)
    decreases |actions|
  {
    actions == [] || (Premise(s, actions[0]) && Obeys(After(s, actions[0]), actions[1..]))
  }

  /** No node is in the status of two Ready DeviceConfigs. */
  ghost predicate Exclusive(configs: Configs) {
    forall c, d :: c in configs && d in configs && c != d && configs[c].ready && configs[d].ready ==>
      configs[c].nodes !! configs[d].nodes
  }

  /** Memory knows the owner of every node of a settled Ready DeviceConfig, except while Assign is pending. */
  ghost predicate Known(s: Cluster) {
    forall c, n :: c in s.configs && c !in s.unsettled && s.configs[c].ready && n in s.configs[c].nodes ==>
      (n in s.owners && s.owners[n] == c) || (s.phase.Patched? && s.phase.name == c && n in s.phase.nodes)
  }

  /** What all runs keep: the nodes of a reconcile that passed its check belong to nobody else. */
  ghost predicate Guarded(s: Cluster) {
    && (!s.started ==> s.phase.Idle? && s.owners == map[] && s.unsettled == {})
    && (!s.phase.Idle? ==> Unclaimed(s.owners, s.phase.name, s.phase.nodes))
  }

  ghost predicate Inv(s: Cluster) {
    && Exclusive(s.configs)
    && Guarded(s)
    && (s.started ==> Known(s))
    && (!s.phase.Idle? ==> Undisputed(s, s.phase.name, s.phase.nodes))
    && (s.phase.Patched? && s.phase.name in s.configs && s.configs[s.phase.name].ready ==>
          s.configs[s.phase.name].nodes <= s.phase.nodes)
  }

  /** When no two Ready DeviceConfigs share a node, the rebuild accepts them all. */
  lemma AllAccepted(list: seq<string>, configs: Configs, j: nat)
    requires Exclusive(configs) && Lists(list, configs) && j < |list|
    ensures Accepted(list, configs, j) <==> configs[list[j]].ready
  {
  }

  lemma RebuildIsComplete(list: seq<string>, configs: Configs, o: Owners)
    requires Exclusive(configs) && Lists(list, configs) && o == Rebuild(map[], list, configs, |list|)
    ensures forall c, n :: c in configs && configs[c].ready && n in configs[c].nodes ==> n in o && o[n] == c
  {
    RebuildIsGreedy(list, configs, |list|);
    forall c, n | c in configs && configs[c].ready && n in configs[c].nodes ensures n in o && o[n] == c {
      var j: nat :| j < |list| && list[j] == c;
      AllAccepted(list, configs, j);
    }
  }

  lemma AssignKeepsInv(s: Cluster)
    requires Inv(s) && s.phase.Patched?
    ensures Inv(After(s, Assign))
  {
    var t := After(s, Assign);
    forall c, n | c in t.configs && c !in t.unsettled && t.configs[c].ready && n in t.configs[c].nodes
      ensures n in t.owners && t.owners[n] == c
    {
      if n !in s.phase.nodes {
        assert c != s.phase.name;
        assert n in s.owners && s.owners[n] == c;
      }
    }
  }

  lemma StepKeepsInv(s: Cluster, a: Action)
    requires Inv(s) && Possible(s, a) && Premise(s, a)
    ensures Inv(After(s, a))
  {
    match a
    case Init(list) =>
      var o := After(s, a).owners;
      RebuildIsComplete(list, s.configs, o);
    case Assign => AssignKeepsInv(s);
    case _ =>
  }

  lemma {:induction false} RunKeepsInv(s: Cluster, actions: seq<Action>)
    requires Inv(s) && Run(s, actions) && Obeys(s, actions)
    ensures Inv(Final(s, actions))
    decreases |actions|
  {
    if actions != [] {
      StepKeepsInv(s, actions[0]);
      RunKeepsInv(After(s, actions[0]), actions[1..]);
    }
  }

  /** A new cluster without DeviceConfigs, before the first reconcile. */
  const EMPTY := Cluster(map[], map[], false, Idle, {}, {})

  /**
   * Ownership with crashes: in every run of sequential reconciles, creations, deletions and
   * restarts at any point, in which stored statuses reported as errors are settled first, no node
   * is in the status of two Ready DeviceConfigs; and whenever the operator restarts, the rebuild of
   * its map from any listing meets no conflict and gives every node of a Ready DeviceConfig back to
   * its owner.
   */
  lemma OwnershipSurvivesCrashes(actions: seq<Action>, list: seq<string>)
    requires Run(EMPTY, actions) && Obeys(EMPTY, actions) && Lists(list, Final(EMPTY, actions).configs)
    ensures var s := Final(EMPTY, actions);
            && Exclusive(s.configs)
            && (forall j: nat :: j < |list| && s.configs[list[j]].ready ==> Accepted(list, s.configs, j))
            && var o := Rebuild(map[], list, s.configs, |list|);
               forall c, n :: c in s.configs && s.configs[c].ready && n in s.configs[c].nodes ==> n in o && o[n] == c
  {
    RunKeepsInv(EMPTY, actions);
    var s := Final(EMPTY, actions);
    RebuildIsComplete(list, s.configs, Rebuild(map[], list, s.configs, |list|));
    forall j: nat | j < |list| && s.configs[list[j]].ready ensures Accepted(list, s.configs, j) {
      AllAccepted(list, s.configs, j);
    }
  }

  /**
   * The premise is exact: once the ownership check of a reconcile has succeeded, storing its status
   * puts a node into two Ready DeviceConfigs if and only if the premise is left.
   */
  lemma PremiseIsExact(first: seq<Action>, name: string, nodes: set<string>)
    requires Run(EMPTY, first) && Obeys(EMPTY, first) && Possible(Final(EMPTY, first), Select(name, nodes))
    ensures var s := Final(EMPTY, first);
            Exclusive(After(After(s, Select(name, nodes)), Patch).configs) <==> Premise(s, Select(name, nodes))
  {
    RunKeepsInv(EMPTY, first);
    SelectIsExact(Final(EMPTY, first), name, nodes);
  }

  lemma SelectIsExact(s: Cluster, name: string, nodes: set<string>)
    requires Inv(s) && Possible(s, Select(name, nodes))
    ensures Exclusive(After(After(s, Select(name, nodes)), Patch).configs) <==> Undisputed(s, name, nodes)
  {
    var t := After(After(s, Select(name, nodes)), Patch);
    if Undisputed(s, name, nodes) {
      StepKeepsInv(s, Select(name, nodes));
      StepKeepsInv(After(s, Select(name, nodes)), Patch);
    } else {
      var c :| c in s.unsettled && c != name && c in s.configs && s.configs[c].ready && !(s.configs[c].nodes !! nodes);
      assert t.configs[c] == s.configs[c] && t.configs[name] == Stored(true, nodes);
    }
  }

  /** A status stored but reported as an error lets a second DeviceConfig take the node. */
  lemma UnreportedStatusBreaksOwnership(a: string, b: string, n: string) returns (actions: seq<Action>)
    requires a != b
    ensures Run(EMPTY, actions) && !Exclusive(Final(EMPTY, actions).configs)
  {
    var s := Both(a, b);
    var nodes := {n};
    var rest := [Select(a, nodes), Unreported, Select(b, nodes), Patch];
    actions := [Create(a), Create(b), Init([a, b])] + rest;
    var s1 := After(s, Select(a, nodes));
    var s2 := After(s1, Unreported);
    var s3 := After(s2, Select(b, nodes));
    var s4 := After(s3, Patch);
    RunCons(s4, [], s3, Patch);
    RunCons(s3, [Patch], s2, Select(b, nodes));
    RunCons(s2, [Select(b, nodes), Patch], s1, Unreported);
    RunCons(s1, [Unreported, Select(b, nodes), Patch], s, Select(a, nodes));
    assert rest == [Select(a, nodes)] + [Unreported, Select(b, nodes), Patch];
    Starting(a, b, rest);
    assert n in s4.configs[a].nodes && n in s4.configs[b].nodes;
  }

  lemma RunCons(t: Cluster, rest: seq<Action>, s: Cluster, a: Action)
    requires Possible(s, a) && t == After(s, a) && Run(t, rest)
    ensures Run(s, [a] + rest) && Final(s, [a] + rest) == Final(t, rest)
  {
    assert ([a] + rest)[1..] == rest;
  }

  /** Two new DeviceConfigs, and the operator has started. */
  function Both(a: string, b: string): Cluster {
    Cluster(map[a := Stored(false, {}), b := Stored(false, {})], map[], true, Idle, {}, {})
  }

  lemma Starting(a: string, b: string, rest: seq<Action>)
    requires a != b && Run(Both(a, b), rest)
    ensures var actions := [Create(a), Create(b), Init([a, b])] + rest;
            Run(EMPTY, actions) && Final(EMPTY, actions) == Final(Both(a, b), rest)
  {
    var actions := [Create(a), Create(b), Init([a, b])] + rest;
    var s1 := After(EMPTY, Create(a));
    var s2 := After(s1, Create(b));
    assert Lists([a, b], s2.configs) by {
      assert [a, b][0] == a && [a, b][1] == b;
    }
    NobodyReady([a, b], s2.configs, 2);
    assert After(s2, Init([a, b])) == Both(a, b);
    RunCons(Both(a, b), rest, s2, Init([a, b]));
    RunCons(s2, [Init([a, b])] + rest, s1, Create(b));
    RunCons(s1, [Create(b)] + ([Init([a, b])] + rest), EMPTY, Create(a));
    assert actions == [Create(a)] + ([Create(b)] + ([Init([a, b])] + rest));
  }

  lemma {:induction false} NobodyReady(list: seq<string>, configs: Configs, k: nat)
    requires k <= |list| && forall i :: 0 <= i < |list| ==> list[i] in configs && !configs[list[i]].ready
    ensures Rebuild(map[], list, configs, k) == map[]
  {
    if k > 0 {
      NobodyReady(list, configs, k - 1);
    }
  }

  /** An action after which the owner's claim may be gone: a restart, or the owner is found deleted. */
  predicate Disowns(a: Action, owner: string) {
    a.Restart? || (a.Gone? && a.name == owner)
  }

  lemma StepStaysGuarded(s: Cluster, a: Action)
    requires Guarded(s) && Possible(s, a)
    ensures Guarded(After(s, a))
  {
  }

  lemma {:induction false} RunStaysGuarded(s: Cluster, actions: seq<Action>)
    requires Guarded(s) && Run(s, actions)
    ensures Guarded(Final(s, actions))
    decreases |actions|
  {
    if actions != [] {
      StepStaysGuarded(s, actions[0]);
      RunStaysGuarded(After(s, actions[0]), actions[1..]);
    }
  }

  lemma StepKeepsOwner(s: Cluster, a: Action, n: string)
    requires Guarded(s) && Possible(s, a) && n in s.owners && !Disowns(a, s.owners[n])
    ensures n in After(s, a).owners && After(s, a).owners[n] == s.owners[n]
  {
  }

  /** No node changes owner while its owner exists and the process runs, in any run at all. */
  lemma {:induction false} OwnerIsStable(first: seq<Action>, second: seq<Action>, n: string)
    requires Run(EMPTY, first) && Run(Final(EMPTY, first), second)
    requires n in Final(EMPTY, first).owners
    requires forall i :: 0 <= i < |second| ==> !Disowns(second[i], Final(EMPTY, first).owners[n])
    ensures var t := Final(Final(EMPTY, first), second); n in t.owners && t.owners[n] == Final(EMPTY, first).owners[n]
  {
    RunStaysGuarded(EMPTY, first);
    OwnerKept(Final(EMPTY, first), second, n);
  }

  lemma {:induction false} OwnerKept(s: Cluster, actions: seq<Action>, n: string)
    requires Guarded(s) && Run(s, actions) && n in s.owners
    requires forall i :: 0 <= i < |actions| ==> !Disowns(actions[i], s.owners[n])
    ensures n in Final(s, actions).owners && Final(s, actions).owners[n] == s.owners[n]
    decreases |actions|
  {
    if actions != [] {
      StepStaysGuarded(s, actions[0]);
      StepKeepsOwner(s, actions[0], n);
      OwnerKept(After(s, actions[0]), actions[1..], n);
    }
  }

  // ----- nodes become free again -----

  /** A release takes away exactly the nodes of the owner. */
  lemma ReleaseExactly(o: Owners, name: string, n: string)
    ensures n in Release(o, name) <==> n in o && o[n] != name
    ensures n in Release(o, name) ==> Release(o, name)[n] == o[n]
  {
  }

  /** The DeviceConfig exists, or its deletion is still to be reconciled. */
  predicate Present(s: Cluster, name: string) {
    name in s.configs || name in s.deleted
  }

  ghost predicate OwnersPresent(s: Cluster) {
    && (!s.started ==> s.phase.Idle? && s.owners == map[])
    && (!s.phase.Idle? ==> Present(s, s.phase.name))
    && forall n :: n in s.owners ==> Present(s, s.owners[n])
  }

  lemma RebuiltOwnersListed(list: seq<string>, configs: Configs, n: string)
    requires Lists(list, configs) && n in Rebuild(map[], list, configs, |list|)
    ensures Rebuild(map[], list, configs, |list|)[n] in configs
  {
    RebuildIsGreedy(list, configs, |list|);
    var j: nat :| j < |list| && Accepted(list, configs, j) && n in configs[list[j]].nodes;
  }

  lemma StepKeepsPresent(s: Cluster, a: Action)
    requires OwnersPresent(s) && Possible(s, a)
    ensures OwnersPresent(After(s, a))
  {
    var t := After(s, a);
    match a
    case Init(list) =>
      forall n | n in t.owners ensures Present(t, t.owners[n]) {
        RebuiltOwnersListed(list, s.configs, n);
      }
    case Gone(name) =>
      forall n | n in t.owners ensures Present(t, t.owners[n]) {
        ReleaseExactly(s.owners, name, n);
      }
    case Assign => OwnersAssigned(s);
    case _ =>
  }

  lemma OwnersAssigned(s: Cluster)
    requires OwnersPresent(s) && s.phase.Patched?
    ensures OwnersPresent(After(s, Assign))
  {
    var t := After(s, Assign);
    forall n | n in t.owners ensures Present(t, t.owners[n]) {
      if n !in s.phase.nodes {
        assert n in s.owners && t.owners[n] == s.owners[n];
      }
    }
  }

  lemma {:induction false} RunKeepsPresent(s: Cluster, actions: seq<Action>)
    requires OwnersPresent(s) && Run(s, actions)
    ensures OwnersPresent(Final(s, actions))
    decreases |actions|
  {
    if actions != [] {
      StepKeepsPresent(s, actions[0]);
      RunKeepsPresent(After(s, actions[0]), actions[1..]);
    }
  }

  /**
   * Nodes become free again: in every run, every owner in the map exists or its deletion is still to be
   * reconciled. Once that is done, nobody of that name owns a node, and another DeviceConfig passes its
   * check exactly if all its nodes that are owned were owned by itself or by the deleted one.
   */
  lemma NodesAreFreed(actions: seq<Action>, name: string, other: string, nodes: set<string>)
    requires Run(EMPTY, actions)
    ensures var s := Final(EMPTY, actions);
            && (forall n :: n in s.owners ==> s.owners[n] in s.configs || s.owners[n] in s.deleted)
            && (Possible(s, Gone(name)) ==>
                  var t := After(s, Gone(name));
                  && (forall n :: n in t.owners ==> t.owners[n] != name)
                  && (Unclaimed(t.owners, other, nodes) <==>
                        forall n :: n in nodes && n in s.owners ==> s.owners[n] == other || s.owners[n] == name))
  {
    RunKeepsPresent(EMPTY, actions);
    var s := Final(EMPTY, actions);
    if Possible(s, Gone(name)) {
      forall n ensures n in Release(s.owners, name) <==> n in s.owners && s.owners[n] != name {
        ReleaseExactly(s.owners, name, n);
      }
    }
  }
}
