/** The part of the DeviceConfig reconciler that deals with node ownership. */
module Reconciler {
  import opened Common
  import opened NodeOwnership

  /** How the steps of one reconcile turn out. */
  datatype Outcome = Outcome(
    listOk: bool,         // the DeviceConfigs can be listed, for the first reconcile after a start
    getOk: bool,          // the API server answered, if only with "not found"
    deleting: bool,       // the DeviceConfig carries a deletion timestamp
    specOk: bool,         // the spec passes validation
    stepsOk: bool,        // all steps between validation and the status update succeed
    notReadyOk: bool,     // storing Ready := False succeeds
    patchOk: bool,        // storing the new status is reported as a success
    patchStored: bool)    // if it is not: the status was stored nevertheless

  function Members(nodes: seq<string>): set<string> {
    set i | 0 <= i < |nodes| :: nodes[i]
  }

  lemma MembersAppend(nodes: seq<string>, n: string)
    ensures Members(nodes + [n]) == Members(nodes) + {n}
  {
    var longer := nodes + [n];
    assert longer[|nodes|] == n;
    forall x | x in Members(nodes) ensures x in Members(longer) {
      var i :| 0 <= i < |nodes| && nodes[i] == x;
      assert longer[i] == x;
    }
  }

  lemma {:induction false} Append(s: Cluster, first: seq<Action>, a: Action)
    requires Run(s, first) && Possible(Final(s, first), a)
    ensures Run(s, first + [a]) && Final(s, first + [a]) == After(Final(s, first), a)
    decreases |first|
  {
    if first == [] {
      assert first + [a] == [a];
      assert Run(After(s, a), []) && [a][1..] == [];
    } else {
      Append(After(s, first[0]), first[1..], a);
      assert (first + [a])[1..] == first[1..] + [a];
    }
  }

  /** No node belongs to another DeviceConfig, and the spec is valid. */
  predicate Passes(owners: Owners, name: string, nodes: seq<string>, o: Outcome) {
    Unclaimed(owners, name, Members(nodes)) && o.specOk
  }

  /** The checks pass, there are nodes, and all later steps succeed. */
  predicate Takes(owners: Owners, name: string, nodes: seq<string>, o: Outcome) {
    Passes(owners, name, nodes, o) && |nodes| > 0 && o.stepsOk && o.patchOk
  }

  /** The stored DeviceConfigs after a reconcile of an existing one. */
  function StoredAfter(configs: Configs, owners: Owners, name: string, nodes: seq<string>, o: Outcome): Configs {
    if Passes(owners, name, nodes, o) && |nodes| > 0 && o.stepsOk && (o.patchOk || o.patchStored)
    then configs[name := Stored(true, Members(nodes))]
    else if (!Passes(owners, name, nodes, o) || |nodes| == 0) && o.notReadyOk then Unready(configs, name)
    else configs
  }

  /** A selected node belongs to another DeviceConfig. */
  predicate Conflict(owners: Owners, name: string, nodes: seq<string>) {
    exists i :: 0 <= i < |nodes| && nodes[i] in owners && owners[nodes[i]] != name
  }

  /**
   * What the reconcile of an existing DeviceConfig comes to, entry by entry. After a conflict, with an
   * invalid spec or without nodes it is marked as not Ready, if that can be stored, and nothing is claimed.
   * Otherwise, if all steps succeed, it is stored as Ready with its nodes and owns each of them. Nobody
   * else is touched.
   */
  lemma AppliedExactly(configs: Configs, owners: Owners, name: string, nodes: seq<string>, o: Outcome)
    requires name in configs
    ensures var stored, refused := StoredAfter(configs, owners, name, nodes, o), Conflict(owners, name, nodes)
            || !o.specOk;
            && (Passes(owners, name, nodes, o) <==> !refused)
            && (Takes(owners, name, nodes, o) <==> !refused && nodes != [] && o.stepsOk && o.patchOk)
            && stored.Keys == configs.Keys && (forall c :: c in configs && c != name ==> stored[c] == configs[c])
            && (if refused || nodes == []
                then stored[name] == configs[name].(ready := configs[name].ready && !o.notReadyOk)
                else if o.stepsOk && (o.patchOk || o.patchStored) then
                  stored[name].ready && forall n :: n in stored[name].nodes <==> n in nodes
                else stored[name] == configs[name])
    ensures forall n :: n in nodes ==>
              n in Claim(owners, name, Members(nodes)) && Claim(owners, name, Members(nodes))[n] == name
    ensures forall n :: n !in nodes ==>
              && (n in Claim(owners, name, Members(nodes)) <==> n in owners)
              && (n in owners ==> Claim(owners, name, Members(nodes))[n] == owners[n])
  {
    forall n ensures n in Members(nodes) <==> n in nodes {
    }
    if Conflict(owners, name, nodes) {
      var i :| 0 <= i < |nodes| && nodes[i] in owners && owners[nodes[i]] != name;
      assert nodes[i] in Members(nodes);
    }
  }

  lemma ClaimOneMore(o: Owners, name: string, nodes: set<string>, n: string)
    ensures Claim(o, name, nodes)[n := name] == Claim(o, name, nodes + {n})
  {
  }

  class DeviceConfigReconciler {
    var nodeAssignments: Owners
    var started: bool
    var initFailed: bool            // the listing failed; this is not tried again
    var configs: Configs            // what the API server stores
    ghost var unsettled: set<string>
    ghost var deleted: set<string>

    constructor (configs: Configs)
      ensures nodeAssignments == map[] && !started && !initFailed && this.configs == configs
      ensures unsettled == {} && deleted == {}
    {
      nodeAssignments, started, initFailed, this.configs, unsettled, deleted := map[], false, false, configs, {}, {};
    }

    /** The cluster between two reconciles. */
    ghost function State(): Cluster
      reads this
    {
      Cluster(configs, nodeAssignments, started, Idle, unsettled, deleted)
    }

    /** Reports the first node that belongs to another DeviceConfig. */
    method ValidateNodeAssignments(name: string, nodes: seq<string>) returns (conflict: Option<string>)
      ensures conflict.None? <==> Unclaimed(nodeAssignments, name, Members(nodes))
      ensures conflict.Some? ==> exists i ::
                && 0 <= i < |nodes| && nodes[i] == conflict.value
                && nodes[i] in nodeAssignments && nodeAssignments[nodes[i]] != name
                && Unclaimed(nodeAssignments, name, Members(nodes[..i]))
    {
      for i := 0 to |nodes|
        invariant forall j :: 0 <= j < i && nodes[j] in nodeAssignments ==> nodeAssignments[nodes[j]] == name
      {
        if nodes[i] in nodeAssignments && nodeAssignments[nodes[i]] != name {
          assert nodes[i] in Members(nodes);
          return Some(nodes[i]);
        }
      }
      return None;
    }

    /**
     * Adds the nodes to the map, or, for a deleted DeviceConfig, removes them; without a node list
     * everything the DeviceConfig owns is removed.
     */
    method UpdateNodeAssignments(name: string, nodes: Option<seq<string>>, isFinalizer: bool)
      requires isFinalizer || nodes.Some?
      modifies this`nodeAssignments
      ensures nodeAssignments == if !isFinalizer then Claim(old(nodeAssignments), name, Members(nodes.value))
                                 else if nodes.Some? then old(nodeAssignments) - Members(nodes.value)
                                 else Release(old(nodeAssignments), name)
      ensures isFinalizer && nodes.None? ==>
                && (forall n :: n in nodeAssignments <==> n in old(nodeAssignments) && old(nodeAssignments)[n] != name)
                && (forall n :: n in nodeAssignments ==> nodeAssignments[n] == old(nodeAssignments)[n])
    {
      if isFinalizer {
        if nodes.Some? {
          RemoveNodes(nodes.value);
        } else {
          ReleaseAll(name);
        }
        return;
      }
      ClaimNodes(name, nodes.value);
    }

    method ClaimNodes(name: string, nodes: seq<string>)
      modifies this`nodeAssignments
      ensures nodeAssignments == Claim(old(nodeAssignments), name, Members(nodes))
    {
      for i := 0 to |nodes|
        invariant nodeAssignments == Claim(old(nodeAssignments), name, Members(nodes[..i]))
      {
        assert nodes[..i + 1] == nodes[..i] + [nodes[i]];
        MembersAppend(nodes[..i], nodes[i]);
        ClaimOneMore(old(nodeAssignments), name, Members(nodes[..i]), nodes[i]);
        nodeAssignments := nodeAssignments[nodes[i] := name];
      }
      assert nodes[..|nodes|] == nodes;
    }

    method RemoveNodes(nodes: seq<string>)
      modifies this`nodeAssignments
      ensures nodeAssignments == old(nodeAssignments) - Members(nodes)
    {
      for i := 0 to |nodes|
        invariant nodeAssignments == old(nodeAssignments) - Members(nodes[..i])
      {
        assert nodes[..i + 1] == nodes[..i] + [nodes[i]];
        MembersAppend(nodes[..i], nodes[i]);
        nodeAssignments := nodeAssignments - {nodes[i]};
      }
      assert nodes[..|nodes|] == nodes;
    }

    method ReleaseAll(name: string)
      modifies this`nodeAssignments
      ensures nodeAssignments == Release(old(nodeAssignments), name)
    {
      var todo := nodeAssignments.Keys;
      while todo != {}
        invariant todo <= nodeAssignments.Keys
        invariant forall n :: n in nodeAssignments ==>
                    n in old(nodeAssignments) && nodeAssignments[n] == old(nodeAssignments)[n]
        invariant forall n :: n in old(nodeAssignments) && n !in todo ==>
                    (n in nodeAssignments <==> old(nodeAssignments)[n] != name)
        decreases todo
      {
        var n :| n in todo;
        if nodeAssignments[n] == name {
          nodeAssignments := nodeAssignments - {n};
        }
        todo := todo - {n};
      }
    }

    /** The nodes of a set in some order, as a map is iterated. */
    static method InSomeOrder(nodes: set<string>) returns (list: seq<string>)
      ensures Members(list) == nodes
    {
      list := [];
      var todo := nodes;
      while todo != {}
        invariant todo <= nodes && Members(list) == nodes - todo
        decreases todo
      {
        var n :| n in todo;
        MembersAppend(list, n);
        list := list + [n];
        todo := todo - {n};
      }
    }

    /** Rebuilds the map from a listing of the stored DeviceConfigs, skipping those in conflict. */
    method BuildNodeAssignments(list: seq<string>)
      requires forall i :: 0 <= i < |list| ==> list[i] in configs
      modifies this`nodeAssignments
      ensures nodeAssignments == Rebuild(old(nodeAssignments), list, configs, |list|)
    {
      for k := 0 to |list|
        invariant nodeAssignments == Rebuild(old(nodeAssignments), list, configs, k)
      {
        var c := configs[list[k]];
        if c.ready {
          var nodes := InSomeOrder(c.nodes);
          var conflict := ValidateNodeAssignments(list[k], nodes);
          if conflict.None? {
            UpdateNodeAssignments(list[k], Some(nodes), false);
          }
        }
      }
    }

    /** The first reconcile after a start sets up the map; if that failed, all later ones fail as well. */
    method EnsureStarted(list: seq<string>, listOk: bool) returns (ok: bool, ghost steps: seq<Action>)
      requires !started && !initFailed ==> Lists(list, configs) && nodeAssignments == map[]
      modifies this`nodeAssignments, this`started, this`initFailed
      ensures Run(old(State()), steps) && Final(old(State()), steps) == State()
      ensures ok == (!old(initFailed) && (old(started) || listOk))
      ensures initFailed == (old(initFailed) || (!old(started) && !listOk))
      ensures ok ==> started
      ensures nodeAssignments == if ok && !old(started) then Rebuild(map[], list, configs, |list|)
              else old(nodeAssignments)
    {
      steps := [];
      if initFailed {
        return false, [];
      }
      if !started {
        if !listOk {
          initFailed := true;
          return false, [];
        }
        ghost var s := State();
        BuildNodeAssignments(list);
        started := true;
        Append(s, [], Init(list));
        steps := [] + [Init(list)];
      }
      return true, steps;
    }

    /**
     * One reconcile, as far as ownership is concerned: it is a run of the cluster that starts and
     * ends between reconciles, whatever goes wrong on the way; and what it stores and claims.
     */
    method Reconcile(name: string, nodes: seq<string>, list: seq<string>, o: Outcome)
      returns (ok: bool, ghost steps: seq<Action>)
      requires !started && !initFailed ==> Lists(list, configs) && nodeAssignments == map[]
      modifies this
      ensures Run(old(State()), steps) && Final(old(State()), steps) == State()
      ensures initFailed == (old(initFailed) || (!old(started) && !o.listOk))
      ensures initFailed ==> !ok && configs == old(configs) && nodeAssignments == old(nodeAssignments)
      ensures !initFailed ==>
                var owners := if old(started) then old(nodeAssignments) else Rebuild(map[], list, old(configs), |list|);
                started &&
                if o.getOk && name !in old(configs) then
                  && ok && configs == old(configs) && nodeAssignments == Release(owners, name)
                  && (forall n :: n in nodeAssignments <==> n in owners && owners[n] != name)
                  && (forall n :: n in nodeAssignments ==> nodeAssignments[n] == owners[n])
                else if o.getOk && !o.deleting then
                  && ok == (Passes(owners, name, nodes, o) && (|nodes| == 0 || (o.stepsOk && o.patchOk)))
                  && configs == StoredAfter(old(configs), owners, name, nodes, o)
                  && nodeAssignments == if Takes(owners, name, nodes, o)
                      then Claim(owners, name, Members(nodes)) else owners
                else
                  ok == o.getOk && configs == old(configs) && nodeAssignments == owners
    {
      ghost var s := State();
      ok, steps := EnsureStarted(list, o.listOk);
      if !ok {
        return;
      }
      if !o.getOk {
        return false, steps;
      }
      if name !in configs {
        Append(s, steps, Gone(name));
        steps := steps + [Gone(name)];
        UpdateNodeAssignments(name, None, true);
        deleted := deleted - {name};
        return true, steps;
      }
      if o.deleting {
        return true, steps;
      }
      ghost var more;
      ok, more := Apply(name, nodes, o, s, steps);
      steps := more;
    }

    /** The reconcile of a DeviceConfig that exists and is not being deleted. */
    method Apply(name: string, nodes: seq<string>, o: Outcome, ghost s: Cluster, ghost before: seq<Action>)
      returns (ok: bool, ghost steps: seq<Action>)
      requires started && name in configs
      requires Run(s, before) && Final(s, before) == State()
      modifies this
      ensures Run(s, steps) && Final(s, steps) == State() && started && initFailed == old(initFailed)
      ensures var owners := old(nodeAssignments);
              && ok == (Passes(owners, name, nodes, o) && (|nodes| == 0 || (o.stepsOk && o.patchOk)))
              && configs == StoredAfter(old(configs), owners, name, nodes, o)
              && nodeAssignments == if Takes(owners, name, nodes, o) then Claim(owners, name, Members(nodes))
                  else owners
    {
      steps := before;
      var conflict := ValidateNodeAssignments(name, nodes);
      if conflict.Some? || !o.specOk || |nodes| == 0 {
        Append(s, steps, Reject(name, o.notReadyOk));
        steps := steps + [Reject(name, o.notReadyOk)];
        if o.notReadyOk {
          configs := configs[name := configs[name].(ready := false)];
        }
        return conflict.None? && o.specOk, steps;
      }
      ghost var select := Select(name, Members(nodes));
      Append(s, steps, select);
      steps := steps + [select];
      if o.stepsOk && !o.patchOk && o.patchStored {
        Append(s, steps, Unreported);
        steps := steps + [Unreported];
        configs := configs[name := Stored(true, Members(nodes))];
        unsettled := unsettled + {name};
        return false, steps;
      }
      if !o.stepsOk || !o.patchOk {
        Append(s, steps, Fail(false));
        steps := steps + [Fail(false)];
        return false, steps;
      }
      Append(s, steps, Patch);
      steps := steps + [Patch];
      configs := configs[name := Stored(true, Members(nodes))];
      Append(s, steps, Assign);
      steps := steps + [Assign];
      UpdateNodeAssignments(name, Some(nodes), false);
      unsettled := unsettled - {name};
      return true, steps;
    }
  }
}
