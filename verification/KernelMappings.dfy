/**
 * The kernel mappings of a KMM module and the ConfigMaps with build files they refer to: two loops
 * over the same nodes, in different steps of a reconcile.
 */
module KernelMappings {
  import opened Common
  import opened ImageTags

  /** A node as the loops see it: OS name and default driver version are None if they cannot be told. */
  datatype Node = Node(
    name: string,
    kernel: string,
    os: Option<string>,
    defaultVersion: Option<string>,
    prebuilt: bool)            // false for a SLES node without a registered prebuilt driver image

  datatype Config = Config(
    name: string,
    namespace: string,
    version: string,
    repository: string,        // driver image without tag, default filled in
    driverType: DriverType,
    openShiftVersion: Option<string>)   // default driver version if the cluster is OpenShift

  datatype Mapping = Mapping(literal: string, image: string, dockerfile: string)

  function ConfigMapName(os: string, c: Config): string {
    os + "-" + c.name + "-" + c.namespace
  }

  /** The kernel version without a trailing "+" of a dirty build. */
  function TrimPlus(kernel: string): string {
    if kernel != "" && kernel[|kernel| - 1] == '+' then kernel[..|kernel| - 1] else kernel
  }

  function VersionFor(c: Config, n: Node): Option<string> {
    if c.version != "" then Some(c.version)
    else if c.openShiftVersion.Some? then c.openShiftVersion
    else n.defaultVersion
  }

  /** The mapping of one node with its driver version, unless it cannot be built. */
  function MappingFor(c: Config, n: Node): (r: Option<(Mapping, string)>)
    ensures r.Some? ==> n.os.Some? && r.value.0.literal == TrimPlus(n.kernel)
    ensures r.Some? ==> r.value.0.dockerfile == ConfigMapName(n.os.value, c)
  {
    if n.os.None? || VersionFor(c, n).None? || !n.prebuilt then None
    else
      var version := VersionFor(c, n).value;
      Some((Mapping(TrimPlus(n.kernel), Image(c.repository, n.os.value, c.driverType, version),
                    ConfigMapName(n.os.value, c)), version))
  }

  /**
   * What the mapping of a node says: the kernel without the plus sign of a dirty build, the image for the
   * node's OS, the driver type and the version of the spec or else the default one, and the ConfigMap of
   * that OS and DeviceConfig. It cannot be built exactly if the OS, the version or a prebuilt driver is
   * missing.
   */
  lemma MappingExactly(c: Config, n: Node, k: string)
    requires n.kernel == k || n.kernel == k + "+"
    requires k == "" || k[|k| - 1] != '+'
    ensures var default := if c.openShiftVersion.Some? then c.openShiftVersion else n.defaultVersion;
            var version := if c.version != "" then Some(c.version) else default;
            var r := MappingFor(c, n);
            && (r.None? <==> n.os.None? || version.None? || !n.prebuilt)
            && (r.Some? ==>
                  && r.value.1 == version.value && r.value.0.literal == k
                  && r.value.0.image == Image(c.repository, n.os.value, c.driverType, version.value)
                  && r.value.0.dockerfile == n.os.value + "-" + c.name + "-" + c.namespace)
  {
    assert n.kernel == k + "+" ==> n.kernel[..|n.kernel| - 1] == k;
  }

  type Entry = Option<(Mapping, string)>

  /** What can be built for each node. */
  function Built(c: Config, nodes: seq<Node>): (b: seq<Entry>)
    ensures |b| == |nodes| && forall i :: 0 <= i < |nodes| ==> b[i] == MappingFor(c, nodes[i])
  {
    seq(|nodes|, i requires 0 <= i < |nodes| => MappingFor(c, nodes[i]))
  }

  predicate HasLiteral(e: Entry, literal: string) {
    e.Some? && e.value.0.literal == literal
  }

  /** `owner[j]` is the first node with a mapping for the j-th literal, and the j-th mapping is its. */
  ghost predicate FromFirstNodes(built: seq<Entry>, mappings: seq<Mapping>, owner: seq<nat>) {
    && |owner| == |mappings|
    && (forall j :: 0 <= j < |owner| ==>
          && owner[j] < |built| && built[owner[j]].Some? && built[owner[j]].value.0 == mappings[j]
          && forall i :: 0 <= i < owner[j] ==> !HasLiteral(built[i], mappings[j].literal))
  }

  /** Every node whose mapping can be built finds its kernel in the list. */
  ghost predicate Covers(built: seq<Entry>, mappings: seq<Mapping>) {
    forall i :: 0 <= i < |built| && built[i].Some? ==>
      exists j :: 0 <= j < |mappings| && HasLiteral(built[i], mappings[j].literal)
  }

  ghost predicate DistinctLiterals(mappings: seq<Mapping>) {
    forall i, j :: 0 <= i < j < |mappings| ==> mappings[i].literal != mappings[j].literal
  }

  ghost predicate Complete(built: seq<Entry>, mappings: seq<Mapping>, owner: seq<nat>) {
    DistinctLiterals(mappings) && Covers(built, mappings) && FromFirstNodes(built, mappings, owner)
  }

  /** `seen` holds exactly the literals of the mappings. */
  ghost predicate Literals(mappings: seq<Mapping>, seen: set<string>) {
    && (forall j :: 0 <= j < |mappings| ==> mappings[j].literal in seen)
    && (forall l :: l in seen ==> exists j :: 0 <= j < |mappings| && mappings[j].literal == l)
  }

  lemma LiteralAdded(mappings: seq<Mapping>, seen: set<string>, m: Mapping)
    requires Literals(mappings, seen)
    ensures Literals(mappings + [m], seen + {m.literal})
  {
    var longer := mappings + [m];
    assert longer[|mappings|] == m;
    forall l | l in seen ensures exists j :: 0 <= j < |longer| && longer[j].literal == l {
      var j :| 0 <= j < |mappings| && mappings[j].literal == l;
      assert longer[j].literal == l;
    }
  }

  /** The loop that keeps the first mapping of every kernel. */
  method Collect(built: seq<Entry>) returns (mappings: seq<Mapping>, version: string, ghost owner: seq<nat>)
    ensures Complete(built, mappings, owner) && VersionOfLast(built, owner, version)
    ensures mappings == [] <==> forall j :: 0 <= j < |built| ==> built[j].None?
  {
    owner := [];
    mappings := [];
    version := "";
    var seen: set<string> := {};
    for i := 0 to |built|
      invariant Literals(mappings, seen)
      invariant Complete(built[..i], mappings, owner) && VersionOfLast(built, owner, version)
    {
      var km := built[i];
      ghost var at: nat := i;
      if km.None? || km.value.0.literal in seen {
        Skipped(built, i, mappings, owner);
      } else {
        Added(built, i, mappings, owner);
        LiteralAdded(mappings, seen, km.value.0);
        mappings := mappings + [km.value.0];
        owner := owner + [at];
        seen := seen + {km.value.0.literal};
        version := km.value.1;
      }
    }
    assert built[..|built|] == built;
    NothingBuilt(built, mappings, owner);
  }

  /** The version that comes with the last mapping. */
  predicate VersionOfLast(built: seq<Entry>, owner: seq<nat>, version: string) {
    owner != [] ==>
      var k := owner[|owner| - 1];
      k < |built| && built[k].Some? && built[k].value.1 == version
  }

  lemma NothingBuilt(built: seq<Entry>, mappings: seq<Mapping>, owner: seq<nat>)
    requires Complete(built, mappings, owner)
    ensures mappings == [] <==> forall j :: 0 <= j < |built| ==> built[j].None?
  {
    if mappings != [] {
      assert built[owner[0]].Some?;
    }
  }

  /**
   * One mapping per kernel, from the first node that has one: kernel literals are distinct, every
   * node whose mapping can be built is covered, and the call fails exactly when no mapping can be
   * built at all. The driver version is that of the last mapping.
   */
  method GetKernelMappings(c: Config, nodes: seq<Node>)
    returns (result: Option<(seq<Mapping>, string)>, ghost owner: seq<nat>)
    ensures result.None? <==> forall i :: 0 <= i < |nodes| ==> MappingFor(c, nodes[i]).None?
    ensures result.Some? ==>
              && Complete(Built(c, nodes), result.value.0, owner) && |owner| > 0
              && result.value.1 == Built(c, nodes)[owner[|owner| - 1]].value.1
  {
    if |nodes| == 0 {
      return None, [];
    }
    result, owner := FromBuilt(Built(c, nodes));
    NoneBuilt(c, nodes, Built(c, nodes));
  }

  method FromBuilt(built: seq<Entry>) returns (result: Option<(seq<Mapping>, string)>, ghost owner: seq<nat>)
    ensures result.None? <==> forall i :: 0 <= i < |built| ==> built[i].None?
    ensures result.Some? ==>
              && Complete(built, result.value.0, owner) && |owner| > 0
              && owner[|owner| - 1] < |built| && built[owner[|owner| - 1]].Some?
              && result.value.1 == built[owner[|owner| - 1]].value.1
  {
    var mappings, version;
    mappings, version, owner := Collect(built);
    if |mappings| == 0 {
      return None, [];
    }
    return Some((mappings, version)), owner;
  }

  lemma NoneBuilt(c: Config, nodes: seq<Node>, built: seq<Entry>)
    requires built == Built(c, nodes)
    ensures (forall i :: 0 <= i < |built| ==> built[i].None?) <==>
            (forall i :: 0 <= i < |nodes| ==> MappingFor(c, nodes[i]).None?)
  {
    forall i | 0 <= i < |nodes| ensures built[i] == MappingFor(c, nodes[i]) {
    }
  }

  lemma Skipped(built: seq<Entry>, i: nat, mappings: seq<Mapping>, owner: seq<nat>)
    requires i < |built| && Complete(built[..i], mappings, owner)
    requires built[i].Some? ==> exists j :: 0 <= j < |mappings| && mappings[j].literal == built[i].value.0.literal
    ensures Complete(built[..i + 1], mappings, owner)
  {
    assert built[..i + 1] == built[..i] + [built[i]];
    if built[i].Some? {
      var j :| 0 <= j < |mappings| && mappings[j].literal == built[i].value.0.literal;
      assert HasLiteral(built[i], mappings[j].literal);
    }
  }

  lemma Added(built: seq<Entry>, i: nat, mappings: seq<Mapping>, owner: seq<nat>)
    requires i < |built| && Complete(built[..i], mappings, owner) && built[i].Some?
    requires forall j :: 0 <= j < |mappings| ==> mappings[j].literal != built[i].value.0.literal
    ensures Complete(built[..i + 1], mappings + [built[i].value.0], owner + [i])
  {
    var m := built[i].value.0;
    var longer, all := mappings + [m], built[..i + 1];
    assert all == built[..i] + [built[i]];
    forall k | 0 <= k < i ensures !HasLiteral(all[k], m.literal) {
      assert all[k] == built[..i][k];
    }
    forall k | 0 <= k < |all| && all[k].Some?
      ensures exists j :: 0 <= j < |longer| && HasLiteral(all[k], longer[j].literal)
    {
      if k < i {
        var j :| 0 <= j < |mappings| && HasLiteral(built[..i][k], mappings[j].literal);
        assert longer[j] == mappings[j];
      } else {
        assert longer[|mappings|] == m;
      }
    }
  }

  /**
   * Reconciles one ConfigMap per OS of the nodes, unless KMM is not used. `failing` are the names the
   * API server refuses. With KMM the step succeeds exactly when there are nodes, every OS is known and
   * no ConfigMap failed; then the reconciled ConfigMaps are exactly those of the nodes.
   */
  method HandleBuildConfigMap(c: Config, nodes: seq<Node>, useKmm: bool, failing: set<string>)
    returns (ok: bool, reconciled: set<string>)
    ensures ok <==> !useKmm || (|nodes| > 0 && forall i :: 0 <= i < |nodes| ==>
              nodes[i].os.Some? && ConfigMapName(nodes[i].os.value, c) !in failing)
    ensures reconciled !! failing
    ensures !useKmm ==> reconciled == {}
    ensures ok && useKmm ==>
              reconciled == set i | 0 <= i < |nodes| && nodes[i].os.Some? :: ConfigMapName(nodes[i].os.value, c)
  {
    if !useKmm {
      return true, {};
    }
    if |nodes| == 0 {
      return false, {};
    }
    reconciled := {};
    var saved: set<string> := {};
    var buildOk := true;
    for i := 0 to |nodes|
      invariant forall j :: 0 <= j < i ==> nodes[j].os.Some?
      invariant saved == set j | 0 <= j < i && nodes[j].os.Some? :: ConfigMapName(nodes[j].os.value, c)
      invariant reconciled == saved - failing
      invariant buildOk <==> saved !! failing
    {
      if nodes[i].os.None? {
        return false, reconciled;
      }
      var name := ConfigMapName(nodes[i].os.value, c);
      if name !in saved {
        if name in failing {
          buildOk := false;
        } else {
          reconciled := reconciled + {name};
        }
        saved := saved + {name};
      }
    }
    ok := buildOk;
  }

  /**
   * Referential integrity: the two steps in the order of a reconcile. If the ConfigMap step
   * succeeds, every Dockerfile ConfigMap named by a mapping of the same nodes was reconciled.
   */
  method BuildThenMap(c: Config, nodes: seq<Node>, useKmm: bool, failing: set<string>)
    returns (mappings: seq<Mapping>, reconciled: set<string>)
    ensures forall j :: 0 <= j < |mappings| ==> mappings[j].dockerfile in reconciled
    ensures DistinctLiterals(mappings)
    ensures var allFine := forall i :: 0 <= i < |nodes| ==>
              nodes[i].os.Some? && ConfigMapName(nodes[i].os.value, c) !in failing;
            useKmm && allFine ==> Covers(Built(c, nodes), mappings)
  {
    var ok;
    ok, reconciled := HandleBuildConfigMap(c, nodes, useKmm, failing);
    if !ok || !useKmm {
      return [], reconciled;
    }
    var result;
    ghost var owner;
    result, owner := GetKernelMappings(c, nodes);
    if result.None? {
      return [], reconciled;
    }
    mappings := result.value.0;
    forall j | 0 <= j < |mappings| ensures mappings[j].dockerfile in reconciled {
      var i := owner[j];
      assert nodes[i].os.Some? && mappings[j].dockerfile == ConfigMapName(nodes[i].os.value, c);
    }
  }
}
