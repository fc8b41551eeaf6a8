/**
 * The taints a remediation workflow puts on its node, the tolerations its own pods get, and the
 * gate that keeps further workflows away from a node with such taints.
 */
module RemediationTaints {
  import opened Common

  datatype Taint = Taint(key: string, value: string, effect: string)

  datatype Operator = Equal | Exists

  datatype Toleration = Toleration(key: string, operator: Operator, value: string, effect: string)

  datatype Template = Template(name: string, tolerations: seq<Toleration>)

  const TAINT_KEY := "amd-gpu-unhealthy"
  const NO_SCHEDULE := "NoSchedule"

  /** How Kubernetes matches a toleration with a taint; an empty key or effect matches all. */
  predicate Tolerates(t: Toleration, taint: Taint) {
    && (t.effect == "" || t.effect == taint.effect)
    && (t.key == "" || t.key == taint.key)
    && (t.operator.Exists? || t.value == taint.value)
  }

  /** The configured taints, or the default one, whose value names the condition. */
  function Effective(configured: seq<Taint>, condition: string): (r: seq<Taint>)
    ensures r != []
  {
    if configured != [] then configured else [Taint(TAINT_KEY, condition, NO_SCHEDULE)]
  }

  predicate SameKind(a: Taint, b: Taint) {
    a.key == b.key && a.effect == b.effect
  }

  /** The node carries a taint of the same key and effect as one that remediation would set. */
  predicate Blocked(taints: seq<Taint>, configured: seq<Taint>, condition: string) {
    exists i, j :: 0 <= i < |taints| && 0 <= j < |Effective(configured, condition)| &&
      SameKind(taints[i], Effective(configured, condition)[j])
  }

  /**
   * Which taints block, key and effect written out: those of the configured taints or, if there are
   * none, the operator's own.
   */
  lemma BlockedExactly(taints: seq<Taint>, configured: seq<Taint>, condition: string)
    ensures configured != [] ==>
              (Blocked(taints, configured, condition) <==>
                 exists t, u :: t in taints && u in configured && t.key == u.key && t.effect == u.effect)
    ensures configured == [] ==>
              (Blocked(taints, configured, condition) <==>
                 exists t :: t in taints && t.key == "amd-gpu-unhealthy" && t.effect == "NoSchedule")
  {
    var all := Effective(configured, condition);
    if Blocked(taints, configured, condition) {
      var i, j :| 0 <= i < |taints| && 0 <= j < |all| && SameKind(taints[i], all[j]);
      assert taints[i] in taints && all[j] in all;
    }
    if t, u :| t in taints && u in all && t.key == u.key && t.effect == u.effect {
      var i :| 0 <= i < |taints| && taints[i] == t;
      var j :| 0 <= j < |all| && all[j] == u;
      assert SameKind(taints[i], all[j]);
    }
    if configured == [] {
      assert all[0] in all;
    }
  }

  /** The gate. The value of a taint plays no part. */
  method CheckIfTaintExists(taints: seq<Taint>, configured: seq<Taint>) returns (found: bool)
    ensures forall condition :: found <==> Blocked(taints, configured, condition)
  {
    var targets := if |configured| > 0 then configured else [Taint(TAINT_KEY, "", NO_SCHEDULE)];
    assert targets == Effective(configured, "");
    found := false;
    for i := 0 to |taints|
      invariant forall k, j :: 0 <= k < i && 0 <= j < |targets| ==> !SameKind(taints[k], targets[j])
    {
      for j := 0 to |targets|
        invariant forall k :: 0 <= k < j ==> !SameKind(taints[i], targets[k])
      {
        if taints[i].key == targets[j].key && taints[i].effect == targets[j].effect {
          assert SameKind(taints[i], targets[j]);
          BlockedForAll(taints, configured, targets);
          return true;
        }
      }
    }
    BlockedForAll(taints, configured, targets);
  }

  /** The condition of the earlier or of the new workflow makes no difference to the gate. */
  lemma BlockedForAll(taints: seq<Taint>, configured: seq<Taint>, targets: seq<Taint>)
    requires targets == Effective(configured, "")
    ensures forall condition :: Blocked(taints, configured, condition) <==>
              exists i, j :: 0 <= i < |taints| && 0 <= j < |targets| && SameKind(taints[i], targets[j])
  {
    forall condition ensures Blocked(taints, configured, condition) <==>
        exists i, j :: 0 <= i < |taints| && 0 <= j < |targets| && SameKind(taints[i], targets[j])
    {
      var others := Effective(configured, condition);
      assert |others| == |targets| && forall j :: 0 <= j < |targets| ==> SameKind(others[j], targets[j]);
      if i, j :| 0 <= i < |taints| && 0 <= j < |targets| && SameKind(taints[i], targets[j]) {
        assert SameKind(taints[i], others[j]);
      }
      if i, j :| 0 <= i < |taints| && 0 <= j < |others| && SameKind(taints[i], others[j]) {
        assert SameKind(taints[i], targets[j]);
      }
    }
  }

  // ----- taints on the command line -----

  function Printed(t: Taint): string {
    t.key + "=" + t.value + ":" + t.effect
  }

  /** No separators where Kubernetes admits none in taints. */
  predicate Proper(t: Taint) {
    '=' !in t.key && ':' !in t.key && ':' !in t.value
  }

  /** The taints the workflow is told to set, as arguments of its taint step. */
  method NodeTaints(configured: seq<Taint>, condition: string) returns (lines: seq<string>)
    ensures |lines| == |Effective(configured, condition)|
    ensures forall i :: 0 <= i < |lines| ==> lines[i] == Printed(Effective(configured, condition)[i])
  {
    lines := [];
    for i := 0 to |configured|
      invariant |lines| == i && forall j :: 0 <= j < i ==> lines[j] == Printed(configured[j])
    {
      lines := lines + [Printed(configured[i])];
    }
    if |lines| == 0 {
      lines := lines + [Printed(Taint(TAINT_KEY, condition, NO_SCHEDULE))];
    }
  }

  /** A proper taint can be read back from its printed form. */
  lemma PrintedIsUnique(a: Taint, b: Taint)
    requires Proper(a) && Proper(b) && Printed(a) == Printed(b)
    ensures a == b
  {
    var left, right := a.key + "=" + a.value, b.key + "=" + b.value;
    assert Printed(a) == left + [':'] + a.effect && Printed(b) == right + [':'] + b.effect;
    SplitAtFirst(left, a.effect, right, b.effect, ':');
    assert left == a.key + ['='] + a.value && right == b.key + ['='] + b.value;
    SplitAtFirst(a.key, a.value, b.key, b.value, '=');
  }

  // ----- tolerations of the workflow -----

  function TolerationFor(t: Taint): Toleration {
    Toleration(t.key, Exists, "", t.effect)
  }

  function TolerationsFor(taints: seq<Taint>): seq<Toleration> {
    seq(|taints|, i requires 0 <= i < |taints| => TolerationFor(taints[i]))
  }

  predicate ToleratedBy(template: Template, taint: Taint) {
    exists i :: 0 <= i < |template.tolerations| && Tolerates(template.tolerations[i], taint)
  }

  class Workflow {
    var templates: seq<Template>

    constructor (templates: seq<Template>)
      ensures this.templates == templates
    {
      this.templates := templates;
    }

    /** Every template keeps its tolerations and gets one more for each taint. */
    method ApplyTolerations(configured: seq<Taint>, condition: string)
      modifies this
      ensures |templates| == |old(templates)|
      ensures forall i :: 0 <= i < |templates| ==>
                templates[i] == Template(old(templates)[i].name,
                                         old(templates)[i].tolerations +
                                         TolerationsFor(Effective(configured, condition)))
    {
      var taints := Effective(configured, condition);
      for i := 0 to |templates|
        invariant |templates| == |old(templates)|
        invariant forall k :: i <= k < |templates| ==> templates[k] == old(templates)[k]
        invariant forall k :: 0 <= k < i ==>
                    templates[k] == Template(old(templates)[k].name,
                        old(templates)[k].tolerations + TolerationsFor(taints))
      {
        var tolerations := templates[i].tolerations;
        for j := 0 to |taints|
          invariant tolerations == templates[i].tolerations + TolerationsFor(taints[..j])
        {
          assert TolerationsFor(taints[..j + 1]) == TolerationsFor(taints[..j]) + [TolerationFor(taints[j])];
          tolerations := tolerations + [TolerationFor(taints[j])];
        }
        assert taints[..|taints|] == taints;
        templates := templates[i := templates[i].(tolerations := tolerations)];
      }
    }
  }

  // ----- they agree -----

  /**
   * Taints, tolerations and gate agree. Take any taint that was set from one of the workflow's
   * taint arguments, whatever the condition then: a template with the added tolerations tolerates
   * it, and a node carrying it is blocked for every other workflow, whatever its condition.
   */
  lemma AppliedTaintsToleratedAndBlocking(
    configured: seq<Taint>, condition: string, other: string, template: Template, own: seq<Toleration>,
    taints: seq<Taint>, i: nat, k: nat)
    requires ':' !in condition && forall j :: 0 <= j < |configured| ==> Proper(configured[j])
    requires template.tolerations == own + TolerationsFor(Effective(configured, condition))
    requires i < |taints| && Proper(taints[i]) && k < |Effective(configured, condition)|
    requires Printed(taints[i]) == Printed(Effective(configured, condition)[k])
    ensures ToleratedBy(template, taints[i])
    ensures Blocked(taints, configured, other)
  {
    var applied := Effective(configured, condition)[k];
    PrintedIsUnique(taints[i], applied);
    assert template.tolerations[|own| + k] == TolerationFor(applied);
    assert Tolerates(template.tolerations[|own| + k], taints[i]);
    assert SameKind(taints[i], Effective(configured, other)[k]);
  }

  /** Every taint has a key and an effect. */
  predicate Specific(taints: seq<Taint>) {
    forall j :: 0 <= j < |taints| ==> taints[j].key != "" && taints[j].effect != ""
  }

  predicate Reaches(configured: seq<Taint>, condition: string, taint: Taint) {
    ToleratedBy(Template("", TolerationsFor(Effective(configured, condition))), taint)
  }

  /** Text longer than every key and effect of the taints. */
  function Fresh(taints: seq<Taint>): (r: string)
    ensures forall j :: 0 <= j < |taints| ==> |r| > |taints[j].key| && |r| > |taints[j].effect|
  {
    if taints == [] then "x" else Fresh(taints[1..]) + taints[0].key + taints[0].effect + "x"
  }

  /**
   * The tolerations added for a workflow reach exactly as far as the gate, for every taint there
   * could be, if and only if all configured taints have a key and an effect; validation lets an
   * empty effect pass, and then the workflow tolerates taints that do not stop another workflow.
   */
  lemma ToleratedExactlyWhenBlocking(configured: seq<Taint>, condition: string)
    ensures (forall taint :: Reaches(configured, condition, taint) <==> Blocked([taint], configured, condition))
            <==> Specific(configured)
  {
    if Specific(configured) {
      forall taint ensures Reaches(configured, condition, taint) <==> Blocked([taint], configured, condition) {
        SpecificAgrees(configured, condition, taint);
      }
    } else {
      var j :| 0 <= j < |configured| && (configured[j].key == "" || configured[j].effect == "");
      var t, x := configured[j], Fresh(configured);
      var taint := if t.key == "" then Taint(x, "", t.effect) else Taint(t.key, "", x);
      assert Tolerates(TolerationsFor(configured)[j], taint);
      assert Reaches(configured, condition, taint) && !Blocked([taint], configured, condition);
    }
  }

  lemma SpecificAgrees(configured: seq<Taint>, condition: string, taint: Taint)
    requires Specific(configured)
    ensures Reaches(configured, condition, taint) <==> Blocked([taint], configured, condition)
  {
    var all := Effective(configured, condition);
    var tolerations := TolerationsFor(all);
    if i :| 0 <= i < |tolerations| && Tolerates(tolerations[i], taint) {
      assert SameKind([taint][0], all[i]);
    }
    if i, j :| 0 <= i < |[taint]| && 0 <= j < |all| && SameKind([taint][i], all[j]) {
      assert Tolerates(tolerations[j], taint);
    }
  }
}
