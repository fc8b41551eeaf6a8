/**
 * Node labels that carry a namespace and a name: printed from a template, and recognised with a
 * regular expression derived from the same template.
 */
module LabelTemplates {
  import opened Common

  // ----- printing -----

  predicate StartsWithVerb(s: string) {
    |s| >= 2 && s[0] == '%' && s[1] == 'v'
  }

  /** The template with its verbs replaced by the arguments, in order. */
  function Print(template: string, args: seq<string>): string {
    if template == "" then ""
    else if StartsWithVerb(template) && args != [] then args[0] + Print(template[2..], args[1..])
    else [template[0]] + Print(template[1..], args)
  }

  // ----- the regular expression -----

  /** One character, a group of characters other than dots, or a group of characters other than newlines. */
  datatype Item = Literal(c: char) | Segment | Rest

  /**
   * The expression generated from a template: dots stand for themselves, the first verb becomes
   * ([^.]+) and the second (.+); both ends are anchored. `groups` counts the verbs already seen.
   */
  function Compile(template: string, groups: nat): seq<Item> {
    if template == "" then []
    else if StartsWithVerb(template) && groups < 2 then
      [if groups == 0 then Segment else Rest] + Compile(template[2..], groups + 1)
    else [Literal(template[0])] + Compile(template[1..], groups)
  }

  predicate GroupMatches(item: Item, text: string) {
    match item
    case Literal(_) => false
    case Segment => text != "" && '.' !in text
    case Rest => text != "" && '\n' !in text
  }

  /** The expression matches the whole text, its groups capturing the given pieces. */
  ghost predicate Matches(items: seq<Item>, text: string, groups: seq<string>)
    decreases |items|
  {
    if items == [] then text == "" && groups == []
    else if items[0].Literal? then text != "" && text[0] == items[0].c && Matches(items[1..], text[1..], groups)
    else
      && groups != [] && GroupMatches(items[0], groups[0])
      && groups[0] <= text && Matches(items[1..], text[|groups[0]|..], groups[1..])
  }

  // ----- matching undoes printing -----

  function Verbs(template: string): nat {
    if template == "" then 0
    else if StartsWithVerb(template) then 1 + Verbs(template[2..])
    else Verbs(template[1..])
  }

  /** Characters with a meaning of their own in an expression; dots are escaped. */
  predicate IsMeta(c: char) {
    || c == '+' || c == '*' || c == '?' || c == '(' || c == ')' || c == '[' || c == ']'
    || c == '{' || c == '}' || c == '|' || c == '^' || c == '$' || c == '\\'
  }

  /** Text that stands for itself both in a template and in an expression. */
  predicate Plain(s: string) {
    forall i :: 0 <= i < |s| ==> s[i] != '%' && !IsMeta(s[i])
  }

  /** Apart from its verbs the template is plain. */
  predicate Regular(template: string) {
    template == "" ||
    if StartsWithVerb(template) then Regular(template[2..])
    else template[0] != '%' && !IsMeta(template[0]) && Regular(template[1..])
  }

  predicate PiecesOk(pieces: seq<string>, seen: nat) {
    forall i :: 0 <= i < |pieces| ==> GroupMatches(if seen + i == 0 then Segment else Rest, pieces[i])
  }

  /**
   * For every regular template with at most two verbs the derived expression matches a text with certain
   * captures exactly when printing the captures gives the text and the captures have the right
   * shape.
   */
  lemma {:induction false} MatchIsPrint(template: string, seen: nat, text: string, pieces: seq<string>)
    requires Regular(template) && seen + Verbs(template) <= 2
    ensures Matches(Compile(template, seen), text, pieces) <==>
            |pieces| == Verbs(template) && PiecesOk(pieces, seen) && text == Print(template, pieces)
    decreases |template|
  {
    if template == "" {
    } else if StartsWithVerb(template) {
      var items := Compile(template, seen);
      assert items[1..] == Compile(template[2..], seen + 1);
      if pieces != [] {
        var rest := pieces[1..];
        if pieces[0] <= text {
          MatchIsPrint(template[2..], seen + 1, text[|pieces[0]|..], rest);
          assert text == pieces[0] + text[|pieces[0]|..];
        }
        assert forall i :: 0 <= i < |rest| ==> rest[i] == pieces[i + 1];
        assert PiecesOk(pieces, seen) <==>
               GroupMatches(items[0], pieces[0]) && PiecesOk(rest, seen + 1) by {
          PiecesCons(pieces, seen);
        }
      }
    } else {
      var items := Compile(template, seen);
      assert items[1..] == Compile(template[1..], seen);
      assert Print(template, pieces) == [template[0]] + Print(template[1..], pieces);
      if text != "" && text[0] == template[0] {
        MatchIsPrint(template[1..], seen, text[1..], pieces);
        assert text == [text[0]] + text[1..];
      }
    }
  }

  lemma PiecesCons(pieces: seq<string>, seen: nat)
    requires pieces != []
    ensures PiecesOk(pieces, seen) <==>
            GroupMatches(if seen == 0 then Segment else Rest, pieces[0]) && PiecesOk(pieces[1..], seen + 1)
  {
    var rest := pieces[1..];
    if GroupMatches(if seen == 0 then Segment else Rest, pieces[0]) && PiecesOk(rest, seen + 1) {
      forall i | 0 <= i < |pieces| ensures GroupMatches(if seen + i == 0 then Segment else Rest, pieces[i]) {
        if i > 0 {
          assert pieces[i] == rest[i - 1];
        }
      }
    }
    if PiecesOk(pieces, seen) {
      forall i | 0 <= i < |rest| ensures GroupMatches(if seen + 1 + i == 0 then Segment else Rest, rest[i]) {
        assert rest[i] == pieces[i + 1];
      }
    }
  }

  // ----- the label templates of the operator -----

  /** A template of the form prefix%v.%vsuffix. */
  datatype Template = Template(prefix: string, suffix: string) {
    function Text(): string {
      prefix + "%v.%v" + suffix
    }

    /** The label for a namespace and a name. */
    function Label(ns: string, name: string): string {
      prefix + ns + "." + name + suffix
    }
  }

  const VFIO_READY := Template("gpu.operator.amd.com/", ".vfio.ready")
  const DRIVER_TYPE := Template("gpu.operator.amd.com/", ".driver")
  const KMM_READY := Template("kmm.node.kubernetes.io/", ".ready")

  predicate Fits(ns: string, name: string) {
    ns != "" && '.' !in ns && name != "" && '\n' !in name
  }

  lemma {:induction false} PlainText(s: string, args: seq<string>)
    requires Plain(s)
    ensures Verbs(s) == 0 && Print(s, args) == s && Regular(s)
    decreases |s|
  {
    if s != "" {
      assert Plain(s[1..]);
      PlainText(s[1..], args);
      assert s == [s[0]] + s[1..];
    }
  }

  lemma {:induction false} PlainPrefix(s: string, rest: string, args: seq<string>)
    requires Plain(s)
    ensures Verbs(s + rest) == Verbs(rest) && Print(s + rest, args) == s + Print(rest, args)
    ensures Regular(s + rest) <==> Regular(rest)
    decreases |s|
  {
    if s == "" {
      assert s + rest == rest;
    } else {
      assert Plain(s[1..]);
      PlainPrefix(s[1..], rest, args);
      assert (s + rest)[1..] == s[1..] + rest;
      assert (s + rest)[0] == s[0] && !StartsWithVerb(s + rest);
      assert s + Print(rest, args) == [s[0]] + (s[1..] + Print(rest, args));
    }
  }

  lemma VerbPrinted(tail: string, arg: string, args: seq<string>)
    ensures Verbs("%v" + tail) == 1 + Verbs(tail) && (Regular("%v" + tail) <==> Regular(tail))
    ensures Print("%v" + tail, [arg] + args) == arg + Print(tail, args)
  {
    var s := "%v" + tail;
    assert s[2..] == tail && ([arg] + args)[1..] == args;
  }

  /** The label is what the template prints, and the template has two verbs. */
  lemma LabelIsPrinted(t: Template, ns: string, name: string)
    requires Plain(t.prefix) && Plain(t.suffix)
    ensures Verbs(t.Text()) == 2 && Regular(t.Text()) && Print(t.Text(), [ns, name]) == t.Label(ns, name)
  {
    PlainText(t.suffix, []);
    VerbPrinted(t.suffix, name, []);
    var tail := "%v" + t.suffix;
    PlainPrefix(".", tail, [name]);
    VerbPrinted("." + tail, ns, [name]);
    PlainPrefix(t.prefix, "%v" + ("." + tail), [ns, name]);
    LabelPieces(t, ns, name, tail);
  }

  lemma LabelPieces(t: Template, ns: string, name: string, tail: string)
    requires tail == "%v" + t.suffix
    ensures t.Text() == t.prefix + ("%v" + ("." + tail))
    ensures t.Label(ns, name) == t.prefix + (ns + ("." + (name + t.suffix)))
    ensures [ns] + [name] == [ns, name] && [name] + [] == [name]
  {
  }

  /** The templates of the operator are of the kind the theorems speak about. */
  lemma OperatorTemplatesAreRegular(t: Template)
    requires t == VFIO_READY || t == DRIVER_TYPE || t == KMM_READY
    ensures Plain(t.prefix) && Plain(t.suffix) && Regular(t.Text())
  {
    PlainOperatorPrefix();
    PlainKmmPrefix();
    PlainSuffixes();
    LabelIsPrinted(t, "", "");
  }

  lemma PlainConcat(a: string, b: string)
    requires Plain(a) && Plain(b)
    ensures Plain(a + b)
  {
  }

  lemma PlainOperatorPrefix()
    ensures Plain(VFIO_READY.prefix) && DRIVER_TYPE.prefix == VFIO_READY.prefix
  {
    PlainConcat("gpu.oper", "ator.");
    PlainConcat("gpu.oper" + "ator.", "amd.com/");
    assert VFIO_READY.prefix == "gpu.oper" + "ator." + "amd.com/";
  }

  lemma PlainKmmPrefix()
    ensures Plain(KMM_READY.prefix)
  {
    PlainConcat("kmm.node.", "kubern");
    PlainConcat("kmm.node." + "kubern", "etes.io/");
    assert KMM_READY.prefix == "kmm.node." + "kubern" + "etes.io/";
  }

  lemma PlainSuffixes()
    ensures Plain(VFIO_READY.suffix) && Plain(DRIVER_TYPE.suffix) && Plain(KMM_READY.suffix)
  {
  }

  /** A key is recognised with a certain namespace and name exactly when it is their label and they fit. */
  lemma LabelRoundTrip(t: Template, key: string, ns: string, name: string)
    requires Plain(t.prefix) && Plain(t.suffix)
    ensures Matches(Compile(t.Text(), 0), key, [ns, name]) <==> key == t.Label(ns, name) && Fits(ns, name)
  {
    LabelIsPrinted(t, ns, name);
    MatchIsPrint(t.Text(), 0, key, [ns, name]);
    assert PiecesOk([ns, name], 0) <==> Fits(ns, name) by {
      PiecesCons([ns, name], 0);
      PiecesCons([name], 1);
      assert [ns, name][1..] == [name] && [name][1..] == [];
    }
  }

  /**
   * The split is unique: whatever the engine prefers, a matching key yields one namespace and one
   * name.
   */
  lemma SplitIsUnique(t: Template, ns1: string, name1: string, ns2: string, name2: string)
    requires Fits(ns1, name1) && Fits(ns2, name2)
    requires t.Label(ns1, name1) == t.Label(ns2, name2)
    ensures ns1 == ns2 && name1 == name2
  {
    var key := t.Label(ns1, name1);
    var p := |t.prefix|;
    assert key[p..] == ns1 + "." + name1 + t.suffix;
    assert key[p..] == ns2 + "." + name2 + t.suffix;
    assert ns1 + "." + name1 + t.suffix == ns1 + "." + (name1 + t.suffix);
    assert ns2 + "." + name2 + t.suffix == ns2 + "." + (name2 + t.suffix);
    SplitAtFirst(ns1, name1 + t.suffix, ns2, name2 + t.suffix, '.');
    assert |name1| == |name2|;
    assert name1 == (name1 + t.suffix)[..|name1|];
    assert name2 == (name2 + t.suffix)[..|name2|];
  }

  /** The labels of the operator, spelled out. */
  lemma LabelsSpelledOut(ns: string, name: string)
    ensures VFIO_READY.Label(ns, name) == "gpu.operator.amd.com/" + ns + "." + name + ".vfio.ready"
    ensures DRIVER_TYPE.Label(ns, name) == "gpu.operator.amd.com/" + ns + "." + name + ".driver"
    ensures KMM_READY.Label(ns, name) == "kmm.node.kubernetes.io/" + ns + "." + name + ".ready"
  {
  }

  /** No key is a label of two of the operator's templates. */
  lemma TemplatesDoNotOverlap(ns1: string, name1: string, ns2: string, name2: string)
    ensures VFIO_READY.Label(ns1, name1) != DRIVER_TYPE.Label(ns2, name2)
    ensures VFIO_READY.Label(ns1, name1) != KMM_READY.Label(ns2, name2)
    ensures DRIVER_TYPE.Label(ns1, name1) != KMM_READY.Label(ns2, name2)
  {
    LabelEnds(VFIO_READY, ns1, name1);
    LabelEnds(DRIVER_TYPE, ns2, name2);
    LabelEnds(DRIVER_TYPE, ns1, name1);
    LabelEnds(KMM_READY, ns2, name2);
  }

  lemma LabelEnds(t: Template, ns: string, name: string)
    requires t.prefix != "" && t.suffix != ""
    ensures var key := t.Label(ns, name);
            key != "" && key[0] == t.prefix[0] && key[|key| - 1] == t.suffix[|t.suffix| - 1]
  {
  }

  // ----- looking through the labels of a node -----

  /** Position of the first dot, or the length if there is none. */
  function FirstDot(s: string): (k: nat)
    ensures k <= |s| && '.' !in s[..k] && (k < |s| ==> s[k] == '.')
  {
    if s == "" || s[0] == '.' then 0
    else
      var k := FirstDot(s[1..]);
      assert s[..k + 1] == [s[0]] + s[1..][..k];
      k + 1
  }

  /** The captures of the expression, found from both ends and the first dot between them. */
  function FindSubmatch(t: Template, key: string): Option<(string, string)> {
    var p, q := |t.prefix|, |t.suffix|;
    if |key| < p + q || key[..p] != t.prefix || key[|key| - q..] != t.suffix then None
    else
      var middle := key[p..|key| - q];
      var k := FirstDot(middle);
      if k == |middle| || !Fits(middle[..k], middle[k + 1..]) then None
      else Some((middle[..k], middle[k + 1..]))
  }

  /** Whatever the search finds reprints to the key. */
  lemma FindSubmatchSound(t: Template, key: string)
    ensures var r := FindSubmatch(t, key);
            r.Some? ==> key == t.Label(r.value.0, r.value.1) && Fits(r.value.0, r.value.1)
  {
    if FindSubmatch(t, key).Some? {
      var p, q := |t.prefix|, |t.suffix|;
      var middle := key[p..|key| - q];
      var k := FirstDot(middle);
      assert middle == middle[..k] + "." + middle[k + 1..];
      assert key == t.prefix + middle + t.suffix;
    }
  }

  /** The search finds every label of the template. */
  lemma FindSubmatchComplete(t: Template, ns: string, name: string)
    requires Fits(ns, name)
    ensures FindSubmatch(t, t.Label(ns, name)) == Some((ns, name))
  {
    var key := t.Label(ns, name);
    var p, q := |t.prefix|, |t.suffix|;
    var middle := ns + "." + name;
    assert key == t.prefix + middle + t.suffix;
    assert key[p..|key| - q] == middle;
    var k := FirstDot(middle);
    assert middle[|ns|] == '.';
    assert middle[..k] == ns && middle[k + 1..] == name;
  }

  /** Looks for a label of the template; if there are several, any of them is reported. */
  method HasNodeLabelTemplateMatch(labels: map<string, string>, t: Template)
    returns (found: bool, key: string, ns: string, name: string)
    requires Plain(t.prefix) && Plain(t.suffix)
    ensures found <==> exists k, a, b :: k in labels && Matches(Compile(t.Text(), 0), k, [a, b])
    ensures found ==> key in labels && Matches(Compile(t.Text(), 0), key, [ns, name])
  {
    var todo := labels.Keys;
    while todo != {}
      invariant todo <= labels.Keys
      invariant forall k :: k in labels && k !in todo ==> FindSubmatch(t, k).None?
      decreases todo
    {
      var k :| k in todo;
      var m := FindSubmatch(t, k);
      FindSubmatchSound(t, k);
      if m.Some? {
        LabelRoundTrip(t, k, m.value.0, m.value.1);
        return true, k, m.value.0, m.value.1;
      }
      todo := todo - {k};
    }
    forall k, a, b | k in labels ensures !Matches(Compile(t.Text(), 0), k, [a, b]) {
      LabelRoundTrip(t, k, a, b);
      if Fits(a, b) {
        FindSubmatchComplete(t, a, b);
      }
    }
    return false, "", "", "";
  }
}
