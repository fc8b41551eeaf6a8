/** Driver image names: the printer of the tag and the two places that read a version back from it. */
module ImageTags {
  import opened Common

  const PLACEHOLDER := "${KERNEL_FULL_VERSION}"
  const MAX_TAG := 128

  datatype DriverType = Container | VFPassthrough | PFPassthrough | OtherType

  function DriverTypeTag(t: DriverType): string {
    match t
    case VFPassthrough => "-vf-passthrough"
    case PFPassthrough => "-pf-passthrough"
    case Container => ""
    case OtherType => ""
  }

  /** The last n characters. */
  function Last(s: string, n: nat): string {
    if |s| > n then s[|s| - n..] else s
  }

  function Tag(os: string, t: DriverType, version: string): string {
    Last(os + "-" + PLACEHOLDER + DriverTypeTag(t) + "-" + version, MAX_TAG)
  }

  function Image(repo: string, os: string, t: DriverType, version: string): string {
    repo + ":" + Tag(os, t, version)
  }

  /** The text with every occurrence of the placeholder p replaced, from left to right. */
  function Fill(p: string, s: string, kernel: string): string
    requires p != ""
    decreases |s|
  {
    if s == "" then ""
    else if p <= s then kernel + Fill(p, s[|p|..], kernel)
    else [s[0]] + Fill(p, s[1..], kernel)
  }

  /** The image that KMM puts into the status of a node: the placeholder stands for the node's kernel. */
  function LoadedImage(repo: string, os: string, t: DriverType, version: string, kernel: string): string {
    Fill(PLACEHOLDER, Image(repo, os, t, version), kernel)
  }

  /** The parts of a string between dashes. */
  function Split(s: string): (parts: seq<string>)
    ensures parts != []
  {
    if s == "" then [""]
    else
      var k := |s| - 1;
      var parts := Split(s[..k]);
      if s[k] == '-' then parts + [""]
      else parts[..|parts| - 1] + [parts[|parts| - 1] + [s[k]]]
  }

  /** What the retry path takes for the loaded version: everything behind the last dash. */
  function VersionOf(image: string): string {
    var parts := Split(image);
    parts[|parts| - 1]
  }

  predicate DashFree(s: string) {
    '-' !in s
  }

  // ----- splitting -----

  lemma VersionOfStep(s: string, c: char)
    ensures VersionOf(s + [c]) == if c == '-' then "" else VersionOf(s) + [c]
  {
    assert (s + [c])[..|s|] == s;
  }

  /** Appending dash-free text extends the last part. */
  lemma {:induction false} VersionOfAppend(a: string, b: string)
    requires DashFree(b)
    ensures VersionOf(a + b) == VersionOf(a) + b
    decreases |b|
  {
    if b == "" {
      assert a + b == a;
    } else {
      var k := |b| - 1;
      VersionOfAppend(a, b[..k]);
      VersionOfStep(a + b[..k], b[k]);
      assert a + b == a + b[..k] + [b[k]];
      assert VersionOf(a) + b == VersionOf(a) + b[..k] + [b[k]];
    }
  }

  lemma {:induction false} VersionOfIsDashFree(s: string)
    ensures DashFree(VersionOf(s))
    decreases |s|
  {
    if s != "" {
      var k := |s| - 1;
      VersionOfIsDashFree(s[..k]);
      VersionOfStep(s[..k], s[k]);
      assert s == s[..k] + [s[k]];
    }
  }

  lemma BehindDash(a: string, v: string)
    requires DashFree(v)
    ensures VersionOf(a + "-" + v) == v
  {
    VersionOfStep(a, '-');
    VersionOfAppend(a + "-", v);
  }

  // ----- the tag -----

  lemma TagFits(os: string, t: DriverType, version: string)
    ensures |Tag(os, t, version)| <= 128
  {
  }

  /** A version of at most 127 characters survives the truncation, together with the dash before it. */
  lemma ShortVersionKept(os: string, t: DriverType, version: string) returns (front: string)
    requires |version| < MAX_TAG
    ensures Tag(os, t, version) == front + "-" + version
  {
    var head := os + "-" + PLACEHOLDER + DriverTypeTag(t);
    CutKeepsTail(head, version);
    front := Last(head, MAX_TAG - 1 - |version|);
  }

  lemma CutKeepsTail(head: string, v: string)
    requires |v| < MAX_TAG
    ensures Last(head + "-" + v, MAX_TAG) == Last(head, MAX_TAG - 1 - |v|) + "-" + v
  {
    var s := head + "-" + v;
    assert |s| == |head| + 1 + |v|;
  }

  lemma LongVersionCut(os: string, t: DriverType, version: string)
    requires |version| >= MAX_TAG
    ensures Tag(os, t, version) == version[|version| - MAX_TAG..]
  {
    LongTailCut(os + "-" + PLACEHOLDER + DriverTypeTag(t), version);
  }

  lemma LongTailCut(head: string, v: string)
    requires |v| >= MAX_TAG
    ensures Last(head + "-" + v, MAX_TAG) == v[|v| - MAX_TAG..]
  {
    var s := head + "-" + v;
    assert |s| == |head| + 1 + |v|;
    assert s[|s| - MAX_TAG..] == v[|v| - MAX_TAG..];
  }

  // ----- filling in the kernel -----

  lemma FillStep(p: string, s: string, kernel: string, k: nat, first: string)
    requires p != "" && s != ""
    requires if p <= s then k == |p| && first == kernel else k == 1 && first == [s[0]]
    ensures Fill(p, s, kernel) == first + Fill(p, s[k..], kernel)
  {
  }

  /** A separator that does not occur in the placeholder also separates the filled text. */
  lemma {:induction false} FillSplits(p: string, a: string, c: char, b: string, kernel: string)
    requires p != "" && c !in p
    ensures Fill(p, a + [c] + b, kernel) == Fill(p, a, kernel) + [c] + Fill(p, b, kernel)
    decreases |a|
  {
    var s := a + [c] + b;
    PrefixBefore(p, a, c, b);
    if a == "" {
      FillStep(p, s, kernel, 1, [c]);
      assert s[1..] == b;
    } else {
      var k, first := if p <= a then |p| else 1, if p <= a then kernel else [a[0]];
      assert s[k..] == a[k..] + [c] + b && s[0] == a[0];
      FillSplits(p, a[k..], c, b, kernel);
      FillStep(p, s, kernel, k, first);
      FillStep(p, a, kernel, k, first);
      Regroup(first, Fill(p, a[k..], kernel), [c], Fill(p, b, kernel));
    }
  }

  lemma Regroup(a: string, b: string, c: string, d: string)
    ensures a + (b + c + d) == a + b + c + d
  {
  }

  lemma PrefixBefore(p: string, a: string, c: char, b: string)
    requires c !in p
    ensures p <= a + [c] + b <==> p <= a
  {
    var s := a + [c] + b;
    assert s[|a|] == c;
  }

  lemma {:induction false} NothingToFill(p: string, s: string, kernel: string)
    requires p != "" && p[0] !in s
    ensures Fill(p, s, kernel) == s
    decreases |s|
  {
    if s != "" {
      assert s[0] in s;
      assert s == [s[0]] + s[1..];
      NothingToFill(p, s[1..], kernel);
    }
  }

  lemma PlaceholderParts()
    ensures PLACEHOLDER[0] == '$' && '-' !in PLACEHOLDER && ':' !in PLACEHOLDER
  {
  }

  /** Of a loaded image the end is known, if the version was not cut. */
  lemma LoadedEnd(repo: string, os: string, t: DriverType, version: string, kernel: string) returns (front: string)
    requires |version| < MAX_TAG && '$' !in version
    ensures LoadedImage(repo, os, t, version, kernel) == front + "-" + version
  {
    var before := ShortVersionKept(os, t, version);
    var head := repo + ":" + before;
    assert Image(repo, os, t, version) == head + ['-'] + version;
    PlaceholderParts();
    FillSplits(PLACEHOLDER, head, '-', version, kernel);
    NothingToFill(PLACEHOLDER, version, kernel);
    front := Fill(PLACEHOLDER, head, kernel);
  }

  /** The piece of the tag for a driver type. */
  function TypePiece(t: DriverType): string {
    match t
    case VFPassthrough => "-vf-passthrough"
    case PFPassthrough => "-pf-passthrough"
    case _ => ""
  }

  /**
   * The loaded image, spelled out: as long as the tag is not cut, it is the repository, a colon, the OS,
   * the kernel of the node, the piece for the driver type and the version, with dashes between them.
   */
  lemma LoadedImageSpelledOut(repo: string, os: string, t: DriverType, version: string, kernel: string)
    requires '$' !in repo && '$' !in os && '$' !in version
    requires |os| + 1 + |PLACEHOLDER| + |TypePiece(t)| + 1 + |version| <= 128
    ensures LoadedImage(repo, os, t, version, kernel) == repo + ":" + os + "-" + kernel + TypePiece(t) + "-" + version
  {
    PlaceholderParts();
    TypePieceIsPlain(t);
    var tail := TypePiece(t) + "-" + version;
    UncutImage(repo, os, t, version, tail);
    FillBetween(PLACEHOLDER, repo, os, tail, kernel);
    SamePieces(repo, os, kernel, TypePiece(t), version);
  }

  lemma UncutImage(repo: string, os: string, t: DriverType, version: string, tail: string)
    requires tail == DriverTypeTag(t) + "-" + version && |os| + 1 + |PLACEHOLDER| + |tail| <= 128
    ensures Image(repo, os, t, version) == repo + [':'] + (os + ['-'] + (PLACEHOLDER + tail))
  {
    Uncut(PLACEHOLDER, os, DriverTypeTag(t), version);
  }

  lemma Uncut(p: string, os: string, piece: string, version: string)
    requires |os| + 1 + |p| + |piece| + 1 + |version| <= 128
    ensures Last(os + "-" + p + piece + "-" + version, MAX_TAG) == os + ['-'] + (p + (piece + "-" + version))
  {
  }

  lemma FillBetween(p: string, repo: string, os: string, tail: string, kernel: string)
    requires p != "" && ':' !in p && '-' !in p && p[0] !in repo && p[0] !in os && p[0] !in tail
    ensures Fill(p, repo + [':'] + (os + ['-'] + (p + tail)), kernel) == repo + [':'] + (os + ['-'] + (kernel + tail))
  {
    FillSplits(p, repo, ':', os + ['-'] + (p + tail), kernel);
    FillSplits(p, os, '-', p + tail, kernel);
    NothingToFill(p, repo, kernel);
    NothingToFill(p, os, kernel);
    FillFirst(p, tail, kernel);
    NothingToFill(p, tail, kernel);
  }

  lemma SamePieces(repo: string, os: string, kernel: string, piece: string, version: string)
    ensures repo + [':'] + (os + ['-'] + (kernel + (piece + "-" + version))) ==
            repo + ":" + os + "-" + kernel + piece + "-" + version
  {
  }

  lemma TypePieceIsPlain(t: DriverType)
    ensures '$' !in TypePiece(t) && DriverTypeTag(t) == TypePiece(t)
  {
  }

  lemma FillFirst(p: string, tail: string, kernel: string)
    requires p != ""
    ensures Fill(p, p + tail, kernel) == kernel + Fill(p, tail, kernel)
  {
    assert (p + tail)[|p|..] == tail;
  }

  /**
   * Version read-back: on every node, whatever its kernel, the text behind the last dash of the
   * loaded image is the version it was built for exactly when the version has no dash and at most
   * 127 characters.
   */
  lemma VersionReadBackExactly(repo: string, os: string, t: DriverType, version: string, kernel: string)
    requires '$' !in version && (|version| >= MAX_TAG ==> ':' !in version)
    ensures VersionOf(LoadedImage(repo, os, t, version, kernel)) == version <==>
            DashFree(version) && |version| < MAX_TAG
  {
    if !DashFree(version) {
      VersionOfIsDashFree(LoadedImage(repo, os, t, version, kernel));
    } else if |version| < MAX_TAG {
      var front := LoadedEnd(repo, os, t, version, kernel);
      BehindDash(front, version);
    } else {
      LongVersionMisread(repo, os, t, version, kernel);
    }
  }

  lemma LongVersionMisread(repo: string, os: string, t: DriverType, version: string, kernel: string)
    requires DashFree(version) && |version| >= MAX_TAG && ':' !in version && '$' !in version
    ensures ':' in VersionOf(LoadedImage(repo, os, t, version, kernel))
  {
    LongVersionCut(os, t, version);
    var tag := Tag(os, t, version);
    assert forall i :: 0 <= i < |tag| ==> tag[i] == version[|version| - MAX_TAG + i];
    PlaceholderParts();
    assert Image(repo, os, t, version) == repo + [':'] + tag;
    FillSplits(PLACEHOLDER, repo, ':', tag, kernel);
    NothingToFill(PLACEHOLDER, tag, kernel);
    var filled := Fill(PLACEHOLDER, repo, kernel);
    VersionOfAppend(filled + [':'], tag);
    VersionOfStep(filled, ':');
    var seen := VersionOf(filled) + [':'] + tag;
    assert seen[|VersionOf(filled)|] == ':';
  }

  /**
   * The readiness test looks for the wanted version at the end of the loaded image. On an image built
   * for u it accepts a dash-free version w exactly when w is a suffix of u, so it cannot tell "6.3"
   * from "16.3".
   */
  lemma ReadinessTestExactly(repo: string, os: string, t: DriverType, u: string, w: string, kernel: string)
    requires |u| < MAX_TAG && '$' !in u && DashFree(w)
    ensures HasSuffix(LoadedImage(repo, os, t, u, kernel), w) <==> HasSuffix(u, w)
  {
    var front := LoadedEnd(repo, os, t, u, kernel);
    SuffixBehindDash(front, u, w);
  }

  lemma SuffixBehindDash(a: string, u: string, w: string)
    requires DashFree(w)
    ensures HasSuffix(a + "-" + u, w) <==> HasSuffix(u, w)
  {
    var s := a + "-" + u;
    assert |s| == |a| + 1 + |u|;
    if |w| <= |u| {
      assert s[|s| - |w|..] == u[|u| - |w|..];
    } else if |w| <= |s| {
      var tail := s[|s| - |w|..];
      assert tail[|w| - |u| - 1] == s[|a|] == '-';
      assert tail == w ==> '-' in w;
    }
  }

  lemma ShorterVersionMistaken(repo: string, os: string, t: DriverType, kernel: string)
    ensures HasSuffix(LoadedImage(repo, os, t, "16.3", kernel), "6.3")
  {
    ReadinessTestExactly(repo, os, t, "16.3", "6.3", kernel);
  }
}
