/** Lists of points in time, in seconds, and the ways the remediation limiter thins them out. */
module AttemptLists {

  predicate Sorted(s: seq<int>) {
    forall i, j :: 0 <= i <= j < |s| ==> s[i] <= s[j]
  }

  predicate UpTo(s: seq<int>, now: int) {
    forall i :: 0 <= i < |s| ==> s[i] <= now
  }

  /** The times later than `cut`. */
  function After(s: seq<int>, cut: int): (r: seq<int>)
    ensures |r| <= |s|
    ensures forall x :: x in r ==> x > cut && x in s
  {
    if s == [] then []
    else
      var k := |s| - 1;
      After(s[..k], cut) + if s[k] > cut then [s[k]] else []
  }

  /** Cuts the list at the first time later than `cut`, as the in-memory drop does. */
  function DropPrefix(s: seq<int>, cut: int): seq<int> {
    if s == [] then [] else if s[0] > cut then s else DropPrefix(s[1..], cut)
  }

  /** Keeps the i-th time unless it is more than `w` seconds before the i-th clock reading. */
  function KeepRecent(s: seq<int>, w: int, clock: nat -> int): (r: seq<int>)
    ensures forall x :: x in r ==> x in s
  {
    if s == [] then []
    else
      var k := |s| - 1;
      KeepRecent(s[..k], w, clock) + if s[k] < clock(k) - w then [] else [s[k]]
  }

  /** The times in the half-open interval [from, from + w). */
  function Within(s: seq<int>, from: int, w: int): seq<int> {
    if s == [] then []
    else
      var k := |s| - 1;
      Within(s[..k], from, w) + if from <= s[k] < from + w then [s[k]] else []
  }

  // ----- dropping a prefix refines filtering -----

  /** Nothing at or before the cut comes behind something after it. */
  predicate Settled(s: seq<int>, cut: int) {
    forall i, j :: 0 <= i < j < |s| && s[i] > cut ==> s[j] > cut
  }

  lemma AllAfter(s: seq<int>, cut: int)
    requires forall i :: 0 <= i < |s| ==> s[i] > cut
    ensures After(s, cut) == s
  {
  }

  lemma {:induction false} AfterCons(s: seq<int>, cut: int)
    requires s != []
    ensures After(s, cut) == (if s[0] > cut then [s[0]] else []) + After(s[1..], cut)
  {
    if |s| > 1 {
      var k := |s| - 1;
      AfterCons(s[..k], cut);
      assert s[..k][1..] == s[1..][..k - 1];
      assert s[1..][k - 1] == s[k];
    }
  }

  /** Cutting at the first recent time is filtering exactly for the lists that are settled at the cut. */
  lemma {:induction false} PrefixDropIsFilterExactly(s: seq<int>, cut: int)
    ensures DropPrefix(s, cut) == After(s, cut) <==> Settled(s, cut)
    decreases |s|
  {
    if s != [] {
      if s[0] > cut {
        if Settled(s, cut) {
          AllAfter(s, cut);
        } else {
          var i, j :| 0 <= i < j < |s| && s[i] > cut && s[j] <= cut;
          assert s[j] in s && s[j] !in After(s, cut);
        }
      } else {
        AfterCons(s, cut);
        PrefixDropIsFilterExactly(s[1..], cut);
        assert Settled(s, cut) ==> Settled(s[1..], cut) by {
          assert forall i :: 0 <= i < |s| - 1 ==> s[1..][i] == s[i + 1];
        }
        if Settled(s[1..], cut) {
          forall i, j | 0 <= i < j < |s| && s[i] > cut ensures s[j] > cut {
            assert s[1..][i - 1] == s[i] && s[1..][j - 1] == s[j];
          }
        }
      }
    }
  }

  /** In chronological order every list is settled at every cut. */
  lemma SortedDropIsFilter(s: seq<int>, cut: int)
    requires Sorted(s)
    ensures DropPrefix(s, cut) == After(s, cut)
  {
    PrefixDropIsFilterExactly(s, cut);
  }

  // ----- two lists that agree on what is recent -----

  predicate Agree(a: seq<int>, b: seq<int>, cut: int) {
    After(a, cut) == After(b, cut)
  }

  lemma {:induction false} AfterTwice(s: seq<int>, cut: int, later: int)
    requires cut <= later
    ensures After(After(s, cut), later) == After(s, later)
  {
    if s != [] {
      var k := |s| - 1;
      AfterTwice(s[..k], cut, later);
      if s[k] > cut {
        AfterAppend(After(s[..k], cut), s[k], later);
      } else {
        assert After(s, cut) == After(s[..k], cut);
      }
    }
  }

  lemma AfterAppend(s: seq<int>, x: int, cut: int)
    ensures After(s + [x], cut) == After(s, cut) + if x > cut then [x] else []
  {
    assert (s + [x])[..|s|] == s;
  }

  lemma AgreeLater(a: seq<int>, b: seq<int>, cut: int, later: int)
    requires Agree(a, b, cut) && cut <= later
    ensures Agree(a, b, later)
  {
    AfterTwice(a, cut, later);
    AfterTwice(b, cut, later);
  }

  /** A sorted list whose members occur in a list bounded by x can be followed by x. */
  lemma SortedThen(r: seq<int>, s: seq<int>, x: int)
    requires Sorted(r) && UpTo(s, x) && forall y :: y in r ==> y in s
    ensures Sorted(r + [x])
  {
    forall i | 0 <= i < |r| ensures r[i] <= x {
      assert r[i] in r && r[i] in s;
    }
  }

  lemma {:induction false} AfterKeepsOrder(s: seq<int>, cut: int)
    requires Sorted(s)
    ensures Sorted(After(s, cut))
  {
    if s != [] {
      var k := |s| - 1;
      AfterKeepsOrder(s[..k], cut);
      SortedThen(After(s[..k], cut), s[..k], s[k]);
    }
  }

  lemma {:induction false} KeepRecentKeepsOrder(s: seq<int>, w: int, clock: nat -> int)
    requires Sorted(s)
    ensures Sorted(KeepRecent(s, w, clock))
  {
    if s != [] {
      var k := |s| - 1;
      KeepRecentKeepsOrder(s[..k], w, clock);
      SortedThen(KeepRecent(s[..k], w, clock), s[..k], s[k]);
    }
  }

  /** The sync keeps everything that is recent at its end, however the clock runs meanwhile. */
  lemma {:induction false} KeepRecentAgrees(s: seq<int>, w: int, clock: nat -> int, end: int)
    requires forall i: nat :: clock(i) <= end
    ensures Agree(KeepRecent(s, w, clock), s, end - w)
  {
    if s != [] {
      var k := |s| - 1;
      var r := KeepRecent(s[..k], w, clock);
      KeepRecentAgrees(s[..k], w, clock, end);
      assert clock(k) <= end;
      if s[k] < clock(k) - w {
        assert KeepRecent(s, w, clock) == r;
      } else {
        AfterAppend(r, s[k], end - w);
      }
    }
  }

  /** The positions of the times later than `cut`. */
  function Positions(s: seq<int>, cut: int): (r: seq<nat>)
    ensures forall j :: 0 <= j < |r| ==> r[j] < |s|
  {
    if s == [] then []
    else
      var k := |s| - 1;
      Positions(s[..k], cut) + if s[k] > cut then [k] else []
  }

  lemma KeepRecentAppend(s: seq<int>, x: int, w: int, clock: nat -> int)
    ensures KeepRecent(s + [x], w, clock) == KeepRecent(s, w, clock) + if x < clock(|s|) - w then [] else [x]
  {
    assert (s + [x])[..|s|] == s;
  }

  /** Times that no reading of the clock finds recent may be dropped before. */
  lemma {:induction false} KeepRecentSkips(s: seq<int>, cut: int, w: int, clock: nat -> int, clock': nat -> int)
    requires forall i :: clock(i) - w > cut
    requires forall j :: 0 <= j < |Positions(s, cut)| ==> clock'(j) == clock(Positions(s, cut)[j])
    ensures KeepRecent(After(s, cut), w, clock') == KeepRecent(s, w, clock)
  {
    if s != [] {
      var k := |s| - 1;
      var p := Positions(s[..k], cut);
      forall j | 0 <= j < |p| ensures clock'(j) == clock(p[j]) {
        assert p[j] == Positions(s, cut)[j];
      }
      KeepRecentSkips(s[..k], cut, w, clock, clock');
      assert clock(k) - w > cut;
      if s[k] > cut {
        PositionsFit(s[..k], cut);
        assert Positions(s, cut)[|p|] == k;
        KeepRecentAppend(After(s[..k], cut), s[k], w, clock');
      } else {
        assert After(s, cut) == After(s[..k], cut);
      }
    }
  }

  lemma {:induction false} PositionsFit(s: seq<int>, cut: int)
    ensures |Positions(s, cut)| == |After(s, cut)|
  {
    if s != [] {
      PositionsFit(s[..|s| - 1], cut);
    }
  }

  // ----- spacing of a sorted list -----

  /** Any m + 1 consecutive times span at least w seconds. */
  predicate Spaced(s: seq<int>, m: int, w: int) {
    if m <= 0 then s == [] else forall i :: 0 <= i < |s| - m ==> Gap(s, i, m, w)
  }

  predicate Gap(s: seq<int>, i: int, m: int, w: int)
    requires 0 <= i < |s| - m && m > 0
  {
    s[i + m] >= s[i] + w
  }

  lemma {:induction false} SuffixIsAfter(s: seq<int>, cut: int, from: nat)
    requires from <= |s| && forall i :: from <= i < |s| ==> s[i] > cut
    ensures |After(s, cut)| >= |s| - from
    decreases |s|
  {
    if from < |s| {
      SuffixIsAfter(s[..|s| - 1], cut, from);
    }
  }

  /** Appending keeps the spacing if fewer than m times are recent. */
  lemma SpacedAppend(s: seq<int>, m: int, w: int, x: int)
    requires Sorted(s) && Spaced(s, m, w)
    requires |After(s, x - w)| < m
    ensures Spaced(s + [x], m, w)
  {
    var s' := s + [x];
    forall i | 0 <= i < |s'| - m ensures Gap(s', i, m, w) {
      if i + m == |s| {
        if s[i] > x - w {
          SuffixIsAfter(s, x - w, i);
          assert false;
        }
      } else {
        assert Gap(s, i, m, w);
      }
    }
  }

  lemma {:induction false} WithinConcat(a: seq<int>, b: seq<int>, from: int, w: int)
    ensures Within(a + b, from, w) == Within(a, from, w) + Within(b, from, w)
    decreases |b|
  {
    if b == [] {
      assert a + b == a;
    } else {
      var k := |b| - 1;
      WithinConcat(a, b[..k], from, w);
      assert (a + b)[..|a + b| - 1] == a + b[..k];
    }
  }

  lemma {:induction false} WithinBounds(s: seq<int>, from: int, w: int)
    ensures |Within(s, from, w)| <= |s|
    ensures (forall i :: 0 <= i < |s| ==> s[i] < from) ==> Within(s, from, w) == []
  {
    if s != [] {
      WithinBounds(s[..|s| - 1], from, w);
    }
  }

  /** In a spaced list no half-open interval of length w holds more than m times. */
  lemma {:induction false} SpacedMeansFew(s: seq<int>, m: int, w: int, from: int)
    requires Sorted(s) && Spaced(s, m, w)
    ensures |Within(s, from, w)| <= if m <= 0 then 0 else m
  {
    if s != [] {
      var k := |s| - 1;
      if !(from <= s[k] < from + w) {
        assert Spaced(s[..k], m, w) by {
          forall i | m > 0 && 0 <= i < k - m ensures Gap(s[..k], i, m, w) {
            assert Gap(s, i, m, w);
          }
        }
        SpacedMeansFew(s[..k], m, w, from);
      } else if |s| > m {
        var a, b := s[..|s| - m], s[|s| - m..];
        assert s == a + b;
        assert Gap(s, k - m, m, w);
        assert forall i :: 0 <= i < |a| ==> a[i] < from;
        WithinConcat(a, b, from, w);
        WithinBounds(a, from, w);
        WithinBounds(b, from, w);
      } else {
        WithinBounds(s, from, w);
      }
    }
  }
}
