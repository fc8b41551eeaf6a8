/** Small definitions shared by the whole model. */
module Common {

  datatype Option<+T> = None | Some(value: T)

  function Min(a: int, b: int): int {
    if a < b then a else b
  }

  function Max(a: int, b: int): int {
    if a < b then b else a
  }

  /** No value occurs twice. */
  ghost predicate Distinct<T(!new)>(s: seq<T>) {
    forall i, j :: 0 <= i < j < |s| ==> s[i] != s[j]
  }

  predicate HasSuffix(s: string, t: string) {
    |t| <= |s| && s[|s| - |t|..] == t
  }

  /** Text in front of the first separator is told apart from the text behind it. */
  lemma SplitAtFirst(a1: string, b1: string, a2: string, b2: string, c: char)
    requires c !in a1 && c !in a2 && a1 + [c] + b1 == a2 + [c] + b2
    ensures a1 == a2 && b1 == b2
  {
    var s := a1 + [c] + b1;
    assert s == a2 + [c] + b2;
    assert s[|a1|] == c && s[|a2|] == c;
    assert s[..|a1|] == a1 && s[..|a2|] == a2;
    assert s[|a1| + 1..] == b1 && s[|a2| + 1..] == b2;
  }
}
