/** The sequence operator the containment test is built on. */
module Linq {

  /** No element occurs twice in `s`. */
  predicate Distinct(s: seq<string>) {
    forall i, j :: 0 <= i < j < |s| ==> s[i] != s[j]
  }

  /** `first.Except(second)`: the elements of `first` that do not occur in
      `second`, each once. Equality is exact, so strings compare
      case-sensitively. */
  function Except(first: seq<string>, second: seq<string>): (r: seq<string>)
    ensures forall x :: x in r <==> x in first && x !in second
    ensures Distinct(r)
    ensures |r| <= |first|
  {
    ExceptUnseen(first, set x | x in second)
  }

  /** The elements of `first` not in `seen`, where every element yielded is
      added to `seen`, so that it is yielded only once. */
  function ExceptUnseen(first: seq<string>, seen: set<string>): (r: seq<string>)
    ensures forall x :: x in r <==> x in first && x !in seen
    ensures Distinct(r)
    ensures |r| <= |first|
    decreases |first|
  {
    if first == [] then []
    else if first[0] in seen then ExceptUnseen(first[1..], seen)
    else [first[0]] + ExceptUnseen(first[1..], seen + {first[0]})
  }

  /** `!first.Except(second).Any()` holds exactly when every element of
      `first` occurs in `second`. */
  lemma ExceptEmptyIffContained(first: seq<string>, second: seq<string>)
    ensures Except(first, second) == [] <==> forall x :: x in first ==> x in second
  {
    var r := Except(first, second);
    if r != [] {
      assert r[0] in r;
    }
  }
}
