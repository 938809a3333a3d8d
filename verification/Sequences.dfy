// Taking sequences apart: the pieces come with the equation that joins them, so
// that proofs need not reason about slices.
module Sequences {

  lemma SplitFirst<T>(s: seq<T>) returns (first: T, rest: seq<T>)
    requires s != []
    ensures s == [first] + rest && |rest| + 1 == |s|
    ensures first == s[0] && rest == s[1..]
  {
    first, rest := s[0], s[1..];
  }

  lemma SplitLast<T>(s: seq<T>) returns (init: seq<T>, last: T)
    requires s != []
    ensures s == init + [last] && |init| + 1 == |s|
    ensures init == s[..|s| - 1] && last == s[|s| - 1]
  {
    init, last := s[..|s| - 1], s[|s| - 1];
  }

  lemma SplitAt<T>(s: seq<T>, i: nat) returns (l: seq<T>, x: T, r: seq<T>)
    requires i < |s|
    ensures s == l + [x] + r && |l| == i && s[i] == x
    ensures l == s[..i] && r == s[i + 1..] && l + [x] == s[..i + 1]
  {
    l, x, r := s[..i], s[i], s[i + 1..];
  }
}
