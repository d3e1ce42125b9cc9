/** Sequences in which nothing occurs twice, and where a value stands in a sequence. */
module Lists {

  ghost predicate Distinct<T>(xs: seq<T>) {
    forall i, j :: 0 <= i < j < |xs| ==> xs[i] != xs[j]
  }

  /** Entries `i` and `j` differ. Being the only trigger of `NoRepeat`, it keeps that quantifier
      quiet wherever the entries' identity plays no part. */
  ghost predicate Differ<T>(xs: seq<T>, i: int, j: int) {
    0 <= i < j < |xs| ==> xs[i] != xs[j]
  }

  ghost predicate NoRepeat<T(!new)>(xs: seq<T>) {
    forall i, j :: Differ(xs, i, j)
  }

  lemma NoRepeatMeans<T(!new)>(xs: seq<T>)
    ensures NoRepeat(xs) <==> Distinct(xs)
  {
    if NoRepeat(xs) {
      forall i, j | 0 <= i < j < |xs| ensures xs[i] != xs[j] {
        assert Differ(xs, i, j);
      }
    }
  }

  /** The first place where `x` stands. */
  function IndexOf<T(==)>(xs: seq<T>, x: T): (r: nat)
    requires x in xs
    ensures r < |xs| && xs[r] == x && x !in xs[..r]
  {
    if xs[0] == x then 0 else 1 + IndexOf(xs[1..], x)
  }

  lemma Associate<T>(a: seq<T>, b: seq<T>, c: seq<T>)
    ensures (a + b) + c == a + (b + c) && a + [] == a && [] + a == a
  {
  }

  lemma InFront<T>(a: seq<T>, b: seq<T>, rest: seq<T>, mid: seq<T>, all: seq<T>)
    requires a + mid == all && b + rest == mid
    ensures (a + b) + rest == all
  {
    Associate(a, b, rest);
  }

  /** What `b` has behind `a`. */
  function Behind<T>(a: seq<T>, b: seq<T>): seq<T> {
    if |a| <= |b| then b[|a|..] else []
  }
}
