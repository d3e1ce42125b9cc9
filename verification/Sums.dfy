/** Sums over a sequence of threads, the way the protocol invariants count. */
module Sums {

  function Sum<T>(xs: seq<T>, f: T -> nat): nat {
    if xs == [] then 0 else f(xs[0]) + Sum(xs[1..], f)
  }

  lemma {:induction false} SumUpdate<T>(xs: seq<T>, i: nat, x: T, f: T -> nat)
    requires i < |xs|
    ensures Sum(xs[i := x], f) + f(xs[i]) == Sum(xs, f) + f(x)
    decreases |xs|
  {
    if i == 0 {
      assert xs[i := x][1..] == xs[1..];
    } else {
      assert xs[i := x][1..] == xs[1..][i - 1 := x];
      SumUpdate(xs[1..], i - 1, x, f);
    }
  }

  lemma {:induction false} SumAtLeast<T>(xs: seq<T>, i: nat, f: T -> nat)
    requires i < |xs|
    ensures f(xs[i]) <= Sum(xs, f)
    decreases |xs|
  {
    if i > 0 {
      SumAtLeast(xs[1..], i - 1, f);
    }
  }

  lemma {:induction false} SumAtLeastTwo<T>(xs: seq<T>, i: nat, j: nat, f: T -> nat)
    requires i < |xs| && j < |xs| && i != j
    ensures f(xs[i]) + f(xs[j]) <= Sum(xs, f)
    decreases |xs|
  {
    if i == 0 {
      SumAtLeast(xs[1..], j - 1, f);
    } else if j == 0 {
      SumAtLeast(xs[1..], i - 1, f);
    } else {
      SumAtLeastTwo(xs[1..], i - 1, j - 1, f);
    }
  }

  lemma {:induction false} SumWitness<T>(xs: seq<T>, f: T -> nat) returns (i: nat)
    requires Sum(xs, f) > 0
    ensures i < |xs| && f(xs[i]) > 0
    decreases |xs|
  {
    if f(xs[0]) > 0 {
      i := 0;
    } else {
      i := SumWitness(xs[1..], f);
      i := i + 1;
    }
  }

  lemma {:induction false} SumZero<T>(xs: seq<T>, f: T -> nat)
    requires forall i :: 0 <= i < |xs| ==> f(xs[i]) == 0
    ensures Sum(xs, f) == 0
    decreases |xs|
  {
    if xs != [] {
      SumZero(xs[1..], f);
    }
  }

  // ---------------------------------------------------------------- multisets

  lemma MultisetOf<M>(a: seq<M>, b: seq<M>)
    ensures multiset(a + b) == multiset(a) + multiset(b)
  {
  }

  function Gather<T, M>(xs: seq<T>, f: T -> multiset<M>): multiset<M> {
    if xs == [] then multiset{} else f(xs[0]) + Gather(xs[1..], f)
  }

  lemma AddInFront<M>(a: multiset<M>, b: multiset<M>, c: multiset<M>, d: multiset<M>, e: multiset<M>)
    requires b + c == d + e
    ensures (a + b) + c == (a + d) + e && (a + b) + c == (c + b) + a
  {
    assert (a + b) + c == a + (b + c) == a + (d + e);
  }

  /** Taking `a` from what is left over and adding it to what is there keeps the whole. */
  lemma Handover<M>(there: multiset<M>, a: multiset<M>, left: multiset<M>, left': multiset<M>,
                    one: multiset<M>, one': multiset<M>)
    requires left' + one == left + one' && a + one' == one
    ensures (there + a) + left' == there + left
  {
    forall m ensures ((there + a) + left')[m] == (there + left)[m] {
      assert (left' + one)[m] == (left + one')[m] && (a + one')[m] == one[m];
    }
  }

  lemma {:induction false} GatherUpdate<T, M>(xs: seq<T>, i: nat, x: T, f: T -> multiset<M>)
    requires i < |xs|
    ensures Gather(xs[i := x], f) + f(xs[i]) == Gather(xs, f) + f(x)
    decreases |xs|
  {
    if i == 0 {
      assert xs[i := x][1..] == xs[1..];
      var rest := Gather(xs[1..], f);
      AddInFront(f(x), rest, f(xs[0]), rest, f(xs[0]));
    } else {
      assert xs[i := x][1..] == xs[1..][i - 1 := x];
      GatherUpdate(xs[1..], i - 1, x, f);
      AddInFront(f(xs[0]), Gather(xs[1..][i - 1 := x], f), f(xs[i]), Gather(xs[1..], f), f(x));
    }
  }

  lemma {:induction false} GatherEmpty<T, M>(xs: seq<T>, f: T -> multiset<M>)
    requires forall i :: 0 <= i < |xs| ==> f(xs[i]) == multiset{}
    ensures Gather(xs, f) == multiset{}
    decreases |xs|
  {
    if xs != [] {
      GatherEmpty(xs[1..], f);
    }
  }

  lemma {:induction false} GatherSame<T, M>(xs: seq<T>, f: T -> multiset<M>, h: T -> multiset<M>)
    requires forall i :: 0 <= i < |xs| ==> f(xs[i]) == h(xs[i])
    ensures Gather(xs, f) == Gather(xs, h)
    decreases |xs|
  {
    if xs != [] {
      GatherSame(xs[1..], f, h);
    }
  }
}
