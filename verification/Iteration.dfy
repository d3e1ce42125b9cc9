/** Repeating a step, and counting how often a condition holds on the way. */
module Iteration {

  function Iter<T>(f: T -> T, x: T, n: nat): T {
    if n == 0 then x else Iter(f, f(x), n - 1)
  }

  /** At how many of the `n` states from `x` on `hit` holds. */
  function Hits<T>(f: T -> T, x: T, n: nat, hit: T -> bool): nat {
    if n == 0 then 0 else Hits(f, x, n - 1, hit) + (if hit(Iter(f, x, n - 1)) then 1 else 0)
  }

  function Total(cs: seq<nat>): nat {
    if cs == [] then 0 else Total(cs[..|cs| - 1]) + cs[|cs| - 1]
  }

  lemma {:induction false} IterAdd<T>(f: T -> T, x: T, m: nat, n: nat)
    ensures Iter(f, x, m + n) == Iter(f, Iter(f, x, m), n)
    decreases m
  {
    if m > 0 {
      IterAdd(f, f(x), m - 1, n);
    }
  }

  lemma {:induction false} HitsAdd<T>(f: T -> T, x: T, m: nat, n: nat, hit: T -> bool)
    ensures Hits(f, x, m + n, hit) == Hits(f, x, m, hit) + Hits(f, Iter(f, x, m), n, hit)
    decreases n
  {
    if n > 0 {
      IterAdd(f, x, m, n - 1);
      HitsAdd(f, x, m, n - 1, hit);
    }
  }

  lemma {:induction false} HitsSteady<T>(f: T -> T, x: T, n: nat, hit: T -> bool, b: bool)
    requires forall j :: 0 <= j < n ==> hit(Iter(f, x, j)) == b
    ensures Hits(f, x, n, hit) == if b then n else 0
    decreases n
  {
    if n > 0 {
      HitsSteady(f, x, n - 1, hit, b);
    }
  }

  /** `cs[i]` steps lead from `ys[i]` to `ys[i + 1]`. */
  ghost predicate Leg<T(!new)>(f: T -> T, ys: seq<T>, cs: seq<nat>, i: int) {
    0 <= i < |cs| && i + 1 < |ys| ==> Iter(f, ys[i], cs[i]) == ys[i + 1]
  }

  /** `hs[i]` of these steps start in a state where `hit` holds. */
  ghost predicate LegHits<T(!new)>(f: T -> T, ys: seq<T>, cs: seq<nat>, hit: T -> bool, hs: seq<nat>, i: int) {
    0 <= i < |cs| && i < |ys| && i < |hs| ==> Hits(f, ys[i], cs[i], hit) == hs[i]
  }

  /** Legs make a journey. */
  lemma {:induction false} Journey<T(!new)>(f: T -> T, ys: seq<T>, cs: seq<nat>, k: nat)
    requires |ys| == |cs| + 1 && k <= |cs| && forall i :: Leg(f, ys, cs, i)
    ensures Iter(f, ys[0], Total(cs[..k])) == ys[k]
    decreases k
  {
    if k > 0 {
      Journey(f, ys, cs, k - 1);
      assert Leg(f, ys, cs, k - 1);
      assert cs[..k][..k - 1] == cs[..k - 1];
      IterAdd(f, ys[0], Total(cs[..k - 1]), cs[k - 1]);
    }
  }

  lemma {:induction false} JourneyHits<T(!new)>(f: T -> T, ys: seq<T>, cs: seq<nat>, hit: T -> bool,
                                                    hs: seq<nat>, k: nat)
    requires |ys| == |cs| + 1 && |hs| == |cs| && k <= |cs|
    requires forall i :: Leg(f, ys, cs, i)
    requires forall i :: LegHits(f, ys, cs, hit, hs, i)
    ensures Hits(f, ys[0], Total(cs[..k]), hit) == Total(hs[..k])
    decreases k
  {
    if k > 0 {
      Journey(f, ys, cs, k - 1);
      JourneyHits(f, ys, cs, hit, hs, k - 1);
      assert LegHits(f, ys, cs, hit, hs, k - 1);
      assert cs[..k][..k - 1] == cs[..k - 1] && hs[..k][..k - 1] == hs[..k - 1];
      HitsAdd(f, ys[0], Total(cs[..k - 1]), cs[k - 1], hit);
    }
  }

  /** A total with a single non-zero summand. */
  lemma {:induction false} TotalSingle(hs: seq<nat>, i: nat)
    requires i < |hs| && forall j :: 0 <= j < |hs| && j != i ==> hs[j] == 0
    ensures Total(hs) == hs[i]
    decreases |hs|
  {
    if i < |hs| - 1 {
      TotalSingle(hs[..|hs| - 1], i);
    } else {
      TotalZero(hs[..|hs| - 1]);
    }
  }

  lemma {:induction false} TotalZero(hs: seq<nat>)
    requires forall j :: 0 <= j < |hs| ==> hs[j] == 0
    ensures Total(hs) == 0
    decreases |hs|
  {
    if hs != [] {
      TotalZero(hs[..|hs| - 1]);
    }
  }

  /** Coming back to the start any number of times. */
  lemma {:induction false} Loops<T>(f: T -> T, x: T, n: nat, hit: T -> bool, times: nat)
    requires Iter(f, x, n) == x
    ensures times * n >= 0 && times * Hits(f, x, n, hit) >= 0
    ensures Iter(f, x, times * n) == x
    ensures Hits(f, x, times * n, hit) == times * Hits(f, x, n, hit)
    decreases times
  {
    if times > 0 {
      var h := Hits(f, x, n, hit);
      Loops(f, x, n, hit, times - 1);
      assert times * n == (times - 1) * n + n;
      assert times * h == (times - 1) * h + h;
      IterAdd(f, x, (times - 1) * n, n);
      HitsAdd(f, x, (times - 1) * n, n, hit);
    }
  }
}
