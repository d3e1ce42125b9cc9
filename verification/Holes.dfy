/** The hole list as a mathematical value: what `alloc_mem`, `free_mem`, `del_slot` and
    `merge` do to the sequence of holes, and what that means for the set of free clicks. */
module Holes {
  import opened Options

  datatype Hole = Hole(base: nat, len: nat) {
    function End(): nat { base + len }

    predicate Has(c: int) { base <= c < base + len }
  }

  /** Sorted by address, every hole non-empty, and every hole ends strictly before the next. */
  ghost predicate Canonical(hs: seq<Hole>) {
    && (forall i :: 0 <= i < |hs| ==> hs[i].len > 0)
    && (forall i, j :: 0 <= i < j < |hs| ==> hs[i].End() < hs[j].base)
  }

  /** Click `c` belongs to some hole of the list. */
  ghost predicate Free(hs: seq<Hole>, c: int) {
    exists i :: 0 <= i < |hs| && hs[i].Has(c)
  }

  /** No click of `a` is a click of `b` (an empty block overlaps nothing). */
  predicate Disjoint(a: Hole, b: Hole) {
    a.len == 0 || b.len == 0 || a.End() <= b.base || b.End() <= a.base
  }

  /** No hole reaches up to the swap base from below. */
  ghost predicate Separated(hs: seq<Hole>, swapBase: nat) {
    forall i :: 0 <= i < |hs| && hs[i].base < swapBase ==> hs[i].End() < swapBase
  }

  ghost predicate DisjointFromAll(hs: seq<Hole>, b: Hole) {
    forall i :: 0 <= i < |hs| ==> Disjoint(hs[i], b)
  }

  function TotalLen(hs: seq<Hole>): nat {
    if hs == [] then 0 else hs[0].len + TotalLen(hs[1..])
  }

  // ---------------------------------------------------------------- operations

  function RemoveAt<T>(xs: seq<T>, k: nat): seq<T>
    requires k < |xs|
  {
    xs[..k] + xs[k + 1..]
  }

  /** Bite `n` clicks off the front of hole `i`; a hole used up completely leaves the list. */
  function Carve(hs: seq<Hole>, i: nat, n: nat): seq<Hole>
    requires i < |hs| && n <= hs[i].len
  {
    if hs[i].len == n then RemoveAt(hs, i)
    else hs[i := Hole(hs[i].base + n, hs[i].len - n)]
  }

  /** Where `free_mem` links a block in: before the first hole that starts at or above it. */
  function Position(hs: seq<Hole>, base: nat): (r: nat)
    ensures r <= |hs|
    ensures forall i :: 0 <= i < r ==> hs[i].base < base
    ensures r < |hs| ==> base <= hs[r].base
  {
    if hs == [] || base <= hs[0].base then 0 else 1 + Position(hs[1..], base)
  }

  /** One half of `merge`: hole `k` swallows its successor when the two touch. */
  function AbsorbNext(hs: seq<Hole>, k: nat): seq<Hole>
    requires k < |hs|
  {
    if k + 1 < |hs| && hs[k].End() == hs[k + 1].base
    then hs[..k] + [Hole(hs[k].base, hs[k].len + hs[k + 1].len)] + hs[k + 2..]
    else hs
  }

  /** `merge`: two attempts; after a failed first attempt the second starts one hole later. */
  function MergeAt(hs: seq<Hole>, k: nat): seq<Hole>
    requires k < |hs|
  {
    var once := AbsorbNext(hs, k);
    var k' := if |once| < |hs| then k else k + 1;
    if k' < |once| then AbsorbNext(once, k') else once
  }

  /** `free_mem`: insert the block in address order and merge around it. */
  function Release(hs: seq<Hole>, b: Hole): seq<Hole> {
    if b.len == 0 then hs
    else
      var i := Position(hs, b.base);
      MergeAt(hs[..i] + [b] + hs[i..], if i == 0 then 0 else i - 1)
  }

  /** Number of leading holes below the swap base: the stretch both policies walk. */
  function RegularPrefix(hs: seq<Hole>, swapBase: nat): (r: nat)
    ensures r <= |hs|
    ensures forall i :: 0 <= i < r ==> hs[i].base < swapBase
    ensures r < |hs| ==> swapBase <= hs[r].base
  {
    if hs == [] || swapBase <= hs[0].base then 0 else 1 + RegularPrefix(hs[1..], swapBase)
  }

  /** First fit: the earliest hole long enough among the leading regular ones. */
  function FirstFit(hs: seq<Hole>, swapBase: nat, n: nat): (r: Option<nat>)
    ensures r.Some? ==>
              && r.value < RegularPrefix(hs, swapBase)
              && hs[r.value].len >= n
              && forall j :: 0 <= j < r.value ==> hs[j].len < n
    ensures r.None? ==> forall j :: 0 <= j < RegularPrefix(hs, swapBase) ==> hs[j].len < n
  {
    if hs == [] || swapBase <= hs[0].base then None
    else if hs[0].len >= n then Some(0)
    else
      match FirstFit(hs[1..], swapBase, n)
      case None => None
      case Some(i) => Some(i + 1)
  }

  /** The earliest longest hole among the first `m`. */
  function LongestOf(hs: seq<Hole>, m: nat): (r: nat)
    requires 0 < m <= |hs|
    ensures r < m
    ensures forall j :: 0 <= j < m ==> hs[j].len <= hs[r].len
    ensures forall j :: 0 <= j < r ==> hs[j].len < hs[r].len
  {
    if m == 1 then 0
    else
      var k := LongestOf(hs, m - 1);
      if hs[m - 1].len > hs[k].len then m - 1 else k
  }

  /** Worst fit's champion. It starts as the list head, whatever that is, and is only
      challenged by holes below the swap base. */
  function WorstIndex(hs: seq<Hole>, swapBase: nat): (r: nat)
    requires hs != []
    ensures r < |hs|
  {
    var m := RegularPrefix(hs, swapBase);
    LongestOf(hs, if m == 0 then 1 else m)
  }

  function WorstFit(hs: seq<Hole>, swapBase: nat, n: nat): Option<nat> {
    if hs == [] then None
    else
      var i := WorstIndex(hs, swapBase);
      if hs[i].len >= n then Some(i) else None
  }

  /** The hole one attempt of `alloc_mem` takes under the policy in force. */
  function Choose(worst: bool, hs: seq<Hole>, swapBase: nat, n: nat): (r: Option<nat>)
    ensures r.Some? ==> r.value < |hs| && hs[r.value].len >= n
  {
    if worst then WorstFit(hs, swapBase, n) else FirstFit(hs, swapBase, n)
  }

  /** `swap_out`'s search: the first hole at or above the swap base that is long enough. */
  function SwapFit(hs: seq<Hole>, swapBase: nat, n: nat): (r: Option<nat>)
    ensures r.Some? ==>
              && r.value < |hs|
              && hs[r.value].base >= swapBase && hs[r.value].len >= n
              && forall j :: 0 <= j < r.value ==> hs[j].base < swapBase || hs[j].len < n
    ensures r.None? ==> forall j :: 0 <= j < |hs| ==> hs[j].base < swapBase || hs[j].len < n
  {
    if hs == [] then None
    else if hs[0].base >= swapBase && hs[0].len >= n then Some(0)
    else
      match SwapFit(hs[1..], swapBase, n)
      case None => None
      case Some(i) => Some(i + 1)
  }

  /** The situation in which worst fit reaches into swap space: it seeds its champion with
      the list head, and the head is a swap hole long enough for the request. */
  predicate PicksSwap(worst: bool, hs: seq<Hole>, swapBase: nat, n: nat) {
    worst && hs != [] && hs[0].base >= swapBase && hs[0].len >= n
  }

  /** The holes below the swap base, wherever they stand. */
  function Regular(hs: seq<Hole>, swapBase: nat): (r: seq<Hole>)
    ensures |r| <= |hs|
    ensures forall i :: 0 <= i < |r| ==> r[i].base < swapBase
  {
    if hs == [] then []
    else (if hs[0].base < swapBase then [hs[0]] else []) + Regular(hs[1..], swapBase)
  }

  /** In a canonical list the regular holes are the leading ones. */
  lemma {:induction false} RegularIsPrefix(hs: seq<Hole>, swapBase: nat)
    requires Canonical(hs)
    ensures Regular(hs, swapBase) == hs[..RegularPrefix(hs, swapBase)]
    decreases |hs|
  {
    if hs != [] {
      RegularIsPrefix(hs[1..], swapBase);
      if hs[0].base >= swapBase {
        assert RegularPrefix(hs[1..], swapBase) == 0;
      }
    }
  }

  // ---------------------------------------------------------------- walking the list

  /** A walk that stopped at hole `i` has passed the whole regular stretch. */
  lemma WalkedPrefix(hs: seq<Hole>, swapBase: nat, i: nat)
    requires i <= |hs| && forall j :: 0 <= j < i ==> hs[j].base < swapBase
    requires i < |hs| ==> hs[i].base >= swapBase
    ensures RegularPrefix(hs, swapBase) == i
  {
  }

  lemma WalkedFirstFit(hs: seq<Hole>, swapBase: nat, n: nat, i: nat)
    requires i <= |hs| && forall j :: 0 <= j < i ==> hs[j].base < swapBase && hs[j].len < n
    requires i < |hs| ==> hs[i].base >= swapBase || hs[i].len >= n
    ensures FirstFit(hs, swapBase, n) == if i < |hs| && hs[i].base < swapBase then Some(i) else None
  {
    if i == |hs| || hs[i].base >= swapBase {
      WalkedPrefix(hs, swapBase, i);
    }
  }

  /** The champion of worst fit's walk after `i` holes: the head before the first step. */
  function Champion(hs: seq<Hole>, i: nat): nat
    requires i <= |hs|
  {
    if i == 0 then 0 else LongestOf(hs, i)
  }

  lemma WalkedChampion(hs: seq<Hole>, i: nat)
    requires i < |hs|
    ensures Champion(hs, i) < |hs|
    ensures Champion(hs, i + 1) == if hs[i].len > hs[Champion(hs, i)].len then i else Champion(hs, i)
  {
  }

  lemma WalkedPosition(hs: seq<Hole>, base: nat, i: nat)
    requires i <= |hs| && forall j :: 0 <= j < i ==> hs[j].base < base
    requires i < |hs| ==> base <= hs[i].base
    ensures Position(hs, base) == i
  {
  }

  // ---------------------------------------------------------------- canonical form

  lemma FreeTail(hs: seq<Hole>, c: int)
    requires hs != []
    ensures Free(hs, c) <==> hs[0].Has(c) || Free(hs[1..], c)
  {
    if Free(hs, c) {
      var i :| 0 <= i < |hs| && hs[i].Has(c);
      if i > 0 {
        assert hs[1..][i - 1].Has(c);
      }
    }
    if Free(hs[1..], c) {
      var i :| 0 <= i < |hs[1..]| && hs[1..][i].Has(c);
      assert hs[i + 1].Has(c);
    }
  }

  /** Coalescing leaves at least one click that is not free right behind every hole. */
  lemma EndNotFree(hs: seq<Hole>, i: nat)
    requires Canonical(hs) && i < |hs|
    ensures !Free(hs, hs[i].End())
  {
  }

  lemma FirstHoleDetermined(a: seq<Hole>, b: seq<Hole>)
    requires Canonical(a) && Canonical(b) && a != []
    requires forall c :: Free(a, c) <==> Free(b, c)
    ensures b != [] && b[0].base <= a[0].base
    ensures b[0].base == a[0].base ==> b[0].len <= a[0].len
  {
    assert a[0].Has(a[0].base);
    assert Free(b, a[0].base);
    if b[0].base == a[0].base {
      EndNotFree(a, 0);
      if b[0].len > a[0].len {
        assert b[0].Has(a[0].End());
        assert false;
      }
    }
  }

  /** A canonical list is the only canonical list with its free clicks. */
  lemma {:induction false} CanonicalUnique(a: seq<Hole>, b: seq<Hole>)
    requires Canonical(a) && Canonical(b)
    requires forall c :: Free(a, c) <==> Free(b, c)
    ensures a == b
    decreases |a|
  {
    if a == [] {
      if b != [] {
        FirstHoleDetermined(b, a);
      }
    } else {
      FirstHoleDetermined(a, b);
      FirstHoleDetermined(b, a);
      assert a[0] == b[0];
      forall c ensures Free(a[1..], c) <==> Free(b[1..], c) {
        FreeTail(a, c);
        FreeTail(b, c);
        assert !(a[0].Has(c) && Free(a[1..], c));
        assert !(b[0].Has(c) && Free(b[1..], c));
      }
      CanonicalUnique(a[1..], b[1..]);
      assert a == [a[0]] + a[1..];
      assert b == [b[0]] + b[1..];
    }
  }

  // ---------------------------------------------------------------- pieces of a list

  lemma FreeConcat(a: seq<Hole>, b: seq<Hole>, c: int)
    ensures Free(a + b, c) <==> Free(a, c) || Free(b, c)
  {
    if Free(a + b, c) {
      var i :| 0 <= i < |a + b| && (a + b)[i].Has(c);
      if i < |a| { assert a[i].Has(c); } else { assert b[i - |a|].Has(c); }
    }
    if Free(a, c) {
      var i :| 0 <= i < |a| && a[i].Has(c);
      assert (a + b)[i].Has(c);
    }
    if Free(b, c) {
      var i :| 0 <= i < |b| && b[i].Has(c);
      assert (a + b)[|a| + i].Has(c);
    }
  }

  lemma FreeSingle(h: Hole, c: int)
    ensures Free([h], c) <==> h.Has(c)
  {
    if h.Has(c) { assert [h][0].Has(c); }
  }

  lemma FreeThree(a: seq<Hole>, h: Hole, b: seq<Hole>, c: int)
    ensures Free(a + [h] + b, c) <==> Free(a, c) || h.Has(c) || Free(b, c)
  {
    FreeConcat(a + [h], b, c);
    FreeConcat(a, [h], c);
    FreeSingle(h, c);
  }

  /** A stretch of a canonical list is canonical, and its clicks lie between its neighbours. */
  lemma CanonicalSlice(hs: seq<Hole>, lo: nat, hi: nat)
    requires Canonical(hs) && lo <= hi <= |hs|
    ensures Canonical(hs[lo..hi])
    ensures forall c :: Free(hs[lo..hi], c) && lo > 0 ==> hs[lo - 1].End() < c
    ensures forall c :: Free(hs[lo..hi], c) && hi < |hs| ==> c < hs[hi].base
  {
  }

  lemma CanonicalThree(a: seq<Hole>, h: Hole, b: seq<Hole>)
    requires Canonical(a) && Canonical(b) && h.len > 0
    requires a != [] ==> a[|a| - 1].End() < h.base
    requires b != [] ==> h.End() < b[0].base
    ensures Canonical(a + [h] + b)
  {
    var r := a + [h] + b;
    forall i, j | 0 <= i < j < |r| ensures r[i].End() < r[j].base {
      if i < |a| { assert r[i] == a[i]; assert r[i].End() <= a[|a| - 1].End(); }
      if j > |a| { assert r[j] == b[j - |a| - 1]; assert b[0].base <= r[j].base; }
    }
  }

  // ---------------------------------------------------------------- carving

  /** Carving hands out clicks that were all free and leaves exactly the others free. */
  lemma CarveCorrect(hs: seq<Hole>, i: nat, n: nat)
    requires Canonical(hs) && i < |hs| && n <= hs[i].len
    ensures Canonical(Carve(hs, i, n))
    ensures forall c :: Hole(hs[i].base, n).Has(c) ==> Free(hs, c)
    ensures forall c :: Free(Carve(hs, i, n), c) <==> Free(hs, c) && !Hole(hs[i].base, n).Has(c)
  {
    var pre, post := hs[..i], hs[i + 1..];
    CanonicalSlice(hs, 0, i);
    CanonicalSlice(hs, i + 1, |hs|);
    assert hs[i + 1..] == hs[i + 1..|hs|];
    if hs[i].len == n {
      var r: seq<Hole> := pre + post;
      forall x, y | 0 <= x < y < |r| ensures r[x].End() < r[y].base {}
    } else {
      var rest := Hole(hs[i].base + n, hs[i].len - n);
      assert Carve(hs, i, n) == pre + [rest] + post;
      CanonicalThree(pre, rest, post);
    }
    forall c
      ensures Hole(hs[i].base, n).Has(c) ==> Free(hs, c)
      ensures Free(Carve(hs, i, n), c) <==> Free(hs, c) && !Hole(hs[i].base, n).Has(c)
    {
      CarveClick(hs, i, n, c);
    }
  }

  lemma CarveClick(hs: seq<Hole>, i: nat, n: nat, c: int)
    requires Canonical(hs) && i < |hs| && n <= hs[i].len
    ensures Hole(hs[i].base, n).Has(c) ==> Free(hs, c)
    ensures Free(Carve(hs, i, n), c) <==> Free(hs, c) && !Hole(hs[i].base, n).Has(c)
  {
    var pre, post := hs[..i], hs[i + 1..];
    var rest := Hole(hs[i].base + n, hs[i].len - n);
    assert hs == pre + [hs[i]] + post;
    FreeThree(pre, hs[i], post, c);
    CanonicalSlice(hs, 0, i);
    CanonicalSlice(hs, i + 1, |hs|);
    assert post == hs[i + 1..|hs|];
    assert hs[i].Has(c) ==> !Free(pre, c) && !Free(post, c);
    if hs[i].len == n {
      FreeConcat(pre, post, c);
    } else {
      assert Carve(hs, i, n) == pre + [rest] + post;
      FreeThree(pre, rest, post, c);
    }
  }

  // ---------------------------------------------------------------- releasing

  /** Which neighbours a block at list position `i` touches. */
  predicate TouchesLeft(hs: seq<Hole>, i: nat, b: Hole)
    requires i <= |hs|
  {
    i > 0 && hs[i - 1].End() == b.base
  }

  predicate TouchesRight(hs: seq<Hole>, i: nat, b: Hole)
    requires i <= |hs|
  {
    i < |hs| && b.End() == hs[i].base
  }

  /** The block grown over the neighbours it touches. */
  function Grown(hs: seq<Hole>, i: nat, b: Hole): Hole
    requires i <= |hs|
  {
    var left := if TouchesLeft(hs, i, b) then hs[i - 1].len else 0;
    var right := if TouchesRight(hs, i, b) then hs[i].len else 0;
    Hole(if TouchesLeft(hs, i, b) then hs[i - 1].base else b.base, left + b.len + right)
  }

  function LeftOf(hs: seq<Hole>, i: nat, b: Hole): seq<Hole>
    requires i <= |hs|
  {
    hs[..if TouchesLeft(hs, i, b) then i - 1 else i]
  }

  function RightOf(hs: seq<Hole>, i: nat, b: Hole): seq<Hole>
    requires i <= |hs|
  {
    hs[if TouchesRight(hs, i, b) then i + 1 else i..]
  }

  /** In a canonical list no two neighbours touch, so a merge attempt between them is idle. */
  lemma AbsorbIdle(hs: seq<Hole>, k: nat)
    requires k < |hs|
    requires k + 1 < |hs| ==> hs[k].End() != hs[k + 1].base
    ensures AbsorbNext(hs, k) == hs
  {
  }

  lemma AbsorbSplit(a: seq<Hole>, x: Hole, y: Hole, b: seq<Hole>)
    ensures AbsorbNext(a + [x, y] + b, |a|) ==
            if x.End() == y.base then a + [Hole(x.base, x.len + y.len)] + b else a + [x, y] + b
  {
    var l := a + [x, y] + b;
    assert l[|a|] == x && l[|a| + 1] == y;
    assert l[..|a|] == a && l[|a| + 2..] == b;
  }

  lemma AbsorbLast(a: seq<Hole>, x: Hole)
    ensures AbsorbNext(a + [x], |a|) == a + [x]
  {
  }

  /** The second half of `merge`, once the block stands between `a` and `post`. */
  lemma AbsorbRight(a: seq<Hole>, x: Hole, post: seq<Hole>)
    ensures AbsorbNext(a + [x] + post, |a|) ==
            if post != [] && x.End() == post[0].base
            then a + [Hole(x.base, x.len + post[0].len)] + post[1..]
            else a + [x] + post
  {
    if post == [] {
      assert a + [x] + post == a + [x];
      AbsorbLast(a, x);
    } else {
      assert a + [x] + post == a + [x, post[0]] + post[1..];
      AbsorbSplit(a, x, post[0], post[1..]);
    }
  }

  /** Two merge attempts always reach the closed form, including the three-way merge:
      the block grown over its touching neighbours, between the holes it does not touch. */
  lemma ReleaseForm(hs: seq<Hole>, b: Hole)
    requires Canonical(hs) && b.len > 0
    ensures var i := Position(hs, b.base);
            Release(hs, b) == LeftOf(hs, i, b) + [Grown(hs, i, b)] + RightOf(hs, i, b)
  {
    var i := Position(hs, b.base);
    if i == 0 {
      ReleaseFrontForm(hs, b);
    } else {
      ReleaseInnerForm(hs, i, b);
    }
  }

  /** The first attempt swallows the block; the second starts at the same hole. */
  lemma MergeTouching(a: seq<Hole>, p: Hole, b: Hole, post: seq<Hole>, k: nat, g: Hole)
    requires p.End() == b.base && k == |a| && g == Hole(p.base, p.len + b.len)
    ensures MergeAt(a + [p, b] + post, k) == AbsorbNext(a + [g] + post, k)
  {
    AbsorbSplit(a, p, b, post);
  }

  /** The first attempt fails; the second starts at the block. */
  lemma MergeApart(a: seq<Hole>, p: Hole, b: Hole, post: seq<Hole>, k: nat, pre: seq<Hole>)
    requires p.End() != b.base && k == |a| && pre == a + [p]
    ensures MergeAt(a + [p, b] + post, k) == AbsorbNext(pre + [b] + post, k + 1)
  {
    AbsorbSplit(a, p, b, post);
    assert a + [p, b] + post == pre + [b] + post;
  }

  /** The attempt in front of the rest of the list, for a hole that ends where the block ends. */
  lemma RightForm(pre: seq<Hole>, g: Hole, hs: seq<Hole>, i: nat, b: Hole, k: nat, grown: Hole)
    requires i <= |hs| && g.End() == b.End() && k == |pre|
    requires grown == Hole(g.base, g.len + if TouchesRight(hs, i, b) then hs[i].len else 0)
    ensures AbsorbNext(pre + [g] + hs[i..], k) == pre + [grown] + RightOf(hs, i, b)
  {
    AbsorbRight(pre, g, hs[i..]);
    if i < |hs| {
      assert hs[i..][0] == hs[i] && hs[i..][1..] == hs[i + 1..];
    }
  }

  lemma InnerSplit(hs: seq<Hole>, i: nat, b: Hole)
    requires 0 < i <= |hs|
    ensures hs[..i] == hs[..i - 1] + [hs[i - 1]]
    ensures hs[..i] + [b] + hs[i..] == hs[..i - 1] + [hs[i - 1], b] + hs[i..]
  {
  }

  lemma TouchingParts(hs: seq<Hole>, i: nat, b: Hole)
    requires 0 < i <= |hs| && TouchesLeft(hs, i, b)
    ensures LeftOf(hs, i, b) == hs[..i - 1]
    ensures Grown(hs, i, b) ==
            Hole(hs[i - 1].base, hs[i - 1].len + b.len + if TouchesRight(hs, i, b) then hs[i].len else 0)
  {
  }

  lemma ReleaseTouching(hs: seq<Hole>, i: nat, b: Hole, left: seq<Hole>, grown: Hole)
    requires 0 < i <= |hs| && TouchesLeft(hs, i, b) && left == hs[..i - 1] && grown == Grown(hs, i, b)
    ensures MergeAt(left + [hs[i - 1], b] + hs[i..], i - 1) == left + [grown] + RightOf(hs, i, b)
  {
    TouchingParts(hs, i, b);
    var p := hs[i - 1];
    var g := Hole(p.base, p.len + b.len);
    MergeTouching(left, p, b, hs[i..], i - 1, g);
    RightForm(left, g, hs, i, b, i - 1, grown);
  }

  lemma ReleaseApart(hs: seq<Hole>, i: nat, b: Hole, left: seq<Hole>, grown: Hole)
    requires 0 < i <= |hs| && !TouchesLeft(hs, i, b) && left == hs[..i] && grown == Grown(hs, i, b)
    ensures MergeAt(hs[..i - 1] + [hs[i - 1], b] + hs[i..], i - 1) == left + [grown] + RightOf(hs, i, b)
  {
    InnerSplit(hs, i, b);
    MergeApart(hs[..i - 1], hs[i - 1], b, hs[i..], i - 1, left);
    RightForm(left, b, hs, i, b, i, grown);
  }

  lemma ReleaseInnerForm(hs: seq<Hole>, i: nat, b: Hole)
    requires 0 < i <= |hs|
    ensures MergeAt(hs[..i] + [b] + hs[i..], i - 1) == LeftOf(hs, i, b) + [Grown(hs, i, b)] + RightOf(hs, i, b)
  {
    InnerSplit(hs, i, b);
    if TouchesLeft(hs, i, b) {
      TouchingParts(hs, i, b);
      ReleaseTouching(hs, i, b, hs[..i - 1], Grown(hs, i, b));
    } else {
      ReleaseApart(hs, i, b, LeftOf(hs, i, b), Grown(hs, i, b));
    }
  }

  lemma ReleaseFrontForm(hs: seq<Hole>, b: Hole)
    requires Canonical(hs) && b.len > 0
    ensures MergeAt(hs[..0] + [b] + hs[0..], 0) == LeftOf(hs, 0, b) + [Grown(hs, 0, b)] + RightOf(hs, 0, b)
  {
    var l := [b] + hs;
    assert l == [] + [b] + hs && l == hs[..0] + [b] + hs[0..];
    AbsorbRight([], b, hs);
    var once := AbsorbNext(l, 0);
    if TouchesRight(hs, 0, b) {
      var g := Hole(b.base, b.len + hs[0].len);
      assert once == [g] + hs[1..];
      AbsorbIdle(once, 0);
    } else {
      assert once == l;
      if hs != [] {
        AbsorbIdle(l, 1);
      }
    }
  }

  lemma GrownFitsLeft(hs: seq<Hole>, i: nat, b: Hole)
    requires Canonical(hs) && b.len > 0 && i <= |hs| && DisjointFromAll(hs, b)
    requires i > 0 ==> hs[i - 1].base < b.base
    ensures LeftOf(hs, i, b) != [] ==> LeftOf(hs, i, b)[|LeftOf(hs, i, b)| - 1].End() < Grown(hs, i, b).base
  {
    if i > 0 {
      assert Disjoint(hs[i - 1], b);
      if TouchesLeft(hs, i, b) && i > 1 { assert hs[i - 2].End() < hs[i - 1].base; }
    }
  }

  lemma GrownFitsRight(hs: seq<Hole>, i: nat, b: Hole)
    requires Canonical(hs) && b.len > 0 && i <= |hs| && DisjointFromAll(hs, b)
    requires i < |hs| ==> b.base <= hs[i].base
    ensures RightOf(hs, i, b) != [] ==> Grown(hs, i, b).End() < RightOf(hs, i, b)[0].base
  {
    if i < |hs| {
      assert Disjoint(hs[i], b);
      if TouchesRight(hs, i, b) && i + 1 < |hs| { assert hs[i].End() < hs[i + 1].base; }
    }
  }

  /** The grown block keeps strict gaps to both sides when the freed one overlaps nothing. */
  lemma GrownFits(hs: seq<Hole>, b: Hole)
    requires Canonical(hs) && b.len > 0 && DisjointFromAll(hs, b)
    ensures var i := Position(hs, b.base);
            var pre, g, post := LeftOf(hs, i, b), Grown(hs, i, b), RightOf(hs, i, b);
            && (pre != [] ==> pre[|pre| - 1].End() < g.base)
            && (post != [] ==> g.End() < post[0].base)
  {
    GrownFitsLeft(hs, Position(hs, b.base), b);
    GrownFitsRight(hs, Position(hs, b.base), b);
  }

  lemma GrownCanonical(hs: seq<Hole>, b: Hole)
    requires Canonical(hs) && b.len > 0 && DisjointFromAll(hs, b)
    ensures var i := Position(hs, b.base);
            Canonical(LeftOf(hs, i, b) + [Grown(hs, i, b)] + RightOf(hs, i, b))
  {
    GrownFits(hs, b);
    CanonicalParts(hs, Position(hs, b.base), b);
  }

  lemma CanonicalParts(hs: seq<Hole>, i: nat, b: Hole)
    requires Canonical(hs) && i <= |hs| && b.len > 0
    requires var pre, g, post := LeftOf(hs, i, b), Grown(hs, i, b), RightOf(hs, i, b);
             && (pre != [] ==> pre[|pre| - 1].End() < g.base)
             && (post != [] ==> g.End() < post[0].base)
    ensures Canonical(LeftOf(hs, i, b) + [Grown(hs, i, b)] + RightOf(hs, i, b))
  {
    var pre, g, post := LeftOf(hs, i, b), Grown(hs, i, b), RightOf(hs, i, b);
    CanonicalSlice(hs, 0, |pre|);
    CanonicalSlice(hs, |hs| - |post|, |hs|);
    CanonicalThree(pre, g, post);
  }

  /** `free_mem` keeps the list sorted and coalesced exactly when the block it is given
      overlaps no hole; it never checks this itself. */
  lemma ReleaseCanonicalIff(hs: seq<Hole>, b: Hole)
    requires Canonical(hs) && b.len > 0
    ensures Canonical(Release(hs, b)) <==> DisjointFromAll(hs, b)
  {
    ReleaseForm(hs, b);
    if DisjointFromAll(hs, b) {
      GrownCanonical(hs, b);
    } else {
      OverlapBreaks(hs, b);
    }
  }

  /** Two neighbours of which the second starts no later than the first ends. */
  lemma NotCanonicalAt(r: seq<Hole>, k: nat)
    requires k + 1 < |r| && r[k].End() >= r[k + 1].base
    ensures !Canonical(r)
  {
  }

  lemma OverlapBreaks(hs: seq<Hole>, b: Hole)
    requires Canonical(hs) && b.len > 0 && !DisjointFromAll(hs, b)
    ensures var i := Position(hs, b.base);
            !Canonical(LeftOf(hs, i, b) + [Grown(hs, i, b)] + RightOf(hs, i, b))
  {
    var i := Position(hs, b.base);
    var j :| 0 <= j < |hs| && !Disjoint(hs[j], b);
    if j < i {
      OverlapLeft(hs, b, j);
    } else {
      OverlapReaches(hs, i, j, b);
      OverlapRightAt(hs, i, b);
    }
  }

  lemma OverlapLeft(hs: seq<Hole>, b: Hole, j: nat)
    requires Canonical(hs) && b.len > 0 && j < Position(hs, b.base) && !Disjoint(hs[j], b)
    ensures var i := Position(hs, b.base);
            !Canonical(LeftOf(hs, i, b) + [Grown(hs, i, b)] + RightOf(hs, i, b))
  {
    var i := Position(hs, b.base);
    assert hs[j].End() <= hs[i - 1].End();
    assert !TouchesLeft(hs, i, b);
    var r := hs[..i] + [Grown(hs, i, b)] + RightOf(hs, i, b);
    assert r[i - 1] == hs[i - 1] && r[i] == Grown(hs, i, b);
    NotCanonicalAt(r, i - 1);
  }

  lemma OverlapReaches(hs: seq<Hole>, i: nat, j: nat, b: Hole)
    requires Canonical(hs) && i <= j < |hs| && !Disjoint(hs[j], b)
    ensures hs[i].base < b.End()
  {
  }

  lemma OverlapRightAt(hs: seq<Hole>, i: nat, b: Hole)
    requires i < |hs| && hs[i].base < b.End()
    ensures !Canonical(LeftOf(hs, i, b) + [Grown(hs, i, b)] + RightOf(hs, i, b))
  {
    var pre, g := LeftOf(hs, i, b), Grown(hs, i, b);
    assert !TouchesRight(hs, i, b) && g.End() == b.End();
    var r := pre + [g] + hs[i..];
    assert r[|pre|] == g && r[|pre| + 1] == hs[i];
    NotCanonicalAt(r, |pre|);
  }

  /** `free_mem` of a block that overlaps no hole frees exactly that block's clicks. */
  lemma ReleaseCorrect(hs: seq<Hole>, b: Hole)
    requires Canonical(hs) && DisjointFromAll(hs, b)
    ensures Canonical(Release(hs, b))
    ensures forall c :: Free(Release(hs, b), c) <==> Free(hs, c) || b.Has(c)
  {
    if b.len == 0 { return; }
    ReleaseCanonicalIff(hs, b);
    ReleaseForm(hs, b);
    var i := Position(hs, b.base);
    var pre, g, post := LeftOf(hs, i, b), Grown(hs, i, b), RightOf(hs, i, b);
    forall c ensures Free(Release(hs, b), c) <==> Free(hs, c) || b.Has(c) {
      FreeThree(pre, g, post, c);
      GrownClick(hs, i, b, c);
    }
  }

  lemma GrownClick(hs: seq<Hole>, i: nat, b: Hole, c: int)
    requires i <= |hs| && b.len > 0
    ensures Free(LeftOf(hs, i, b), c) || Grown(hs, i, b).Has(c) || Free(RightOf(hs, i, b), c)
            <==> Free(hs, c) || b.Has(c)
  {
    var pre, post := LeftOf(hs, i, b), RightOf(hs, i, b);
    assert hs == hs[..i] + hs[i..];
    FreeConcat(hs[..i], hs[i..], c);
    if TouchesLeft(hs, i, b) {
      assert hs[..i] == pre + [hs[i - 1]];
      FreeConcat(pre, [hs[i - 1]], c);
      FreeSingle(hs[i - 1], c);
    }
    if TouchesRight(hs, i, b) {
      assert hs[i..] == [hs[i]] + post;
      FreeConcat([hs[i]], post, c);
      FreeSingle(hs[i], c);
    }
  }

  /** Freeing a block just carved restores the list exactly, whichever hole it came from. */
  lemma CarveThenRelease(hs: seq<Hole>, i: nat, n: nat)
    requires Canonical(hs) && i < |hs| && n <= hs[i].len
    ensures Release(Carve(hs, i, n), Hole(hs[i].base, n)) == hs
  {
    var b := Hole(hs[i].base, n);
    var r := Carve(hs, i, n);
    CarveCorrect(hs, i, n);
    assert DisjointFromAll(r, b);
    ReleaseCorrect(r, b);
    CanonicalUnique(Release(r, b), hs);
  }

  /** Blocks may be freed in any order: the resulting list is the same. */
  lemma ReleaseCommutes(hs: seq<Hole>, a: Hole, b: Hole)
    requires Canonical(hs) && DisjointFromAll(hs, a) && DisjointFromAll(hs, b) && Disjoint(a, b)
    ensures Release(Release(hs, a), b) == Release(Release(hs, b), a)
  {
    ReleaseCorrect(hs, a);
    ReleaseCorrect(hs, b);
    ReleaseKeepsDisjoint(hs, a, b);
    ReleaseKeepsDisjoint(hs, b, a);
    ReleaseCorrect(Release(hs, a), b);
    ReleaseCorrect(Release(hs, b), a);
    CanonicalUnique(Release(Release(hs, a), b), Release(Release(hs, b), a));
  }

  lemma OverlapHasCommonClick(a: Hole, b: Hole)
    requires !Disjoint(a, b)
    ensures exists c :: a.Has(c) && b.Has(c)
  {
    var c := if a.base < b.base then b.base else a.base;
    assert a.Has(c) && b.Has(c);
  }

  /** Disjointness from a list is a statement about its free clicks only. */
  lemma DisjointIffNoFreeClick(hs: seq<Hole>, b: Hole)
    ensures DisjointFromAll(hs, b) <==> forall c :: b.Has(c) ==> !Free(hs, c)
  {
    if DisjointFromAll(hs, b) {
      forall c | b.Has(c) ensures !Free(hs, c) {}
    }
    if forall c :: b.Has(c) ==> !Free(hs, c) {
      forall i | 0 <= i < |hs| ensures Disjoint(hs[i], b) {
        if !Disjoint(hs[i], b) {
          OverlapHasCommonClick(hs[i], b);
          assert false;
        }
      }
    }
  }

  lemma ReleaseKeepsDisjoint(hs: seq<Hole>, a: Hole, b: Hole)
    requires Canonical(hs) && DisjointFromAll(hs, a) && DisjointFromAll(hs, b) && Disjoint(a, b)
    ensures DisjointFromAll(Release(hs, a), b)
  {
    ReleaseCorrect(hs, a);
    DisjointIffNoFreeClick(hs, b);
    DisjointIffNoFreeClick(Release(hs, a), b);
  }

  // ---------------------------------------------------------------- policies

  /** On a canonical list the holes below the swap base are exactly the leading ones. */
  lemma PrefixIsRegular(hs: seq<Hole>, swapBase: nat)
    requires Canonical(hs)
    ensures forall i :: 0 <= i < |hs| ==> (hs[i].base < swapBase <==> i < RegularPrefix(hs, swapBase))
  {
  }

  /** First fit returns the lowest-addressed regular hole that fits, and gives up only when
      no regular hole fits. */
  lemma FirstFitLowest(hs: seq<Hole>, swapBase: nat, n: nat)
    requires Canonical(hs)
    ensures match FirstFit(hs, swapBase, n)
            case Some(i) =>
              && hs[i].base < swapBase && hs[i].len >= n
              && forall j :: 0 <= j < |hs| && hs[j].base < swapBase && hs[j].len >= n ==> hs[i].base <= hs[j].base
            case None => forall j :: 0 <= j < |hs| && hs[j].base < swapBase ==> hs[j].len < n
  {
    PrefixIsRegular(hs, swapBase);
  }

  /** Worst fit takes the longest regular hole, the lowest-addressed one among equals, as long
      as it does not fall into the swap-seed case. */
  lemma WorstFitLongest(hs: seq<Hole>, swapBase: nat, n: nat)
    requires Canonical(hs) && !PicksSwap(true, hs, swapBase, n)
    ensures match WorstFit(hs, swapBase, n)
            case Some(i) =>
              && hs[i].base < swapBase && hs[i].len >= n
              && (forall j :: 0 <= j < |hs| && hs[j].base < swapBase ==> hs[j].len <= hs[i].len)
              && (forall j :: 0 <= j < |hs| && hs[j].base < swapBase && hs[j].len == hs[i].len
                    ==> hs[i].base <= hs[j].base)
            case None => forall j :: 0 <= j < |hs| && hs[j].base < swapBase ==> hs[j].len < n
  {
    PrefixIsRegular(hs, swapBase);
  }

  /** An attempt hands out swap space exactly in the swap-seed case, and never under first fit. */
  lemma SwapSpaceHandedOutIff(worst: bool, hs: seq<Hole>, swapBase: nat, n: nat)
    requires Canonical(hs)
    ensures PicksSwap(worst, hs, swapBase, n) <==>
            var r := Choose(worst, hs, swapBase, n); r.Some? && hs[r.value].base >= swapBase
  {
    PrefixIsRegular(hs, swapBase);
  }

  /** The two policies succeed on exactly the same requests, except in the swap-seed case. */
  lemma PoliciesAgreeIff(hs: seq<Hole>, swapBase: nat, n: nat)
    requires Canonical(hs)
    ensures (FirstFit(hs, swapBase, n).Some? <==> WorstFit(hs, swapBase, n).Some?)
            <==> !PicksSwap(true, hs, swapBase, n)
  {
    PrefixIsRegular(hs, swapBase);
    FirstFitLowest(hs, swapBase, n);
    if !PicksSwap(true, hs, swapBase, n) {
      WorstFitLongest(hs, swapBase, n);
    }
  }

  // ---------------------------------------------------------------- conservation

  lemma {:induction false} TotalLenConcat(a: seq<Hole>, b: seq<Hole>)
    ensures TotalLen(a + b) == TotalLen(a) + TotalLen(b)
    decreases |a|
  {
    if a == [] {
      assert a + b == b;
    } else {
      assert (a + b)[1..] == a[1..] + b;
      TotalLenConcat(a[1..], b);
    }
  }

  lemma TotalLenSplit(hs: seq<Hole>, k: nat)
    requires k < |hs|
    ensures TotalLen(hs) == TotalLen(hs[..k]) + hs[k].len + TotalLen(hs[k + 1..])
  {
    assert hs == hs[..k] + hs[k..];
    TotalLenConcat(hs[..k], hs[k..]);
    assert hs[k..][1..] == hs[k + 1..];
  }

  /** Carving removes exactly the clicks it hands out. */
  lemma CarveConserves(hs: seq<Hole>, i: nat, n: nat)
    requires i < |hs| && n <= hs[i].len
    ensures TotalLen(Carve(hs, i, n)) + n == TotalLen(hs)
  {
    TotalLenSplit(hs, i);
    if hs[i].len == n {
      TotalLenConcat(hs[..i], hs[i + 1..]);
    } else {
      var r := Carve(hs, i, n);
      TotalLenSplit(r, i);
      assert r[..i] == hs[..i] && r[i + 1..] == hs[i + 1..];
    }
  }

  lemma AbsorbConserves(hs: seq<Hole>, k: nat)
    requires k < |hs|
    ensures TotalLen(AbsorbNext(hs, k)) == TotalLen(hs)
  {
    if k + 1 < |hs| && hs[k].End() == hs[k + 1].base {
      var r := AbsorbNext(hs, k);
      TotalLenSplit(r, k);
      TotalLenSplit(hs, k);
      assert r[..k] == hs[..k] && r[k + 1..] == hs[k + 2..];
      assert hs[k + 1..][1..] == hs[k + 2..];
    }
  }

  lemma InsertConserves(hs: seq<Hole>, i: nat, b: Hole)
    requires i <= |hs|
    ensures TotalLen(hs[..i] + [b] + hs[i..]) == TotalLen(hs) + b.len
  {
    var l := hs[..i] + [b] + hs[i..];
    TotalLenSplit(l, i);
    assert l[..i] == hs[..i] && l[i + 1..] == hs[i..];
    assert hs == hs[..i] + hs[i..];
    TotalLenConcat(hs[..i], hs[i..]);
  }

  /** Merging never loses a click. */
  lemma MergeConserves(hs: seq<Hole>, k: nat)
    requires k < |hs|
    ensures TotalLen(MergeAt(hs, k)) == TotalLen(hs)
  {
    var once := AbsorbNext(hs, k);
    AbsorbConserves(hs, k);
    var k' := if |once| < |hs| then k else k + 1;
    if k' < |once| {
      AbsorbConserves(once, k');
    }
  }

  /** Releasing adds exactly the clicks it is given. */
  lemma ReleaseConserves(hs: seq<Hole>, b: Hole)
    ensures TotalLen(Release(hs, b)) == TotalLen(hs) + b.len
  {
    if b.len > 0 {
      var i := Position(hs, b.base);
      InsertConserves(hs, i, b);
      MergeConserves(hs[..i] + [b] + hs[i..], if i == 0 then 0 else i - 1);
    }
  }

  /** The clicks of one block, and the free clicks of a list, as finite sets. */
  ghost function ClicksOf(b: Hole): set<int> {
    set c: int | b.base <= c < b.End() && b.Has(c)
  }

  ghost function Clicks(hs: seq<Hole>): set<int> {
    if hs == [] then {} else ClicksOf(hs[0]) + Clicks(hs[1..])
  }

  lemma {:induction false} ClicksAreFree(hs: seq<Hole>)
    ensures forall c :: c in Clicks(hs) <==> Free(hs, c)
    decreases |hs|
  {
    if hs != [] {
      ClicksAreFree(hs[1..]);
      forall c ensures c in Clicks(hs) <==> Free(hs, c) {
        FreeTail(hs, c);
      }
    }
  }

  lemma {:induction false} BlockSize(b: Hole)
    ensures |ClicksOf(b)| == b.len
    decreases b.len
  {
    if b.len > 0 {
      var short := Hole(b.base, b.len - 1);
      BlockSize(short);
      forall c ensures c in ClicksOf(b) <==> c in ClicksOf(short) || c == short.End() {
        assert b.Has(c) <==> short.Has(c) || c == short.End();
      }
      assert ClicksOf(b) == ClicksOf(short) + {short.End()};
    }
  }

  lemma FirstHoleApart(hs: seq<Hole>)
    requires Canonical(hs) && hs != []
    ensures Canonical(hs[1..]) && ClicksOf(hs[0]) !! Clicks(hs[1..])
  {
    ClicksAreFree(hs[1..]);
    CanonicalSlice(hs, 1, |hs|);
    assert hs[1..] == hs[1..|hs|];
  }

  /** `TotalLen` counts the free clicks of a canonical list. */
  lemma {:induction false} TotalLenCounts(hs: seq<Hole>)
    requires Canonical(hs)
    ensures |Clicks(hs)| == TotalLen(hs)
    decreases |hs|
  {
    if hs != [] {
      FirstHoleApart(hs);
      TotalLenCounts(hs[1..]);
      BlockSize(hs[0]);
    }
  }

  // ---------------------------------------------------------------- start-up

  /** The chunks the kernel reports: its replies up to the first empty one. */
  function Chunks(replies: seq<Hole>): (r: seq<Hole>)
    ensures r <= replies && forall i :: 0 <= i < |r| ==> r[i].len > 0
    ensures |r| < |replies| ==> replies[|r|].len == 0
  {
    if replies == [] || replies[0].len == 0 then [] else [replies[0]] + Chunks(replies[1..])
  }

  /** Free the blocks of a list one after the other. */
  function ReleaseAll(hs: seq<Hole>, blocks: seq<Hole>): seq<Hole> {
    if blocks == [] then hs
    else Release(ReleaseAll(hs, blocks[..|blocks| - 1]), blocks[|blocks| - 1])
  }

  /** A slot is left over every time one of the first `k` blocks is about to be freed. */
  ghost predicate AllFit(blocks: seq<Hole>, k: nat, slots: nat)
    requires k <= |blocks|
  {
    forall j :: 0 <= j < k ==> |ReleaseAll([], blocks[..j])| != slots
  }

  lemma AllFitNext(blocks: seq<Hole>, k: nat, slots: nat)
    requires k < |blocks|
    ensures AllFit(blocks, k + 1, slots) <==> AllFit(blocks, k, slots) && |ReleaseAll([], blocks[..k])| != slots
    ensures !AllFit(blocks, k + 1, slots) ==> !AllFit(blocks, |blocks|, slots)
  {
  }

  /** The highest end of any block, 0 if there is none. */
  function Top(blocks: seq<Hole>): (r: nat)
    ensures forall i :: 0 <= i < |blocks| ==> blocks[i].End() <= r
  {
    if blocks == [] then 0
    else
      var t := Top(blocks[..|blocks| - 1]);
      assert forall i :: 0 <= i < |blocks| - 1 ==> blocks[..|blocks| - 1][i] == blocks[i];
      var e := blocks[|blocks| - 1].End();
      if t < e then e else t
  }

  lemma PrefixSums(all: seq<Hole>, k: nat)
    requires k < |all|
    ensures ReleaseAll([], all[..k + 1]) == Release(ReleaseAll([], all[..k]), all[k])
    ensures TotalLen(all[..k + 1]) == TotalLen(all[..k]) + all[k].len
    ensures Top(all[..k + 1]) == if Top(all[..k]) < all[k].End() then all[k].End() else Top(all[..k])
  {
    var init, more := all[..k], all[..k + 1];
    assert more[..|more| - 1] == init && more[|more| - 1] == all[k];
    assert more == init + [all[k]];
    TotalLenConcat(init, [all[k]]);
  }

  lemma ChunksNext(replies: seq<Hole>, k: nat)
    requires k < |replies| && k <= |Chunks(replies)| && replies[k].len != 0
    ensures k < |Chunks(replies)| && Chunks(replies)[k] == replies[k]
    ensures var all := Chunks(replies);
            && ReleaseAll([], all[..k + 1]) == Release(ReleaseAll([], all[..k]), replies[k])
            && TotalLen(all[..k + 1]) == TotalLen(all[..k]) + replies[k].len
            && Top(all[..k + 1]) == if Top(all[..k]) < replies[k].End() then replies[k].End() else Top(all[..k])
  {
    var all := Chunks(replies);
    assert k < |all|;
    PrefixSums(all, k);
  }

  lemma ChunksEnd(replies: seq<Hole>, k: nat)
    requires k <= |Chunks(replies)| && (k < |replies| ==> replies[k].len == 0)
    ensures Chunks(replies)[..k] == Chunks(replies)
  {
  }

  lemma {:induction false} TopIsAnEnd(blocks: seq<Hole>) returns (i: nat)
    requires blocks != []
    ensures i < |blocks| && blocks[i].End() == Top(blocks)
    decreases |blocks|
  {
    i := |blocks| - 1;
    if i == 0 {
      assert blocks[..i] == [] && Top([]) == 0;
    } else if Top(blocks) != blocks[i].End() {
      i := TopIsAnEnd(blocks[..i]);
    }
  }

  ghost predicate PairwiseDisjoint(blocks: seq<Hole>) {
    forall i, j :: 0 <= i < j < |blocks| ==> Disjoint(blocks[i], blocks[j])
  }

  /** Freeing disjoint blocks into the empty list gives the canonical list of their clicks. */
  lemma {:induction false} ReleaseAllCorrect(blocks: seq<Hole>)
    requires PairwiseDisjoint(blocks)
    ensures Canonical(ReleaseAll([], blocks))
    ensures forall c :: Free(ReleaseAll([], blocks), c) <==> Free(blocks, c)
    decreases |blocks|
  {
    if blocks != [] {
      var init, last := blocks[..|blocks| - 1], blocks[|blocks| - 1];
      assert blocks == init + [last];
      assert forall i :: 0 <= i < |init| ==> init[i] == blocks[i] && Disjoint(init[i], last);
      ReleaseAllCorrect(init);
      ReleaseOneMore(init, last, ReleaseAll([], init));
    }
  }

  lemma ReleaseOneMore(init: seq<Hole>, last: Hole, hs: seq<Hole>)
    requires Canonical(hs) && (forall c :: Free(hs, c) <==> Free(init, c)) && DisjointFromAll(init, last)
    ensures Canonical(Release(hs, last))
    ensures forall c :: Free(Release(hs, last), c) <==> Free(init + [last], c)
  {
    DisjointIffNoFreeClick(init, last);
    DisjointIffNoFreeClick(hs, last);
    ReleaseCorrect(hs, last);
    forall c ensures Free(init + [last], c) <==> Free(init, c) || last.Has(c) {
      FreeConcat(init, [last], c);
      FreeSingle(last, c);
    }
  }
}
