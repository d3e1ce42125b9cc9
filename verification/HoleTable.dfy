/** The fixed table of hole slots, threaded by indices into the hole list and the list of
    unused slots. Every method is proved to do to `Contents()` what the functions of module
    `Holes` say, whatever the list contains; the ghost sequences `used` and `unused` name the
    slots each list runs through. */
module HoleTables {
  import opened Options
  import opened Lists
  import opened Holes
  import opened HoleMaps

  const NIL: int := -1

  datatype Slot = Slot(next: int, base: nat, len: nat)

  /** Element `i` of an index list, NIL outside it: what following pointers yields. */
  function At(list: seq<int>, i: int): int {
    if 0 <= i < |list| then list[i] else NIL
  }

  ghost predicate InTable(slots: seq<Slot>, list: seq<int>) {
    forall i :: 0 <= i < |list| ==> 0 <= list[i] < |slots|
  }

  /** The slot of list element `i` points at the next element. */
  ghost predicate Points(slots: seq<Slot>, list: seq<int>, i: int)
    requires InTable(slots, list)
  {
    0 <= i < |list| ==> slots[list[i]].next == At(list, i + 1)
  }

  /** Following `next` from `head` visits exactly `list` and then ends. */
  ghost predicate Threaded(slots: seq<Slot>, head: int, list: seq<int>) {
    && InTable(slots, list)
    && head == At(list, 0)
    && forall i :: 0 <= i < |list| ==> Points(slots, list, i)
  }

  ghost predicate Apart(a: seq<int>, b: seq<int>) {
    forall i, j :: 0 <= i < |a| && 0 <= j < |b| ==> a[i] != b[j]
  }

  ghost predicate NoSlotTwice(used: seq<int>, unused: seq<int>) {
    NoRepeat(used + unused)
  }

  lemma NoSlotTwiceMeans(used: seq<int>, unused: seq<int>)
    ensures NoSlotTwice(used, unused) <==> Distinct(used) && Distinct(unused) && Apart(used, unused)
  {
    var all := used + unused;
    if NoSlotTwice(used, unused) {
      forall i, j | 0 <= i < j < |used| ensures used[i] != used[j] {
        assert Differ(all, i, j) && all[i] == used[i] && all[j] == used[j];
      }
      forall i, j | 0 <= i < j < |unused| ensures unused[i] != unused[j] {
        assert Differ(all, |used| + i, |used| + j);
        assert all[|used| + i] == unused[i] && all[|used| + j] == unused[j];
      }
      forall i, j | 0 <= i < |used| && 0 <= j < |unused| ensures used[i] != unused[j] {
        assert Differ(all, i, |used| + j) && all[i] == used[i] && all[|used| + j] == unused[j];
      }
    }
  }

  lemma UsedDiffer(used: seq<int>, unused: seq<int>, i: nat, j: nat)
    requires NoSlotTwice(used, unused) && i < j < |used|
    ensures used[i] != used[j]
  {
    assert Differ(used + unused, i, j);
  }

  lemma UsedUnusedDiffer(used: seq<int>, unused: seq<int>, i: nat, j: nat)
    requires NoSlotTwice(used, unused) && i < |used| && j < |unused|
    ensures used[i] != unused[j]
  {
    assert Differ(used + unused, i, |used| + j);
  }

  /** The holes in the slots that `list` names. */
  ghost function HolesOf(slots: seq<Slot>, list: seq<int>): (hs: seq<Hole>)
    requires InTable(slots, list)
    ensures |hs| == |list|
    decreases |list|
  {
    if list == [] then []
    else
      var last := slots[list[|list| - 1]];
      HolesOf(slots, list[..|list| - 1]) + [Hole(last.base, last.len)]
  }

  lemma {:induction false} HoleAt(slots: seq<Slot>, list: seq<int>, i: nat)
    requires InTable(slots, list) && i < |list|
    ensures HolesOf(slots, list)[i] == Hole(slots[list[i]].base, slots[list[i]].len)
    decreases |list|
  {
    if i < |list| - 1 {
      HoleAt(slots, list[..|list| - 1], i);
    }
  }

  /** The table's shape: two disjoint acyclic lists that share out all slots. */
  ghost predicate Shape(slots: seq<Slot>, head: int, used: seq<int>, free: int, unused: seq<int>) {
    && Threaded(slots, head, used)
    && Threaded(slots, free, unused)
    && NoSlotTwice(used, unused)
    && |used| + |unused| == |slots|
  }

  lemma {:induction false} DistinctFitsIn(list: seq<int>, n: nat)
    requires Distinct(list) && forall i :: 0 <= i < |list| ==> 0 <= list[i] < n
    ensures |list| <= n
    decreases n
  {
    if list != [] {
      assert 0 <= list[0] < n;
      if exists k :: 0 <= k < |list| && list[k] == n - 1 {
        var k :| 0 <= k < |list| && list[k] == n - 1;
        var rest := RemoveAt(list, k);
        DistinctFitsIn(rest, n - 1);
      } else {
        DistinctFitsIn(list, n - 1);
      }
    }
  }

  /** Together the two lists hold every slot of the table, each exactly once. */
  lemma EverySlotOnce(slots: seq<Slot>, head: int, used: seq<int>, free: int, unused: seq<int>, s: int)
    requires Shape(slots, head, used, free, unused) && 0 <= s < |slots|
    ensures (s in used) != (s in unused)
  {
    NoSlotTwiceMeans(used, unused);
    if s !in used && s !in unused {
      var all := used + unused + [s];
      assert Distinct(all);
      DistinctFitsIn(all, |slots|);
    }
  }

  // ---------------------------------------------------------------- unlinking a slot

  /** `b` is the table `a` after the pointer writes of `del_slot` on list element `k`. */
  ghost predicate Unlinked(a: seq<Slot>, b: seq<Slot>, used: seq<int>, k: nat, free: int) {
    && k < |used| && InTable(a, used) && |b| == |a|
    && b[used[k]] == a[used[k]].(next := free)
    && (k > 0 ==> b[used[k - 1]] == a[used[k - 1]].(next := At(used, k + 1)))
    && forall s :: 0 <= s < |a| && s != used[k] && (k > 0 ==> s != used[k - 1]) ==> b[s] == a[s]
  }

  lemma UnlinkKeepsHoles(a: seq<Slot>, b: seq<Slot>, used: seq<int>, k: nat, free: int)
    requires Unlinked(a, b, used, k, free)
    ensures |b| == |a| && forall s :: 0 <= s < |a| ==> b[s].base == a[s].base && b[s].len == a[s].len
  {
  }

  lemma UnlinkLists(used: seq<int>, unused: seq<int>, k: nat)
    requires Distinct(used) && Distinct(unused) && Apart(used, unused) && k < |used|
    ensures Distinct(RemoveAt(used, k)) && Distinct([used[k]] + unused)
    ensures Apart(RemoveAt(used, k), [used[k]] + unused)
  {
  }

  lemma RemoveAtIndex<T>(xs: seq<T>, k: nat, i: nat)
    requires k < |xs| && i < |xs| - 1
    ensures RemoveAt(xs, k)[i] == xs[if i < k then i else i + 1]
  {
  }

  lemma UnlinkUsedStep(a: seq<Slot>, head: int, used: seq<int>, b: seq<Slot>, k: nat, free: int, i: nat)
    requires Threaded(a, head, used) && Distinct(used) && Unlinked(a, b, used, k, free) && i < |used| - 1
    ensures var rest := RemoveAt(used, k);
            && b[rest[i]].next == At(rest, i + 1)
            && b[rest[i]].base == a[rest[i]].base && b[rest[i]].len == a[rest[i]].len
  {
    var rest := RemoveAt(used, k);
    RemoveAtIndex(used, k, i);
    if i + 1 < |rest| {
      RemoveAtIndex(used, k, i + 1);
    }
    var j := if i < k then i else i + 1;
    assert Points(a, used, j);
    assert used[j] != used[k];
    if k > 0 && j != k - 1 {
      assert used[j] != used[k - 1];
    }
  }

  lemma UnlinkUsed(a: seq<Slot>, head: int, used: seq<int>, b: seq<Slot>, k: nat, free: int)
    requires Threaded(a, head, used) && Distinct(used) && Unlinked(a, b, used, k, free)
    ensures Threaded(b, if k == 0 then At(used, 1) else head, RemoveAt(used, k))
  {
    var rest := RemoveAt(used, k);
    forall i | 0 <= i < |rest| ensures 0 <= rest[i] < |b| && b[rest[i]].next == At(rest, i + 1) {
      RemoveAtIndex(used, k, i);
      UnlinkUsedStep(a, head, used, b, k, free, i);
    }
  }

  lemma UnlinkHoles(a: seq<Slot>, head: int, used: seq<int>, b: seq<Slot>, k: nat, free: int)
    requires Threaded(a, head, used) && Distinct(used) && Unlinked(a, b, used, k, free)
    requires InTable(b, RemoveAt(used, k))
    ensures HolesOf(b, RemoveAt(used, k)) == RemoveAt(HolesOf(a, used), k)
  {
    var rest := RemoveAt(used, k);
    forall i | 0 <= i < |rest|
      ensures HolesOf(b, rest)[i] == RemoveAt(HolesOf(a, used), k)[i]
    {
      RemoveAtIndex(used, k, i);
      RemoveAtIndex(HolesOf(a, used), k, i);
      HoleAt(b, rest, i);
      HoleAt(a, used, if i < k then i else i + 1);
      UnlinkUsedStep(a, head, used, b, k, free, i);
    }
  }

  lemma UnlinkUnused(a: seq<Slot>, used: seq<int>, free: int, unused: seq<int>, b: seq<Slot>, k: nat)
    requires Threaded(a, free, unused) && Apart(used, unused) && Unlinked(a, b, used, k, free)
    ensures Threaded(b, used[k], [used[k]] + unused)
  {
    var more := [used[k]] + unused;
    forall i | 0 <= i < |more| ensures b[more[i]].next == At(more, i + 1) {
      if i > 0 {
        assert Points(a, unused, i - 1);
        assert more[i] == unused[i - 1];
        assert i > 0 && k > 0 ==> used[k - 1] != unused[i - 1];
        assert b[more[i]] == a[unused[i - 1]];
      }
    }
  }

  lemma UnlinkShape(a: seq<Slot>, head: int, used: seq<int>, free: int, unused: seq<int>, b: seq<Slot>, k: nat)
    requires Shape(a, head, used, free, unused) && Unlinked(a, b, used, k, free)
    ensures Shape(b, if k == 0 then At(used, 1) else head, RemoveAt(used, k), used[k], [used[k]] + unused)
    ensures HolesOf(b, RemoveAt(used, k)) == RemoveAt(HolesOf(a, used), k)
  {
    NoSlotTwiceMeans(used, unused);
    NoSlotTwiceMeans(RemoveAt(used, k), [used[k]] + unused);
    UnlinkLists(used, unused, k);
    UnlinkUsed(a, head, used, b, k, free);
    UnlinkHoles(a, head, used, b, k, free);
    UnlinkUnused(a, used, free, unused, b, k);
  }

  // ---------------------------------------------------------------- linking a slot

  function InsertAt<T>(xs: seq<T>, i: nat, x: T): seq<T>
    requires i <= |xs|
  {
    xs[..i] + [x] + xs[i..]
  }

  lemma InsertAtIndex<T>(xs: seq<T>, i: nat, x: T, j: nat)
    requires i <= |xs| && j <= |xs|
    ensures InsertAt(xs, i, x)[j] == if j < i then xs[j] else if j == i then x else xs[j - 1]
  {
  }

  /** `b` is the table `a` after `free_mem` filled the slot `s` and linked it in before list
      element `i`. */
  ghost predicate Linked(a: seq<Slot>, b: seq<Slot>, used: seq<int>, i: nat, s: int, h: Hole) {
    && i <= |used| && InTable(a, used) && |b| == |a| && 0 <= s < |a|
    && b[s] == Slot(At(used, i), h.base, h.len)
    && (i > 0 ==> b[used[i - 1]] == a[used[i - 1]].(next := s))
    && forall t :: 0 <= t < |a| && t != s && (i > 0 ==> t != used[i - 1]) ==> b[t] == a[t]
  }

  lemma LinkLists(used: seq<int>, unused: seq<int>, i: nat)
    requires Distinct(used) && Distinct(unused) && Apart(used, unused) && i <= |used| && unused != []
    ensures Distinct(InsertAt(used, i, unused[0])) && Distinct(unused[1..])
    ensures Apart(InsertAt(used, i, unused[0]), unused[1..])
  {
    var more := InsertAt(used, i, unused[0]);
    forall j, k | 0 <= j < k < |more| ensures more[j] != more[k] {
      InsertAtIndex(used, i, unused[0], j);
      InsertAtIndex(used, i, unused[0], k);
    }
    forall j, k | 0 <= j < |more| && 0 <= k < |unused[1..]| ensures more[j] != unused[1..][k] {
      InsertAtIndex(used, i, unused[0], j);
    }
  }

  lemma LinkUsedNext(used: seq<int>, i: nat, s: int, j: nat)
    requires i <= |used| && j <= |used|
    ensures At(InsertAt(used, i, s), j + 1) ==
            if j + 1 < i then At(used, j + 1) else if j + 1 == i then s else At(used, j)
  {
    if j < |used| {
      InsertAtIndex(used, i, s, j + 1);
    }
  }

  lemma LinkUsedOther(a: seq<Slot>, head: int, used: seq<int>, b: seq<Slot>, i: nat, s: int, h: Hole, o: nat)
    requires Threaded(a, head, used) && Distinct(used) && Linked(a, b, used, i, s, h)
    requires forall t :: 0 <= t < |used| ==> used[t] != s
    requires o < |used|
    ensures b[used[o]] == a[used[o]].(next := if o + 1 == i then s else At(used, o + 1))
  {
    assert Points(a, used, o);
    assert used[o] != s;
    if i > 0 && o != i - 1 { assert used[o] != used[i - 1]; }
  }

  lemma LinkUsedPoint(a: seq<Slot>, head: int, used: seq<int>, b: seq<Slot>, i: nat, s: int, h: Hole, j: nat)
    requires Threaded(a, head, used) && Distinct(used) && Linked(a, b, used, i, s, h)
    requires forall t :: 0 <= t < |used| ==> used[t] != s
    requires j <= |used|
    ensures var more := InsertAt(used, i, s);
            0 <= more[j] < |b| && b[more[j]].next == At(more, j + 1)
  {
    InsertAtIndex(used, i, s, j);
    LinkUsedNext(used, i, s, j);
    if j != i {
      LinkUsedOther(a, head, used, b, i, s, h, if j < i then j else j - 1);
    }
  }

  lemma LinkUsedHole(a: seq<Slot>, head: int, used: seq<int>, b: seq<Slot>, i: nat, s: int, h: Hole, j: nat)
    requires Threaded(a, head, used) && Distinct(used) && Linked(a, b, used, i, s, h)
    requires forall t :: 0 <= t < |used| ==> used[t] != s
    requires j <= |used|
    ensures var o := InsertAt(used, i, s)[j];
            0 <= o < |b| && Hole(b[o].base, b[o].len) == InsertAt(HolesOf(a, used), i, h)[j]
  {
    InsertAtIndex(used, i, s, j);
    InsertAtIndex(HolesOf(a, used), i, h, j);
    if j != i {
      HoleAt(a, used, if j < i then j else j - 1);
      LinkUsedOther(a, head, used, b, i, s, h, if j < i then j else j - 1);
    }
  }

  lemma LinkUsed(a: seq<Slot>, head: int, used: seq<int>, b: seq<Slot>, i: nat, s: int, h: Hole)
    requires Threaded(a, head, used) && Distinct(used) && Linked(a, b, used, i, s, h)
    requires forall t :: 0 <= t < |used| ==> used[t] != s
    ensures Threaded(b, if i == 0 then s else head, InsertAt(used, i, s))
    ensures HolesOf(b, InsertAt(used, i, s)) == InsertAt(HolesOf(a, used), i, h)
  {
    var more := InsertAt(used, i, s);
    forall j | 0 <= j < |more|
      ensures 0 <= more[j] < |b| && b[more[j]].next == At(more, j + 1)
      ensures Hole(b[more[j]].base, b[more[j]].len) == InsertAt(HolesOf(a, used), i, h)[j]
    {
      LinkUsedPoint(a, head, used, b, i, s, h, j);
      LinkUsedHole(a, head, used, b, i, s, h, j);
    }
    forall j | 0 <= j < |more| ensures HolesOf(b, more)[j] == InsertAt(HolesOf(a, used), i, h)[j] {
      HoleAt(b, more, j);
    }
    InsertAtIndex(used, i, s, 0);
  }

  lemma LinkUnused(a: seq<Slot>, used: seq<int>, free: int, unused: seq<int>, b: seq<Slot>, i: nat, h: Hole)
    requires Threaded(a, free, unused) && Distinct(unused) && Apart(used, unused) && unused != []
    requires Linked(a, b, used, i, unused[0], h)
    ensures Threaded(b, At(unused, 1), unused[1..])
  {
    var fewer := unused[1..];
    forall j | 0 <= j < |fewer| ensures b[fewer[j]].next == At(fewer, j + 1) {
      assert Points(a, unused, j + 1);
      assert fewer[j] == unused[j + 1];
      assert unused[0] != unused[j + 1];
      if i > 0 { assert used[i - 1] != unused[j + 1]; }
    }
  }

  lemma LinkShape(a: seq<Slot>, head: int, used: seq<int>, free: int, unused: seq<int>,
                  b: seq<Slot>, i: nat, h: Hole)
    requires Shape(a, head, used, free, unused) && unused != [] && Linked(a, b, used, i, unused[0], h)
    ensures Shape(b, if i == 0 then unused[0] else head, InsertAt(used, i, unused[0]), At(unused, 1), unused[1..])
    ensures HolesOf(b, InsertAt(used, i, unused[0])) == InsertAt(HolesOf(a, used), i, h)
  {
    NoSlotTwiceMeans(used, unused);
    NoSlotTwiceMeans(InsertAt(used, i, unused[0]), unused[1..]);
    LinkLists(used, unused, i);
    LinkUsed(a, head, used, b, i, unused[0], h);
    LinkUnused(a, used, free, unused, b, i, h);
  }

  /** Rewriting base and length of one listed slot leaves both lists alone. */
  lemma ResizeShape(a: seq<Slot>, head: int, used: seq<int>, free: int, unused: seq<int>, k: nat, h: Hole)
    requires Shape(a, head, used, free, unused) && k < |used|
    ensures var b := a[used[k] := Slot(a[used[k]].next, h.base, h.len)];
            && Shape(b, head, used, free, unused)
            && HolesOf(b, used) == HolesOf(a, used)[k := h]
  {
    var b := a[used[k] := Slot(a[used[k]].next, h.base, h.len)];
    NoSlotTwiceMeans(used, unused);
    forall i | 0 <= i < |used|
      ensures HolesOf(b, used)[i] == HolesOf(a, used)[k := h][i] && Points(b, used, i)
    {
      assert Points(a, used, i);
      HoleAt(a, used, i);
      HoleAt(b, used, i);
      if i != k { assert used[i] != used[k]; }
    }
    forall i | 0 <= i < |unused| ensures Points(b, unused, i) {
      assert Points(a, unused, i);
    }
  }

  lemma AbsorbAsRemoval(hs: seq<Hole>, k: nat)
    requires k + 1 < |hs| && hs[k].End() == hs[k + 1].base
    ensures AbsorbNext(hs, k) == RemoveAt(hs[k := Hole(hs[k].base, hs[k].len + hs[k + 1].len)], k + 1)
  {
  }

  /** The last element of a list, and `unset` for the empty one. */
  function LastOf(xs: seq<nat>, unset: nat): nat {
    if xs == [] then unset else xs[|xs| - 1]
  }

  lemma LastNext(xs: seq<nat>, unset: nat, k: nat)
    requires k < |xs|
    ensures LastOf(xs[..k + 1], unset) == xs[k]
  {
  }

  lemma ReleaseByInserting(hs: seq<Hole>, b: Hole, i: nat)
    requires b.len > 0 && i == Position(hs, b.base)
    ensures Release(hs, b) == MergeAt(InsertAt(hs, i, b), if i == 0 then 0 else i - 1)
  {
  }

  /** What the first `k` replies of the kernel have led to: the hole list, the highest end, the
      memory total and the free clicks. */
  ghost predicate Added(all: seq<Hole>, totals: seq<nat>, unset: nat, k: nat, slots: nat,
                        hs: seq<Hole>, top: nat, total: nat, free: nat)
  {
    && k <= |all| <= |totals| && AllFit(all, k, slots)
    && hs == ReleaseAll([], all[..k]) && top == Top(all[..k])
    && total == LastOf(totals[..k], unset) && free == TotalLen(all[..k])
  }

  lemma AddedNext(replies: seq<Hole>, totals: seq<nat>, unset: nat, k: nat, slots: nat,
                  hs: seq<Hole>, top: nat, total: nat, free: nat)
    requires Added(Chunks(replies), totals, unset, k, slots, hs, top, total, free)
    requires k < |replies| && replies[k].len != 0
    ensures k < |totals|
    ensures |hs| == slots ==> !AllFit(Chunks(replies), |Chunks(replies)|, slots)
    ensures |hs| != slots ==>
              Added(Chunks(replies), totals, unset, k + 1, slots, Release(hs, replies[k]),
                    if top < replies[k].End() then replies[k].End() else top, totals[k], free + replies[k].len)
  {
    ChunksNext(replies, k);
    LastNext(totals, unset, k);
    AllFitNext(Chunks(replies), k, slots);
  }

  lemma AddedAll(replies: seq<Hole>, totals: seq<nat>, unset: nat, k: nat, slots: nat,
                 hs: seq<Hole>, top: nat, total: nat, free: nat)
    requires Added(Chunks(replies), totals, unset, k, slots, hs, top, total, free)
    requires k < |replies| ==> replies[k].len == 0
    ensures AllFit(Chunks(replies), |Chunks(replies)|, slots)
    ensures hs == ReleaseAll([], Chunks(replies)) && top == Top(Chunks(replies))
    ensures total == LastOf(totals[..|Chunks(replies)|], unset) && free == TotalLen(Chunks(replies))
  {
    ChunksEnd(replies, k);
    assert k == |Chunks(replies)|;
  }

  // ---------------------------------------------------------------- the table

  /** What one allocation attempt does: the address granted and the holes left. */
  ghost predicate Attempted(choice: Option<nat>, before: seq<Hole>, n: nat, r: Option<nat>, after: seq<Hole>)
    requires choice.Some? ==> choice.value < |before| && before[choice.value].len >= n
  {
    match choice
    case None => r == None && after == before
    case Some(i) => r == Some(before[i].base) && after == Carve(before, i, n)
  }

  lemma InitShape(slots: seq<Slot>, unused: seq<int>)
    requires slots != [] && unused == seq(|slots|, i => i)
    requires forall i :: 0 <= i < |slots| ==> slots[i].next == if i + 1 < |slots| then i + 1 else NIL
    ensures Shape(slots, NIL, [], 0, unused)
  {
    NoSlotTwiceMeans([], unused);
  }

  /** What `swap_off`'s loop leaves of the list; None when it follows a NIL pointer. After each
      removal it restarts at the head and at once steps past it, so a swap hole at the head
      of the list makes it go wrong: the next hole gets away unexamined, or there is none. */
  function Swept(hs: seq<Hole>, swapBase: nat): (r: Option<seq<Hole>>)
    ensures r.Some? ==> |r.value| <= |hs|
  {
    if hs == [] || hs[0].base < swapBase then Some(Regular(hs, swapBase))
    else if |hs| == 1 then None
    else Some([hs[1]] + Regular(hs[2..], swapBase))
  }

  lemma RegularClicks(hs: seq<Hole>, swapBase: nat)
    requires Canonical(hs) && Separated(hs, swapBase)
    ensures Canonical(Regular(hs, swapBase))
    ensures forall c :: Free(Regular(hs, swapBase), c) <==> Free(hs, c) && c < swapBase
  {
    var n := RegularPrefix(hs, swapBase);
    RegularIsPrefix(hs, swapBase);
    CanonicalSlice(hs, 0, n);
    assert hs[0..n] == hs[..n];
    forall c ensures Free(hs[..n], c) <==> Free(hs, c) && c < swapBase {
      PrefixClick(hs, swapBase, c);
    }
  }

  lemma PrefixClick(hs: seq<Hole>, swapBase: nat, c: int)
    requires Canonical(hs) && Separated(hs, swapBase)
    ensures Free(hs[..RegularPrefix(hs, swapBase)], c) <==> Free(hs, c) && c < swapBase
  {
    var n := RegularPrefix(hs, swapBase);
    PrefixIsRegular(hs, swapBase);
    assert hs == hs[..n] + hs[n..];
    FreeConcat(hs[..n], hs[n..], c);
  }

  /** The sweep removes exactly the swap clicks if and only if the list is empty or starts
      with a regular hole. */
  lemma SweepCorrectIff(hs: seq<Hole>, swapBase: nat)
    requires Canonical(hs) && Separated(hs, swapBase)
    ensures (match Swept(hs, swapBase)
             case None => false
             case Some(left) =>
               Canonical(left) && forall c :: Free(left, c) <==> Free(hs, c) && c < swapBase)
            <==> hs == [] || hs[0].base < swapBase
  {
    if hs == [] || hs[0].base < swapBase {
      RegularClicks(hs, swapBase);
    } else if |hs| > 1 {
      var c, left := hs[1].base, [hs[1]] + Regular(hs[2..], swapBase);
      assert Swept(hs, swapBase) == Some(left) && left[0].Has(c);
      assert Free(left, c) && c >= swapBase;
    }
  }

  /** The sweep's loop from element `i` of the list on. */
  function SweepFrom(hs: seq<Hole>, i: nat, swapBase: nat): Option<seq<Hole>>
    requires i <= |hs|
    decreases |hs|, |hs| - i
  {
    if i == |hs| then Some(hs)
    else if hs[i].base >= swapBase then
      var left := RemoveAt(hs, i);
      if left == [] then None else SweepFrom(left, 1, swapBase)
    else SweepFrom(hs, i + 1, swapBase)
  }

  lemma {:induction false} RegularRemove(hs: seq<Hole>, i: nat, swapBase: nat)
    requires i < |hs| && hs[i].base >= swapBase
    ensures Regular(RemoveAt(hs, i), swapBase) == Regular(hs, swapBase)
    decreases i
  {
    if i == 0 {
      assert RemoveAt(hs, 0) == hs[1..];
    } else {
      assert RemoveAt(hs, i)[1..] == RemoveAt(hs[1..], i - 1);
      RegularRemove(hs[1..], i - 1, swapBase);
    }
  }

  lemma {:induction false} RegularWhole(hs: seq<Hole>, swapBase: nat)
    requires forall j :: 0 <= j < |hs| ==> hs[j].base < swapBase
    ensures Regular(hs, swapBase) == hs
    decreases |hs|
  {
    if hs != [] {
      RegularWhole(hs[1..], swapBase);
    }
  }

  /** The head, whatever it is, and the regular holes behind it. */
  function HeadAndRegular(hs: seq<Hole>, swapBase: nat): seq<Hole>
    requires hs != []
  {
    [hs[0]] + Regular(hs[1..], swapBase)
  }

  lemma RemoveBehindHead(hs: seq<Hole>, i: nat, swapBase: nat)
    requires 1 <= i < |hs| && hs[i].base >= swapBase
    ensures HeadAndRegular(RemoveAt(hs, i), swapBase) == HeadAndRegular(hs, swapBase)
  {
    assert RemoveAt(hs, i)[1..] == RemoveAt(hs[1..], i - 1);
    RegularRemove(hs[1..], i - 1, swapBase);
  }

  lemma AllRegular(hs: seq<Hole>, swapBase: nat)
    requires hs != [] && forall j :: 1 <= j < |hs| ==> hs[j].base < swapBase
    ensures HeadAndRegular(hs, swapBase) == hs
  {
    RegularWhole(hs[1..], swapBase);
    assert hs == [hs[0]] + hs[1..];
  }

  /** Past the head the sweep does what it should: it removes every swap hole behind it. */
  lemma {:induction false} SweepBehindHead(hs: seq<Hole>, i: nat, swapBase: nat)
    requires 1 <= i <= |hs| && forall j :: 1 <= j < i ==> hs[j].base < swapBase
    ensures SweepFrom(hs, i, swapBase) == Some(HeadAndRegular(hs, swapBase))
    decreases |hs|, |hs| - i
  {
    if i == |hs| {
      AllRegular(hs, swapBase);
    } else if hs[i].base >= swapBase {
      RemoveBehindHead(hs, i, swapBase);
      SweepBehindHead(RemoveAt(hs, i), 1, swapBase);
    } else {
      SweepBehindHead(hs, i + 1, swapBase);
    }
  }

  /** The restarting loop ends, with the result given in closed form. */
  lemma SweepResult(hs: seq<Hole>, swapBase: nat)
    ensures SweepFrom(hs, 0, swapBase) == Swept(hs, swapBase)
  {
    if hs != [] {
      if hs[0].base < swapBase {
        SweepBehindHead(hs, 1, swapBase);
      } else if |hs| > 1 {
        assert RemoveAt(hs, 0) == hs[1..];
        SweepBehindHead(hs[1..], 1, swapBase);
        assert hs[1..][1..] == hs[2..];
      }
    }
  }

  class HoleTable {
    const slot: array<Slot>
    var holeHead: int
    var freeSlots: int
    var swapBase: nat
    ghost var used: seq<int>
    ghost var unused: seq<int>

    /** The first half of `mem_init`: all slots unused, no holes. */
    constructor (nrHoles: nat)
      requires nrHoles > 0
      ensures Valid() && Contents() == [] && swapBase == 0
      ensures slot.Length == nrHoles && fresh(slot)
    {
      slot := new Slot[nrHoles](_ => Slot(0, 0, 0));
      holeHead, freeSlots, swapBase := NIL, 0, 0;
      used, unused := [], seq(nrHoles, i => i);
      new;
      for hp := 0 to nrHoles
        invariant forall i :: 0 <= i < hp ==> slot[i].next == i + 1
        invariant used == [] && unused == seq(nrHoles, i => i) && holeHead == NIL && freeSlots == 0 && swapBase == 0
      {
        slot[hp] := slot[hp].(next := hp + 1);
      }
      slot[nrHoles - 1] := slot[nrHoles - 1].(next := NIL);
      InitShape(slot[..], unused);
    }

    ghost predicate Valid()
      reads this, slot
    {
      Shape(slot[..], holeHead, used, freeSlots, unused)
    }

    ghost function Contents(): (hs: seq<Hole>)
      reads this, slot
      requires Valid()
      ensures |hs| == |used|
    {
      HolesOf(slot[..], used)
    }

    /** What the slot of list element `k` holds. */
    lemma Look(k: nat)
      requires Valid() && k < |used|
      ensures 0 <= used[k] < slot.Length
      ensures slot[used[k]] == Slot(At(used, k + 1), Contents()[k].base, Contents()[k].len)
      ensures holeHead == At(used, 0)
    {
      assert Points(slot[..], used, k);
      HoleAt(slot[..], used, k);
    }

    /** `hp` and `prev` stand at list element `i` and just before it. */
    ghost predicate Cursor(hp: int, prev: int, i: nat)
      reads this, slot
    {
      && Valid() && i <= |used|
      && (hp == NIL <==> i == |used|)
      && (i < |used| ==>
            && 0 <= hp < slot.Length && hp == used[i]
            && slot[hp] == Slot(At(used, i + 1), Contents()[i].base, Contents()[i].len))
      && (i > 0 ==> prev == used[i - 1])
    }

    lemma CursorAt(i: nat)
      requires Valid() && i <= |used|
      ensures Cursor(At(used, i), At(used, i - 1), i)
      ensures holeHead == At(used, 0)
    {
      if i < |used| { Look(i); }
    }

    /** Store a new base and length in list element `k`. */
    method Resize(hp: int, base: nat, len: nat, ghost k: nat)
      requires Valid() && k < |used| && used[k] == hp
      modifies slot
      ensures Valid()
      ensures Contents() == old(Contents())[k := Hole(base, len)]
    {
      ghost var before := slot[..];
      ResizeShape(before, holeHead, used, freeSlots, unused, k, Hole(base, len));
      slot[hp] := slot[hp].(base := base, len := len);
      assert slot[..] == before[used[k] := Slot(before[used[k]].next, base, len)];
    }

    /** The pointer writes of `del_slot`. */
    method Unhook(prev: int, hp: int, ghost k: nat)
      requires Valid() && k < |used| && used[k] == hp
      requires k > 0 ==> prev == used[k - 1]
      modifies this`holeHead, slot
      ensures Unlinked(old(slot[..]), slot[..], used, k, freeSlots)
      ensures holeHead == if k == 0 then At(used, 1) else old(holeHead)
    {
      Look(k);
      if k > 0 {
        Look(k - 1);
        UsedDiffer(used, unused, 0, k);
        UsedDiffer(used, unused, k - 1, k);
      }
      if hp == holeHead {
        assert k == 0;
        holeHead := slot[hp].next;
      } else {
        slot[prev] := slot[prev].(next := slot[hp].next);
      }
      slot[hp] := slot[hp].(next := freeSlots);
    }

    /** Unlink list element `k`, whose slot is `hp` and whose predecessor is `prev`; `prev` is
        not looked at when `hp` is the list head. */
    method DelSlot(prev: int, hp: int, ghost k: nat)
      requires Valid() && k < |used| && used[k] == hp
      requires k > 0 ==> prev == used[k - 1]
      modifies this`holeHead, this`freeSlots, this`used, this`unused, slot
      ensures Valid()
      ensures used == RemoveAt(old(used), k) && unused == [hp] + old(unused)
      ensures forall s :: 0 <= s < slot.Length ==>
                slot[s].base == old(slot[s].base) && slot[s].len == old(slot[s].len)
      ensures Contents() == RemoveAt(old(Contents()), k)
    {
      ghost var before := slot[..];
      Unhook(prev, hp, k);
      UnlinkShape(before, old(holeHead), used, freeSlots, unused, slot[..], k);
      UnlinkKeepsHoles(before, slot[..], used, k, freeSlots);
      freeSlots := hp;
      used := RemoveAt(used, k);
      unused := [hp] + unused;
    }

    /** One half of `merge`: swallow the successor of list element `k` if they touch. */
    method TryAbsorb(hp: int, next: int, ghost k: nat) returns (absorbed: bool)
      requires Valid() && k + 1 < |used| && used[k] == hp && used[k + 1] == next
      modifies this`holeHead, this`freeSlots, this`used, this`unused, slot
      ensures Valid()
      ensures Contents() == AbsorbNext(old(Contents()), k)
      ensures absorbed <==> |Contents()| < |old(Contents())|
      ensures used == if absorbed then RemoveAt(old(used), k + 1) else old(used)
    {
      Look(k);
      Look(k + 1);
      absorbed := slot[hp].base + slot[hp].len == slot[next].base;
      if absorbed {
        AbsorbAsRemoval(Contents(), k);
        Resize(hp, slot[hp].base, slot[hp].len + slot[next].len, k);
        DelSlot(hp, next, k + 1);
      }
    }

    /** Merge list element `first` with the two elements behind it as far as they touch. */
    method Merge(first: int, ghost at: nat)
      requires Valid() && at < |used| && used[at] == first
      modifies this`holeHead, this`freeSlots, this`used, this`unused, slot
      ensures Valid()
      ensures Contents() == MergeAt(old(Contents()), at)
    {
      var hp := first;
      ghost var k := at;
      Look(k);
      var next := slot[hp].next;
      if next == NIL {
        return;
      }
      var absorbed := TryAbsorb(hp, next, k);
      if !absorbed {
        hp, k := next, k + 1;
      }
      Look(k);
      next := slot[hp].next;
      if next == NIL {
        return;
      }
      absorbed := TryAbsorb(hp, next, k);
    }

    /** Take the first unused slot, fill it with a block and link it in before list element
        `i`; `prev` is the element before that and is not looked at for `i == 0`. */
    method Link(prev: int, base: nat, clicks: nat, ghost i: nat) returns (newPtr: int)
      requires Valid() && unused != [] && i <= |used|
      requires prev == At(used, i - 1)
      modifies this`holeHead, this`freeSlots, this`used, this`unused, slot
      ensures Valid()
      ensures newPtr == old(freeSlots) && used == InsertAt(old(used), i, newPtr)
      ensures Contents() == InsertAt(old(Contents()), i, Hole(base, clicks))
    {
      newPtr := freeSlots;
      ghost var before := slot[..];
      assert Points(before, unused, 0);
      if i > 0 {
        Look(i - 1);
        UsedUnusedDiffer(used, unused, i - 1, 0);
      }
      freeSlots := slot[newPtr].next;
      if prev == NIL {
        slot[newPtr] := Slot(holeHead, base, clicks);
        holeHead := newPtr;
      } else {
        slot[newPtr] := Slot(slot[prev].next, base, clicks);
        slot[prev] := slot[prev].(next := newPtr);
      }
      LinkShape(before, old(holeHead), used, old(freeSlots), unused, slot[..], i, Hole(base, clicks));
      used, unused := InsertAt(used, i, newPtr), unused[1..];
    }

    /** Put a block back on the hole list. The only failure is a table without unused slots,
        and it is noticed before anything is changed. */
    method FreeMem(base: nat, clicks: nat) returns (panicked: bool)
      requires Valid()
      modifies this`holeHead, this`freeSlots, this`used, this`unused, slot
      ensures Valid()
      ensures panicked <==> clicks > 0 && |old(Contents())| == slot.Length
      ensures panicked ==> Contents() == old(Contents())
      ensures !panicked ==> Contents() == Release(old(Contents()), Hole(base, clicks))
    {
      if clicks == 0 {
        return false;
      }
      if freeSlots == NIL {
        return true;
      }
      CursorAt(0);
      if holeHead == NIL || base <= slot[holeHead].base {
        assert Position(Contents(), base) == 0;
        LinkAndMerge(NIL, base, clicks, 0);
        return false;
      }
      var prev, i := FindPlace(base);
      LinkAndMerge(prev, base, clicks, i);
      return false;
    }

    /** Link the block in before list element `i` and merge it with its neighbours. */
    method LinkAndMerge(prev: int, base: nat, clicks: nat, ghost i: nat)
      requires Valid() && unused != [] && i <= |used| && prev == At(used, i - 1) && (prev == NIL <==> i == 0)
      requires clicks > 0 && i == Position(Contents(), base)
      modifies this`holeHead, this`freeSlots, this`used, this`unused, slot
      ensures Valid()
      ensures Contents() == Release(old(Contents()), Hole(base, clicks))
    {
      ReleaseByInserting(Contents(), Hole(base, clicks), i);
      var newPtr := Link(prev, base, clicks, i);
      if prev == NIL {
        Merge(newPtr, 0);
      } else {
        InsertAtIndex(old(used), i, newPtr, i - 1);
        Merge(prev, i - 1);
      }
    }

    /** Walk to the last hole that starts below `base`. */
    method FindPlace(base: nat) returns (prev: int, ghost i: nat)
      requires Valid() && used != [] && Contents()[0].base < base
      ensures i == Position(Contents(), base) && 0 < i <= |used| && prev == used[i - 1] && prev != NIL
    {
      var hp := holeHead;
      prev, i := NIL, 0;
      ghost var hs := Contents();
      CursorAt(0);
      while hp != NIL && base > slot[hp].base
        invariant Cursor(hp, prev, i)
        invariant forall j :: 0 <= j < i ==> hs[j].base < base
        decreases |used| - i
      {
        prev := hp;
        hp := slot[hp].next;
        i := i + 1;
        CursorAt(i);
      }
      WalkedPosition(hs, base, i);
    }

    /** Bite `clicks` off list element `k` and drop the element when nothing is left. */
    method Bite(prev: int, hp: int, clicks: nat, ghost k: nat) returns (oldBase: nat)
      requires Valid() && k < |used| && used[k] == hp && Contents()[k].len >= clicks
      requires k > 0 ==> prev == used[k - 1]
      modifies this`holeHead, this`freeSlots, this`used, this`unused, slot
      ensures Valid()
      ensures oldBase == old(Contents())[k].base
      ensures Contents() == Carve(old(Contents()), k, clicks)
    {
      Look(k);
      oldBase := slot[hp].base;
      Resize(hp, slot[hp].base + clicks, slot[hp].len - clicks, k);
      Look(k);
      if slot[hp].len == 0 {
        DelSlot(prev, hp, k);
      }
    }

    /** First-fit attempt of `alloc_mem`. */
    method FirstFitAttempt(clicks: nat) returns (r: Option<nat>)
      requires Valid()
      modifies this`holeHead, this`freeSlots, this`used, this`unused, slot
      ensures Valid()
      ensures Attempted(FirstFit(old(Contents()), swapBase, clicks), old(Contents()), clicks, r, Contents())
    {
      var hp, prev := holeHead, NIL;
      ghost var i: nat, hs := 0, Contents();
      CursorAt(0);
      while hp != NIL && slot[hp].base < swapBase
        invariant Cursor(hp, prev, i)
        invariant forall j :: 0 <= j < i ==> hs[j].base < swapBase && hs[j].len < clicks
        modifies {}
        decreases |used| - i
      {
        if slot[hp].len >= clicks {
          break;
        }
        prev := hp;
        hp := slot[hp].next;
        i := i + 1;
        CursorAt(i);
      }
      WalkedFirstFit(hs, swapBase, clicks, i);
      if hp != NIL && slot[hp].base < swapBase {
        var base := Bite(prev, hp, clicks, i);
        return Some(base);
      }
      return None;
    }

    /** Worst fit's search, seeded with the list head whatever its address. */
    method FindLargest() returns (prevToMax: int, maxHole: int, ghost m: nat)
      requires Valid()
      ensures used == [] ==> maxHole == NIL
      ensures used != [] ==> m == WorstIndex(Contents(), swapBase) && Cursor(maxHole, prevToMax, m)
    {
      var hp, prev := holeHead, NIL;
      maxHole, prevToMax, m := holeHead, NIL, 0;
      ghost var i: nat, hs := 0, Contents();
      CursorAt(0);
      while hp != NIL && slot[hp].base < swapBase
        invariant Cursor(hp, prev, i)
        invariant forall j :: 0 <= j < i ==> hs[j].base < swapBase
        invariant |hs| == |used| && m == Champion(hs, i)
        invariant Cursor(maxHole, prevToMax, m)
        decreases |used| - i
      {
        WalkedChampion(hs, i);
        if slot[hp].len > slot[maxHole].len {
          prevToMax := prev;
          maxHole := hp;
          m := i;
        }
        prev := hp;
        hp := slot[hp].next;
        i := i + 1;
        CursorAt(i);
      }
      WalkedPrefix(hs, swapBase, i);
    }

    /** Worst-fit attempt of `alloc_mem`. */
    method WorstFitAttempt(clicks: nat) returns (r: Option<nat>)
      requires Valid()
      modifies this`holeHead, this`freeSlots, this`used, this`unused, slot
      ensures Valid()
      ensures Attempted(WorstFit(old(Contents()), swapBase, clicks), old(Contents()), clicks, r, Contents())
    {
      var prevToMax, maxHole, m := FindLargest();
      if maxHole != NIL && slot[maxHole].len >= clicks {
        var base := Bite(prevToMax, maxHole, clicks, m);
        return Some(base);
      }
      return None;
    }

    /** `swap_out`'s search for a swap hole of at least `size` clicks. */
    method FindSwapHole(size: nat) returns (prev: int, hp: int, ghost k: nat)
      requires Valid()
      ensures hp == NIL <==> SwapFit(Contents(), swapBase, size) == None
      ensures hp != NIL ==> k == SwapFit(Contents(), swapBase, size).value && Cursor(hp, prev, k)
    {
      hp, prev, k := holeHead, NIL, 0;
      ghost var hs := Contents();
      CursorAt(0);
      while hp != NIL && !(slot[hp].base >= swapBase && slot[hp].len >= size)
        invariant Cursor(hp, prev, k)
        invariant forall j :: 0 <= j < k ==> hs[j].base < swapBase || hs[j].len < size
        decreases |used| - k
      {
        prev := hp;
        hp := slot[hp].next;
        k := k + 1;
        CursorAt(k);
      }
      assert hp == NIL ==> SwapFit(hs, swapBase, size) == None;
      assert hp != NIL ==> SwapFit(hs, swapBase, size) == Some(k);
    }

    // -------------------------------------------------------------- swap_off's sweep

    method SweepSwap() returns (ok: bool)
      requires Valid()
      modifies this`holeHead, this`freeSlots, this`used, this`unused, slot
      ensures Valid()
      ensures match Swept(old(Contents()), swapBase)
              case None => !ok
              case Some(left) => ok && Contents() == left
    {
      var hp, prev := holeHead, NIL;
      ghost var hs, i: nat := Contents(), 0;
      CursorAt(0);
      SweepResult(hs, swapBase);
      while hp != NIL
        invariant Cursor(hp, prev, i)
        invariant SweepFrom(hs, 0, swapBase) == SweepFrom(Contents(), i, swapBase)
        decreases |used|, |used| - i
      {
        if slot[hp].base >= swapBase {
          DelSlot(prev, hp, i);
          CursorAt(0);
          hp := holeHead;
          if hp == NIL {
            return false;
          }
          i := 0;
        }
        prev := hp;
        hp := slot[hp].next;
        i := i + 1;
        CursorAt(i);
      }
      return true;
    }

    // -------------------------------------------------------------- do_hole_map

    /** The first `k` holes, all below `bound`, have been stored as `words`. */
    static ghost predicate Stored(hs: seq<Hole>, bound: nat, k: nat, words: seq<int>) {
      k <= |hs| && words == Flat(hs[..k]) && forall j :: 0 <= j < k ==> hs[j].base < bound
    }

    static lemma StoredNext(hs: seq<Hole>, bound: nat, k: nat, words: seq<int>)
      requires Stored(hs, bound, k, words) && k < |hs| && hs[k].base < bound
      ensures Stored(hs, bound, k + 1, words + [hs[k].len, hs[k].base])
    {
      FlatNext(hs, k);
    }

    /** Store the pair for list element `k` and go on to the next element. */
    method ReportHole(buffer: array<int>, i: nat, hp: int, ghost k: nat) returns (next: int)
      requires Cursor(hp, At(used, k - 1), k) && k < |used| && i + 1 < buffer.Length
      modifies buffer
      ensures next == At(used, k + 1)
      ensures buffer[..i + 2] == old(buffer[..i]) + [Contents()[k].len, Contents()[k].base]
    {
      var len, base := slot[hp].len, slot[hp].base;
      next := slot[hp].next;
      StorePair(buffer, i, len, base);
    }

    /** The collecting loop: at most `limit` pairs, regular holes only, never past the end of
        the buffer sized for the whole table. */
    method FillBuffer(buffer: array<int>, limit: nat) returns (i: nat, ghost k: nat)
      requires Valid() && buffer.Length == 2 * slot.Length + 1
      modifies buffer
      ensures Valid() && Contents() == old(Contents())
      ensures k <= |Contents()| && k <= limit
      ensures i == 2 * k < buffer.Length && buffer[..i] == Flat(Contents()[..k])
      ensures forall j :: 0 <= j < k ==> Contents()[j].base < swapBase
      ensures k == |Contents()| || Contents()[k].base >= swapBase || k == limit
    {
      var hp := holeHead;
      var nrPairs := limit;
      i, k := 0, 0;
      ghost var hs, bound := Contents(), swapBase;
      CursorAt(0);
      while hp != NIL && slot[hp].base < swapBase && nrPairs > 0
        invariant Cursor(hp, At(used, k - 1), k)
        invariant Contents() == hs && |used| == |hs| <= slot.Length
        invariant i == 2 * k && nrPairs + k == limit && nrPairs >= 0
        invariant Stored(hs, bound, k, buffer[..i])
        decreases nrPairs
      {
        StoredNext(hs, bound, k, buffer[..i]);
        hp := ReportHole(buffer, i, hp, k);
        i := i + 2;
        nrPairs := nrPairs - 1;
        k := k + 1;
        CursorAt(k);
      }
    }

    /** Report the regular holes in a caller's buffer of `nbytes` bytes: the words copied to
        it and the call's result. */
    method HoleMap(nbytes: int) returns (res: int, words: seq<int>)
      requires Valid() && -0x8000_0000 <= nbytes < 0x8000_0000
      ensures if AsUnsigned(nbytes) < WORD then res == -1 && words == []
              else var told := Reported(Contents(), swapBase, nbytes);
                   res == |told| && words == Encode(told)
    {
      var buffer := new int[2 * slot.Length + 1];
      var nrPairs := PairLimit(nbytes);
      if AsUnsigned(nbytes) < WORD {
        return -1, [];
      }
      var i, k := FillBuffer(buffer, nrPairs);
      WalkedReport(Contents(), swapBase, nbytes, k);
      buffer[i] := 0;
      assert buffer[..i + 1] == buffer[..i] + [0];
      return i / 2, buffer[..i + 1];
    }

    // -------------------------------------------------------------- mem_init

    method RaiseSwapBase(to: nat)
      requires Valid()
      modifies this`swapBase
      ensures Valid() && Contents() == old(Contents())
      ensures swapBase == if old(swapBase) < to then to else old(swapBase)
    {
      if swapBase < to {
        swapBase := to;
      }
    }

    /** Free one chunk and keep the swap base at the highest end so far. */
    method AddChunk(base: nat, size: nat) returns (panicked: bool)
      requires Valid() && size > 0
      modifies this`holeHead, this`freeSlots, this`used, this`unused, this`swapBase, slot
      ensures Valid()
      ensures panicked <==> |old(Contents())| == slot.Length
      ensures !panicked ==> Contents() == Release(old(Contents()), Hole(base, size))
      ensures !panicked ==> swapBase == if old(swapBase) < base + size then base + size else old(swapBase)
    {
      panicked := FreeMem(base, size);
      if !panicked {
        RaiseSwapBase(base + size);
      }
    }

    /** The loop of `mem_init` over the kernel's replies, up to the first empty one. */
    method AddAll(replies: seq<Hole>, totals: seq<nat>, unset: nat) returns (panicked: bool, total: nat, free: nat)
      requires Valid() && Contents() == [] && swapBase == 0 && |totals| == |replies|
      modifies this`holeHead, this`freeSlots, this`used, this`unused, this`swapBase, slot
      ensures Valid()
      ensures panicked <==> !AllFit(Chunks(replies), |Chunks(replies)|, slot.Length)
      ensures !panicked ==> Contents() == ReleaseAll([], Chunks(replies)) && swapBase == Top(Chunks(replies))
      ensures !panicked ==>
                && total == LastOf(totals[..|Chunks(replies)|], unset)
                && free == TotalLen(Chunks(replies))
    {
      total, free, panicked := unset, 0, false;
      ghost var all := Chunks(replies);
      var k := 0;
      while k < |replies| && replies[k].len != 0
        invariant Valid() && 0 <= k <= |replies|
        invariant Added(all, totals, unset, k, slot.Length, Contents(), swapBase, total, free)
        decreases |replies| - k
      {
        AddedNext(replies, totals, unset, k, slot.Length, Contents(), swapBase, total, free);
        var base, size := replies[k].base, replies[k].len;
        assert Hole(base, size) == replies[k];
        panicked := AddChunk(base, size);
        if panicked {
          return;
        }
        total := totals[k];
        free := free + size;
        k := k + 1;
      }
      AddedAll(replies, totals, unset, k, slot.Length, Contents(), swapBase, total, free);
    }

    /** The second half of `mem_init`: free every chunk the kernel reports, then place the swap
        base one click above the highest of them. With every reply comes a memory total, of which
        the last counts; `unset` is what the caller's variable holds when there is none. */
    method AddChunks(replies: seq<Hole>, totals: seq<nat>, unset: nat) returns (panicked: bool, total: nat, free: nat)
      requires Valid() && Contents() == [] && swapBase == 0 && |totals| == |replies|
      modifies this`holeHead, this`freeSlots, this`used, this`unused, this`swapBase, slot
      ensures Valid()
      ensures panicked <==> !AllFit(Chunks(replies), |Chunks(replies)|, slot.Length)
      ensures !panicked ==> Contents() == ReleaseAll([], Chunks(replies)) && swapBase == Top(Chunks(replies)) + 1
      ensures !panicked ==>
                && total == LastOf(totals[..|Chunks(replies)|], unset)
                && free == TotalLen(Chunks(replies))
    {
      panicked, total, free := AddAll(replies, totals, unset);
      if !panicked {
        RaiseSwapBase(swapBase + 1);
      }
    }
  }
}
