/** How holes and live blocks share out the known memory, and how many holes that can make. */
module Tiling {
  import opened Lists
  import opened Holes

  /** Who holds a block: a process its image, or whoever called `alloc_mem` a block not yet
      given to a process. `Scratch` names the new block while an image is being moved. */
  datatype Owner = OfProc(p: nat) | Loose(id: nat) | Scratch

  type Blocks = map<Owner, Hole>

  ghost predicate BlocksApart(blocks: Blocks) {
    forall o1, o2 :: o1 in blocks && o2 in blocks && o1 != o2 ==> Disjoint(blocks[o1], blocks[o2])
  }

  ghost predicate HolesApart(hs: seq<Hole>, blocks: Blocks) {
    forall o :: o in blocks ==> DisjointFromAll(hs, blocks[o])
  }

  ghost predicate Held(blocks: Blocks, c: int) {
    exists o :: o in blocks && blocks[o].Has(c)
  }

  /** Every known click is free or held, never both, never held twice; no other click is. */
  ghost predicate Tiled(hs: seq<Hole>, blocks: Blocks, known: iset<int>) {
    && Canonical(hs)
    && BlocksApart(blocks)
    && HolesApart(hs, blocks)
    && forall c :: c in known <==> Free(hs, c) || Held(blocks, c)
  }

  lemma HeldAfterAdd(blocks: Blocks, o: Owner, b: Hole, c: int)
    requires o !in blocks
    ensures Held(blocks[o := b], c) <==> Held(blocks, c) || b.Has(c)
  {
    var more := blocks[o := b];
    if Held(blocks, c) {
      var x :| x in blocks && blocks[x].Has(c);
      assert x in more && more[x].Has(c);
    }
    if b.Has(c) { assert o in more && more[o].Has(c); }
  }

  lemma HeldAfterDrop(blocks: Blocks, o: Owner, c: int)
    requires o in blocks
    ensures Held(blocks, c) <==> Held(blocks - {o}, c) || blocks[o].Has(c)
  {
    assert blocks == (blocks - {o})[o := blocks[o]];
    HeldAfterAdd(blocks - {o}, o, blocks[o], c);
  }

  /** What allocation hands out overlaps no live block, and the tiling goes on with it. */
  lemma TakeTiled(hs: seq<Hole>, blocks: Blocks, known: iset<int>, i: nat, n: nat, o: Owner)
    requires Tiled(hs, blocks, known) && i < |hs| && n <= hs[i].len && o !in blocks
    ensures Tiled(Carve(hs, i, n), blocks[o := Hole(hs[i].base, n)], known)
  {
    var b, r := Hole(hs[i].base, n), Carve(hs, i, n);
    var more := blocks[o := b];
    CarveCorrect(hs, i, n);
    forall x | x in blocks
      ensures Disjoint(b, blocks[x]) && DisjointFromAll(r, blocks[x])
    {
      DisjointIffNoFreeClick(hs, blocks[x]);
      DisjointIffNoFreeClick(r, blocks[x]);
      if !Disjoint(b, blocks[x]) { OverlapHasCommonClick(b, blocks[x]); }
    }
    DisjointIffNoFreeClick(r, b);
    forall c ensures c in known <==> Free(r, c) || Held(more, c) {
      HeldAfterAdd(blocks, o, b, c);
    }
  }

  /** Giving a live block back to the hole list keeps the tiling. */
  lemma GiveTiled(hs: seq<Hole>, blocks: Blocks, known: iset<int>, o: Owner)
    requires Tiled(hs, blocks, known) && o in blocks
    ensures Tiled(Release(hs, blocks[o]), blocks - {o}, known)
  {
    var b, fewer := blocks[o], blocks - {o};
    ReleaseCorrect(hs, b);
    forall x | x in fewer ensures DisjointFromAll(Release(hs, b), fewer[x]) {
      assert Disjoint(blocks[o], blocks[x]);
      ReleaseKeepsDisjoint(hs, b, blocks[x]);
    }
    forall c ensures c in known <==> Free(Release(hs, b), c) || Held(fewer, c) {
      HeldAfterDrop(blocks, o, c);
    }
  }

  /** A block changing hands keeps the tiling. */
  lemma ReownTiled(hs: seq<Hole>, blocks: Blocks, known: iset<int>, from: Owner, to: Owner)
    requires Tiled(hs, blocks, known) && from in blocks && to !in blocks
    ensures Tiled(hs, (blocks - {from})[to := blocks[from]], known)
  {
    var after := (blocks - {from})[to := blocks[from]];
    forall c ensures Held(after, c) <==> Held(blocks, c) {
      HeldAfterDrop(blocks, from, c);
      HeldAfterAdd(blocks - {from}, to, blocks[from], c);
    }
  }

  /** Carve a new block, give an old one back and let its owner have the new one. */
  lemma MoveTiled(hs: seq<Hole>, blocks: Blocks, known: iset<int>, i: nat, n: nat, o: Owner)
    requires Tiled(hs, blocks, known) && i < |hs| && n <= hs[i].len && o in blocks && Scratch !in blocks
    ensures Tiled(Release(Carve(hs, i, n), blocks[o]), blocks[o := Hole(hs[i].base, n)], known)
    ensures forall x :: x in blocks ==> Disjoint(blocks[x], Hole(hs[i].base, n))
  {
    var b := Hole(hs[i].base, n);
    TakeTiled(hs, blocks, known, i, n, Scratch);
    SwitchTiled(Carve(hs, i, n), blocks, known, o, b);
    var withNew := blocks[Scratch := b];
    forall x | x in blocks ensures Disjoint(blocks[x], b) {
      assert x in withNew && Scratch in withNew && withNew[x] == blocks[x];
      assert Disjoint(withNew[x], withNew[Scratch]);
    }
  }

  /** The second half of a move: the owner of a scratch block gives its old block back. */
  lemma SwitchTiled(hs: seq<Hole>, blocks: Blocks, known: iset<int>, o: Owner, b: Hole)
    requires o in blocks && Scratch !in blocks && Tiled(hs, blocks[Scratch := b], known)
    ensures Tiled(Release(hs, blocks[o]), blocks[o := b], known)
  {
    var withNew := blocks[Scratch := b];
    GiveTiled(hs, withNew, known, o);
    ReownTiled(Release(hs, blocks[o]), withNew - {o}, known, Scratch, o);
    assert ((withNew - {o}) - {Scratch})[o := b] == blocks[o := b];
  }

  // ---------------------------------------------------------------- conservation

  ghost function HeldClicks(blocks: Blocks): set<int> {
    set o, c | o in blocks && c in ClicksOf(blocks[o]) :: c
  }

  /** Free clicks and held clicks always add up to the known clicks. */
  lemma Conservation(hs: seq<Hole>, blocks: Blocks, known: set<int>)
    requires Tiled(hs, blocks, iset c | c in known)
    ensures TotalLen(hs) + |HeldClicks(blocks)| == |known|
  {
    TotalLenCounts(hs);
    ClicksAreFree(hs);
    forall c ensures c in HeldClicks(blocks) <==> Held(blocks, c) {
      if Held(blocks, c) {
        var o :| o in blocks && blocks[o].Has(c);
        assert c in ClicksOf(blocks[o]);
      }
    }
    forall c ensures c in known <==> c in Clicks(hs) || c in HeldClicks(blocks) {
      assert c in known <==> c in (iset x | x in known);
    }
    forall c | c in HeldClicks(blocks) ensures c !in Clicks(hs) {
      var o :| o in blocks && c in ClicksOf(blocks[o]);
      DisjointIffNoFreeClick(hs, blocks[o]);
    }
    assert known == Clicks(hs) + HeldClicks(blocks);
  }

  // ---------------------------------------------------------------- number of holes

  /** Why the click behind a hole is not free: a live block holds it, or a chunk of memory or
      the swap area ends there. */
  datatype Reason = HeldBy(o: Owner) | ChunkEnds(k: nat) | SwapEnds

  ghost predicate Explains(r: Reason, c: int, blocks: Blocks, chunks: seq<Hole>, swap: Hole) {
    match r
    case HeldBy(o) => o in blocks && blocks[o].Has(c)
    case ChunkEnds(k) => k < |chunks| && c == chunks[k].End()
    case SwapEnds => c == swap.End()
  }

  /** The clicks of the chunks and of the swap area. */
  ghost function Known(chunks: seq<Hole>, swap: Hole): iset<int> {
    iset c: int | Free(chunks, c) || swap.Has(c)
  }

  lemma ReasonExists(hs: seq<Hole>, blocks: Blocks, chunks: seq<Hole>, swap: Hole, i: nat) returns (r: Reason)
    requires Tiled(hs, blocks, Known(chunks, swap)) && i < |hs|
    ensures Explains(r, hs[i].End(), blocks, chunks, swap)
  {
    var e := hs[i].End();
    EndNotFree(hs, i);
    if Held(blocks, e) {
      var o :| o in blocks && blocks[o].Has(e);
      r := HeldBy(o);
    } else {
      assert hs[i].Has(e - 1);
      assert Free(hs, e - 1);
      assert e - 1 in Known(chunks, swap) && e !in Known(chunks, swap);
      if swap.Has(e - 1) {
        r := SwapEnds;
      } else {
        var k :| 0 <= k < |chunks| && chunks[k].Has(e - 1);
        assert !chunks[k].Has(e);
        r := ChunkEnds(k);
      }
    }
  }

  /** No reason explains the clicks behind two different holes. */
  lemma ReasonUnique(hs: seq<Hole>, blocks: Blocks, chunks: seq<Hole>, swap: Hole, r: Reason, i: nat, j: nat)
    requires Tiled(hs, blocks, Known(chunks, swap)) && i < j < |hs|
    ensures !(Explains(r, hs[i].End(), blocks, chunks, swap) && Explains(r, hs[j].End(), blocks, chunks, swap))
  {
    assert hs[i].End() < hs[j].base < hs[j].End();
    if r.HeldBy? && r.o in blocks {
      assert DisjointFromAll(hs, blocks[r.o]);
      assert Disjoint(hs[j], blocks[r.o]);
    }
  }

  lemma {:induction false} Reasons(hs: seq<Hole>, blocks: Blocks, chunks: seq<Hole>, swap: Hole, n: nat)
    returns (rs: seq<Reason>)
    requires Tiled(hs, blocks, Known(chunks, swap)) && n <= |hs|
    ensures |rs| == n && forall i :: 0 <= i < n ==> Explains(rs[i], hs[i].End(), blocks, chunks, swap)
    decreases n
  {
    if n == 0 {
      rs := [];
    } else {
      rs := Reasons(hs, blocks, chunks, swap, n - 1);
      var r := ReasonExists(hs, blocks, chunks, swap, n - 1);
      rs := rs + [r];
    }
  }

  lemma {:induction false} DistinctSeqFits<T>(xs: seq<T>, all: set<T>)
    requires Distinct(xs)
    requires forall i :: 0 <= i < |xs| ==> xs[i] in all
    ensures |xs| <= |all|
    decreases |xs|
  {
    if xs != [] {
      DistinctSeqFits(xs[1..], all - {xs[0]});
    }
  }

  ghost function HolderReasons(owners: set<Owner>): set<Reason> {
    set o | o in owners :: HeldBy(o)
  }

  ghost function ChunkReasons(n: nat): set<Reason> {
    set k: nat | k < n :: ChunkEnds(k)
  }

  lemma {:induction false} HolderReasonCount(owners: set<Owner>)
    ensures |HolderReasons(owners)| == |owners|
    decreases owners
  {
    if owners != {} {
      var o :| o in owners;
      HolderReasonCount(owners - {o});
      assert HolderReasons(owners) == HolderReasons(owners - {o}) + {HeldBy(o)};
    }
  }

  lemma {:induction false} ChunkReasonCount(n: nat)
    ensures |ChunkReasons(n)| == n
    decreases n
  {
    if n > 0 {
      ChunkReasonCount(n - 1);
      assert ChunkReasons(n) == ChunkReasons(n - 1) + {ChunkEnds(n - 1)};
    }
  }

  ghost function AllReasons(owners: set<Owner>, n: nat): set<Reason> {
    HolderReasons(owners) + ChunkReasons(n) + {SwapEnds}
  }

  lemma AllReasonsCount(owners: set<Owner>, n: nat)
    ensures |AllReasons(owners, n)| == |owners| + n + 1
  {
    HolderReasonCount(owners);
    ChunkReasonCount(n);
    var two := HolderReasons(owners) + ChunkReasons(n);
    assert |two| == |owners| + n;
    assert SwapEnds !in two;
  }

  lemma ReasonKnown(r: Reason, c: int, blocks: Blocks, chunks: seq<Hole>, swap: Hole)
    requires Explains(r, c, blocks, chunks, swap)
    ensures r in AllReasons(blocks.Keys, |chunks|)
  {
  }

  lemma ReasonsDistinct(hs: seq<Hole>, blocks: Blocks, chunks: seq<Hole>, swap: Hole, rs: seq<Reason>)
    requires Tiled(hs, blocks, Known(chunks, swap)) && |rs| == |hs|
    requires forall i :: 0 <= i < |rs| ==> Explains(rs[i], hs[i].End(), blocks, chunks, swap)
    ensures Distinct(rs)
  {
    forall i, j | 0 <= i < j < |rs| ensures rs[i] != rs[j] {
      ReasonUnique(hs, blocks, chunks, swap, rs[i], i, j);
    }
  }

  /** Coalescing pays: there are never more holes than live blocks, memory chunks and the
      swap area together. */
  lemma HoleBound(hs: seq<Hole>, blocks: Blocks, chunks: seq<Hole>, swap: Hole)
    requires Tiled(hs, blocks, Known(chunks, swap))
    ensures |hs| <= |blocks| + |chunks| + 1
  {
    var rs := Reasons(hs, blocks, chunks, swap, |hs|);
    ReasonsDistinct(hs, blocks, chunks, swap, rs);
    forall i | 0 <= i < |rs| ensures rs[i] in AllReasons(blocks.Keys, |chunks|) {
      ReasonKnown(rs[i], hs[i].End(), blocks, chunks, swap);
    }
    DistinctSeqFits(rs, AllReasons(blocks.Keys, |chunks|));
    AllReasonsCount(blocks.Keys, |chunks|);
  }
}
