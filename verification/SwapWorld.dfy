/** The memory manager seen together with the blocks it has handed out and what their owners
    wrote into them. `Inv` says that holes and blocks tile the memory and that every block
    still holds its owner's bytes, in memory or in the swap file. */
module SwapWorld {
  import opened Options
  import opened Lists
  import opened Holes
  import opened SwapModel
  import opened Tiling

  /** `chunks` are the pieces of real memory, `swapLen` the clicks of the swap area while
      swapping is on, `image` the bytes each owner believes its block to hold. */
  datatype World = World(s: State, blocks: Blocks, chunks: seq<Hole>, swapLen: nat, image: map<Owner, Store>)

  function SwapArea(w: World): Hole { Hole(w.s.swapBase, w.swapLen) }

  predicate OnSwap(s: State, o: Owner) {
    o.OfProc? && o.p < |s.procs| && s.procs[o.p].onswap
  }

  /** Byte `k` of a block, in memory or at its place in the swap file. */
  function ByteAt(s: State, b: Hole, swapped: bool, k: int): bv8 {
    if swapped then s.file(s.FileAt(b.base) + k) else s.ram(b.base * s.clickSize + k)
  }

  ghost predicate Intact(s: State, b: Hole, swapped: bool, image: Store) {
    forall k :: 0 <= k < b.len * s.clickSize ==> ByteAt(s, b, swapped, k) == image(k)
  }

  /** Blocks on swap lie above the swap base, all others end below it. */
  predicate Placed(s: State, o: Owner, b: Hole) {
    if OnSwap(s, o) then b.base >= s.swapBase else b.End() < s.swapBase
  }

  /** The entry of a process slot nobody uses. */
  predicate Idle(p: Proc) {
    !p.paused && !p.waiting && !p.sigsuspended && !p.onswap && !p.swapin
  }

  ghost predicate ProcOk(w: World, p: nat)
    requires p < |w.s.procs|
  {
    var rmp := w.s.procs[p];
    && (OfProc(p) !in w.blocks ==> Idle(rmp))
    && (OfProc(p) in w.blocks ==>
          w.s.lowUser <= p && w.blocks[OfProc(p)] == rmp.Block() && rmp.sPhys == rmp.dPhys + rmp.stackOff)
    && (rmp.swapin ==> rmp.onswap)
    && (rmp.onswap ==> w.s.swapFd != -1)
  }

  ghost predicate ProcsOk(w: World) {
    && (forall p :: 0 <= p < |w.s.procs| ==> ProcOk(w, p))
    && (forall o :: o in w.blocks && o.OfProc? ==> o.p < |w.s.procs|)
  }

  ghost predicate BlockOk(w: World, o: Owner) {
    && o in w.blocks && o in w.image
    && Placed(w.s, o, w.blocks[o])
    && Intact(w.s, w.blocks[o], OnSwap(w.s, o), w.image[o])
  }

  /** Everything that also holds while an image is being moved. */
  ghost predicate Core(w: World) {
    && w.s.Ok() && w.s.clickSize > 0 && w.s.swapBase > 0 && |w.s.holes| <= w.s.slots
    && (forall i :: 0 <= i < |w.chunks| ==> w.chunks[i].End() < w.s.swapBase)
    && (w.s.swapFd == -1 ==> w.swapLen == 0)
    && Tiled(w.s.holes, w.blocks, Known(w.chunks, SwapArea(w)))
    && ProcsOk(w)
    && w.image.Keys == w.blocks.Keys
    && (forall o :: o in w.blocks ==> BlockOk(w, o))
    && Distinct(w.s.queue)
  }

  ghost predicate Inv(w: World) {
    Core(w) && Scratch !in w.blocks
  }

  /** The blocks after processes moved: each process holds the block its entry names. */
  ghost function Sync(blocks: Blocks, procs: seq<Proc>): (r: Blocks)
    ensures r.Keys == blocks.Keys
  {
    map o | o in blocks :: if o.OfProc? && o.p < |procs| then procs[o.p].Block() else blocks[o]
  }

  ghost function After(w: World, s: State): World {
    w.(s := s, blocks := Sync(w.blocks, s.procs))
  }

  /** What memory holds from the start of `b` on. */
  function MemoryAt(s: State, b: Hole): Store {
    (k: int) => s.ram(b.base * s.clickSize + k)
  }

  /** A new block in the hands of `o`, holding whatever memory holds there. */
  ghost function Claim(w: World, o: Owner, b: Hole): World {
    w.(blocks := w.blocks[o := b], image := w.image[o := MemoryAt(w.s, b)])
  }

  // ---------------------------------------------------------------- consequences

  /** A list that leaves the click below the swap base alone has no hole across the base. */
  lemma SeparatedFromGap(hs: seq<Hole>, swapBase: nat)
    requires swapBase > 0 && !Free(hs, swapBase - 1)
    ensures Separated(hs, swapBase)
  {
    forall i | 0 <= i < |hs| && hs[i].base < swapBase ensures hs[i].End() < swapBase {
      assert !hs[i].Has(swapBase - 1);
    }
  }

  /** No hole straddles the swap base. */
  lemma NoStraddling(w: World)
    requires w.s.swapBase > 0 && forall i :: 0 <= i < |w.chunks| ==> w.chunks[i].End() < w.s.swapBase
    requires Tiled(w.s.holes, w.blocks, Known(w.chunks, SwapArea(w)))
    ensures Separated(w.s.holes, w.s.swapBase)
  {
    assert w.s.swapBase - 1 !in Known(w.chunks, SwapArea(w));
    SeparatedFromGap(w.s.holes, w.s.swapBase);
  }

  lemma CarveLength(hs: seq<Hole>, i: nat, n: nat)
    requires i < |hs| && n <= hs[i].len
    ensures |Carve(hs, i, n)| <= |hs|
  {
  }

  lemma ReleaseLength(hs: seq<Hole>, b: Hole)
    ensures |Release(hs, b)| <= |hs| + (if b.len > 0 then 1 else 0)
  {
  }

  // ---------------------------------------------------------------- byte addresses

  lemma MulMono(a: int, b: int, k: nat)
    requires a <= b
    ensures a * k <= b * k
  {
  }

  /** Blocks without a common click have no common byte. */
  lemma BytesApart(a: Hole, b: Hole, size: nat, k: int)
    requires Disjoint(a, b) && 0 <= k < a.len * size
    ensures !(b.base * size <= a.base * size + k < b.base * size + b.len * size)
  {
    assert b.len == 0 ==> b.len * size == 0;
    assert a.len > 0;
    if a.End() <= b.base {
      MulMono(a.End(), b.base, size);
      assert a.End() * size == a.base * size + a.len * size;
    } else if b.len > 0 {
      MulMono(b.End(), a.base, size);
      assert b.End() * size == b.base * size + b.len * size;
    }
  }

  lemma FileAtLinear(s: State, base: nat)
    ensures s.FileAt(base) == s.swapOffset - s.swapBase * s.clickSize + base * s.clickSize
  {
  }

  /** Writing one block in memory leaves the bytes of every other block there alone. */
  lemma RamWriteApart(s: State, ram: Store, b: Hole, src: Store, from: int, o: Hole, image: Store)
    requires Disjoint(o, b) && Intact(s, o, false, image)
    requires ram == CopyBytes(s.ram, b.base * s.clickSize, src, from, b.len * s.clickSize)
    ensures Intact(s.(ram := ram), o, false, image)
  {
    var s' := s.(ram := ram);
    forall k | 0 <= k < o.len * s.clickSize ensures ByteAt(s', o, false, k) == image(k) {
      BytesApart(o, b, s.clickSize, k);
      assert ByteAt(s, o, false, k) == image(k);
    }
  }

  /** The same for the swap file. */
  lemma FileWriteApart(s: State, file: Store, b: Hole, src: Store, from: int, o: Hole, image: Store)
    requires Disjoint(o, b) && Intact(s, o, true, image)
    requires file == CopyBytes(s.file, s.FileAt(b.base), src, from, b.len * s.clickSize)
    ensures Intact(s.(file := file), o, true, image)
  {
    var s' := s.(file := file);
    forall k | 0 <= k < o.len * s.clickSize ensures ByteAt(s', o, true, k) == image(k) {
      BytesApart(o, b, s.clickSize, k);
      FileAtLinear(s, o.base);
      FileAtLinear(s, b.base);
      assert ByteAt(s, o, true, k) == image(k);
    }
  }

  /** Intactness looks at memory, swap file and geometry only. */
  lemma IntactFrame(a: State, b: State, o: Hole, swapped: bool, image: Store)
    requires Intact(a, o, swapped, image)
    requires a.clickSize == b.clickSize && a.swapBase == b.swapBase && a.swapOffset == b.swapOffset
    requires if swapped then a.file == b.file else a.ram == b.ram
    ensures Intact(b, o, swapped, image)
  {
    forall k | 0 <= k < o.len * b.clickSize ensures ByteAt(b, o, swapped, k) == image(k) {
      assert ByteAt(a, o, swapped, k) == image(k);
    }
  }

  // ---------------------------------------------------------------- evicting a process

  /** The parts of one eviction. */
  ghost predicate EvictsTo(s: State, p: nat, i: nat, s': State) {
    && s.Ok() && s.lowUser <= p < |s.procs| && Evictable(s, p)
    && i == SwapFit(s.holes, s.swapBase, s.procs[p].Size()).value
    && Evict(s, p) == Some(s')
  }

  /** Every process holds the block its entry names. */
  ghost predicate Mapped(blocks: Blocks, procs: seq<Proc>) {
    forall o :: o in blocks && o.OfProc? ==> o.p < |procs| && procs[o.p].Block() == blocks[o]
  }

  lemma ProcsAreMapped(w: World)
    requires ProcsOk(w)
    ensures Mapped(w.blocks, w.s.procs)
  {
    forall o | o in w.blocks && o.OfProc? ensures o.p < |w.s.procs| && w.s.procs[o.p].Block() == w.blocks[o] {
      assert ProcOk(w, o.p);
    }
  }

  /** Replacing one table entry changes one block. */
  lemma SyncOne(blocks: Blocks, procs: seq<Proc>, p: nat, rmp: Proc)
    requires Mapped(blocks, procs) && p < |procs| && OfProc(p) in blocks
    ensures Sync(blocks, procs[p := rmp]) == blocks[OfProc(p) := rmp.Block()]
  {
  }

  lemma EvictSync(w: World, p: nat, i: nat, s': State)
    requires ProcsOk(w) && EvictsTo(w.s, p, i, s') && OfProc(p) in w.blocks
    ensures Sync(w.blocks, s'.procs) == w.blocks[OfProc(p) := Hole(w.s.holes[i].base, w.s.procs[p].Size())]
  {
    EvictMoves(w.s, p, i, s');
    ProcsAreMapped(w);
    SyncOne(w.blocks, w.s.procs, p, s'.procs[p]);
  }

  lemma EvictMoves(s: State, p: nat, i: nat, s': State)
    requires EvictsTo(s, p, i, s')
    ensures p < |s'.procs| && s'.procs == s.procs[p := s'.procs[p]]
    ensures s'.procs[p].Block() == Hole(s.holes[i].base, s.procs[p].Size())
  {
  }

  lemma EvictTiled(w: World, p: nat, i: nat, s': State)
    requires Inv(w) && EvictsTo(w.s, p, i, s')
    ensures OfProc(p) in w.blocks
    ensures Tiled(s'.holes, Sync(w.blocks, s'.procs), Known(w.chunks, SwapArea(w)))
    ensures |s'.holes| <= s'.slots
    ensures forall o :: o in w.blocks ==> Disjoint(w.blocks[o], Hole(w.s.holes[i].base, w.s.procs[p].Size()))
  {
    assert ProcOk(w, p);
    var n := w.s.procs[p].Size();
    MoveTiled(w.s.holes, w.blocks, Known(w.chunks, SwapArea(w)), i, n, OfProc(p));
    EvictSync(w, p, i, s');
    CarveLength(w.s.holes, i, n);
    ReleaseLength(Carve(w.s.holes, i, n), w.blocks[OfProc(p)]);
  }

  /** What was in memory at `from` is in the swap file at `to` once it has been copied there. */
  lemma CopiedOut(s: State, s': State, from: Hole, to: Hole, image: Store)
    requires Intact(s, from, false, image) && to.len == from.len
    requires s'.clickSize == s.clickSize && s'.swapBase == s.swapBase && s'.swapOffset == s.swapOffset
    requires s'.file == CopyBytes(s.file, s.FileAt(to.base), s.ram, from.base * s.clickSize, to.len * s.clickSize)
    ensures Intact(s', to, true, image)
  {
    forall k | 0 <= k < to.len * s.clickSize ensures ByteAt(s', to, true, k) == image(k) {
      assert ByteAt(s, from, false, k) == image(k);
    }
  }

  /** The writes of one eviction. */
  lemma EvictCopies(s: State, p: nat, i: nat, s': State)
    requires EvictsTo(s, p, i, s')
    ensures s' == s.(holes := s'.holes, procs := s'.procs, outswap := p, file := s'.file)
    ensures s'.file == CopyBytes(s.file, s.FileAt(s.holes[i].base), s.ram, s.procs[p].dPhys * s.clickSize,
                                 s.procs[p].Size() * s.clickSize)
    ensures s'.procs == s.procs[p := s.procs[p].MovedTo(s.holes[i].base).(onswap := true)]
  {
  }

  /** The evicted process finds its bytes in the swap file. */
  lemma EvictedImage(w: World, p: nat, i: nat, s': State)
    requires Inv(w) && EvictsTo(w.s, p, i, s') && OfProc(p) in w.blocks
    ensures Intact(s', Hole(w.s.holes[i].base, w.s.procs[p].Size()), true, w.image[OfProc(p)])
  {
    assert ProcOk(w, p) && BlockOk(w, OfProc(p));
    EvictCopies(w.s, p, i, s');
    CopiedOut(w.s, s', w.blocks[OfProc(p)], Hole(w.s.holes[i].base, w.s.procs[p].Size()), w.image[OfProc(p)]);
  }

  /** Everybody else's bytes stay where they were. */
  lemma EvictOther(w: World, p: nat, i: nat, s': State, o: Owner)
    requires Inv(w) && EvictsTo(w.s, p, i, s') && o in w.blocks && o != OfProc(p)
    requires Disjoint(w.blocks[o], Hole(w.s.holes[i].base, w.s.procs[p].Size()))
    ensures OnSwap(s', o) == OnSwap(w.s, o)
    ensures Intact(s', w.blocks[o], OnSwap(w.s, o), w.image[o])
  {
    assert BlockOk(w, o);
    EvictCopies(w.s, p, i, s');
    var b := Hole(w.s.holes[i].base, w.s.procs[p].Size());
    if OnSwap(w.s, o) {
      FileWriteApart(w.s, s'.file, b, w.s.ram, w.s.procs[p].dPhys * w.s.clickSize, w.blocks[o], w.image[o]);
      IntactFrame(w.s.(file := s'.file), s', w.blocks[o], true, w.image[o]);
    } else {
      IntactFrame(w.s, s', w.blocks[o], false, w.image[o]);
    }
  }

  lemma EvictBlock(w: World, p: nat, i: nat, s': State, o: Owner)
    requires Inv(w) && EvictsTo(w.s, p, i, s') && o in w.blocks && OfProc(p) in w.blocks
    requires Disjoint(w.blocks[o], Hole(w.s.holes[i].base, w.s.procs[p].Size()))
    ensures BlockOk(After(w, s'), o)
  {
    EvictSync(w, p, i, s');
    if o == OfProc(p) {
      EvictedImage(w, p, i, s');
    } else {
      EvictedElsewhere(w, p, i, s', o);
    }
  }

  lemma EvictedElsewhere(w: World, p: nat, i: nat, s': State, o: Owner)
    requires Inv(w) && EvictsTo(w.s, p, i, s') && o in w.blocks && o != OfProc(p)
    requires Sync(w.blocks, s'.procs)[o] == w.blocks[o]
    requires Disjoint(w.blocks[o], Hole(w.s.holes[i].base, w.s.procs[p].Size()))
    ensures BlockOk(After(w, s'), o)
  {
    assert BlockOk(w, o);
    EvictOther(w, p, i, s', o);
  }

  /** Only process `p` has moved. */
  lemma ProcsAfterMove(w: World, w': World, p: nat)
    requires ProcsOk(w) && p < |w.s.procs| && OfProc(p) in w.blocks
    requires w'.s.lowUser == w.s.lowUser && w'.s.swapFd == w.s.swapFd
    requires |w'.s.procs| == |w.s.procs| && w'.s.procs == w.s.procs[p := w'.s.procs[p]]
    requires forall o: Owner :: o.OfProc? ==> (o in w'.blocks <==> o in w.blocks)
    requires forall o: Owner :: o.OfProc? && o in w.blocks && o != OfProc(p) ==> w'.blocks[o] == w.blocks[o]
    requires var rmp := w'.s.procs[p];
             && w'.blocks[OfProc(p)] == rmp.Block() && rmp.sPhys == rmp.dPhys + rmp.stackOff
             && (rmp.swapin ==> rmp.onswap) && (rmp.onswap ==> w'.s.swapFd != -1)
    ensures ProcsOk(w')
  {
    forall q | 0 <= q < |w'.s.procs| ensures ProcOk(w', q) {
      assert ProcOk(w, q);
    }
  }

  lemma EvictProcs(w: World, p: nat, i: nat, s': State)
    requires Inv(w) && EvictsTo(w.s, p, i, s') && OfProc(p) in w.blocks
    ensures ProcsOk(After(w, s'))
  {
    EvictSync(w, p, i, s');
    EvictCopies(w.s, p, i, s');
    SwapHoleMeansSwapping(w, i);
    ProcsAfterMove(w, After(w, s'), p);
  }

  /** Swapping a process out keeps the tiling and everybody's bytes. */
  lemma EvictKeeps(w: World, p: nat, i: nat, s': State)
    requires Inv(w) && EvictsTo(w.s, p, i, s')
    ensures Inv(After(w, s'))
    ensures s'.swapBase == w.s.swapBase && s'.worst == w.s.worst
  {
    EvictTiled(w, p, i, s');
    EvictCopies(w.s, p, i, s');
    EvictProcs(w, p, i, s');
    forall o | o in After(w, s').blocks ensures BlockOk(After(w, s'), o) {
      EvictBlock(w, p, i, s', o);
    }
  }

  /** Holes at or above the swap base exist only while swapping is on. */
  lemma SwapHoleMeansSwapping(w: World, i: nat)
    requires Core(w) && i < |w.s.holes| && w.s.holes[i].base >= w.s.swapBase
    ensures w.s.swapFd != -1
  {
    var c := w.s.holes[i].base;
    assert w.s.holes[i].Has(c);
    assert Free(w.s.holes, c);
    assert c in Known(w.chunks, SwapArea(w));
  }

  // ---------------------------------------------------------------- the queue

  lemma ChainedOk(q: seq<nat>, p: nat)
    requires Distinct(q)
    ensures Distinct(Chained(q, p))
  {
  }

  lemma RemoveKeepsDistinct(q: seq<nat>, i: nat)
    requires Distinct(q) && i < |q|
    ensures Distinct(RemoveAt(q, i))
  {
  }
}
