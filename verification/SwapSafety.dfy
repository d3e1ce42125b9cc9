/** What every operation of the memory manager keeps, and what its results mean. */
module SwapSafety {
  import opened Options
  import opened Lists
  import opened Holes
  import opened SwapModel
  import opened Tiling
  import opened SwapWorld

  // ---------------------------------------------------------------- the eviction scan

  /** After how many steps the scan starting behind `outswap` looks at `q`. */
  function Turn(s: State, q: nat): nat
    requires s.Ok() && s.lowUser <= q < |s.procs|
  {
    if q > s.outswap then q - s.outswap else q - s.outswap + (|s.procs| - s.lowUser)
  }

  lemma {:induction false} ScanFrom(s: State, p: nat)
    requires s.Ok() && s.lowUser <= p < |s.procs|
    ensures var turn := if p == s.outswap then 0 else Turn(s, p);
            match Scan(s, p)
            case Some(v) =>
              Turn(s, v) > turn
              && forall q :: s.lowUser <= q < |s.procs| && turn < Turn(s, q) < Turn(s, v) ==> !Evictable(s, q)
            case None =>
              forall q :: s.lowUser <= q < |s.procs| && turn < Turn(s, q) ==> !Evictable(s, q)
    decreases Ahead(s, p)
  {
    var turn := if p == s.outswap then 0 else Turn(s, p);
    var q := NextProc(s, p);
    assert Turn(s, q) == turn + 1;
    forall x | s.lowUser <= x < |s.procs| && Turn(s, x) == turn + 1 ensures x == q {}
    if !Evictable(s, q) && q != s.outswap {
      ScanFrom(s, q);
    }
  }

  /** The wrapping scan looks at every user entry once, in table order from behind the last
      victim: it takes the first evictable one, and finds nobody only if there is none. */
  lemma ScanIsRoundRobin(s: State)
    requires s.Ok()
    ensures match Scan(s, s.outswap)
            case Some(v) =>
              && s.lowUser <= v < |s.procs| && Evictable(s, v)
              && forall q :: s.lowUser <= q < |s.procs| && Evictable(s, q) ==> Turn(s, v) <= Turn(s, q)
            case None => forall q :: s.lowUser <= q < |s.procs| ==> !Evictable(s, q)
  {
    ScanFrom(s, s.outswap);
  }

  /** Of all evictable processes `p` is the one the scan comes to first. */
  ghost predicate FirstInTurn(s: State, p: nat)
    requires s.Ok() && s.lowUser <= p < |s.procs|
  {
    && Evictable(s, p)
    && forall q :: s.lowUser <= q < |s.procs| && Evictable(s, q) ==> Turn(s, p) <= Turn(s, q)
  }

  /** A resident process is swapped out by `swap_out` if and only if it is evictable and the
      scan comes to it before all others that are. */
  lemma EvictedIff(s: State, p: nat)
    requires s.Ok() && s.lowUser <= p < |s.procs| && !s.procs[p].onswap && !SwapOut(s).SwapOutPanic?
    ensures SwapOut(s).Evicted? && SwapOut(s).state.procs[p].onswap <==> FirstInTurn(s, p)
  {
    ScanIsRoundRobin(s);
  }

  /** NO_MEM means what it says: in the state left behind no regular hole is long enough, and
      no process can be swapped out. */
  lemma {:induction false} NoMemMeansExhausted(s: State, clicks: nat)
    requires s.Ok() && AllocMem(s, clicks).NoMem?
    ensures var s' := AllocMem(s, clicks).state;
            && (Canonical(s'.holes) ==>
                  forall j :: 0 <= j < |s'.holes| && s'.holes[j].base < s'.swapBase ==> s'.holes[j].len < clicks)
            && forall q :: s'.lowUser <= q < |s'.procs| ==> !Evictable(s', q)
    decreases Residents(s.procs)
  {
    match SwapOut(s)
    case Nobody =>
      ScanIsRoundRobin(s);
      if Canonical(s.holes) {
        if s.worst {
          SwapSpaceHandedOutIff(true, s.holes, s.swapBase, clicks);
          WorstFitLongest(s.holes, s.swapBase, clicks);
        } else {
          FirstFitLowest(s.holes, s.swapBase, clicks);
        }
      }
    case Evicted(s') =>
      SwapOutShrinks(s);
      NoMemMeansExhausted(s', clicks);
  }

  // ---------------------------------------------------------------- alloc_mem

  /** A process the allocator may have moved: only its place and ONSWAP can differ, and only a
      candidate for swapping out is touched at all. */
  predicate MovedOnly(a: Proc, b: Proc) {
    && b == a.(dPhys := b.dPhys, sPhys := b.sPhys, onswap := b.onswap)
    && (!a.Candidate() ==> b == a)
  }

  predicate SameSetting(a: State, b: State) {
    && |a.procs| == |b.procs| && a.lowUser == b.lowUser && a.slots == b.slots
    && a.clickSize == b.clickSize && a.swapBase == b.swapBase && a.worst == b.worst
    && a.swapFd == b.swapFd && a.swapOffset == b.swapOffset
  }

  ghost predicate OnlyMoves(a: State, b: State) {
    && SameSetting(a, b) && a.queue == b.queue
    && forall p :: 0 <= p < |a.procs| ==> MovedOnly(a.procs[p], b.procs[p])
  }

  /** A free click below the swap base puts a regular hole at the head of the list. */
  lemma RegularHead(hs: seq<Hole>, swapBase: nat, c: int)
    requires Canonical(hs) && Free(hs, c) && c < swapBase
    ensures hs != [] && hs[0].base < swapBase
  {
    var j :| 0 <= j < |hs| && hs[j].Has(c);
    assert hs[0].base <= hs[j].base;
  }

  lemma EmptyMoveKeepsHoles(s: State, p: nat, i: nat, s': State)
    requires EvictsTo(s, p, i, s') && s.procs[p].Size() == 0 && s.holes[i].len > 0
    ensures s'.holes == s.holes
  {
    assert Carve(s.holes, i, 0) == s.holes;
  }

  /** After a failed attempt outside the swap-seed case, eviction cannot bring that case about:
      the memory it frees puts a regular hole at the head of the list. */
  lemma EvictAvoidsSwapSeed(w: World, p: nat, i: nat, s': State, clicks: nat)
    requires Inv(w) && EvictsTo(w.s, p, i, s')
    requires !PicksSwap(w.s.worst, w.s.holes, w.s.swapBase, clicks)
    ensures !PicksSwap(s'.worst, s'.holes, s'.swapBase, clicks)
  {
    EvictTiled(w, p, i, s');
    EvictCopies(w.s, p, i, s');
    assert ProcOk(w, p) && BlockOk(w, OfProc(p));
    if w.blocks[OfProc(p)].len == 0 {
      EmptyMoveKeepsHoles(w.s, p, i, s');
    } else {
      FreedIsFree(w, p, i, s');
      RegularHead(s'.holes, s'.swapBase, w.blocks[OfProc(p)].base);
    }
  }

  lemma FreedIsFree(w: World, p: nat, i: nat, s': State)
    requires Inv(w) && EvictsTo(w.s, p, i, s') && OfProc(p) in w.blocks && w.blocks[OfProc(p)].len > 0
    ensures Free(s'.holes, w.blocks[OfProc(p)].base)
  {
    assert ProcOk(w, p);
    var gone, n := w.blocks[OfProc(p)], w.s.procs[p].Size();
    CarveCorrect(w.s.holes, i, n);
    var hs := Carve(w.s.holes, i, n);
    DisjointIffNoFreeClick(w.s.holes, gone);
    DisjointIffNoFreeClick(hs, gone);
    ReleaseCorrect(hs, gone);
    assert gone.Has(gone.base);
  }

  /** What one eviction does to the rest of the world is only to move its victim. */
  lemma EvictOnlyMoves(s: State, p: nat, i: nat, s': State)
    requires EvictsTo(s, p, i, s')
    ensures OnlyMoves(s, s')
  {
  }

  /** Moves compose, and so does re-reading the blocks from the table. */
  lemma SyncSync(w: World, a: State, b: State)
    requires |a.procs| == |w.s.procs| == |b.procs|
    ensures After(After(w, a), b) == After(w, b)
  {
    assert Sync(Sync(w.blocks, a.procs), b.procs) == Sync(w.blocks, b.procs);
  }

  lemma SyncNoMove(w: World, s: State)
    requires ProcsOk(w) && s.procs == w.s.procs
    ensures Sync(w.blocks, s.procs) == w.blocks
  {
    ProcsAreMapped(w);
  }

  /** Changing the hole list alone leaves processes and bytes alone. */
  lemma HolesOnly(w: World, s: State)
    requires Core(w) && s == w.s.(holes := s.holes)
    ensures After(w, s) == w.(s := s) && ProcsOk(After(w, s))
    ensures forall x :: x in w.blocks ==>
              Placed(s, x, w.blocks[x]) && Intact(s, w.blocks[x], OnSwap(s, x), w.image[x])
  {
    SyncNoMove(w, s);
    forall p | 0 <= p < |s.procs| ensures ProcOk(After(w, s), p) {
      assert ProcOk(w, p);
    }
    forall x | x in w.blocks
      ensures Placed(s, x, w.blocks[x]) && Intact(s, w.blocks[x], OnSwap(s, x), w.image[x])
    {
      assert BlockOk(w, x);
      IntactFrame(w.s, s, w.blocks[x], OnSwap(s, x), w.image[x]);
    }
  }

  /** One successful attempt: the block was wholly free, lies in real memory, and handing it
      out keeps the tiling and everybody's bytes. */
  lemma GrantKeeps(w: World, clicks: nat, i: nat)
    requires Inv(w) && !PicksSwap(w.s.worst, w.s.holes, w.s.swapBase, clicks)
    requires Choose(w.s.worst, w.s.holes, w.s.swapBase, clicks) == Some(i)
    ensures var s' := w.s.(holes := Carve(w.s.holes, i, clicks));
            var b := Hole(w.s.holes[i].base, clicks);
            Core(Claim(After(w, s'), Scratch, b)) && b.End() < w.s.swapBase
  {
    var s' := w.s.(holes := Carve(w.s.holes, i, clicks));
    var b := Hole(w.s.holes[i].base, clicks);
    SwapSpaceHandedOutIff(w.s.worst, w.s.holes, w.s.swapBase, clicks);
    NoStraddling(w);
    HolesOnly(w, s');
    TakeTiled(w.s.holes, w.blocks, Known(w.chunks, SwapArea(w)), i, clicks, Scratch);
    CarveLength(w.s.holes, i, clicks);
    ClaimKeeps(After(w, s'), Scratch, b);
  }

  /** Adding a block in memory that the tiling already provides for. */
  lemma ClaimKeeps(w: World, o: Owner, b: Hole)
    requires o !in w.blocks && !o.OfProc? && b.End() < w.s.swapBase
    requires w.s.Ok() && w.s.clickSize > 0 && w.s.swapBase > 0 && |w.s.holes| <= w.s.slots
    requires forall i :: 0 <= i < |w.chunks| ==> w.chunks[i].End() < w.s.swapBase
    requires w.s.swapFd == -1 ==> w.swapLen == 0
    requires ProcsOk(w) && w.image.Keys == w.blocks.Keys && Distinct(w.s.queue)
    requires Tiled(w.s.holes, w.blocks[o := b], Known(w.chunks, SwapArea(w)))
    requires forall x :: x in w.blocks ==>
               Placed(w.s, x, w.blocks[x]) && Intact(w.s, w.blocks[x], OnSwap(w.s, x), w.image[x])
    ensures Core(Claim(w, o, b))
  {
    var w' := Claim(w, o, b);
    forall p | 0 <= p < |w.s.procs| ensures ProcOk(w', p) {
      assert ProcOk(w, p);
    }
    forall x | x in w'.blocks ensures BlockOk(w', x) {
      if x != o {
        assert Placed(w.s, x, w.blocks[x]) && Intact(w.s, w.blocks[x], OnSwap(w.s, x), w.image[x]);
      }
    }
  }

  lemma OnlyMovesTrans(a: State, b: State, c: State)
    requires OnlyMoves(a, b) && OnlyMoves(b, c)
    ensures OnlyMoves(a, c)
  {
    forall p | 0 <= p < |a.procs| ensures MovedOnly(a.procs[p], c.procs[p]) {
      assert MovedOnly(a.procs[p], b.procs[p]) && MovedOnly(b.procs[p], c.procs[p]);
    }
  }

  /** One `swap_out` inside `alloc_mem`. */
  lemma SwapOutKeeps(w: World, clicks: nat)
    requires Inv(w) && SwapOut(w.s).Evicted?
    ensures var s' := SwapOut(w.s).state;
            && Inv(After(w, s')) && OnlyMoves(w.s, s')
            && (!PicksSwap(w.s.worst, w.s.holes, w.s.swapBase, clicks)
                ==> !PicksSwap(s'.worst, s'.holes, s'.swapBase, clicks))
  {
    var s' := SwapOut(w.s).state;
    var p := Scan(w.s, w.s.outswap).value;
    var i := SwapFit(w.s.holes, w.s.swapBase, w.s.procs[p].Size()).value;
    EvictKeeps(w, p, i, s');
    EvictOnlyMoves(w.s, p, i, s');
    if !PicksSwap(w.s.worst, w.s.holes, w.s.swapBase, clicks) {
      EvictAvoidsSwapSeed(w, p, i, s', clicks);
    }
  }

  lemma {:induction false} AllocSetting(s: State, clicks: nat)
    requires s.Ok()
    ensures match AllocMem(s, clicks)
            case Granted(_, s') => OnlyMoves(s, s')
            case NoMem(s') => OnlyMoves(s, s')
            case AllocPanic => true
    decreases Residents(s.procs)
  {
    match Choose(s.worst, s.holes, s.swapBase, clicks)
    case Some(_) =>
    case None =>
      match SwapOut(s)
      case Nobody =>
      case SwapOutPanic =>
      case Evicted(s1) =>
        var p := Scan(s, s.outswap).value;
        EvictOnlyMoves(s, p, SwapFit(s.holes, s.swapBase, s.procs[p].Size()).value, s1);
        SwapOutShrinks(s);
        AllocSetting(s1, clicks);
        var r := AllocMem(s1, clicks);
        if !r.AllocPanic? {
          OnlyMovesTrans(s, s1, r.state);
        }
  }

  /** Who is on swap stays there while memory is being allocated. */
  lemma OnSwapStays(s: State, clicks: nat, p: nat)
    requires s.Ok() && p < |s.procs| && s.procs[p].onswap
    ensures var r := AllocMem(s, clicks); !r.AllocPanic? ==> r.state.procs[p] == s.procs[p]
  {
    AllocSetting(s, clicks);
    var r := AllocMem(s, clicks);
    assert !r.AllocPanic? ==> MovedOnly(s.procs[p], r.state.procs[p]);
  }

  /** At one of the attempts of `alloc_mem` that fail, the turn to leave comes to `p`. */
  ghost predicate TurnComes(s: State, clicks: nat, p: nat)
    requires s.Ok() && s.lowUser <= p < |s.procs|
    decreases Residents(s.procs)
  {
    && Choose(s.worst, s.holes, s.swapBase, clicks).None?
    && (FirstInTurn(s, p) ||
        (SwapOut(s).Evicted? && (SwapOutShrinks(s); TurnComes(SwapOut(s).state, clicks, p))))
  }

  /** A resident process ends on swap if and only if its turn comes at one of the attempts that
      fail. So nobody goes when the first attempt succeeds, whoever is first in turn goes when
      it fails, and nobody else if one process had to go. */
  lemma {:induction false} AllocEvictsIff(s: State, clicks: nat, p: nat)
    requires s.Ok() && s.lowUser <= p < |s.procs| && !s.procs[p].onswap
    ensures var choice, r := Choose(s.worst, s.holes, s.swapBase, clicks), AllocMem(s, clicks);
            !r.AllocPanic? ==>
              && (r.state.procs[p].onswap <==> TurnComes(s, clicks, p))
              && (choice.Some? ==> !r.state.procs[p].onswap)
              && (choice.None? && FirstInTurn(s, p) ==> r.state.procs[p].onswap)
              && (choice.None? && OneGoes(s, clicks) ==> (r.state.procs[p].onswap <==> FirstInTurn(s, p)))
    decreases Residents(s.procs)
  {
    if Choose(s.worst, s.holes, s.swapBase, clicks).None? && !SwapOut(s).SwapOutPanic? {
      EvictedIff(s, p);
      if SwapOut(s).Evicted? {
        var s1 := SwapOut(s).state;
        SwapOutShrinks(s);
        assert AllocMem(s, clicks) == AllocMem(s1, clicks);
        if s1.procs[p].onswap {
          OnSwapStays(s1, clicks, p);
        } else {
          AllocEvictsIff(s1, clicks, p);
        }
      }
    }
  }

  /** After at most one `swap_out` the request is granted or given up. */
  predicate OneGoes(s: State, clicks: nat)
    requires s.Ok()
  {
    match SwapOut(s)
    case Evicted(s1) => Choose(s1.worst, s1.holes, s1.swapBase, clicks).Some? || SwapOut(s1).Nobody?
    case _ => true
  }

  /** What `alloc_mem` leaves is a world in good order, with the new block in hand. */
  ghost predicate AllocGood(w: World, clicks: nat, r: AllocResult)
    requires r.Keeps(w.s)
  {
    && (r.Granted? ==>
          Core(Claim(After(w, r.state), Scratch, Hole(r.base, clicks))) && r.base + clicks < r.state.swapBase)
    && (r.NoMem? ==> Inv(After(w, r.state)))
  }

  lemma AllocGoodCompose(w: World, clicks: nat, s1: State, r: AllocResult)
    requires |s1.procs| == |w.s.procs| && s1.queue == w.s.queue && r.Keeps(s1)
    requires AllocGood(After(w, s1), clicks, r)
    ensures AllocGood(w, clicks, r)
  {
    if !r.AllocPanic? {
      SyncSync(w, s1, r.state);
    }
  }

  lemma {:induction false} AllocTiling(w: World, clicks: nat)
    requires Inv(w) && !PicksSwap(w.s.worst, w.s.holes, w.s.swapBase, clicks)
    ensures AllocGood(w, clicks, AllocMem(w.s, clicks))
    decreases Residents(w.s.procs)
  {
    match Choose(w.s.worst, w.s.holes, w.s.swapBase, clicks)
    case Some(i) =>
      GrantKeeps(w, clicks, i);
    case None =>
      match SwapOut(w.s)
      case Nobody => SyncNoMove(w, w.s);
      case SwapOutPanic =>
      case Evicted(s1) =>
        SwapOutKeeps(w, clicks);
        SwapOutShrinks(w.s);
        AllocTiling(After(w, s1), clicks);
        AllocGoodCompose(w, clicks, s1, AllocMem(s1, clicks));
  }

  /** `alloc_mem`, called outside the swap-seed case, hands out real memory that nobody held,
      keeps the tiling and keeps every owner's bytes, however many processes it swaps out. */
  lemma AllocKeeps(w: World, clicks: nat)
    requires Inv(w) && !PicksSwap(w.s.worst, w.s.holes, w.s.swapBase, clicks)
    ensures var r := AllocMem(w.s, clicks);
            && (r.Granted? ==>
                  && Core(Claim(After(w, r.state), Scratch, Hole(r.base, clicks)))
                  && r.base + clicks < r.state.swapBase && OnlyMoves(w.s, r.state))
            && (r.NoMem? ==> Inv(After(w, r.state)) && OnlyMoves(w.s, r.state))
  {
    AllocTiling(w, clicks);
    AllocSetting(w.s, clicks);
  }

  /** What is granted lies in real memory exactly outside the swap-seed case at the call. */
  lemma GrantedBelowSwapIff(w: World, clicks: nat)
    requires Inv(w) && AllocMem(w.s, clicks).Granted?
    ensures AllocMem(w.s, clicks).base < w.s.swapBase
            <==> !PicksSwap(w.s.worst, w.s.holes, w.s.swapBase, clicks)
  {
    if PicksSwap(w.s.worst, w.s.holes, w.s.swapBase, clicks) {
      SwapSpaceHandedOutIff(w.s.worst, w.s.holes, w.s.swapBase, clicks);
    } else {
      AllocKeeps(w, clicks);
    }
  }

  // ---------------------------------------------------------------- swap_in

  ghost function Drop(w: World, o: Owner): World {
    w.(blocks := w.blocks - {o}, image := w.image - {o})
  }

  /** The process at queue entry `i` is about to be read into the scratch block at `base`. */
  ghost predicate Loads(w: World, i: nat, base: nat, s': State) {
    && Core(w) && Scratch in w.blocks
    && i < |w.s.queue| && w.s.procs[w.s.queue[i]].swapin
    && w.blocks[Scratch] == Hole(base, w.s.procs[w.s.queue[i]].Size())
    && Load(w.s, i, base) == Some(s')
  }

  lemma LoadTiled(w: World, i: nat, base: nat, s': State)
    requires Loads(w, i, base, s')
    ensures OfProc(w.s.queue[i]) in w.blocks
    ensures Tiled(s'.holes, Sync(w.blocks - {Scratch}, s'.procs), Known(w.chunks, SwapArea(w)))
    ensures |s'.holes| <= s'.slots
  {
    var p := w.s.queue[i];
    assert ProcOk(w, p);
    var me, b, blocks := OfProc(p), w.blocks[Scratch], w.blocks - {Scratch};
    assert w.blocks == blocks[Scratch := b];
    SwitchTiled(w.s.holes, blocks, Known(w.chunks, SwapArea(w)), me, b);
    LoadSync(w, i, base, s');
    ReleaseLength(w.s.holes, w.blocks[me]);
  }

  lemma LoadSync(w: World, i: nat, base: nat, s': State)
    requires Loads(w, i, base, s') && OfProc(w.s.queue[i]) in w.blocks
    ensures Sync(w.blocks - {Scratch}, s'.procs) == (w.blocks - {Scratch})[OfProc(w.s.queue[i]) := w.blocks[Scratch]]
  {
    LoadMoves(w.s, i, base, s');
    ProcsAreMapped(w);
    SyncOne(w.blocks - {Scratch}, w.s.procs, w.s.queue[i], s'.procs[w.s.queue[i]]);
  }

  lemma LoadMoves(s: State, i: nat, base: nat, s': State)
    requires s.Ok() && i < |s.queue| && Load(s, i, base) == Some(s')
    ensures var p := s.queue[i];
            p < |s'.procs| && s'.procs == s.procs[p := s'.procs[p]]
            && s'.procs[p].Block() == Hole(base, s.procs[p].Size())
  {
  }

  /** What was in the swap file at `from` is in memory at `to` once it has been copied there. */
  lemma CopiedIn(s: State, s': State, from: Hole, to: Hole, image: Store)
    requires Intact(s, from, true, image) && to.len == from.len && s'.clickSize == s.clickSize
    requires s'.ram == CopyBytes(s.ram, to.base * s.clickSize, s.file, s.FileAt(from.base), to.len * s.clickSize)
    ensures Intact(s', to, false, image)
  {
    forall k | 0 <= k < to.len * s.clickSize ensures ByteAt(s', to, false, k) == image(k) {
      assert ByteAt(s, from, true, k) == image(k);
    }
  }

  /** The writes of reading one process in. */
  lemma LoadCopies(s: State, i: nat, base: nat, s': State)
    requires s.Ok() && i < |s.queue| && Load(s, i, base) == Some(s')
    ensures var p := s.queue[i];
            && s' == s.(holes := s'.holes, procs := s'.procs, queue := RemoveAt(s.queue, i), ram := s'.ram)
            && s'.ram == CopyBytes(s.ram, base * s.clickSize, s.file, s.FileAt(s.procs[p].dPhys),
                                   s.procs[p].Size() * s.clickSize)
            && s'.procs == s.procs[p := s.procs[p].MovedTo(base).(onswap := false, swapin := false)]
  {
  }

  /** The process read in finds its bytes in memory again. */
  lemma LoadedImage(w: World, i: nat, base: nat, s': State)
    requires Loads(w, i, base, s') && OfProc(w.s.queue[i]) in w.blocks
    ensures Intact(s', w.blocks[Scratch], false, w.image[OfProc(w.s.queue[i])])
  {
    var p := w.s.queue[i];
    assert ProcOk(w, p) && BlockOk(w, OfProc(p));
    LoadCopies(w.s, i, base, s');
    CopiedIn(w.s, s', w.blocks[OfProc(p)], w.blocks[Scratch], w.image[OfProc(p)]);
  }

  lemma LoadOther(w: World, i: nat, base: nat, s': State, o: Owner)
    requires Loads(w, i, base, s') && o in w.blocks && o != OfProc(w.s.queue[i]) && o != Scratch
    ensures OnSwap(s', o) == OnSwap(w.s, o)
    ensures Intact(s', w.blocks[o], OnSwap(w.s, o), w.image[o])
  {
    assert BlockOk(w, o);
    LoadCopies(w.s, i, base, s');
    var p, b := w.s.queue[i], w.blocks[Scratch];
    assert Disjoint(w.blocks[o], b);
    if OnSwap(w.s, o) {
      IntactFrame(w.s, s', w.blocks[o], true, w.image[o]);
    } else {
      RamWriteApart(w.s, s'.ram, b, w.s.file, w.s.FileAt(w.s.procs[p].dPhys), w.blocks[o], w.image[o]);
      IntactFrame(w.s.(ram := s'.ram), s', w.blocks[o], false, w.image[o]);
    }
  }

  lemma LoadBlock(w: World, i: nat, base: nat, s': State, o: Owner)
    requires Loads(w, i, base, s') && OfProc(w.s.queue[i]) in w.blocks && o in w.blocks && o != Scratch
    requires w.blocks[Scratch].End() < w.s.swapBase
    ensures BlockOk(After(Drop(w, Scratch), s'), o)
  {
    LoadSync(w, i, base, s');
    if o == OfProc(w.s.queue[i]) {
      LoadedImage(w, i, base, s');
    } else {
      assert BlockOk(w, o);
      LoadOther(w, i, base, s', o);
    }
  }

  lemma LoadProcs(w: World, i: nat, base: nat, s': State)
    requires Loads(w, i, base, s') && OfProc(w.s.queue[i]) in w.blocks
    ensures ProcsOk(After(Drop(w, Scratch), s'))
  {
    LoadSync(w, i, base, s');
    LoadCopies(w.s, i, base, s');
    ProcsAfterMove(w, After(Drop(w, Scratch), s'), w.s.queue[i]);
  }

  /** Reading a process back in keeps the tiling and everybody's bytes. */
  lemma LoadKeeps(w: World, i: nat, base: nat, s': State)
    requires Loads(w, i, base, s') && w.blocks[Scratch].End() < w.s.swapBase
    ensures Inv(After(Drop(w, Scratch), s'))
  {
    LoadTiled(w, i, base, s');
    LoadCopies(w.s, i, base, s');
    LoadProcs(w, i, base, s');
    forall o | o in After(Drop(w, Scratch), s').blocks ensures BlockOk(After(Drop(w, Scratch), s'), o) {
      LoadBlock(w, i, base, s', o);
    }
    RemoveKeepsDistinct(w.s.queue, i);
  }

  /** The calls of `alloc_mem` that `swap_in` makes from queue entry `i` on all happen outside
      the swap-seed case. */
  ghost predicate SwapInSafe(s: State, i: nat)
    requires s.Ok() && i <= |s.queue|
    decreases |s.queue| - i
  {
    i == |s.queue| ||
    (&& ServeSafe(s, i)
     && match ServeEntry(s, i)
        case None => true
        case Some((s', i')) => SwapInSafe(s', i'))
  }

  predicate ServeSafe(s: State, i: nat)
    requires s.Ok() && i < |s.queue|
  {
    var rmp := s.procs[s.queue[i]];
    rmp.swapin ==> !PicksSwap(s.worst, s.holes, s.swapBase, rmp.Size())
  }

  /** Under first fit the swap-seed case does not exist. */
  lemma {:induction false} FirstFitIsSafe(s: State, i: nat)
    requires s.Ok() && i <= |s.queue| && !s.worst
    ensures SwapInSafe(s, i)
    decreases |s.queue| - i
  {
    if i < |s.queue| && ServeEntry(s, i).Some? {
      var (s', i') := ServeEntry(s, i).value;
      ServeSetting(s, i);
      FirstFitIsSafe(s', i');
    }
  }

  lemma ServeSetting(s: State, i: nat)
    requires s.Ok() && i < |s.queue|
    ensures match ServeEntry(s, i)
            case None => true
            case Some((s', _)) => SameSetting(s, s')
  {
    AllocSetting(s, s.procs[s.queue[i]].Size());
  }

  /** Taking an entry nobody flags off the queue. */
  lemma CleanKeeps(w: World, i: nat)
    requires Inv(w) && i < |w.s.queue|
    ensures var s' := w.s.(queue := RemoveAt(w.s.queue, i));
            Inv(After(w, s')) && s'.Ok()
  {
    var s' := w.s.(queue := RemoveAt(w.s.queue, i));
    RemoveKeepsDistinct(w.s.queue, i);
    QueueChangeKeeps(w, s');
  }

  lemma QueueChangeKeeps(w: World, s': State)
    requires Inv(w) && s' == w.s.(queue := s'.queue) && s'.Ok() && Distinct(s'.queue)
    ensures Inv(After(w, s'))
  {
    SyncNoMove(w, s');
    var w' := After(w, s');
    forall p | 0 <= p < |s'.procs| ensures ProcOk(w', p) {
      assert ProcOk(w, p);
    }
    forall o | o in w'.blocks ensures BlockOk(w', o) {
      assert BlockOk(w, o);
      IntactFrame(w.s, s', w.blocks[o], OnSwap(s', o), w.image[o]);
    }
  }

  lemma ClaimDrop(w: World, o: Owner, b: Hole)
    requires o !in w.blocks && w.image.Keys == w.blocks.Keys
    ensures Drop(Claim(w, o, b), o) == w
  {
    assert Claim(w, o, b).blocks - {o} == w.blocks;
    assert Claim(w, o, b).image - {o} == w.image;
  }

  /** Serving one queue entry: allocate, read in, free the swap space. */
  lemma GrantedServeKeeps(w: World, i: nat, base: nat, s1: State, s2: State)
    requires Inv(w) && i < |w.s.queue| && w.s.procs[w.s.queue[i]].swapin && ServeSafe(w.s, i)
    requires AllocMem(w.s, w.s.procs[w.s.queue[i]].Size()) == Granted(base, s1)
    requires Load(s1, i, base) == Some(s2)
    ensures Inv(After(w, s2))
  {
    var p := w.s.queue[i];
    var b := Hole(base, w.s.procs[p].Size());
    AllocKeeps(w, b.len);
    assert MovedOnly(w.s.procs[p], s1.procs[p]);
    var w1 := After(w, s1);
    LoadKeeps(Claim(w1, Scratch, b), i, base, s2);
    ClaimDrop(w1, Scratch, b);
    SyncSync(w, s1, s2);
  }

  /** One turn of `swap_in` keeps the tiling and everybody's bytes. */
  lemma ServeKeeps(w: World, i: nat)
    requires Inv(w) && i < |w.s.queue| && ServeSafe(w.s, i)
    ensures match ServeEntry(w.s, i)
            case None => true
            case Some((s', _)) => Inv(After(w, s'))
  {
    var rmp := w.s.procs[w.s.queue[i]];
    if !rmp.swapin {
      CleanKeeps(w, i);
    } else {
      match AllocMem(w.s, rmp.Size())
      case AllocPanic =>
      case NoMem(s') => AllocKeeps(w, rmp.Size());
      case Granted(base, s') =>
        match Load(s', i, base)
        case None =>
        case Some(s'') => GrantedServeKeeps(w, i, base, s', s'');
    }
  }

  /** A whole `swap_in` pass keeps the tiling and everybody's bytes. */
  lemma {:induction false} SwapInKeeps(w: World, i: nat)
    requires Inv(w) && i <= |w.s.queue| && SwapInSafe(w.s, i)
    ensures match SwapInFrom(w.s, i)
            case None => true
            case Some(s') => Inv(After(w, s')) && SameSetting(w.s, s')
    decreases |w.s.queue| - i
  {
    if i == |w.s.queue| {
      SyncNoMove(w, w.s);
    } else if ServeEntry(w.s, i).Some? {
      var (s', i') := ServeEntry(w.s, i).value;
      ServeKeeps(w, i);
      ServeSetting(w.s, i);
      SwapInKeeps(After(w, s'), i');
      if SwapInFrom(s', i').Some? {
        SyncSync(w, s', SwapInFrom(s', i').value);
      }
    }
  }
}
