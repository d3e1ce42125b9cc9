/** The main results about the allocator and swapper, over all runs. */
module SwapTheorems {
  import opened Options
  import opened Holes
  import opened HoleTables
  import opened SwapModel
  import opened Tiling
  import opened SwapWorld
  import opened SwapSafety
  import opened SwapConservation
  import opened SwapRuns

  // ---------------------------------------------------------------- runs

  /** The world right after `mem_init` was told of the chunks `w.chunks`. */
  ghost predicate Initial(w: World) {
    && PairwiseDisjoint(w.chunks)
    && w.s.holes == ReleaseAll([], w.chunks) && |w.s.holes| <= w.s.slots
    && w.s.swapBase == Top(w.chunks) + 1
    && w.blocks == map[] && w.image == map[] && w.swapLen == 0
    && w.s.swapFd == -1 && w.s.queue == [] && w.s.clickSize > 0
    && w.s.outswap == w.s.lowUser < |w.s.procs|
    && forall p :: 0 <= p < |w.s.procs| ==> Idle(w.s.procs[p])
  }

  /** After start-up the hole list tiles exactly the chunks the kernel reported. */
  lemma InitialInv(w: World)
    requires Initial(w)
    ensures Inv(w)
  {
    ReleaseAllCorrect(w.chunks);
    forall c ensures c in Known(w.chunks, SwapArea(w)) <==> Free(w.s.holes, c) || Held(w.blocks, c) {}
  }

  /** `ops` leads from `w` to `w'`, every operation being called as it should be and outside
      the two situations the code mishandles. */
  ghost predicate Runs(w: World, ops: seq<Op>, w': World)
    decreases |ops|
  {
    if ops == [] then w == w'
    else
      && w.s.Ok() && Legal(w, ops[0]) && Safe(w, ops[0])
      && Step(w, ops[0]).Some?
      && Runs(Step(w, ops[0]).value, ops[1..], w')
  }

  /** In every reachable world holes and blocks tile the memory and every byte is where its
      owner left it. */
  lemma {:induction false} RunKeeps(w: World, ops: seq<Op>, w': World)
    requires Inv(w) && Runs(w, ops, w')
    ensures Inv(w')
    decreases |ops|
  {
    if ops != [] {
      StepKeeps(w, ops[0]);
      RunKeeps(Step(w, ops[0]).value, ops[1..], w');
    }
  }

  /** A run goes on with one more operation. */
  lemma {:induction false} RunSnoc(w: World, ops: seq<Op>, w1: World, op: Op, w2: World)
    requires Runs(w, ops, w1) && w1.s.Ok() && Legal(w1, op) && Safe(w1, op) && Step(w1, op) == Some(w2)
    ensures Runs(w, ops + [op], w2)
    decreases |ops|
  {
    if ops == [] {
      assert [op][1..] == [] && Runs(w2, [], w2);
    } else {
      RunSnoc(Step(w, ops[0]).value, ops[1..], w1, op, w2);
      assert (ops + [op])[1..] == ops[1..] + [op];
    }
  }

  // ---------------------------------------------------------------- images survive

  /** The operations by which the owner `o` itself changes or gives up its block. */
  predicate Touches(op: Op, o: Owner) {
    match op
    case Write(x, _, _) => x == o
    case Discard(id) => Loose(id) == o
    case Attach(id, _, _, _) => Loose(id) == o
    case Exit(p) => OfProc(p) == o
    case _ => false
  }

  ghost predicate SameSizes(a: State, b: State) {
    && |a.procs| == |b.procs|
    && forall p :: 0 <= p < |a.procs| ==> a.procs[p].Size() == b.procs[p].Size()
  }

  lemma MovesKeepSizes(a: State, b: State)
    requires OnlyMoves(a, b)
    ensures SameSizes(a, b)
  {
    forall p | 0 <= p < |a.procs| ensures a.procs[p].Size() == b.procs[p].Size() {
      assert MovedOnly(a.procs[p], b.procs[p]);
    }
  }

  lemma SameSizesTrans(a: State, b: State, c: State)
    requires SameSizes(a, b) && SameSizes(b, c)
    ensures SameSizes(a, c)
  {
  }

  lemma AllocSizes(s: State, clicks: nat)
    requires s.Ok()
    ensures var r := AllocMem(s, clicks); !r.AllocPanic? ==> SameSizes(s, r.state)
  {
    AllocSetting(s, clicks);
    var r := AllocMem(s, clicks);
    if !r.AllocPanic? {
      MovesKeepSizes(s, r.state);
    }
  }

  lemma LoadSizes(s: State, i: nat, base: nat)
    requires s.Ok() && i < |s.queue| && Load(s, i, base).Some?
    ensures SameSizes(s, Load(s, i, base).value)
  {
  }

  lemma ServeSizes(s: State, i: nat)
    requires s.Ok() && i < |s.queue| && ServeEntry(s, i).Some?
    ensures SameSizes(s, ServeEntry(s, i).value.0)
  {
    var rmp := s.procs[s.queue[i]];
    if rmp.swapin {
      AllocSizes(s, rmp.Size());
      var r := AllocMem(s, rmp.Size());
      if r.Granted? {
        LoadSizes(r.state, i, r.base);
        SameSizesTrans(s, r.state, ServeEntry(s, i).value.0);
      }
    }
  }

  lemma {:induction false} SwapInSizes(s: State, i: nat)
    requires s.Ok() && i <= |s.queue| && SwapInFrom(s, i).Some?
    ensures SameSizes(s, SwapInFrom(s, i).value)
    decreases |s.queue| - i
  {
    if i < |s.queue| {
      var (s', i') := ServeEntry(s, i).value;
      ServeSizes(s, i);
      SwapInSizes(s', i');
    }
  }

  lemma {:induction false} QueueAllSizes(s: State, p: nat)
    requires s.Ok() && s.lowUser <= p <= |s.procs|
    ensures SameSizes(s, QueueAll(s, p)) && QueueAll(s, p).clickSize == s.clickSize
    decreases |s.procs| - p
  {
    if p < |s.procs| {
      QueueAllSizes(if s.procs[p].onswap then SwapInQueue(s, p) else s, p + 1);
    }
  }

  /** A block of a process keeps its length through `After` when sizes are kept. */
  lemma AfterLength(w: World, s: State, o: Owner)
    requires Inv(w) && SameSizes(w.s, s) && o in w.blocks
    ensures After(w, s).blocks[o].len == w.blocks[o].len
  {
    assert o.OfProc? ==> ProcOk(w, o.p);
  }

  /** The block of `o` and the bytes its owner believes it to hold are the same. */
  ghost predicate SameFor(w: World, w': World, o: Owner) {
    && o in w.blocks && o in w'.blocks && w'.blocks[o].len == w.blocks[o].len
    && o in w.image && o in w'.image && w'.image[o] == w.image[o]
    && w'.s.clickSize == w.s.clickSize
  }

  lemma AfterSame(w: World, s: State, o: Owner)
    requires Inv(w) && SameSizes(w.s, s) && o in w.blocks && s.clickSize == w.s.clickSize
    ensures SameFor(w, After(w, s), o)
  {
    AfterLength(w, s, o);
    assert BlockOk(w, o);
  }

  lemma AllocStepImage(w: World, op: Op, w': World, o: Owner)
    requires Inv(w) && op.Alloc? && Legal(w, op) && Step(w, op) == Some(w') && o in w.blocks
    ensures SameFor(w, w', o)
  {
    AllocSetting(w.s, op.clicks);
    match AllocMem(w.s, op.clicks)
    case Granted(_, s') =>
      MovesKeepSizes(w.s, s');
      AfterSame(w, s', o);
    case NoMem(s') =>
      MovesKeepSizes(w.s, s');
      AfterSame(w, s', o);
    case AllocPanic =>
  }

  lemma PassSizes(s: State, q: State, s': State)
    requires q.Ok() && SwapIn(q) == Some(s') && SameSizes(s, q) && q.clickSize == s.clickSize
    ensures SameSizes(s, s') && s'.clickSize == s.clickSize
  {
    SwapInSizes(q, 0);
    SwapInSetting(q, 0);
    SameSizesTrans(s, q, s');
  }

  lemma SwapOffSizes(s: State)
    requires s.Ok()
    ensures match SwapOff(s)
            case Done(s') => SameSizes(s, s') && s'.clickSize == s.clickSize
            case NotAllIn(s') => SameSizes(s, s') && s'.clickSize == s.clickSize
            case _ => true
  {
    var q := QueueAll(s, s.lowUser);
    QueueAllSizes(s, s.lowUser);
    if s.swapFd != -1 && SwapIn(q).Some? {
      PassSizes(s, q, SwapIn(q).value);
    }
  }

  lemma TurnOffShape(w: World, w': World)
    requires w.s.Ok() && Step(w, TurnOff) == Some(w')
    ensures SwapOff(w.s) == Done(w'.s) || SwapOff(w.s) == NotAllIn(w'.s)
    ensures w'.blocks == Sync(w.blocks, w'.s.procs) && w'.image == w.image
  {
  }

  lemma OffImage(w: World, w': World, o: Owner)
    requires Inv(w) && (SwapOff(w.s) == Done(w'.s) || SwapOff(w.s) == NotAllIn(w'.s)) && o in w.blocks
    requires w'.blocks == Sync(w.blocks, w'.s.procs) && w'.image == w.image
    ensures SameFor(w, w', o)
  {
    SwapOffSizes(w.s);
    AfterSame(w, w'.s, o);
  }

  lemma TurnOffImage(w: World, w': World, o: Owner)
    requires Inv(w) && Step(w, TurnOff) == Some(w') && o in w.blocks
    ensures SameFor(w, w', o)
  {
    TurnOffShape(w, w');
    OffImage(w, w', o);
  }

  lemma SwapInShape(w: World, w': World)
    requires w.s.Ok() && Step(w, SwapInPass) == Some(w')
    ensures SwapIn(w.s) == Some(w'.s) && w' == After(w, w'.s)
  {
  }

  lemma PassImage(w: World, w': World, o: Owner)
    requires Inv(w) && SwapIn(w.s) == Some(w'.s) && w' == After(w, w'.s) && o in w.blocks
    ensures SameFor(w, w', o)
  {
    SwapInSizes(w.s, 0);
    SwapInSetting(w.s, 0);
    AfterSame(w, w'.s, o);
  }

  lemma SwapInImage(w: World, w': World, o: Owner)
    requires Inv(w) && Step(w, SwapInPass) == Some(w') && o in w.blocks
    ensures SameFor(w, w', o)
  {
    SwapInShape(w, w');
    PassImage(w, w', o);
  }

  lemma GiveUpShape(w: World, op: Op, w': World, x: Owner)
    requires w.s.Ok() && Legal(w, op) && Step(w, op) == Some(w')
    requires (op.Discard? && x == Loose(op.id)) || (op.Exit? && x == OfProc(op.p))
    ensures w'.blocks == w.blocks - {x} && w'.image == w.image - {x} && w'.s.clickSize == w.s.clickSize
  {
  }

  /** The operations on one owner's block leave the others' alone. */
  lemma GiveUpImage(w: World, op: Op, w': World, o: Owner)
    requires Inv(w) && Legal(w, op) && Step(w, op) == Some(w') && o in w.blocks && !Touches(op, o)
    requires op.Discard? || op.Exit?
    ensures SameFor(w, w', o)
  {
    GiveUpShape(w, op, w', if op.Discard? then Loose(op.id) else OfProc(op.p));
    assert BlockOk(w, o);
  }

  lemma OwnerOpImage(w: World, op: Op, w': World, o: Owner)
    requires Inv(w) && Legal(w, op) && Step(w, op) == Some(w') && o in w.blocks && !Touches(op, o)
    requires op.Write? || op.Attach?
    ensures SameFor(w, w', o)
  {
    assert BlockOk(w, o);
  }

  /** The operations that move no block leave all alone. */
  lemma PlainImage(w: World, op: Op, w': World, o: Owner)
    requires Inv(w) && Legal(w, op) && Step(w, op) == Some(w') && o in w.blocks
    requires op.SetFlags? || op.QueueIn? || op.TurnOn? || op.Policy?
    ensures SameFor(w, w', o)
  {
    assert BlockOk(w, o);
    assert w'.blocks == w.blocks && w'.image == w.image && w'.s.clickSize == w.s.clickSize;
  }

  /** No operation of others takes a block away, resizes it or changes its owner's image. */
  lemma StepImage(w: World, op: Op, w': World, o: Owner)
    requires Inv(w) && Legal(w, op) && Step(w, op) == Some(w') && o in w.blocks && !Touches(op, o)
    ensures SameFor(w, w', o)
  {
    match op
    case Alloc(_, _) => AllocStepImage(w, op, w', o);
    case SwapInPass => SwapInImage(w, w', o);
    case TurnOff => TurnOffImage(w, w', o);
    case Discard(_) => GiveUpImage(w, op, w', o);
    case Exit(_) => GiveUpImage(w, op, w', o);
    case Write(_, _, _) => OwnerOpImage(w, op, w', o);
    case Attach(_, _, _, _) => OwnerOpImage(w, op, w', o);
    case _ => PlainImage(w, op, w', o);
  }

  lemma {:induction false} SwapInSetting(s: State, i: nat)
    requires s.Ok() && i <= |s.queue| && SwapInFrom(s, i).Some?
    ensures SameSetting(s, SwapInFrom(s, i).value)
    decreases |s.queue| - i
  {
    if i < |s.queue| {
      var (s', i') := ServeEntry(s, i).value;
      ServeSetting(s, i);
      SwapInSetting(s', i');
    }
  }

  /** Swapping preserves images: whatever anybody else does in between, a block that its owner
      leaves alone reads the same at the end of a run as at its start, byte by byte, from
      memory or from the swap file, wherever it has been moved. */
  lemma {:induction false} ImagesSurvive(w: World, ops: seq<Op>, w': World, o: Owner)
    requires Inv(w) && Runs(w, ops, w') && o in w.blocks
    requires forall i :: 0 <= i < |ops| ==> !Touches(ops[i], o)
    ensures o in w'.blocks && w'.blocks[o].len == w.blocks[o].len && w'.s.clickSize == w.s.clickSize
    ensures forall k :: 0 <= k < w.blocks[o].len * w.s.clickSize ==>
              ByteAt(w'.s, w'.blocks[o], OnSwap(w'.s, o), k) == ByteAt(w.s, w.blocks[o], OnSwap(w.s, o), k)
    decreases |ops|
  {
    if ops != [] {
      var w1 := Step(w, ops[0]).value;
      StepKeeps(w, ops[0]);
      StepImage(w, ops[0], Step(w, ops[0]).value, o);
      ImagesSurvive(w1, ops[1..], w', o);
      assert BlockOk(w, o) && BlockOk(w1, o);
      forall k | 0 <= k < w.blocks[o].len * w.s.clickSize
        ensures ByteAt(w1.s, w1.blocks[o], OnSwap(w1.s, o), k) == ByteAt(w.s, w.blocks[o], OnSwap(w.s, o), k)
      {
        assert ByteAt(w.s, w.blocks[o], OnSwap(w.s, o), k) == w.image[o](k);
        assert ByteAt(w1.s, w1.blocks[o], OnSwap(w1.s, o), k) == w1.image[o](k);
      }
    }
  }

  // ---------------------------------------------------------------- canonical lists

  /** The hole list depends on what is free only, not on how it came to be free. */
  lemma HistoryIndependent(a: World, b: World)
    requires Inv(a) && Inv(b)
    requires forall c :: Free(a.s.holes, c) <==> Free(b.s.holes, c)
    ensures a.s.holes == b.s.holes
  {
    CanonicalUnique(a.s.holes, b.s.holes);
  }

  /** Two runs on the same machine that leave the same clicks held end with the same list. */
  lemma SameHeldSameHoles(w: World, opsA: seq<Op>, a: World, opsB: seq<Op>, b: World)
    requires Inv(w) && Runs(w, opsA, a) && Runs(w, opsB, b)
    requires a.chunks == b.chunks && SwapArea(a) == SwapArea(b)
    requires forall c :: Held(a.blocks, c) <==> Held(b.blocks, c)
    ensures a.s.holes == b.s.holes
  {
    RunKeeps(w, opsA, a);
    RunKeeps(w, opsB, b);
    forall c ensures Free(a.s.holes, c) <==> Free(b.s.holes, c) {
      FreeIffNotHeld(a, c);
      FreeIffNotHeld(b, c);
    }
    HistoryIndependent(a, b);
  }

  lemma FreeIffNotHeld(w: World, c: int)
    requires Inv(w)
    ensures Free(w.s.holes, c) <==> c in Known(w.chunks, SwapArea(w)) && !Held(w.blocks, c)
  {
    if Held(w.blocks, c) {
      var o :| o in w.blocks && w.blocks[o].Has(c);
      DisjointIffNoFreeClick(w.s.holes, w.blocks[o]);
    }
  }

  /** Freeing what was just allocated restores the whole state, under either policy, exactly
      when the table still has a slot to spare; with a full table it panics instead. */
  lemma AllocThenFree(s: State, clicks: nat, i: nat)
    requires s.Ok() && Canonical(s.holes)
    requires Choose(s.worst, s.holes, s.swapBase, clicks) == Some(i)
    ensures var r := AllocMem(s, clicks);
            && r.Granted?
            && (FreeMem(r.state, Hole(r.base, clicks)) == Some(s)
                <==> clicks == 0 || |r.state.holes| != s.slots)
  {
    CarveThenRelease(s.holes, i, clicks);
  }

  // ---------------------------------------------------------------- conservation

  /** The known memory changes at `swap_on` and `swap_off` only. */
  lemma StepKnown(w: World, op: Op)
    requires Inv(w) && Legal(w, op) && Step(w, op).Some? && !op.TurnOn? && !op.TurnOff?
    ensures var w' := Step(w, op).value; w'.chunks == w.chunks && SwapArea(w') == SwapArea(w)
  {
    match op
    case Alloc(clicks, _) => AllocSetting(w.s, clicks);
    case SwapInPass => SwapInSetting(w.s, 0);
    case _ =>
  }

  /** So the sum of free and live clicks changes at `swap_on` and `swap_off` only. */
  lemma SumConstant(w: World, op: Op)
    requires Inv(w) && Legal(w, op) && Safe(w, op) && Step(w, op).Some? && !op.TurnOn? && !op.TurnOff?
    ensures var w' := Step(w, op).value;
            TotalLen(w'.s.holes) + Live(w') == TotalLen(w.s.holes) + Live(w)
  {
    StepKeeps(w, op);
    StepKnown(w, op);
    ClicksConserved(w);
    ClicksConserved(Step(w, op).value);
  }

  // ---------------------------------------------------------------- the table is big enough

  /** Enough slots for one more live block than there is. */
  predicate Roomy(w: World) {
    |w.blocks| + |w.chunks| + 2 < w.s.slots
  }

  lemma NoPanicFreeing(w: World)
    requires Core(w) && |w.blocks| + |w.chunks| + 1 < w.s.slots
    ensures |w.s.holes| < w.s.slots
  {
    HoleBound(w.s.holes, w.blocks, w.chunks, SwapArea(w));
  }

  /** The extra block `swap_out` carves before it frees one is provided for. */
  lemma EvictNoPanic(w: World, p: nat)
    requires Inv(w) && Roomy(w) && w.s.lowUser <= p < |w.s.procs| && Evictable(w.s, p)
    ensures Evict(w.s, p).Some?
  {
    var n := w.s.procs[p].Size();
    var i := SwapFit(w.s.holes, w.s.swapBase, n).value;
    TakeTiled(w.s.holes, w.blocks, Known(w.chunks, SwapArea(w)), i, n, Scratch);
    HoleBound(Carve(w.s.holes, i, n), w.blocks[Scratch := Hole(w.s.holes[i].base, n)], w.chunks, SwapArea(w));
  }

  lemma {:induction false} AllocNoPanic(w: World, clicks: nat)
    requires Inv(w) && Roomy(w)
    ensures !AllocMem(w.s, clicks).AllocPanic?
    decreases Residents(w.s.procs)
  {
    if Choose(w.s.worst, w.s.holes, w.s.swapBase, clicks).None? && Scan(w.s, w.s.outswap).Some? {
      EvictNoPanic(w, Scan(w.s, w.s.outswap).value);
      var s' := SwapOut(w.s).state;
      SwapOutKeeps(w, clicks);
      SwapOutShrinks(w.s);
      SyncSize(w, s');
      AllocNoPanic(After(w, s'), clicks);
    }
  }

  lemma SyncSize(w: World, s: State)
    ensures |After(w, s).blocks| == |w.blocks|
  {
    assert After(w, s).blocks.Keys == w.blocks.Keys;
    assert |After(w, s).blocks| == |After(w, s).blocks.Keys|;
  }

  lemma ServeNoPanic(w: World, i: nat)
    requires Inv(w) && Roomy(w) && i < |w.s.queue| && ServeSafe(w.s, i)
    ensures ServeEntry(w.s, i).Some?
  {
    var rmp := w.s.procs[w.s.queue[i]];
    if rmp.swapin {
      AllocNoPanic(w, rmp.Size());
      AllocKeeps(w, rmp.Size());
      match AllocMem(w.s, rmp.Size())
      case NoMem(s') =>
      case Granted(base, s') =>
        var w1 := After(w, s');
        SyncSize(w, s');
        NoPanicFreeing(Claim(w1, Scratch, Hole(base, rmp.Size())));
    }
  }

  lemma {:induction false} SwapInNoPanic(w: World, i: nat)
    requires Inv(w) && Roomy(w) && i <= |w.s.queue| && SwapInSafe(w.s, i)
    ensures SwapInFrom(w.s, i).Some?
    decreases |w.s.queue| - i
  {
    if i < |w.s.queue| {
      ServeNoPanic(w, i);
      var (s', i') := ServeEntry(w.s, i).value;
      ServeKeeps(w, i);
      ServeSetting(w.s, i);
      SyncSize(w, s');
      SwapInNoPanic(After(w, s'), i');
    }
  }

  lemma TurnOffNoPanic(w: World)
    requires Inv(w) && Roomy(w) && Safe(w, TurnOff)
    ensures Step(w, TurnOff).Some?
  {
    if w.s.swapFd != -1 {
      QueueAllKeeps(w, w.s.lowUser);
      SwapInNoPanic(w.(s := QueueAll(w.s, w.s.lowUser)), 0);
      OffPassKeeps(w);
      ClosedStep(w);
      var w2 := AfterPass(w);
      if !SomebodyOnSwap(w2.s) {
        HeadRegularIff(w2);
        ClosedKeeps(w, w2.s);
      }
    }
  }

  /** "Hole table full" is unreachable, in any operation, as long as the table has room for
      the live blocks, the chunks, the swap area and one block more; and `swap_off` follows
      no NIL pointer. */
  lemma NoPanic(w: World, op: Op)
    requires Inv(w) && Roomy(w) && Legal(w, op) && Safe(w, op)
    ensures Step(w, op).Some?
  {
    NoPanicFreeing(w);
    match op
    case Alloc(clicks, _) => AllocNoPanic(w, clicks);
    case Write(o, _, _) => assert BlockOk(w, o);
    case Attach(id, _, _, _) => assert BlockOk(w, Loose(id));
    case SwapInPass => SwapInNoPanic(w, 0);
    case TurnOff => TurnOffNoPanic(w);
    case _ =>
  }

  // ---------------------------------------------------------------- swap_off

  /** Without a swap area every click in the tiling lies below the swap base. */
  lemma NothingAbove(w: World)
    requires Inv(w) && w.swapLen == 0
    ensures forall c :: Free(w.s.holes, c) ==> c < w.s.swapBase
    ensures forall o, c :: o in w.blocks && w.blocks[o].Has(c) ==> c < w.s.swapBase
  {
    forall c | Free(w.s.holes, c) ensures c < w.s.swapBase {
      assert c in Known(w.chunks, SwapArea(w));
    }
    forall o, c | o in w.blocks && w.blocks[o].Has(c) ensures c < w.s.swapBase {
      assert Held(w.blocks, c);
      assert c in Known(w.chunks, SwapArea(w));
    }
  }

  lemma DoneMeansIn(s: State, s': State)
    requires s.Ok() && s.swapFd != -1 && SwapOff(s) == Done(s')
    ensures s'.swapFd == -1 && !SomebodyOnSwap(s')
  {
    var q := SwapIn(QueueAll(s, s.lowUser)).value;
    assert Closed(q) == Done(s') && s'.procs == q.procs && s'.lowUser == q.lowUser;
  }

  /** When `swap_off` succeeds everybody is in memory and no click of the swap area is left on
      the hole list. */
  lemma SwapOffDone(w: World, w': World)
    requires Inv(w) && Safe(w, TurnOff) && w.s.swapFd != -1
    requires SwapOff(w.s) == Done(w'.s) && Step(w, TurnOff) == Some(w')
    ensures w'.s.swapFd == -1 && !SomebodyOnSwap(w'.s)
    ensures forall c :: Free(w'.s.holes, c) ==> c < w'.s.swapBase
    ensures forall o, c :: o in w'.blocks && w'.blocks[o].Has(c) ==> c < w'.s.swapBase
  {
    TurnOffKeeps(w);
    DoneMeansIn(w.s, w'.s);
    NothingAbove(w');
  }

  /** Once everybody is in, closing takes exactly the swap clicks off the hole list if and only
      if that list does not start with a swap hole. */
  lemma ClosingCorrectIff(w: World)
    requires Inv(w) && !SomebodyOnSwap(w.s)
    ensures (var r := Closed(w.s);
             && r.Done? && Canonical(r.state.holes)
             && forall c :: Free(r.state.holes, c) <==> Free(w.s.holes, c) && c < w.s.swapBase)
            <==> w.s.holes == [] || w.s.holes[0].base < w.s.swapBase
  {
    NoStraddling(w);
    SweepCorrectIff(w.s.holes, w.s.swapBase);
  }

  /** As long as memory and swap area end inside the click range, no click that is free or held
      lies beyond it. An end may be the range itself, which a 32-bit click shows as 0, but only
      that of the last hole; every hole that another one follows ends strictly inside. */
  lemma NothingWraps(w: World)
    requires Inv(w) && w.s.swapBase + w.swapLen <= CLICK_RANGE
    ensures forall i :: 0 <= i < |w.s.holes| ==> w.s.holes[i].End() <= CLICK_RANGE
    ensures forall i :: 0 <= i < |w.s.holes| - 1 ==> w.s.holes[i].End() < CLICK_RANGE
    ensures forall o :: o in w.blocks && w.blocks[o].len > 0 ==> w.blocks[o].End() <= CLICK_RANGE
  {
    forall i | 0 <= i < |w.s.holes| ensures w.s.holes[i].End() <= CLICK_RANGE {
      var c := w.s.holes[i].End() - 1;
      assert w.s.holes[i].Has(c);
      assert Free(w.s.holes, c);
      assert c in Known(w.chunks, SwapArea(w));
    }
    forall i | 0 <= i < |w.s.holes| - 1 ensures w.s.holes[i].End() < CLICK_RANGE {
      assert w.s.holes[i].End() < w.s.holes[i + 1].base < w.s.holes[i + 1].End();
    }
    forall o | o in w.blocks && w.blocks[o].len > 0 ensures w.blocks[o].End() <= CLICK_RANGE {
      var c := w.blocks[o].End() - 1;
      assert w.blocks[o].Has(c);
      assert Held(w.blocks, c);
      assert c in Known(w.chunks, SwapArea(w));
    }
  }

  /** The comparison in `merge` is right although it is made on 32-bit clicks: an end that wraps
      around to 0 equals no base of a hole further up. */
  lemma TouchTestIsExact(x: Hole, y: Hole)
    requires x.base < y.base < CLICK_RANGE && x.End() <= CLICK_RANGE
    ensures x.End() % CLICK_RANGE == y.base <==> x.End() == y.base
  {
    if x.End() == CLICK_RANGE {
      assert x.End() % CLICK_RANGE == 0;
    }
  }

  /** `swap_on` caps the swap area so that it ends inside the click range. */
  lemma SwapAreaFits(s: State, bytes: nat)
    requires s.clickSize > 0 && s.swapBase <= CLICK_RANGE
    ensures s.swapBase + SwapSize(s, bytes) <= CLICK_RANGE
    ensures SwapSize(s, bytes) * s.clickSize <= bytes
  {
    assert bytes / s.clickSize * s.clickSize <= bytes;
    MulMono(SwapSize(s, bytes), bytes / s.clickSize, s.clickSize);
  }
}
