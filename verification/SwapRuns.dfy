/** Whole runs: any sequence of memory manager operations, interleaved with processes writing
    their memory, being created, changing flags and exiting. */
module SwapRuns {
  import opened Options
  import opened Lists
  import opened Holes
  import opened HoleTables
  import opened SwapModel
  import opened Tiling
  import opened SwapWorld
  import opened SwapSafety
  import opened SwapConservation

  datatype Op =
    | Alloc(clicks: nat, id: nat)             // alloc_mem for a caller
    | Discard(id: nat)                        // free_mem of a block never given to a process
    | Write(o: Owner, k: nat, v: bv8)         // an owner stores a byte in its block
    | Attach(id: nat, p: nat, stackOff: nat, stackLen: nat)  // a block becomes an image
    | Exit(p: nat)                            // free_mem of a process's image
    | SetFlags(p: nat, paused: bool, waiting: bool, sigsuspended: bool, traced: bool, reply: bool)
    | QueueIn(p: nat)                         // swap_inqueue
    | SwapInPass                              // swap_in
    | TurnOn(fd: int, offset: nat, bytes: nat)  // swap_on
    | TurnOff                                 // swap_off
    | Policy(x: int)                          // do_worst_fit

  /** What the operations ask of their callers. */
  ghost predicate Legal(w: World, op: Op) {
    match op
    case Alloc(_, id) => Loose(id) !in w.blocks
    case Discard(id) => Loose(id) in w.blocks
    case Write(o, k, _) => o in w.blocks && !OnSwap(w.s, o) && k < w.blocks[o].len * w.s.clickSize
    case Attach(id, p, stackOff, stackLen) =>
      && Loose(id) in w.blocks && w.s.lowUser <= p < |w.s.procs| && OfProc(p) !in w.blocks
      && stackOff + stackLen == w.blocks[Loose(id)].len
    case Exit(p) => p < |w.s.procs| && OfProc(p) in w.blocks
    case SetFlags(p, _, _, _, _, _) => p < |w.s.procs| && OfProc(p) in w.blocks
    case QueueIn(p) => w.s.lowUser <= p < |w.s.procs| && w.s.procs[p].onswap
    case TurnOn(fd, _, _) => fd >= -1 && w.s.clickSize > 0
    case _ => true
  }

  /** The two places where the code goes wrong are avoided: worst fit falling back on a swap
      hole, and `swap_off` sweeping a list that starts with one. */
  ghost predicate Safe(w: World, op: Op)
    requires w.s.Ok()
  {
    match op
    case Alloc(clicks, _) => !PicksSwap(w.s.worst, w.s.holes, w.s.swapBase, clicks)
    case SwapInPass => SwapInSafe(w.s, 0)
    case TurnOff => w.s.swapFd == -1 || OffSafe(w)
    case _ => true
  }

  /** The pass of `swap_off` meets no swap-seed case, and the sweep either finds a list it can
      deal with or is not reached. For the sweep it is enough that there is no swap area, or
      that live blocks do not hold exactly as many clicks as there are of real memory. */
  ghost predicate OffSafe(w: World)
    requires w.s.Ok()
  {
    && SwapInSafe(QueueAll(w.s, w.s.lowUser), 0)
    && (w.swapLen == 0 || Live(w) != Memory(w) || SwapOff(w.s).NotAllIn?)
  }

  function NewProc(b: Hole, stackOff: nat, stackLen: nat): Proc {
    Proc(b.base, b.base + stackOff, stackOff, stackLen, false, false, false, false, false, false, false)
  }

  /** An entry without any flag set. */
  function Cleared(p: Proc): Proc {
    p.(paused := false, waiting := false, sigsuspended := false, traced := false, reply := false,
       onswap := false, swapin := false)
  }

  function Stored(m: Store, at: int, v: bv8): Store {
    (a: int) => if a == at then v else m(a)
  }

  /** One operation; None when the machine panics or follows a NIL pointer. The images change
      only as the owners' private memories would: nothing that swaps has a say in them. */
  ghost function Step(w: World, op: Op): Option<World>
    requires w.s.Ok() && Legal(w, op)
  {
    match op
    case Alloc(clicks, id) =>
      (match AllocMem(w.s, clicks)
       case Granted(base, s') => Some(Claim(After(w, s'), Loose(id), Hole(base, clicks)))
       case NoMem(s') => Some(After(w, s'))
       case AllocPanic => None)
    case Discard(id) =>
      (match FreeMem(w.s, w.blocks[Loose(id)])
       case None => None
       case Some(s') => Some(Drop(w, Loose(id)).(s := s')))
    case Write(o, k, v) =>
      if o !in w.image then None
      else Some(w.(s := w.s.(ram := Stored(w.s.ram, w.blocks[o].base * w.s.clickSize + k, v)),
                   image := w.image[o := Stored(w.image[o], k, v)]))
    case Attach(id, p, stackOff, stackLen) =>
      if Loose(id) !in w.image then None
      else
        var b := w.blocks[Loose(id)];
        Some(w.(s := w.s.(procs := w.s.procs[p := NewProc(b, stackOff, stackLen)]),
                blocks := (w.blocks - {Loose(id)})[OfProc(p) := b],
                image := (w.image - {Loose(id)})[OfProc(p) := w.image[Loose(id)]]))
    case Exit(p) =>
      (match FreeMem(w.s, w.blocks[OfProc(p)])
       case None => None
       case Some(s') =>
         Some(Drop(w, OfProc(p)).(s := s'.(procs := s'.procs[p := Cleared(s'.procs[p])]))))
    case SetFlags(p, paused, waiting, sigsuspended, traced, reply) =>
      Some(w.(s := w.s.(procs := w.s.procs[p := w.s.procs[p].(
        paused := paused, waiting := waiting, sigsuspended := sigsuspended, traced := traced, reply := reply)])))
    case QueueIn(p) => Some(w.(s := SwapInQueue(w.s, p)))
    case SwapInPass =>
      (match SwapIn(w.s)
       case None => None
       case Some(s') => Some(After(w, s')))
    case TurnOn(fd, offset, bytes) =>
      (match SwapOn(w.s, fd, offset, bytes)
       case None => None
       case Some(s') =>
         Some(w.(s := s', swapLen := if w.s.swapFd == -1 && fd >= 0 then SwapSize(w.s, bytes) else w.swapLen)))
    case TurnOff =>
      (match SwapOff(w.s)
       case Done(s') => Some(After(w, s').(swapLen := 0))
       case NotAllIn(s') => Some(After(w, s'))
       case SwapOffPanic => None
       case NilFollowed => None)
    case Policy(x) =>
      Some(if x == 0 || x == 1 then w.(s := w.s.(worst := x == 1)) else w)
  }

  // ---------------------------------------------------------------- every operation

  /** Changing only table entries, queue, policy or outswap, not where anything lies. */
  ghost predicate Bookkeeping(a: State, b: State) {
    && b == a.(procs := b.procs, queue := b.queue, worst := b.worst, outswap := b.outswap)
    && |a.procs| == |b.procs|
    && forall p :: 0 <= p < |a.procs| ==>
         && a.procs[p].Block() == b.procs[p].Block() && a.procs[p].onswap == b.procs[p].onswap
  }

  lemma BookkeepingKeeps(w: World, s: State)
    requires Inv(w) && Bookkeeping(w.s, s) && s.Ok() && Distinct(s.queue)
    requires forall p :: 0 <= p < |s.procs| ==> ProcOk(w.(s := s), p)
    ensures Inv(w.(s := s))
  {
    var w' := w.(s := s);
    forall o | o in w.blocks ensures BlockOk(w', o) {
      assert BlockOk(w, o);
      assert OnSwap(s, o) == OnSwap(w.s, o);
      IntactFrame(w.s, s, w.blocks[o], OnSwap(s, o), w.image[o]);
    }
  }

  lemma QueueInKeeps(w: World, p: nat)
    requires Inv(w) && w.s.lowUser <= p < |w.s.procs| && w.s.procs[p].onswap
    ensures Inv(w.(s := SwapInQueue(w.s, p))) && SameSetting(w.s, SwapInQueue(w.s, p))
  {
    var s := SwapInQueue(w.s, p);
    ChainedOk(w.s.queue, p);
    forall q | 0 <= q < |s.procs| ensures ProcOk(w.(s := s), q) {
      assert ProcOk(w, q);
    }
    BookkeepingKeeps(w, s);
  }

  lemma SetFlagsKeeps(w: World, op: Op)
    requires Inv(w) && op.SetFlags? && Legal(w, op)
    ensures Inv(Step(w, op).value)
  {
    var s := Step(w, op).value.s;
    forall q | 0 <= q < |s.procs| ensures ProcOk(w.(s := s), q) {
      assert ProcOk(w, q);
    }
    BookkeepingKeeps(w, s);
  }

  lemma PolicyKeeps(w: World, x: int)
    requires Inv(w)
    ensures Inv(Step(w, Policy(x)).value)
  {
    var s := Step(w, Policy(x)).value.s;
    forall q | 0 <= q < |s.procs| ensures ProcOk(w.(s := s), q) {
      assert ProcOk(w, q);
    }
    BookkeepingKeeps(w, s);
  }

  lemma AllocStepKeeps(w: World, clicks: nat, id: nat)
    requires Inv(w) && Legal(w, Alloc(clicks, id)) && Safe(w, Alloc(clicks, id))
    requires Step(w, Alloc(clicks, id)).Some?
    ensures Inv(Step(w, Alloc(clicks, id)).value)
  {
    AllocKeeps(w, clicks);
    match AllocMem(w.s, clicks)
    case Granted(base, s') =>
      RenameScratch(After(w, s'), Hole(base, clicks), id);
    case NoMem(s') =>
    case AllocPanic =>
  }

  /** An allocation that succeeds or fails without panicking keeps the invariant exactly outside
      the swap-seed case: a block of swap space in a caller's hands breaks it. */
  lemma AllocStepKeepsIff(w: World, clicks: nat, id: nat)
    requires Inv(w) && Legal(w, Alloc(clicks, id)) && Step(w, Alloc(clicks, id)).Some?
    ensures Inv(Step(w, Alloc(clicks, id)).value) <==> Safe(w, Alloc(clicks, id))
  {
    if Safe(w, Alloc(clicks, id)) {
      AllocStepKeeps(w, clicks, id);
    } else {
      SwapSpaceHandedOutIff(w.s.worst, w.s.holes, w.s.swapBase, clicks);
      LooseInMemory(Step(w, Alloc(clicks, id)).value, id);
    }
  }

  lemma LooseInMemory(w: World, id: nat)
    requires Loose(id) in w.blocks
    ensures Inv(w) ==> w.blocks[Loose(id)].base < w.s.swapBase
  {
    if Inv(w) { assert BlockOk(w, Loose(id)); }
  }

  /** A block claimed under one name may as well have been claimed under another. */
  lemma RenameScratch(w: World, b: Hole, id: nat)
    requires Core(Claim(w, Scratch, b)) && Scratch !in w.blocks && Loose(id) !in w.blocks
    requires w.image.Keys == w.blocks.Keys && b.End() < w.s.swapBase
    ensures Inv(Claim(w, Loose(id), b))
  {
    var a, z := Claim(w, Scratch, b), Claim(w, Loose(id), b);
    ReownTiled(w.s.holes, a.blocks, Known(w.chunks, SwapArea(w)), Scratch, Loose(id));
    assert (a.blocks - {Scratch})[Loose(id) := b] == z.blocks;
    forall p | 0 <= p < |w.s.procs| ensures ProcOk(z, p) {
      assert ProcOk(a, p);
    }
    forall o | o in z.blocks ensures BlockOk(z, o) {
      if o != Loose(id) { assert BlockOk(a, o); }
    }
  }

  /** Giving up one block leaves everybody else's bytes alone. */
  lemma DropBlock(w: World, o: Owner, s: State, x: Owner)
    requires Inv(w) && o in w.blocks && x in w.blocks && x != o && OnSwap(s, x) == OnSwap(w.s, x)
    requires s == w.s.(holes := s.holes, procs := s.procs)
    ensures BlockOk(Drop(w, o).(s := s), x)
  {
    assert BlockOk(w, x);
    IntactFrame(w.s, s, w.blocks[x], OnSwap(w.s, x), w.image[x]);
  }

  lemma DropKeeps(w: World, o: Owner, s: State)
    requires Inv(w) && o in w.blocks
    requires w.blocks[o].len > 0 ==> |w.s.holes| < w.s.slots
    requires s == w.s.(holes := Release(w.s.holes, w.blocks[o]), procs := s.procs) && |s.procs| == |w.s.procs|
    requires forall q :: 0 <= q < |s.procs| ==>
               s.procs[q] == if o == OfProc(q) then Cleared(w.s.procs[q]) else w.s.procs[q]
    ensures Inv(Drop(w, o).(s := s))
  {
    var w' := Drop(w, o).(s := s);
    GiveTiled(w.s.holes, w.blocks, Known(w.chunks, SwapArea(w)), o);
    ReleaseLength(w.s.holes, w.blocks[o]);
    forall q | 0 <= q < |s.procs| ensures ProcOk(w', q) {
      assert ProcOk(w, q);
    }
    forall x | x in w'.blocks ensures BlockOk(w', x) {
      DropBlock(w, o, s, x);
    }
  }

  /** A store lands in the owner's own block only. */
  lemma StoreApart(w: World, o: Owner, k: nat, v: bv8, x: Owner)
    requires Inv(w) && Legal(w, Write(o, k, v)) && x in w.blocks && x != o
    ensures var ram := Stored(w.s.ram, w.blocks[o].base * w.s.clickSize + k, v);
            Intact(w.s.(ram := ram), w.blocks[x], OnSwap(w.s, x), w.image[x])
  {
    var ram := Stored(w.s.ram, w.blocks[o].base * w.s.clickSize + k, v);
    var s', b := w.s.(ram := ram), w.blocks[x];
    assert BlockOk(w, x);
    assert Disjoint(w.blocks[o], b);
    forall j | 0 <= j < b.len * w.s.clickSize
      ensures ByteAt(s', b, OnSwap(w.s, x), j) == w.image[x](j)
    {
      BytesApart(w.blocks[o], b, w.s.clickSize, k);
      assert ByteAt(w.s, b, OnSwap(w.s, x), j) == w.image[x](j);
    }
  }

  lemma StoreOwn(w: World, o: Owner, k: nat, v: bv8)
    requires Inv(w) && Legal(w, Write(o, k, v))
    ensures var ram := Stored(w.s.ram, w.blocks[o].base * w.s.clickSize + k, v);
            Intact(w.s.(ram := ram), w.blocks[o], false, Stored(w.image[o], k, v))
  {
    var ram := Stored(w.s.ram, w.blocks[o].base * w.s.clickSize + k, v);
    var s', b := w.s.(ram := ram), w.blocks[o];
    assert BlockOk(w, o);
    forall j | 0 <= j < b.len * w.s.clickSize
      ensures ByteAt(s', b, false, j) == Stored(w.image[o], k, v)(j)
    {
      assert ByteAt(w.s, b, false, j) == w.image[o](j);
    }
  }

  /** The world after a store. */
  ghost function AfterWrite(w: World, o: Owner, k: nat, v: bv8): World
    requires Legal(w, Write(o, k, v)) && o in w.image
  {
    w.(s := w.s.(ram := Stored(w.s.ram, w.blocks[o].base * w.s.clickSize + k, v)),
       image := w.image[o := Stored(w.image[o], k, v)])
  }

  lemma WriteBlock(w: World, o: Owner, k: nat, v: bv8, x: Owner)
    requires Inv(w) && Legal(w, Write(o, k, v)) && o in w.image && x in w.blocks
    ensures BlockOk(AfterWrite(w, o, k, v), x)
  {
    assert BlockOk(w, x);
    if x == o { StoreOwn(w, o, k, v); } else { StoreApart(w, o, k, v, x); }
  }

  lemma WriteProcs(w: World, o: Owner, k: nat, v: bv8)
    requires Inv(w) && Legal(w, Write(o, k, v)) && o in w.image
    ensures ProcsOk(AfterWrite(w, o, k, v))
  {
    forall p | 0 <= p < |w.s.procs| ensures ProcOk(AfterWrite(w, o, k, v), p) {
      assert ProcOk(w, p);
    }
  }

  lemma WriteKeeps(w: World, o: Owner, k: nat, v: bv8)
    requires Inv(w) && Legal(w, Write(o, k, v))
    ensures Step(w, Write(o, k, v)).Some? && Inv(Step(w, Write(o, k, v)).value)
  {
    assert BlockOk(w, o);
    var w' := AfterWrite(w, o, k, v);
    WriteProcs(w, o, k, v);
    forall x | x in w'.blocks ensures BlockOk(w', x) {
      WriteBlock(w, o, k, v, x);
    }
    assert SwapArea(w') == SwapArea(w);
  }

  lemma AttachBlock(w: World, op: Op, w': World, x: Owner)
    requires Inv(w) && op.Attach? && Legal(w, op) && Step(w, op) == Some(w') && x in w'.blocks
    ensures BlockOk(w', x)
  {
    var y := if x == OfProc(op.p) then Loose(op.id) else x;
    assert ProcOk(w, op.p);
    assert BlockOk(w, y) && OnSwap(w'.s, x) == OnSwap(w.s, y);
    IntactFrame(w.s, w'.s, w.blocks[y], OnSwap(w.s, y), w.image[y]);
  }

  lemma AttachProcs(w: World, op: Op, w': World)
    requires Inv(w) && op.Attach? && Legal(w, op) && Step(w, op) == Some(w')
    ensures ProcsOk(w')
  {
    forall q | 0 <= q < |w'.s.procs| ensures ProcOk(w', q) {
      assert ProcOk(w, q);
    }
  }

  lemma AttachKeeps(w: World, op: Op)
    requires Inv(w) && op.Attach? && Legal(w, op)
    ensures Step(w, op).Some? && Inv(Step(w, op).value)
  {
    assert BlockOk(w, Loose(op.id));
    var w' := Step(w, op).value;
    ReownTiled(w.s.holes, w.blocks, Known(w.chunks, SwapArea(w)), Loose(op.id), OfProc(op.p));
    AttachProcs(w, op, w');
    forall x | x in w'.blocks ensures BlockOk(w', x) {
      AttachBlock(w, op, w', x);
    }
    assert SwapArea(w') == SwapArea(w);
  }

  // ---------------------------------------------------------------- swap_on, swap_off

  /** While swapping is off nobody is on swap, so nobody's bytes depend on the swap file. */
  lemma NobodyOnSwapWhenOff(w: World, x: Owner)
    requires Inv(w) && w.s.swapFd == -1 && x in w.blocks
    ensures !OnSwap(w.s, x)
  {
    assert x.OfProc? ==> ProcOk(w, x.p);
  }

  lemma OpenedBlock(w: World, w': World, x: Owner)
    requires Inv(w) && w.s.swapFd == -1 && x in w.blocks && w'.blocks == w.blocks && w'.image == w.image
    requires w'.s == w.s.(swapFd := w'.s.swapFd, swapOffset := w'.s.swapOffset, holes := w'.s.holes)
    ensures BlockOk(w', x)
  {
    assert BlockOk(w, x);
    NobodyOnSwapWhenOff(w, x);
    forall k | 0 <= k < w.blocks[x].len * w'.s.clickSize
      ensures ByteAt(w'.s, w.blocks[x], false, k) == w.image[x](k)
    {
      assert ByteAt(w.s, w.blocks[x], false, k) == w.image[x](k);
    }
  }

  lemma OpenedKeeps(w: World, fd: int, offset: nat, area: Hole)
    requires Inv(w) && w.s.swapFd == -1 && fd >= 0 && area.base == w.s.swapBase
    requires area.len > 0 ==> |w.s.holes| < w.s.slots
    ensures Inv(w.(s := w.s.(swapFd := fd, swapOffset := offset, holes := Release(w.s.holes, area)),
                   swapLen := area.len))
  {
    var s := w.s.(swapFd := fd, swapOffset := offset, holes := Release(w.s.holes, area));
    var w' := w.(s := s, swapLen := area.len);
    OpenedTiled(w, area);
    ReleaseLength(w.s.holes, area);
    forall q | 0 <= q < |s.procs| ensures ProcOk(w', q) {
      assert ProcOk(w, q);
    }
    forall x | x in w'.blocks ensures BlockOk(w', x) {
      OpenedBlock(w, w', x);
    }
  }

  lemma TurnOnKeeps(w: World, op: Op)
    requires Inv(w) && op.TurnOn? && Legal(w, op) && Step(w, op).Some?
    ensures Inv(Step(w, op).value)
  {
    if w.s.swapFd == -1 && op.fd >= 0 {
      OpenedKeeps(w, op.fd, op.offset, Hole(w.s.swapBase, SwapSize(w.s, op.bytes)));
    } else {
      assert Step(w, op).value == w;
    }
  }

  /** The swap area is new memory: nobody held or freed a click of it before. */
  lemma OpenedTiled(w: World, area: Hole)
    requires Inv(w) && w.s.swapFd == -1 && area.base == w.s.swapBase
    ensures Tiled(Release(w.s.holes, area), w.blocks, Known(w.chunks, area))
  {
    var known := Known(w.chunks, SwapArea(w));
    forall c | area.Has(c) ensures c !in known {}
    DisjointIffNoFreeClick(w.s.holes, area);
    ReleaseCorrect(w.s.holes, area);
    var hs := Release(w.s.holes, area);
    forall o | o in w.blocks ensures DisjointFromAll(hs, w.blocks[o]) {
      DisjointIffNoFreeClick(w.s.holes, w.blocks[o]);
      DisjointIffNoFreeClick(hs, w.blocks[o]);
      forall c | w.blocks[o].Has(c) ensures c in known {
        assert Held(w.blocks, c);
      }
    }
  }

  lemma {:induction false} QueueAllKeeps(w: World, p: nat)
    requires Inv(w) && w.s.lowUser <= p <= |w.s.procs|
    ensures Inv(w.(s := QueueAll(w.s, p))) && SameSetting(w.s, QueueAll(w.s, p))
    decreases |w.s.procs| - p
  {
    if p < |w.s.procs| {
      if w.s.procs[p].onswap {
        QueueInKeeps(w, p);
        QueueAllKeeps(w.(s := SwapInQueue(w.s, p)), p + 1);
      } else {
        QueueAllKeeps(w, p + 1);
      }
    }
  }

  /** With everybody in, sweeping a list that does not start with a swap hole takes the swap
      area, and nothing else, out of the known memory. */
  lemma SweptTiled(w: World, left: seq<Hole>)
    requires Inv(w) && !SomebodyOnSwap(w.s)
    requires Swept(w.s.holes, w.s.swapBase) == Some(left)
    requires w.s.holes == [] || w.s.holes[0].base < w.s.swapBase
    ensures Tiled(left, w.blocks, Known(w.chunks, Hole(w.s.swapBase, 0)))
    ensures |left| <= |w.s.holes|
  {
    NoStraddling(w);
    SweepCorrectIff(w.s.holes, w.s.swapBase);
    var known := Known(w.chunks, SwapArea(w));
    forall o, c | o in w.blocks && w.blocks[o].Has(c) ensures c < w.s.swapBase {
      assert BlockOk(w, o);
      assert o.OfProc? ==> ProcOk(w, o.p);
    }
    forall o | o in w.blocks ensures DisjointFromAll(left, w.blocks[o]) {
      DisjointIffNoFreeClick(w.s.holes, w.blocks[o]);
      DisjointIffNoFreeClick(left, w.blocks[o]);
    }
    forall c ensures c in Known(w.chunks, Hole(w.s.swapBase, 0)) <==> Free(left, c) || Held(w.blocks, c) {
      assert c in known <==> Free(w.s.holes, c) || Held(w.blocks, c);
      assert Free(w.chunks, c) ==> c < w.s.swapBase;
    }
  }

  lemma SweepKeeps(w: World, left: seq<Hole>)
    requires Inv(w) && !SomebodyOnSwap(w.s)
    requires Swept(w.s.holes, w.s.swapBase) == Some(left)
    requires w.s.holes == [] || w.s.holes[0].base < w.s.swapBase
    ensures Inv(w.(s := w.s.(holes := left, swapFd := -1), swapLen := 0))
  {
    SweptTiled(w, left);
    var w' := w.(s := w.s.(holes := left, swapFd := -1), swapLen := 0);
    forall q | 0 <= q < |w.s.procs| ensures ProcOk(w', q) {
      assert ProcOk(w, q);
    }
    forall x | x in w'.blocks ensures BlockOk(w', x) {
      assert BlockOk(w, x);
      IntactFrame(w.s, w'.s, w.blocks[x], OnSwap(w.s, x), w.image[x]);
    }
  }

  /** The world after the pass of `swap_off`. */
  ghost function AfterPass(w: World): World
    requires w.s.Ok() && SwapIn(QueueAll(w.s, w.s.lowUser)).Some?
  {
    After(w, SwapIn(QueueAll(w.s, w.s.lowUser)).value)
  }

  /** The pass of `swap_off` keeps everything, the number of live clicks included. */
  lemma OffPassKeeps(w: World)
    requires Inv(w) && SwapInSafe(QueueAll(w.s, w.s.lowUser), 0) && SwapIn(QueueAll(w.s, w.s.lowUser)).Some?
    ensures Inv(AfterPass(w)) && Live(AfterPass(w)) == Live(w) && SameSetting(w.s, AfterPass(w).s)
  {
    var w1 := w.(s := QueueAll(w.s, w.s.lowUser));
    QueueAllKeeps(w, w.s.lowUser);
    SwapInKeeps(w1, 0);
    SwapInKeepsLive(w1);
    assert After(w1, SwapIn(w1.s).value) == AfterPass(w);
  }

  /** The end of `swap_off`, seen from the world after its pass. */
  lemma ClosedStep(w: World)
    requires w.s.Ok() && w.s.swapFd != -1 && SwapIn(QueueAll(w.s, w.s.lowUser)).Some?
    ensures SwapOff(w.s) == Closed(AfterPass(w).s)
    ensures SwapOff(w.s).NotAllIn? <==> SomebodyOnSwap(AfterPass(w).s)
  {
  }

  lemma TurnOffKeeps(w: World)
    requires Inv(w) && Safe(w, TurnOff) && Step(w, TurnOff).Some?
    ensures Inv(Step(w, TurnOff).value)
  {
    if w.s.swapFd == -1 {
      SyncNoMove(w, w.s);
      assert After(w, w.s).(swapLen := 0) == w;
    } else {
      OffPassKeeps(w);
      ClosedStep(w);
      var w2 := AfterPass(w);
      if !SomebodyOnSwap(w2.s) {
        HeadRegularIff(w2);
        ClosedKeeps(w, w2.s);
      }
    }
  }

  lemma ClosedKeeps(w: World, s: State)
    requires Inv(After(w, s)) && !SomebodyOnSwap(s) && |s.procs| == |w.s.procs|
    requires s.holes == [] || s.holes[0].base < s.swapBase
    ensures Closed(s).Done? && Inv(After(w, Closed(s).state).(swapLen := 0))
  {
    var w2 := After(w, s);
    var left := Swept(s.holes, s.swapBase).value;
    SweepKeeps(w2, left);
    SyncNoMove(w2, s.(holes := left, swapFd := -1));
    SyncSync(w, s, s.(holes := left, swapFd := -1));
  }

  /** When everybody gets in, `swap_off` ends in a good state if and only if there is no swap
      area or live blocks hold fewer clicks than there are of real memory. With more live
      clicks than that not everybody gets in; then, too, the state it leaves is good. */
  lemma TurnOffKeepsIff(w: World)
    requires Inv(w) && w.s.swapFd != -1
    requires SwapInSafe(QueueAll(w.s, w.s.lowUser), 0) && !SwapOff(w.s).SwapOffPanic?
    ensures !SwapOff(w.s).NotAllIn? ==>
              ((Step(w, TurnOff).Some? && Inv(Step(w, TurnOff).value)) <==> w.swapLen == 0 || Live(w) < Memory(w))
    ensures SwapOff(w.s).NotAllIn? ==> Step(w, TurnOff).Some? && Inv(Step(w, TurnOff).value)
    ensures Live(w) > Memory(w) ==> SwapOff(w.s).NotAllIn?
  {
    OffPassKeeps(w);
    ClosedStep(w);
    var w2 := AfterPass(w);
    if SomebodyOnSwap(w2.s) {
      TurnOffKeeps(w);
    } else {
      HeadRegularIff(w2);
      if w.swapLen == 0 || Live(w) < Memory(w) {
        ClosedKeeps(w, w2.s);
      } else {
        SweptBadly(w2);
        if Step(w, TurnOff).Some? { NoSwapHoleWhenOff(Step(w, TurnOff).value); }
      }
    }
  }

  /** What the sweep leaves when a swap hole stands at the head: the next hole, or a crash. */
  lemma SweptBadly(w: World)
    requires Inv(w) && !SomebodyOnSwap(w.s) && w.s.holes != [] && w.s.holes[0].base >= w.s.swapBase
    ensures match Closed(w.s)
            case NilFollowed => true
            case Done(s) => s.holes != [] && s.holes[0].base >= s.swapBase
            case _ => false
  {
    assert |w.s.holes| > 1 ==> w.s.holes[0].End() < w.s.holes[1].base;
  }

  lemma NoSwapHoleWhenOff(w: World)
    requires w.swapLen == 0 && w.s.holes != []
    ensures Inv(w) ==> w.s.holes[0].base < w.s.swapBase
  {
    if Inv(w) { HeadIsKnown(w); }
  }

  lemma {:induction false} NobodyToQueue(s: State, p: nat)
    requires s.Ok() && s.lowUser <= p <= |s.procs| && !SomebodyOnSwap(s)
    ensures QueueAll(s, p) == s
    decreases |s.procs| - p
  {
    if p < |s.procs| {
      NobodyToQueue(s, p + 1);
    }
  }

  /** With nobody on swap at the call, the condition is a matter of counting clicks alone. */
  lemma TurnOffAloneIff(w: World)
    requires Inv(w) && w.s.swapFd != -1 && !SomebodyOnSwap(w.s)
    ensures (Step(w, TurnOff).Some? && Inv(Step(w, TurnOff).value)) <==> w.swapLen == 0 || Live(w) < Memory(w)
  {
    forall p | 0 <= p < |w.s.procs| ensures !w.s.procs[p].swapin {
      assert ProcOk(w, p);
    }
    NobodyToQueue(w.s, w.s.lowUser);
    QuietPass(w.s, 0);
    SwapInKeeps(w, 0);
    ClosedStep(w);
    TurnOffKeepsIff(w);
  }

  /** While real memory is not wholly taken by live blocks, no operation can go wrong in either
      of the two ways, under either policy. */
  lemma SpareMemoryIsSafe(w: World, op: Op)
    requires Inv(w) && Live(w) < Memory(w)
    ensures Safe(w, op)
  {
    SpareMemoryAtHead(w);
    SparePassIsSafe(w, 0);
    var w1 := w.(s := QueueAll(w.s, w.s.lowUser));
    QueueAllKeeps(w, w.s.lowUser);
    SparePassIsSafe(w1, 0);
  }

  lemma GiveUpKeeps(w: World, op: Op, w': World)
    requires Inv(w) && (op.Discard? || op.Exit?) && Legal(w, op) && Step(w, op) == Some(w')
    ensures Inv(w')
  {
    DropKeeps(w, if op.Discard? then Loose(op.id) else OfProc(op.p), w'.s);
  }

  /** The operations that change table entries, queue or policy only. */
  lemma BookkeepingStepKeeps(w: World, op: Op, w': World)
    requires Inv(w) && (op.SetFlags? || op.QueueIn? || op.Policy?) && Legal(w, op) && Step(w, op) == Some(w')
    ensures Inv(w')
  {
    match op
    case SetFlags(_, _, _, _, _, _) => SetFlagsKeeps(w, op);
    case QueueIn(p) => QueueInKeeps(w, p);
    case Policy(x) => PolicyKeeps(w, x);
  }

  lemma SwapInStepKeeps(w: World, w': World)
    requires Inv(w) && Safe(w, SwapInPass) && Step(w, SwapInPass) == Some(w')
    ensures Inv(w')
  {
    SwapInKeeps(w, 0);
  }

  lemma BlockStepKeeps(w: World, op: Op, w': World)
    requires Inv(w) && (op.Alloc? || op.Write? || op.Attach? || op.Discard? || op.Exit?)
    requires Legal(w, op) && Safe(w, op) && Step(w, op) == Some(w')
    ensures Inv(w')
  {
    match op
    case Alloc(clicks, id) => AllocStepKeeps(w, clicks, id);
    case Write(o, k, v) => WriteKeeps(w, o, k, v);
    case Attach(_, _, _, _) => AttachKeeps(w, op);
    case _ => GiveUpKeeps(w, op, w');
  }

  /** Every operation keeps the invariant. */
  lemma StepKeeps(w: World, op: Op)
    requires Inv(w) && Legal(w, op) && Safe(w, op) && Step(w, op).Some?
    ensures Inv(Step(w, op).value)
  {
    match op
    case SwapInPass => SwapInStepKeeps(w, Step(w, op).value);
    case TurnOn(_, _, _) => TurnOnKeeps(w, op);
    case TurnOff => TurnOffKeeps(w);
    case SetFlags(_, _, _, _, _, _) => BookkeepingStepKeeps(w, op, Step(w, op).value);
    case QueueIn(_) => BookkeepingStepKeeps(w, op, Step(w, op).value);
    case Policy(_) => BookkeepingStepKeeps(w, op, Step(w, op).value);
    case _ => BlockStepKeeps(w, op, Step(w, op).value);
  }
}
