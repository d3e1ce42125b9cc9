/** What swapping does to the swap file: which bytes of it are written, and where an image lies,
    in terms of the offset and the size that `swap_on` was given. */
module SwapFile {
  import opened Options
  import opened Holes
  import opened SwapModel
  import opened Tiling
  import opened SwapWorld
  import opened SwapSafety
  import opened SwapRuns
  import opened SwapTheorems

  /** Outside `n` bytes from `at` on the file is the same. */
  ghost predicate SameOutside(a: Store, b: Store, at: int, n: int) {
    forall x: int :: x < at || at + n <= x ==> b(x) == a(x)
  }

  /** Geometry and swap file outside an area of `len` clicks are the same. */
  ghost predicate AreaOnly(a: State, b: State, len: nat) {
    && b.swapOffset == a.swapOffset && b.swapBase == a.swapBase && b.clickSize == a.clickSize
    && SameOutside(a.file, b.file, a.swapOffset, len * a.clickSize)
  }

  lemma AreaOnlyTrans(a: State, b: State, c: State, len: nat)
    requires AreaOnly(a, b, len) && AreaOnly(b, c, len)
    ensures AreaOnly(a, c, len)
  {
  }

  // ---------------------------------------------------------------- one eviction

  /** A piece of a swap hole lies in the swap area. */
  lemma PieceInArea(w: World, i: nat, n: nat)
    requires Inv(w) && i < |w.s.holes| && w.s.holes[i].base >= w.s.swapBase && 0 < n <= w.s.holes[i].len
    ensures w.s.holes[i].base - w.s.swapBase + n <= w.swapLen
  {
    var c := w.s.holes[i].base + n - 1;
    assert w.s.holes[i].Has(c);
    assert Free(w.s.holes, c);
    assert c in Known(w.chunks, SwapArea(w));
  }

  lemma BytesInArea(base: nat, n: nat, len: nat, size: nat)
    requires base + n <= len
    ensures base * size + n * size <= len * size
  {
    MulMono(base + n, len, size);
    assert (base + n) * size == base * size + n * size;
  }

  /** Writing `n` clicks at a place inside the area changes nothing outside it. */
  lemma CopyInside(s: State, d: nat, n: nat, src: Store, from: int, len: nat)
    requires d + n <= len
    ensures SameOutside(s.file, CopyBytes(s.file, s.swapOffset + d * s.clickSize, src, from, n * s.clickSize),
                        s.swapOffset, len * s.clickSize)
  {
    BytesInArea(d, n, len, s.clickSize);
  }

  lemma EvictWritesInside(s: State, p: nat, i: nat, s': State, len: nat)
    requires EvictsTo(s, p, i, s') && s.holes[i].base - s.swapBase + s.procs[p].Size() <= len
    ensures AreaOnly(s, s', len)
  {
    EvictCopies(s, p, i, s');
    CopyInside(s, s.holes[i].base - s.swapBase, s.procs[p].Size(), s.ram, s.procs[p].dPhys * s.clickSize, len);
  }

  lemma EvictWritesNothing(s: State, p: nat, i: nat, s': State, len: nat)
    requires EvictsTo(s, p, i, s') && s.procs[p].Size() == 0
    ensures AreaOnly(s, s', len)
  {
    EvictCopies(s, p, i, s');
  }

  lemma EvictWrites(w: World, p: nat, i: nat, s': State)
    requires Inv(w) && EvictsTo(w.s, p, i, s')
    ensures AreaOnly(w.s, s', w.swapLen)
  {
    if w.s.procs[p].Size() > 0 {
      PieceInArea(w, i, w.s.procs[p].Size());
      EvictWritesInside(w.s, p, i, s', w.swapLen);
    } else {
      EvictWritesNothing(w.s, p, i, s', w.swapLen);
    }
  }

  // ---------------------------------------------------------------- allocation and passes

  lemma {:induction false} AllocWrites(w: World, clicks: nat)
    requires Inv(w) && !PicksSwap(w.s.worst, w.s.holes, w.s.swapBase, clicks)
    ensures var r := AllocMem(w.s, clicks); !r.AllocPanic? ==> AreaOnly(w.s, r.state, w.swapLen)
    decreases Residents(w.s.procs)
  {
    if Choose(w.s.worst, w.s.holes, w.s.swapBase, clicks).None? && SwapOut(w.s).Evicted? {
      var s1 := SwapOut(w.s).state;
      var p := Scan(w.s, w.s.outswap).value;
      EvictWrites(w, p, SwapFit(w.s.holes, w.s.swapBase, w.s.procs[p].Size()).value, s1);
      SwapOutKeeps(w, clicks);
      SwapOutShrinks(w.s);
      AllocWrites(After(w, s1), clicks);
      var r := AllocMem(w.s, clicks);
      if !r.AllocPanic? {
        AreaOnlyTrans(w.s, s1, r.state, w.swapLen);
      }
    }
  }

  lemma ServeWrites(w: World, i: nat)
    requires Inv(w) && i < |w.s.queue| && ServeSafe(w.s, i) && ServeEntry(w.s, i).Some?
    ensures AreaOnly(w.s, ServeEntry(w.s, i).value.0, w.swapLen)
  {
    var p, s' := w.s.queue[i], ServeEntry(w.s, i).value.0;
    if w.s.procs[p].swapin {
      AllocWrites(w, w.s.procs[p].Size());
      var r := AllocMem(w.s, w.s.procs[p].Size());
      if r.Granted? {
        LoadCopies(r.state, i, r.base, s');
      }
    }
  }

  lemma {:induction false} PassWrites(w: World, i: nat)
    requires Inv(w) && i <= |w.s.queue| && SwapInSafe(w.s, i) && SwapInFrom(w.s, i).Some?
    ensures AreaOnly(w.s, SwapInFrom(w.s, i).value, w.swapLen)
    decreases |w.s.queue| - i
  {
    if i < |w.s.queue| {
      var (s1, i1) := ServeEntry(w.s, i).value;
      ServeKeeps(w, i);
      ServeWrites(w, i);
      PassWrites(After(w, s1), i1);
      AreaOnlyTrans(w.s, s1, SwapInFrom(w.s, i).value, w.swapLen);
    }
  }

  lemma OffWrites(w: World)
    requires Inv(w) && w.s.swapFd != -1 && SwapInSafe(QueueAll(w.s, w.s.lowUser), 0)
    ensures match SwapOff(w.s)
            case NotAllIn(s') => AreaOnly(w.s, s', w.swapLen)
            case _ => true
  {
    var q := QueueAll(w.s, w.s.lowUser);
    QueueAllKeeps(w, w.s.lowUser);
    QueueAllFile(w.s, w.s.lowUser);
    if SwapIn(q).Some? {
      PassWrites(w.(s := q), 0);
    }
  }

  lemma {:induction false} QueueAllFile(s: State, p: nat)
    requires s.Ok() && s.lowUser <= p <= |s.procs|
    ensures QueueAll(s, p).file == s.file
    decreases |s.procs| - p
  {
    if p < |s.procs| {
      QueueAllFile(if s.procs[p].onswap then SwapInQueue(s, p) else s, p + 1);
    }
  }

  // ---------------------------------------------------------------- every operation

  /** From one world to the next swapping has stayed on, in the same area. */
  ghost predicate SameArea(w: World, w': World) {
    w'.swapLen == w.swapLen && AreaOnly(w.s, w'.s, w.swapLen)
  }

  lemma OffShape(w: World, w': World)
    requires w.s.Ok() && w.s.swapFd != -1 && Step(w, TurnOff) == Some(w') && w'.s.swapFd != -1
    ensures SwapOff(w.s) == NotAllIn(w'.s) && w'.swapLen == w.swapLen
  {
  }

  lemma PlainWrites(w: World, op: Op, w': World)
    requires w.s.Ok() && Legal(w, op) && Step(w, op) == Some(w') && w.s.swapFd != -1
    requires !op.Alloc? && !op.SwapInPass? && !op.TurnOff?
    ensures w'.swapLen == w.swapLen && w'.s.file == w.s.file
    ensures w'.s.swapOffset == w.s.swapOffset && w'.s.swapBase == w.s.swapBase && w'.s.clickSize == w.s.clickSize
  {
  }

  lemma StepWrites(w: World, op: Op, w': World)
    requires Inv(w) && Legal(w, op) && Safe(w, op) && Step(w, op) == Some(w')
    requires w.s.swapFd != -1 && w'.s.swapFd != -1
    ensures SameArea(w, w')
  {
    match op
    case Alloc(clicks, _) => AllocWrites(w, clicks);
    case SwapInPass => PassWrites(w, 0);
    case TurnOff =>
      OffShape(w, w');
      OffWrites(w);
    case _ => PlainWrites(w, op, w');
  }

  /** Swapping is on before, after and throughout the run. */
  ghost predicate StaysOn(w: World, ops: seq<Op>, w': World)
    requires Runs(w, ops, w')
    decreases |ops|
  {
    w.s.swapFd != -1 && (ops == [] || StaysOn(Step(w, ops[0]).value, ops[1..], w'))
  }

  lemma SameAreaTrans(a: World, b: World, c: World)
    requires SameArea(a, b) && SameArea(b, c)
    ensures SameArea(a, c)
  {
    AreaOnlyTrans(a.s, b.s, c.s, a.swapLen);
  }

  lemma {:induction false} RunWrites(w: World, ops: seq<Op>, w': World)
    requires Inv(w) && Runs(w, ops, w') && StaysOn(w, ops, w')
    ensures SameArea(w, w')
    decreases |ops|
  {
    if ops != [] {
      var w1 := Step(w, ops[0]).value;
      StepWrites(w, ops[0], w1);
      StepKeeps(w, ops[0]);
      RunWrites(w1, ops[1..], w');
      SameAreaTrans(w, w1, w');
    }
  }

  // ---------------------------------------------------------------- swap_on

  /** What a successful `swap_on` takes over. */
  lemma Opens(w: World, fd: int, offset: nat, bytes: nat, w1: World)
    requires w.s.Ok() && w.s.clickSize > 0 && w.s.swapFd == -1 && fd >= 0
    requires Step(w, TurnOn(fd, offset, bytes)) == Some(w1)
    ensures w1.s.swapFd == fd && w1.s.swapOffset == offset && w1.swapLen == SwapSize(w.s, bytes)
    ensures w1.s.file == w.s.file && w1.s.swapBase == w.s.swapBase && w1.s.clickSize == w.s.clickSize
    ensures w1.s.holes == Release(w.s.holes, Hole(w.s.swapBase, SwapSize(w.s, bytes)))
  {
  }

  lemma SizeInBytes(s: State, bytes: nat)
    requires s.clickSize > 0
    ensures SwapSize(s, bytes) * s.clickSize <= bytes
  {
    assert bytes / s.clickSize * s.clickSize <= bytes;
    MulMono(SwapSize(s, bytes), bytes / s.clickSize, s.clickSize);
  }

  /** After `swap_on(offset, bytes)`, and for as long as swapping stays on, no byte of the file
      outside those `bytes` bytes from `offset` on is written. */
  lemma OnlyTheAreaIsWritten(w: World, fd: int, offset: nat, bytes: nat, w1: World, ops: seq<Op>, w2: World)
    requires Inv(w) && w.s.swapFd == -1 && fd >= 0
    requires Step(w, TurnOn(fd, offset, bytes)) == Some(w1) && Runs(w1, ops, w2) && StaysOn(w1, ops, w2)
    ensures forall x: int :: x < offset || offset + bytes <= x ==> w2.s.file(x) == w.s.file(x)
  {
    Opens(w, fd, offset, bytes, w1);
    StepKeeps(w, TurnOn(fd, offset, bytes));
    RunWrites(w1, ops, w2);
    SizeInBytes(w.s, bytes);
  }

  lemma SwappedByte(w: World, p: nat, k: nat)
    requires Inv(w) && p < |w.s.procs| && w.s.procs[p].onswap
    requires k < (w.s.procs[p].stackOff + w.s.procs[p].stackLen) * w.s.clickSize
    ensures OfProc(p) in w.image
    ensures w.s.file(w.s.swapOffset + (w.s.procs[p].dPhys - w.s.swapBase) * w.s.clickSize + k) == w.image[OfProc(p)](k)
  {
    assert ProcOk(w, p);
    assert BlockOk(w, OfProc(p));
    assert ByteAt(w.s, w.blocks[OfProc(p)], true, k) == w.image[OfProc(p)](k);
  }

  lemma ImageAt(w: World, offset: nat, p: nat, k: nat)
    requires Inv(w) && w.s.swapOffset == offset && p < |w.s.procs| && w.s.procs[p].onswap
    requires k < (w.s.procs[p].stackOff + w.s.procs[p].stackLen) * w.s.clickSize
    ensures OfProc(p) in w.image
    ensures w.s.file(offset + (w.s.procs[p].dPhys - w.s.swapBase) * w.s.clickSize + k) == w.image[OfProc(p)](k)
  {
    SwappedByte(w, p, k);
  }

  /** And a process on swap has its image at the offset given, as far behind it as its clicks lie
      above the swap base. */
  lemma ImageInFile(w: World, fd: int, offset: nat, bytes: nat, w1: World, ops: seq<Op>, w2: World, p: nat, k: nat)
    requires Inv(w) && w.s.swapFd == -1 && fd >= 0
    requires Step(w, TurnOn(fd, offset, bytes)) == Some(w1) && Runs(w1, ops, w2) && StaysOn(w1, ops, w2)
    requires p < |w2.s.procs| && w2.s.procs[p].onswap
    requires k < (w2.s.procs[p].stackOff + w2.s.procs[p].stackLen) * w2.s.clickSize
    ensures OfProc(p) in w2.image && w2.s.swapBase == w.s.swapBase && w2.s.clickSize == w.s.clickSize
    ensures w2.s.file(offset + (w2.s.procs[p].dPhys - w2.s.swapBase) * w2.s.clickSize + k) == w2.image[OfProc(p)](k)
  {
    AreaTaken(w, fd, offset, bytes, w1, ops, w2);
    RunKeeps(w1, ops, w2);
    ImageAt(w2, offset, p, k);
  }

  lemma AreaTaken(w: World, fd: int, offset: nat, bytes: nat, w1: World, ops: seq<Op>, w2: World)
    requires Inv(w) && w.s.swapFd == -1 && fd >= 0
    requires Step(w, TurnOn(fd, offset, bytes)) == Some(w1) && Runs(w1, ops, w2) && StaysOn(w1, ops, w2)
    ensures Inv(w1)
    ensures w2.s.swapOffset == offset && w2.s.swapBase == w.s.swapBase && w2.s.clickSize == w.s.clickSize
  {
    Opens(w, fd, offset, bytes, w1);
    StepKeeps(w, TurnOn(fd, offset, bytes));
    RunWrites(w1, ops, w2);
  }

  /** `swap_on` makes exactly as many clicks free as fit both the bytes given and the click range. */
  lemma SwapOnGain(w: World, fd: int, offset: nat, bytes: nat, w1: World) returns (k: nat)
    requires Inv(w) && w.s.swapFd == -1 && fd >= 0 && w.s.swapBase <= CLICK_RANGE
    requires Step(w, TurnOn(fd, offset, bytes)) == Some(w1)
    ensures TotalLen(w1.s.holes) == TotalLen(w.s.holes) + k
    ensures k * w.s.clickSize <= bytes && w.s.swapBase + k <= CLICK_RANGE
    ensures forall m: nat :: m * w.s.clickSize <= bytes && w.s.swapBase + m <= CLICK_RANGE ==> m <= k
  {
    k := SwapSize(w.s, bytes);
    Opens(w, fd, offset, bytes, w1);
    ReleaseConserves(w.s.holes, Hole(w.s.swapBase, k));
    SwapAreaFits(w.s, bytes);
    forall m: nat | m * w.s.clickSize <= bytes && w.s.swapBase + m <= CLICK_RANGE ensures m <= k {
      WholeClicks(m, w.s.clickSize, bytes);
    }
  }

  lemma WholeClicks(m: nat, size: nat, bytes: nat)
    requires size > 0 && m * size <= bytes
    ensures m <= bytes / size
  {
    if m > bytes / size { MoreThanWhole(m, size, bytes); }
  }

  lemma MoreThanWhole(m: nat, size: nat, bytes: nat)
    requires size > 0 && m > bytes / size
    ensures m * size > bytes
  {
    MulMono(bytes / size + 1, m, size);
    assert (bytes / size + 1) * size == bytes / size * size + size;
  }
}
