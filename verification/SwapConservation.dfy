/** Counting clicks: free and live clicks add up, swapping moves live clicks about without
    changing their number, and what the number says about the head of the hole list. */
module SwapConservation {
  import opened Holes
  import opened SwapModel
  import opened Tiling
  import opened SwapWorld
  import opened SwapSafety

  /** How many clicks live blocks hold, in memory or on swap. */
  ghost function Live(w: World): nat { |HeldClicks(w.blocks)| }

  /** How many clicks of real memory there are. */
  ghost function Memory(w: World): nat { |Clicks(w.chunks)| }

  /** Free clicks plus live clicks are always the clicks of the chunks and the swap area. */
  lemma ClicksConserved(w: World)
    requires Inv(w)
    ensures TotalLen(w.s.holes) + Live(w) == |Clicks(w.chunks) + ClicksOf(SwapArea(w))|
  {
    var known := Clicks(w.chunks) + ClicksOf(SwapArea(w));
    ClicksAreFree(w.chunks);
    assert (iset c | c in known) == Known(w.chunks, SwapArea(w));
    Conservation(w.s.holes, w.blocks, known);
  }

  // ---------------------------------------------------------------- swapping moves, no more

  lemma EvictTotal(s: State, p: nat)
    requires s.Ok() && s.lowUser <= p < |s.procs| && Evictable(s, p) && Evict(s, p).Some?
    ensures TotalLen(Evict(s, p).value.holes) == TotalLen(s.holes)
  {
    var n := s.procs[p].Size();
    var i := SwapFit(s.holes, s.swapBase, n).value;
    CarveConserves(s.holes, i, n);
    ReleaseConserves(Carve(s.holes, i, n), s.procs[p].Block());
  }

  /** Allocation takes exactly what it grants, however many processes it swaps out. */
  lemma {:induction false} AllocTotal(s: State, clicks: nat)
    requires s.Ok()
    ensures var r := AllocMem(s, clicks);
            && (r.Granted? ==> TotalLen(r.state.holes) + clicks == TotalLen(s.holes))
            && (r.NoMem? ==> TotalLen(r.state.holes) == TotalLen(s.holes))
    decreases Residents(s.procs)
  {
    match Choose(s.worst, s.holes, s.swapBase, clicks)
    case Some(i) => CarveConserves(s.holes, i, clicks);
    case None =>
      if SwapOut(s).Evicted? {
        EvictTotal(s, Scan(s, s.outswap).value);
        SwapOutShrinks(s);
        AllocTotal(SwapOut(s).state, clicks);
      }
  }

  lemma LoadTotal(s: State, i: nat, base: nat)
    requires s.Ok() && i < |s.queue| && Load(s, i, base).Some?
    ensures TotalLen(Load(s, i, base).value.holes) == TotalLen(s.holes) + s.procs[s.queue[i]].Size()
  {
    ReleaseConserves(s.holes, s.procs[s.queue[i]].Block());
  }

  lemma ServeTotal(s: State, i: nat)
    requires s.Ok() && i < |s.queue| && ServeEntry(s, i).Some?
    ensures TotalLen(ServeEntry(s, i).value.0.holes) == TotalLen(s.holes)
  {
    var p := s.queue[i];
    if s.procs[p].swapin {
      AllocTotal(s, s.procs[p].Size());
      AllocSetting(s, s.procs[p].Size());
      var r := AllocMem(s, s.procs[p].Size());
      if r.Granted? {
        assert MovedOnly(s.procs[p], r.state.procs[p]);
        LoadTotal(r.state, i, r.base);
      }
    }
  }

  /** A whole pass leaves as many clicks free as it found. */
  lemma {:induction false} SwapInTotal(s: State, i: nat)
    requires s.Ok() && i <= |s.queue| && SwapInFrom(s, i).Some?
    ensures TotalLen(SwapInFrom(s, i).value.holes) == TotalLen(s.holes)
    decreases |s.queue| - i
  {
    if i < |s.queue| {
      var (s', i') := ServeEntry(s, i).value;
      ServeTotal(s, i);
      SwapInTotal(s', i');
    }
  }

  lemma LiveAfter(w: World, s: State)
    requires Inv(w) && Inv(After(w, s)) && s.swapBase == w.s.swapBase
    requires TotalLen(s.holes) == TotalLen(w.s.holes)
    ensures Live(After(w, s)) == Live(w)
  {
    ClicksConserved(w);
    ClicksConserved(After(w, s));
  }

  /** A pass changes where live clicks are, not how many there are. */
  lemma SwapInKeepsLive(w: World)
    requires Inv(w) && SwapInSafe(w.s, 0) && SwapIn(w.s).Some?
    ensures Inv(After(w, SwapIn(w.s).value)) && Live(After(w, SwapIn(w.s).value)) == Live(w)
  {
    SwapInKeeps(w, 0);
    SwapInTotal(w.s, 0);
    LiveAfter(w, SwapIn(w.s).value);
  }

  // ---------------------------------------------------------------- the head of the hole list

  lemma HeldClicksMeans(blocks: Blocks, c: int)
    ensures c in HeldClicks(blocks) <==> Held(blocks, c)
  {
    if Held(blocks, c) {
      var o :| o in blocks && blocks[o].Has(c);
      assert c in ClicksOf(blocks[o]);
    }
  }

  lemma SubsetSize(a: set<int>, b: set<int>)
    requires a <= b
    ensures |a| <= |b| && (a != b ==> |a| < |b|)
  {
    assert b == a + (b - a);
  }

  /** With more real memory than live clicks, the list starts with a regular hole. */
  lemma SpareMemoryAtHead(w: World)
    requires Inv(w) && Live(w) < Memory(w)
    ensures w.s.holes != [] && w.s.holes[0].base < w.s.swapBase
  {
    if w.s.holes == [] || w.s.holes[0].base >= w.s.swapBase {
      ClicksAreFree(w.chunks);
      forall c | c in Clicks(w.chunks) ensures c in HeldClicks(w.blocks) {
        assert c in Known(w.chunks, SwapArea(w));
        HeldClicksMeans(w.blocks, c);
      }
      SubsetSize(Clicks(w.chunks), HeldClicks(w.blocks));
      assert false;
    }
  }

  /** With nobody on swap every live click is a click of real memory. */
  lemma LiveIsInMemory(w: World, c: int)
    requires Inv(w) && !SomebodyOnSwap(w.s) && c in HeldClicks(w.blocks)
    ensures c in Clicks(w.chunks) && c < w.s.swapBase
  {
    HeldClicksMeans(w.blocks, c);
    var o :| o in w.blocks && w.blocks[o].Has(c);
    assert BlockOk(w, o);
    assert o.OfProc? ==> ProcOk(w, o.p);
    assert c in Known(w.chunks, SwapArea(w));
    ClicksAreFree(w.chunks);
  }

  /** With nobody on swap, counting tells what the list starts with: a swap hole stands at its
      head exactly if there is a swap area and live blocks fill the whole of real memory. */
  lemma HeadRegularIff(w: World)
    requires Inv(w) && !SomebodyOnSwap(w.s)
    ensures Live(w) <= Memory(w)
    ensures w.s.holes == [] || w.s.holes[0].base < w.s.swapBase
            <==> w.swapLen == 0 || Live(w) < Memory(w)
  {
    forall c | c in HeldClicks(w.blocks) ensures c in Clicks(w.chunks) {
      LiveIsInMemory(w, c);
    }
    SubsetSize(HeldClicks(w.blocks), Clicks(w.chunks));
    if Live(w) < Memory(w) {
      SpareMemoryAtHead(w);
    } else if w.swapLen == 0 {
      HeadIsKnown(w);
    } else {
      assert HeldClicks(w.blocks) == Clicks(w.chunks);
      FullMemoryHead(w);
    }
  }

  lemma HeadIsKnown(w: World)
    requires Inv(w) && w.swapLen == 0
    ensures w.s.holes == [] || w.s.holes[0].base < w.s.swapBase
  {
    if w.s.holes != [] {
      var c := w.s.holes[0].base;
      assert w.s.holes[0].Has(c);
      assert c in Known(w.chunks, SwapArea(w));
    }
  }

  lemma FullMemoryHead(w: World)
    requires Inv(w) && !SomebodyOnSwap(w.s) && w.swapLen > 0 && HeldClicks(w.blocks) == Clicks(w.chunks)
    ensures w.s.holes != [] && w.s.holes[0].base >= w.s.swapBase
  {
    var base := w.s.swapBase;
    assert SwapArea(w).Has(base) && base in Known(w.chunks, SwapArea(w));
    HeldClicksMeans(w.blocks, base);
    if base in HeldClicks(w.blocks) {
      LiveIsInMemory(w, base);
      assert false;
    }
    assert Free(w.s.holes, base);
    var c := w.s.holes[0].base;
    assert w.s.holes[0].Has(c);
    assert Free(w.s.holes, c) && c in Known(w.chunks, SwapArea(w));
    FreeIsNotHeld(w, c);
    ClicksAreFree(w.chunks);
  }

  lemma FreeIsNotHeld(w: World, c: int)
    requires Inv(w) && Free(w.s.holes, c)
    ensures c !in HeldClicks(w.blocks)
  {
    HeldClicksMeans(w.blocks, c);
    if Held(w.blocks, c) {
      var o :| o in w.blocks && w.blocks[o].Has(c);
      DisjointIffNoFreeClick(w.s.holes, w.blocks[o]);
    }
  }

  // ---------------------------------------------------------------- passes with memory to spare

  /** With memory to spare a whole pass stays outside the swap-seed case, under either policy. */
  lemma {:induction false} SparePassIsSafe(w: World, i: nat)
    requires Inv(w) && i <= |w.s.queue| && Live(w) < Memory(w)
    ensures SwapInSafe(w.s, i)
    decreases |w.s.queue| - i
  {
    if i < |w.s.queue| {
      SpareMemoryAtHead(w);
      if ServeEntry(w.s, i).Some? {
        var (s', i') := ServeEntry(w.s, i).value;
        ServeKeeps(w, i);
        ServeSetting(w.s, i);
        ServeTotal(w.s, i);
        LiveAfter(w, s');
        SparePassIsSafe(After(w, s'), i');
      }
    }
  }

  /** Without flagged entries a pass only cleans the queue. */
  lemma {:induction false} QuietPass(s: State, i: nat)
    requires s.Ok() && i <= |s.queue|
    requires forall p :: 0 <= p < |s.procs| ==> !s.procs[p].swapin
    ensures SwapInSafe(s, i) && SwapInFrom(s, i).Some?
    ensures SwapInFrom(s, i).value.procs == s.procs
    decreases |s.queue| - i
  {
    if i < |s.queue| {
      QuietPass(s.(queue := RemoveAt(s.queue, i)), i);
    }
  }
}
