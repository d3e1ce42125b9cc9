/** The faults of the allocator and swapper on states that the program reaches from
    start-up by calls that are all in order. */
module SwapExamples {
  import opened Options
  import opened Holes
  import opened SwapModel
  import opened Tiling
  import opened SwapWorld
  import opened SwapRuns
  import opened SwapTheorems

  function Unused(): Proc {
    Proc(0, 0, 0, 0, false, false, false, false, false, false, false)
  }

  /** A machine with ten clicks of memory, eight table slots and one process slot. */
  function Small(m: Store): State {
    State(8, 0, 1, [Hole(0, 10)], 11, false, [Unused()], [], 0, -1, 0, m, m)
  }

  ghost function Start(m: Store): World {
    World(Small(m), map[], [Hole(0, 10)], 0, map[])
  }

  lemma OneChunk()
    ensures ReleaseAll([], [Hole(0, 10)]) == [Hole(0, 10)] && Top([Hole(0, 10)]) == 10
  {
    var chunk := Hole(0, 10);
    assert [chunk][..0] == [];
    assert Release([], chunk) == [chunk];
    assert ReleaseAll([], [chunk]) == Release(ReleaseAll([], []), chunk);
    assert Top([]) == 0;
  }

  lemma StartIsInitial(m: Store)
    ensures Initial(Start(m))
  {
    OneChunk();
  }

  /** The world after all memory was allocated. */
  ghost function Full(m: Store): World {
    Claim(Start(m).(s := Small(m).(holes := [])), Loose(0), Hole(0, 10))
  }

  /** The world after swapping was then turned on, with ten clicks of swap space. */
  ghost function FullWithSwap(m: Store): World {
    var w := Full(m);
    w.(s := w.s.(holes := [Hole(11, 10)], swapFd := 3, swapOffset := 0), swapLen := 10)
  }

  lemma AllocatesAll(m: Store)
    ensures Step(Start(m), Alloc(10, 0)) == Some(Full(m))
  {
    var w, s := Start(m), Small(m).(holes := []);
    assert FirstFit([Hole(0, 10)], 11, 10) == Some(0);
    assert Carve([Hole(0, 10)], 0, 10) == [];
    assert AllocMem(w.s, 10) == Granted(0, s);
    assert After(w, s).blocks == map[];
    assert After(w, s) == w.(s := s);
  }

  lemma TurnsOn(m: Store)
    ensures Step(Full(m), TurnOn(3, 0, 10)) == Some(FullWithSwap(m))
  {
    assert SwapSize(Full(m).s, 10) == 10;
    assert Position([], 11) == 0;
    assert Release([], Hole(11, 10)) == [Hole(11, 10)];
  }

  lemma ReachesFull(m: Store)
    ensures Runs(Start(m), [Alloc(10, 0)], Full(m))
  {
    AllocatesAll(m);
    assert Runs(Start(m), [], Start(m));
    RunSnoc(Start(m), [], Start(m), Alloc(10, 0), Full(m));
    assert [] + [Alloc(10, 0)] == [Alloc(10, 0)];
  }

  /** Both steps are in order. */
  lemma ReachesFullWithSwap(m: Store)
    ensures Runs(Start(m), [Alloc(10, 0), TurnOn(3, 0, 10)], FullWithSwap(m))
  {
    ReachesFull(m);
    TurnsOn(m);
    RunSnoc(Start(m), [Alloc(10, 0)], Full(m), TurnOn(3, 0, 10), FullWithSwap(m));
    assert [Alloc(10, 0)] + [TurnOn(3, 0, 10)] == [Alloc(10, 0), TurnOn(3, 0, 10)];
  }

  /** With a single hole, a swap hole, the sweep steps past the end of the list. */
  lemma LoneSwapHoleCrashes(s: State)
    requires s.Ok() && s.swapFd != -1 && s.queue == [] && !SomebodyOnSwap(s)
    requires |s.holes| == 1 && s.holes[0].base >= s.swapBase
    ensures SwapOff(s) == NilFollowed
  {
    NobodyToQueue(s, s.lowUser);
  }

  lemma TurningOffCrashes(w: World)
    requires w.s.Ok() && w.s.swapFd != -1 && SwapOff(w.s) == NilFollowed
    ensures Legal(w, TurnOff) && Step(w, TurnOff) == None
  {
  }

  lemma FullCrashes(m: Store)
    ensures FullWithSwap(m).s.Ok() && SwapOff(FullWithSwap(m).s) == NilFollowed
  {
    var s := FullWithSwap(m).s;
    assert forall p :: 0 <= p < |s.procs| ==> s.procs[p] == Unused();
    LoneSwapHoleCrashes(s);
  }

  /** With all memory in use `swap_off` follows a null pointer, although nobody is on swap. */
  lemma SwapOffCanCrash(m: Store)
    ensures Initial(Start(m)) && Runs(Start(m), [Alloc(10, 0), TurnOn(3, 0, 10)], FullWithSwap(m))
    ensures FullWithSwap(m).s.Ok() && Legal(FullWithSwap(m), TurnOff)
    ensures SwapOff(FullWithSwap(m).s) == NilFollowed && Step(FullWithSwap(m), TurnOff) == None
  {
    StartIsInitial(m);
    ReachesFullWithSwap(m);
    FullCrashes(m);
    TurningOffCrashes(FullWithSwap(m));
  }

  /** The same world under worst fit. */
  ghost function FullWorstFit(m: Store): World {
    FullWithSwap(m).(s := FullWithSwap(m).s.(worst := true))
  }

  lemma ReachesFullWorstFit(m: Store)
    ensures Runs(Start(m), [Alloc(10, 0), TurnOn(3, 0, 10), Policy(1)], FullWorstFit(m))
  {
    ReachesFullWithSwap(m);
    var ops := [Alloc(10, 0), TurnOn(3, 0, 10)];
    RunSnoc(Start(m), ops, FullWithSwap(m), Policy(1), FullWorstFit(m));
    assert ops + [Policy(1)] == [Alloc(10, 0), TurnOn(3, 0, 10), Policy(1)];
  }

  /** With all memory in use worst fit hands out the first five clicks of swap space as memory. */
  lemma WorstFitCanGrantSwap(m: Store)
    ensures Initial(Start(m)) && Runs(Start(m), [Alloc(10, 0), TurnOn(3, 0, 10), Policy(1)], FullWorstFit(m))
    ensures var w, op := FullWorstFit(m), Alloc(5, 1);
            && w.s.Ok() && Legal(w, op)
            && AllocMem(w.s, 5).Granted? && AllocMem(w.s, 5).base == w.s.swapBase
            && Step(w, op).Some? && !Inv(Step(w, op).value)
  {
    StartIsInitial(m);
    ReachesFullWorstFit(m);
    InitialInv(Start(m));
    var w := FullWorstFit(m);
    RunKeeps(Start(m), [Alloc(10, 0), TurnOn(3, 0, 10), Policy(1)], w);
    assert WorstIndex([Hole(11, 10)], 11) == 0;
    assert WorstFit([Hole(11, 10)], 11, 5) == Some(0);
    AllocStepKeepsIff(w, 5, 1);
  }

  // ---------------------------------------------------------------- a full table

  /** Two chunks of memory and no more than two table slots. */
  ghost function Tight(m: Store): World {
    World(State(2, 0, 1, [Hole(0, 10), Hole(20, 10)], 31, false, [Unused()], [], 0, -1, 0, m, m),
          map[], [Hole(0, 10), Hole(20, 10)], 0, map[])
  }

  /** The world after half of the first chunk was allocated. */
  ghost function TightUsed(m: Store): World {
    Claim(Tight(m).(s := Tight(m).s.(holes := [Hole(5, 5), Hole(20, 10)])), Loose(0), Hole(0, 5))
  }

  lemma TwoChunks()
    ensures var cs := [Hole(0, 10), Hole(20, 10)]; ReleaseAll([], cs) == cs && Top(cs) == 30
  {
    OneChunk();
    var cs := [Hole(0, 10), Hole(20, 10)];
    assert cs[..1] == [Hole(0, 10)];
    assert Position([Hole(0, 10)], 20) == 1;
    assert Release([Hole(0, 10)], Hole(20, 10)) == cs;
  }

  lemma TightIsInitial(m: Store)
    ensures Initial(Tight(m))
  {
    TwoChunks();
    assert [Hole(0, 10), Hole(20, 10)][0].End() <= 20;
  }

  lemma AllocatesHalf(m: Store)
    ensures Step(Tight(m), Alloc(5, 0)) == Some(TightUsed(m))
  {
    var w, s := Tight(m), Tight(m).s.(holes := [Hole(5, 5), Hole(20, 10)]);
    assert FirstFit(w.s.holes, 31, 5) == Some(0);
    assert Carve(w.s.holes, 0, 5) == s.holes;
    assert AllocMem(w.s, 5) == Granted(0, s);
    assert After(w, s).blocks == map[];
    assert After(w, s) == w.(s := s);
  }

  lemma ReachesTightUsed(m: Store)
    ensures Runs(Tight(m), [Alloc(5, 0)], TightUsed(m))
  {
    AllocatesHalf(m);
    assert Runs(Tight(m), [], Tight(m));
    RunSnoc(Tight(m), [], Tight(m), Alloc(5, 0), TightUsed(m));
    assert [] + [Alloc(5, 0)] == [Alloc(5, 0)];
  }

  /** The block would have merged with its neighbour. */
  lemma HalfWouldMerge()
    ensures Release([Hole(5, 5), Hole(20, 10)], Hole(0, 5)) == [Hole(0, 10), Hole(20, 10)]
  {
    assert Position([Hole(5, 5), Hole(20, 10)], 0) == 0;
  }

  /** With the table full, giving back what was just allocated panics, although the list would
      need no further slot. */
  lemma FreeingCanPanic(m: Store)
    ensures Initial(Tight(m)) && Runs(Tight(m), [Alloc(5, 0)], TightUsed(m))
    ensures var w := TightUsed(m);
            && w.s.Ok() && Legal(w, Discard(0)) && Step(w, Discard(0)) == None
            && |Release(w.s.holes, w.blocks[Loose(0)])| == w.s.slots
  {
    TightIsInitial(m);
    ReachesTightUsed(m);
    HalfWouldMerge();
  }
}
