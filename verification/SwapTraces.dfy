/** Two longer runs from start-up, step by step: how a state comes about in which one pass swaps
    its first process out again, and how a process that wants to come in is lost. */
module SwapTraces {
  import opened Options
  import opened Lists
  import opened Holes
  import opened SwapModel
  import opened Tiling
  import opened SwapWorld
  import opened SwapSafety
  import opened SwapRuns
  import opened SwapTheorems
  import opened SwapQueue
  import opened SwapExamples
  import opened SwapFairness

  /** The world is in the given state, whatever memory and swap file hold. */
  ghost predicate Now(w: World, holes: seq<Hole>, procs: seq<Proc>, queue: seq<nat>, outswap: nat, fd: int,
                      blocks: Blocks)
  {
    && w.s == State(8, 0, 1, holes, 11, false, procs, queue, outswap, fd, 0, w.s.ram, w.s.file)
    && w.blocks == blocks
  }

  /** The operation is called as it should be, outside the two faults, and ends. */
  ghost predicate Goes(w: World, op: Op) {
    w.s.Ok() && Legal(w, op) && Safe(w, op) && Step(w, op).Some?
  }

  /** Ten clicks of memory and two process slots. */
  ghost function Begin(m: Store): World {
    World(State(8, 0, 1, [Hole(0, 10)], 11, false, [Unused(), Unused()], [], 0, -1, 0, m, m),
          map[], [Hole(0, 10)], 0, map[])
  }

  predicate Unfold(n: nat) { true }

  /** The operations lead there from the beginning. The proofs go from step to step and open up
      the run that lies behind only where they say so. */
  ghost predicate Trace(m: Store, ops: seq<Op>, w: World) {
    forall n :: Unfold(n) ==> Initial(Begin(m)) && Runs(Begin(m), ops, w)
  }

  lemma TraceRuns(m: Store, ops: seq<Op>, w: World)
    requires Trace(m, ops, w)
    ensures Initial(Begin(m)) && Runs(Begin(m), ops, w)
  {
    assert Unfold(0);
  }

  lemma Begins(m: Store)
    ensures Trace(m, [], Begin(m))
  {
    OneChunk();
  }

  lemma InOrder(m: Store, ops: seq<Op>, w: World)
    requires Trace(m, ops, w)
    ensures Inv(w)
  {
    TraceRuns(m, ops, w);
    InitialInv(Begin(m));
    RunKeeps(Begin(m), ops, w);
  }

  lemma Onward(m: Store, ops: seq<Op>, w: World, op: Op) returns (more: seq<Op>, next: World)
    requires Trace(m, ops, w) && Goes(w, op)
    ensures Trace(m, more, next) && next == Step(w, op).value
  {
    more, next := ops + [op], Step(w, op).value;
    TraceRuns(m, ops, w);
    RunSnoc(Begin(m), ops, w, op, next);
  }

  // ---------------------------------------------------------------- single steps

  lemma AllocGoes(w: World, id: nat, base: nat, s: State)
    requires Inv(w) && !w.s.worst && Loose(id) !in w.blocks && AllocMem(w.s, 10) == Granted(base, s)
    ensures Goes(w, Alloc(10, id))
    ensures var next := Step(w, Alloc(10, id)).value;
            next.s == s && next.blocks == Sync(w.blocks, s.procs)[Loose(id) := Hole(base, 10)]
  {
  }

  /** All of memory is free and gets allocated. */
  lemma GrantAll(w: World, id: nat, rest: seq<Hole>)
    requires Inv(w) && !w.s.worst && w.s.swapBase == 11 && w.s.holes == [Hole(0, 10)] + rest && Loose(id) !in w.blocks
    ensures Goes(w, Alloc(10, id))
    ensures var next := Step(w, Alloc(10, id)).value;
            next.s == w.s.(holes := rest) && next.blocks == w.blocks[Loose(id) := Hole(0, 10)]
  {
    var s := w.s.(holes := rest);
    assert FirstFit(w.s.holes, 11, 10) == Some(0);
    assert Carve(w.s.holes, 0, 10) == rest;
    assert AllocMem(w.s, 10) == Granted(0, s);
    SyncNoMove(w, s);
    AllocGoes(w, id, 0, s);
  }

  /** What remains of a swap hole of `n` clicks at `x`. */
  function Remains(x: nat, n: nat): seq<Hole>
    requires n >= 10
  {
    if n == 10 then [] else [Hole(x + 10, n - 10)]
  }

  function OutAt(p: Proc, x: nat): Proc { p.MovedTo(x).(onswap := true) }

  lemma SwapHoleUsed(x: nat, n: nat)
    requires n >= 10 && x >= 11
    ensures SwapFit([Hole(x, n)], 11, 10) == Some(0) && FirstFit([Hole(x, n)], 11, 10) == None
    ensures Carve([Hole(x, n)], 0, 10) == Remains(x, n)
    ensures Release(Remains(x, n), Hole(0, 10)) == [Hole(0, 10)] + Remains(x, n)
    ensures FirstFit([Hole(0, 10)] + Remains(x, n), 11, 10) == Some(0)
    ensures Carve([Hole(0, 10)] + Remains(x, n), 0, 10) == Remains(x, n)
  {
    assert Position(Remains(x, n), 0) == 0;
  }

  /** An eviction goes well if the carved list leaves a slot for the memory freed. */
  lemma EvictHoles(s: State, p: nat) returns (r: State)
    requires s.Ok() && s.lowUser <= p < |s.procs| && Evictable(s, p)
    requires |Carve(s.holes, SwapFit(s.holes, s.swapBase, s.procs[p].Size()).value, s.procs[p].Size())| < s.slots
    ensures EvictsTo(s, p, SwapFit(s.holes, s.swapBase, s.procs[p].Size()).value, r)
    ensures r.holes == Release(Carve(s.holes, SwapFit(s.holes, s.swapBase, s.procs[p].Size()).value, s.procs[p].Size()),
                               s.procs[p].Block())
  {
    r := Evict(s, p).value;
  }

  /** Process `p` moves to the swap hole at `x`. */
  lemma Evicts(s: State, p: nat, x: nat, n: nat) returns (r: State)
    requires s.Ok() && s.swapBase == 11 && s.slots == 8 && s.holes == [Hole(x, n)] && x >= 11 && n >= 10
    requires s.lowUser <= p < |s.procs| && s.procs[p].Block() == Hole(0, 10) && Scan(s, s.outswap) == Some(p)
    ensures r == s.(holes := [Hole(0, 10)] + Remains(x, n), procs := s.procs[p := OutAt(s.procs[p], x)],
                    outswap := p, file := r.file)
    ensures r.Ok() && SwapOut(s) == Evicted(r) && EvictsTo(s, p, 0, r)
  {
    SwapHoleUsed(x, n);
    r := EvictHoles(s, p);
    EvictCopies(s, p, 0, r);
  }

  lemma AllocAfter(s: State, r: State, p: nat, x: nat, n: nat)
    requires s.Ok() && r.Ok() && SwapOut(s) == Evicted(r) && !s.worst && s.swapBase == 11
    requires s.holes == [Hole(x, n)] && x >= 11 && n >= 10
    requires !r.worst && r.swapBase == 11 && r.holes == [Hole(0, 10)] + Remains(x, n)
    ensures AllocMem(s, 10) == Granted(0, r.(holes := Remains(x, n)))
  {
    SwapHoleUsed(x, n);
    SwapOutShrinks(s);
    assert AllocMem(r, 10) == Granted(0, r.(holes := Remains(x, n)));
  }

  /** All of memory is allocated once process `p`, which held it, has been swapped out to `x`. */
  lemma EvictAndGrant(w: World, id: nat, p: nat, x: nat, n: nat)
    requires Inv(w) && !w.s.worst && w.s.swapBase == 11 && w.s.slots == 8 && Loose(id) !in w.blocks
    requires w.s.holes == [Hole(x, n)] && x >= 11 && n >= 10 && w.s.lowUser <= p < |w.s.procs|
    requires OfProc(p) in w.blocks && w.s.procs[p].Block() == Hole(0, 10) && Scan(w.s, w.s.outswap) == Some(p)
    ensures Goes(w, Alloc(10, id))
    ensures var next := Step(w, Alloc(10, id)).value;
            && next.s == w.s.(holes := Remains(x, n), procs := w.s.procs[p := OutAt(w.s.procs[p], x)],
                              outswap := p, file := next.s.file)
            && next.blocks == w.blocks[OfProc(p) := Hole(x, 10)][Loose(id) := Hole(0, 10)]
  {
    var s1 := Evicts(w.s, p, x, n);
    AllocAfter(w.s, s1, p, x, n);
    EvictSync(w, p, 0, s1);
    AllocGoes(w, id, 0, s1.(holes := Remains(x, n)));
  }

  function WaitingAt(base: nat): Proc {
    NewProc(Hole(base, 10), 0, 10).(waiting := true)
  }

  /** A block of memory becomes the image of process `p`. */
  lemma Attaches(w: World, id: nat, p: nat)
    requires Inv(w) && w.s.lowUser <= p < |w.s.procs|
    requires Loose(id) in w.blocks && OfProc(p) !in w.blocks && w.blocks[Loose(id)] == Hole(0, 10)
    ensures Goes(w, Attach(id, p, 0, 10))
    ensures var next := Step(w, Attach(id, p, 0, 10)).value;
            && next.s == w.s.(procs := w.s.procs[p := NewProc(Hole(0, 10), 0, 10)])
            && next.blocks == (w.blocks - {Loose(id)})[OfProc(p) := Hole(0, 10)]
  {
    assert BlockOk(w, Loose(id));
  }

  function WaitForChild(p: nat): Op { SetFlags(p, false, true, false, false, false) }

  /** A new process waits for a child. */
  lemma Waits(w: World, p: nat)
    requires w.s.Ok() && p < |w.s.procs| && OfProc(p) in w.blocks && w.s.procs[p] == NewProc(Hole(0, 10), 0, 10)
    ensures Goes(w, WaitForChild(p))
    ensures var next := Step(w, WaitForChild(p)).value;
            next.s == w.s.(procs := w.s.procs[p := WaitingAt(0)]) && next.blocks == w.blocks
  {
  }

  // ---------------------------------------------------------------- steps of a run

  lemma GrantsAll(m: Store, ops: seq<Op>, w: World, id: nat, rest: seq<Hole>) returns (more: seq<Op>, next: World)
    requires Trace(m, ops, w) && w.s.Ok() && !w.s.worst && w.s.swapBase == 11
    requires w.s.holes == [Hole(0, 10)] + rest && Loose(id) !in w.blocks
    ensures Trace(m, more, next)
    ensures next.s == w.s.(holes := rest) && next.blocks == w.blocks[Loose(id) := Hole(0, 10)]
  {
    InOrder(m, ops, w);
    GrantAll(w, id, rest);
    more, next := Onward(m, ops, w, Alloc(10, id));
  }

  lemma EvictsAndGrants(m: Store, ops: seq<Op>, w: World, id: nat, p: nat, x: nat, n: nat)
    returns (more: seq<Op>, next: World)
    requires Trace(m, ops, w) && w.s.Ok() && !w.s.worst && w.s.swapBase == 11 && w.s.slots == 8
    requires Loose(id) !in w.blocks
    requires w.s.holes == [Hole(x, n)] && x >= 11 && n >= 10 && w.s.lowUser <= p < |w.s.procs|
    requires OfProc(p) in w.blocks && w.s.procs[p] == WaitingAt(0) && Scan(w.s, w.s.outswap) == Some(p)
    ensures Trace(m, more, next)
    ensures next.s == w.s.(holes := Remains(x, n), procs := w.s.procs[p := OnSwapAt(x)],
                           outswap := p, file := next.s.file)
    ensures next.blocks == w.blocks[OfProc(p) := Hole(x, 10)][Loose(id) := Hole(0, 10)]
  {
    InOrder(m, ops, w);
    EvictAndGrant(w, id, p, x, n);
    more, next := Onward(m, ops, w, Alloc(10, id));
  }

  /** A process that waits for a child, on swap. */
  function OnSwapAt(base: nat): Proc { OutAt(WaitingAt(0), base) }

  lemma QueuesIn(m: Store, ops: seq<Op>, w: World, p: nat) returns (more: seq<Op>, next: World)
    requires Trace(m, ops, w) && w.s.Ok() && w.s.lowUser <= p < |w.s.procs|
    requires w.s.procs[p].onswap && !w.s.procs[p].swapin
    ensures Trace(m, more, next)
    ensures next.s == SwapInQueue(w.s, p) && next.blocks == w.blocks
  {
    more, next := Onward(m, ops, w, QueueIn(p));
  }

  /** A block goes back to the holes, `rest` being what becomes of them. */
  lemma GivesUp(m: Store, ops: seq<Op>, w: World, id: nat, rest: seq<Hole>) returns (more: seq<Op>, next: World)
    requires Trace(m, ops, w) && w.s.Ok() && Loose(id) in w.blocks && |w.s.holes| < w.s.slots
    requires rest == Release(w.s.holes, w.blocks[Loose(id)])
    ensures Trace(m, more, next)
    ensures next.s == w.s.(holes := rest) && next.blocks == w.blocks - {Loose(id)}
  {
    more, next := Onward(m, ops, w, Discard(id));
  }

  lemma Exits(m: Store, ops: seq<Op>, w: World, p: nat, rest: seq<Hole>) returns (more: seq<Op>, next: World)
    requires Trace(m, ops, w) && w.s.Ok() && p < |w.s.procs| && OfProc(p) in w.blocks && |w.s.holes| < w.s.slots
    requires rest == Release(w.s.holes, w.blocks[OfProc(p)])
    ensures Trace(m, more, next)
    ensures next.s == w.s.(holes := rest, procs := w.s.procs[p := Cleared(w.s.procs[p])])
    ensures next.blocks == w.blocks - {OfProc(p)}
  {
    more, next := Onward(m, ops, w, Exit(p));
  }

  /** Swapping is turned on, with twenty clicks. */
  lemma TurnsSwapOn(m: Store, ops: seq<Op>, w: World) returns (more: seq<Op>, next: World)
    requires Trace(m, ops, w) && w.s.Ok() && w.s.swapFd == -1 && w.s.holes == [] && w.s.slots == 8
    requires w.s.swapBase == 11 && w.s.clickSize == 1
    ensures Trace(m, more, next)
    ensures next.s == w.s.(holes := [Hole(11, 20)], swapFd := 3, swapOffset := 0) && next.blocks == w.blocks
  {
    assert SwapSize(w.s, 20) == 20 && Release([], Hole(11, 20)) == [Hole(11, 20)];
    more, next := Onward(m, ops, w, TurnOn(3, 0, 20));
  }

  // ---------------------------------------------------------------- the thrashing pass

  lemma FirstGetsMemory(m: Store) returns (ops: seq<Op>, w: World)
    ensures Trace(m, ops, w)
    ensures Now(w, [], [Unused(), Unused()], [], 0, -1, map[Loose(0) := Hole(0, 10)])
  {
    Begins(m);
    ops, w := GrantsAll(m, [], Begin(m), 0, []);
  }

  /** Any process made of a block of all of memory, and then waiting. */
  lemma Settles(m: Store, ops: seq<Op>, w: World, id: nat, p: nat) returns (more: seq<Op>, next: World)
    requires Trace(m, ops, w) && w.s.Ok() && w.s.lowUser <= p < |w.s.procs|
    requires Loose(id) in w.blocks && OfProc(p) !in w.blocks && w.blocks[Loose(id)] == Hole(0, 10)
    ensures Trace(m, more, next)
    ensures next.s == w.s.(procs := w.s.procs[p := WaitingAt(0)])
    ensures next.blocks == (w.blocks - {Loose(id)})[OfProc(p) := Hole(0, 10)]
  {
    InOrder(m, ops, w);
    Attaches(w, id, p);
    var ops1, w1 := Onward(m, ops, w, Attach(id, p, 0, 10));
    InOrder(m, ops1, w1);
    Waits(w1, p);
    more, next := Onward(m, ops1, w1, WaitForChild(p));
  }

  /** The first process has all of memory. */
  lemma FirstResident(m: Store) returns (ops: seq<Op>, w: World)
    ensures Trace(m, ops, w)
    ensures Now(w, [], [WaitingAt(0), Unused()], [], 0, -1, map[OfProc(0) := Hole(0, 10)])
  {
    var ops0, w0 := FirstGetsMemory(m);
    ops, w := Settles(m, ops0, w0, 0, 0);
  }

  /** Swapping is turned on, with twenty clicks. */
  lemma SwapTurnedOn(m: Store) returns (ops: seq<Op>, w: World)
    ensures Trace(m, ops, w)
    ensures Now(w, [Hole(11, 20)], [WaitingAt(0), Unused()], [], 0, 3, map[OfProc(0) := Hole(0, 10)])
  {
    var ops0, w0 := FirstResident(m);
    ops, w := TurnsSwapOn(m, ops0, w0);
  }

  /** The first process is on swap; its memory has been given away. */
  lemma FirstOut(m: Store) returns (ops: seq<Op>, w: World)
    ensures Trace(m, ops, w)
    ensures Now(w, [Hole(21, 10)], [OnSwapAt(11), Unused()], [], 0, 3,
                map[OfProc(0) := Hole(11, 10), Loose(1) := Hole(0, 10)])
  {
    var ops0, w0 := SwapTurnedOn(m);
    FirstIsNext(w0.s, 11, 20);
    ops, w := EvictsAndGrants(m, ops0, w0, 1, 0, 11, 20);
  }

  lemma FirstIsNext(s: State, x: nat, n: nat)
    requires s.Ok() && s.lowUser == 0 && |s.procs| == 2 && s.swapBase == 11 && s.holes == [Hole(x, n)]
    requires x >= 11 && n >= 10 && s.procs[0] == WaitingAt(0)
    requires s.outswap == 1 || (s.outswap == 0 && s.procs[1] == Unused())
    ensures Scan(s, s.outswap) == Some(0)
  {
    SwapHoleUsed(x, n);
    assert Evictable(s, 0) && NextProc(s, 1) == 0 && NextProc(s, 0) == 1;
    assert Scan(s, 1) == Some(0);
    if s.outswap == 0 {
      assert !Evictable(s, 1);
    }
  }

  /** The second process has all of memory. */
  lemma SecondResident(m: Store) returns (ops: seq<Op>, w: World)
    ensures Trace(m, ops, w)
    ensures Now(w, [Hole(21, 10)], [OnSwapAt(11), WaitingAt(0)], [], 0, 3,
                map[OfProc(0) := Hole(11, 10), OfProc(1) := Hole(0, 10)])
  {
    var ops0, w0 := FirstOut(m);
    ops, w := Settles(m, ops0, w0, 1, 1);
    assert w.blocks == map[OfProc(0) := Hole(11, 10), OfProc(1) := Hole(0, 10)];
  }

  lemma SecondIsNext(s: State)
    requires s.Ok() && s.lowUser == 0 && |s.procs| == 2 && s.swapBase == 11 && s.holes == [Hole(21, 10)]
    requires s.outswap == 0 && s.procs[1] == WaitingAt(0)
    ensures Scan(s, s.outswap) == Some(1)
  {
    SwapHoleUsed(21, 10);
    assert Evictable(s, 1) && NextProc(s, 0) == 1;
  }

  /** Both are on swap. */
  lemma SecondOut(m: Store) returns (ops: seq<Op>, w: World)
    ensures Trace(m, ops, w)
    ensures Now(w, [], [OnSwapAt(11), OnSwapAt(21)], [], 1, 3,
                map[OfProc(0) := Hole(11, 10), OfProc(1) := Hole(21, 10), Loose(2) := Hole(0, 10)])
  {
    var ops0, w0 := SecondResident(m);
    SecondIsNext(w0.s);
    ops, w := EvictsAndGrants(m, ops0, w0, 2, 1, 21, 10);
  }

  /** Both are on swap and all of memory is free. */
  lemma BothOut(m: Store) returns (ops: seq<Op>, w: World)
    ensures Trace(m, ops, w)
    ensures Now(w, [Hole(0, 10)], [OnSwapAt(11), OnSwapAt(21)], [], 1, 3,
                map[OfProc(0) := Hole(11, 10), OfProc(1) := Hole(21, 10)])
  {
    var ops0, w0 := SecondOut(m);
    assert Release([], Hole(0, 10)) == [Hole(0, 10)];
    ops, w := GivesUp(m, ops0, w0, 2, [Hole(0, 10)]);
    assert w.blocks == map[OfProc(0) := Hole(11, 10), OfProc(1) := Hole(21, 10)];
  }

  lemma FirstQueued(m: Store) returns (ops: seq<Op>, w: World)
    ensures Trace(m, ops, w)
    ensures Now(w, [Hole(0, 10)], [SleepingOnSwap(11), OnSwapAt(21)], [0], 1, 3,
                map[OfProc(0) := Hole(11, 10), OfProc(1) := Hole(21, 10)])
  {
    var ops0, w0 := BothOut(m);
    ops, w := QueuesIn(m, ops0, w0, 0);
  }

  lemma BothQueued(m: Store) returns (ops: seq<Op>, w: World)
    ensures Trace(m, ops, w)
    ensures Now(w, [Hole(0, 10)], [SleepingOnSwap(11), SleepingOnSwap(21)], [0, 1], 1, 3,
                map[OfProc(0) := Hole(11, 10), OfProc(1) := Hole(21, 10)])
  {
    var ops0, w0 := FirstQueued(m);
    ops, w := QueuesIn(m, ops0, w0, 1);
    assert w.s.queue == [0, 1];
  }

  /** The state in which one pass undoes itself is reached by calls that are all in order. */
  lemma ThrashingIsReached(m: Store) returns (ops: seq<Op>, w: World)
    ensures Initial(Begin(m)) && Runs(Begin(m), ops, w) && Inv(w)
    ensures w.s == Thrashing(w.s.ram, w.s.file) && NobodyForgotten(w.s)
  {
    ops, w := BothQueued(m);
    InOrder(m, ops, w);
    TraceRuns(m, ops, w);
    assert w.s.queue[0] == 0 && w.s.queue[1] == 1;
  }

  // ---------------------------------------------------------------- the stale entry

  lemma FreedBehind()
    ensures Release([Hole(0, 10)], Hole(11, 10)) == [Hole(0, 10), Hole(11, 10)]
  {
    assert Position([Hole(0, 10)], 11) == 1;
  }

  /** The first process exits while it is queued. */
  lemma FirstExits(m: Store) returns (ops: seq<Op>, w: World)
    ensures Trace(m, ops, w)
    ensures Now(w, [Hole(0, 10), Hole(11, 10)], [Cleared(SleepingOnSwap(11)), SleepingOnSwap(21)], [0, 1], 1, 3,
                map[OfProc(1) := Hole(21, 10)])
  {
    var ops0, w0 := BothQueued(m);
    FreedBehind();
    ops, w := Exits(m, ops0, w0, 0, [Hole(0, 10), Hole(11, 10)]);
    assert w.blocks == map[OfProc(1) := Hole(21, 10)];
  }

  lemma MemoryGivenAgain(m: Store) returns (ops: seq<Op>, w: World)
    ensures Trace(m, ops, w)
    ensures Now(w, [Hole(11, 10)], [Cleared(SleepingOnSwap(11)), SleepingOnSwap(21)], [0, 1], 1, 3,
                map[OfProc(1) := Hole(21, 10), Loose(3) := Hole(0, 10)])
  {
    var ops0, w0 := FirstExits(m);
    ops, w := GrantsAll(m, ops0, w0, 3, [Hole(11, 10)]);
  }

  /** Its slot is used again. */
  lemma SlotUsedAgain(m: Store) returns (ops: seq<Op>, w: World)
    ensures Trace(m, ops, w)
    ensures Now(w, [Hole(11, 10)], [WaitingAt(0), SleepingOnSwap(21)], [0, 1], 1, 3,
                map[OfProc(1) := Hole(21, 10), OfProc(0) := Hole(0, 10)])
  {
    var ops0, w0 := MemoryGivenAgain(m);
    ops, w := Settles(m, ops0, w0, 3, 0);
  }

  /** The new process is swapped out. */
  lemma NewOneOut(m: Store) returns (ops: seq<Op>, w: World)
    ensures Trace(m, ops, w)
    ensures Now(w, [], [OnSwapAt(11), SleepingOnSwap(21)], [0, 1], 0, 3,
                map[OfProc(1) := Hole(21, 10), OfProc(0) := Hole(11, 10), Loose(4) := Hole(0, 10)])
  {
    var ops0, w0 := SlotUsedAgain(m);
    FirstIsNext(w0.s, 11, 10);
    ops, w := EvictsAndGrants(m, ops0, w0, 4, 0, 11, 10);
  }

  /** When it is queued, its slot's stale entry loses the second process, which goes on wanting
      to come in. */
  lemma StaleEntryIsReached(m: Store) returns (ops: seq<Op>, w: World)
    ensures Initial(Begin(m)) && Runs(Begin(m), ops, w) && Inv(w)
    ensures Missing(w.s, 1) && OfProc(1) in w.blocks && w.s.queue == [0]
  {
    var ops0, w0 := NewOneOut(m);
    assert IndexOf([0, 1], 0) == 0 && [0, 1][..1] == [0];
    ops, w := QueuesIn(m, ops0, w0, 0);
    InOrder(m, ops, w);
    TraceRuns(m, ops, w);
  }
}
