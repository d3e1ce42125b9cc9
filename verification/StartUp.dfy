/** From `mem_init` to the first call: what the in-place start-up leaves is the state in which
    every run begins. */
module StartUp {
  import opened Options
  import opened Holes
  import opened HoleTables
  import M = SwapModel
  import W = SwapWorld
  import T = SwapTheorems
  import opened MemoryManagers

  /** The world of a memory manager that has handed out nothing yet. */
  ghost function Fresh(s: M.State, chunks: seq<Hole>): W.World {
    W.World(s, map[], chunks, 0, map[])
  }

  /** The swap base lies exactly one click above the highest end of any chunk. */
  lemma SwapBaseIsTight(w: W.World)
    requires T.Initial(w)
    ensures forall i :: 0 <= i < |w.chunks| ==> w.chunks[i].base + w.chunks[i].len < w.s.swapBase
    ensures w.chunks == [] ==> w.s.swapBase == 1
    ensures w.chunks != [] ==>
              exists i :: 0 <= i < |w.chunks| && w.chunks[i].base + w.chunks[i].len + 1 == w.s.swapBase
  {
    if w.chunks != [] {
      var i := TopIsAnEnd(w.chunks);
      assert w.chunks[i].End() == Top(w.chunks);
    }
  }

  /** A state with freshly initialised globals and the holes of the chunks. */
  lemma FreshIsInitial(s: M.State, chunks: seq<Hole>)
    requires PairwiseDisjoint(chunks) && s.holes == ReleaseAll([], chunks) && |s.holes| <= s.slots
    requires s.swapBase == Top(chunks) + 1 && s.swapFd == -1 && s.queue == [] && s.clickSize > 0
    requires s.outswap == s.lowUser < |s.procs| && forall p :: 0 <= p < |s.procs| ==> W.Idle(s.procs[p])
    ensures T.Initial(Fresh(s, chunks))
  {
  }

  lemma LastOfFirst(xs: seq<nat>, n: nat, unset: nat)
    requires n <= |xs|
    ensures LastOf(xs[..n], unset) == if n == 0 then unset else xs[n - 1]
  {
  }

  /** `mem_init`: a table of unused slots, told of the chunks that the kernel reports. */
  method MemInit(nrHoles: nat, replies: seq<Hole>, totals: seq<nat>, unset: nat)
    returns (table: HoleTable, panicked: bool, total: nat, free: nat)
    requires nrHoles > 0 && |totals| == |replies|
    ensures fresh(table) && fresh(table.slot) && table.Valid() && table.slot.Length == nrHoles
    ensures panicked <==> !AllFit(Chunks(replies), |Chunks(replies)|, nrHoles)
    ensures !panicked ==>
              && table.Contents() == ReleaseAll([], Chunks(replies)) && table.swapBase == Top(Chunks(replies)) + 1
              && total == (if |Chunks(replies)| == 0 then unset else totals[|Chunks(replies)| - 1])
              && free == TotalLen(Chunks(replies))
  {
    table := new HoleTable(nrHoles);
    panicked, total, free := table.AddChunks(replies, totals, unset);
    LastOfFirst(totals, |Chunks(replies)|, unset);
  }

  /** Set the tables up; None is a panic. */
  method Boot(nrHoles: nat, procs: array<M.Proc>, low: nat, click: nat, memory: M.Store, swapFile: M.Store,
              replies: seq<Hole>, totals: seq<nat>, unset: nat)
    returns (r: Option<MemoryManager>, total: nat, free: nat)
    requires nrHoles > 0 && low < procs.Length && click > 0 && |totals| == |replies|
    requires PairwiseDisjoint(Chunks(replies)) && forall p :: 0 <= p < procs.Length ==> W.Idle(procs[p])
    ensures r.Some? <==> AllFit(Chunks(replies), |Chunks(replies)|, nrHoles)
    ensures r.Some? ==> r.value.Valid() && T.Initial(Fresh(r.value.Abs(), Chunks(replies)))
    ensures r.Some? ==> free == TotalLen(Chunks(replies))
  {
    var table, panicked;
    table, panicked, total, free := MemInit(nrHoles, replies, totals, unset);
    if panicked {
      return None, total, free;
    }
    var manager := new MemoryManager(table, procs, low, click, memory, swapFile);
    FreshIsInitial(manager.Abs(), Chunks(replies));
    r := Some(manager);
  }
}
