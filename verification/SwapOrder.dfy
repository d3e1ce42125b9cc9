/** In which order `swap_in` serves the queue, and that it goes on behind an entry for which it finds
    no memory. */
module SwapOrder {
  import opened Options
  import opened Lists
  import opened Holes
  import opened SwapModel
  import opened SwapWorld
  import opened SwapSafety
  import opened SwapQueue
  import opened SwapVictims

  /** Where the first turn of a pass leaves the head of the queue. */
  lemma HeadServed(s: State)
    requires s.Ok() && Distinct(s.queue) && s.queue != [] && ServeEntry(s, 0).Some?
    requires s.procs[s.queue[0]].swapin && s.procs[s.queue[0]].onswap && !MayLeave(s.procs[s.queue[0]])
    ensures var (s1, i1) := ServeEntry(s, 0).value;
            var p := s.queue[0];
            && s1.queue[i1..] == s.queue[1..] && !s1.procs[p].Candidate()
            && (!s1.procs[p].onswap <==> AllocMem(s, s.procs[p].Size()).Granted?)
  {
    var p := s.queue[0];
    GrantedEntry(s, s.procs[p].Size(), p);
    var r := AllocMem(s, s.procs[p].Size());
    if r.Granted? {
      LoadedEntry(r.state, 0, r.base, ServeEntry(s, 0).value.0);
      assert ServeEntry(s, 0).value.0.queue == s.queue[1..];
    }
  }

  /** The head of the queue is served first: if it must not be swapped out again, it is in memory
      after the pass exactly if memory could be found for it at the call. */
  lemma HeadComesInIff(s: State)
    requires s.Ok() && Distinct(s.queue) && s.queue != [] && SwapIn(s).Some?
    requires s.procs[s.queue[0]].swapin && s.procs[s.queue[0]].onswap && !MayLeave(s.procs[s.queue[0]])
    ensures var p := s.queue[0];
            !SwapIn(s).value.procs[p].onswap <==> AllocMem(s, s.procs[p].Size()).Granted?
  {
    var p := s.queue[0];
    var (s1, i1) := ServeEntry(s, 0).value;
    HeadServed(s);
    ServeQueue(s, 0);
    if i1 == 0 { RemoveKeepsDistinct(s.queue, 0); }
    BehindIsOther(s.queue, 0);
    PassSpares(s1, i1, p);
  }

  /** What memory and processes look like when an entry has been passed by. */
  ghost predicate Exhausted(s: State, p: nat)
    requires p < |s.procs|
  {
    && (Canonical(s.holes) ==>
          forall j :: 0 <= j < |s.holes| && s.holes[j].base < s.swapBase ==>
            s.holes[j].len < s.procs[p].stackOff + s.procs[p].stackLen)
    && forall q :: s.lowUser <= q < |s.procs| ==> MustStay(s, q)
  }

  lemma PassedByExhausted(s: State, i: nat)
    requires s.Ok() && i < |s.queue| && ServeEntry(s, i).Some?
    requires ServeEntry(s, i).value.0.procs[s.queue[i]].swapin
    ensures s.procs[s.queue[i]].swapin && Exhausted(ServeEntry(s, i).value.0, s.queue[i])
  {
    var p := s.queue[i];
    if s.procs[p].swapin {
      ServedEntry(s, i);
      GrantedEntry(s, s.procs[p].Size(), p);
      NoMemMeansExhausted(s, s.procs[p].Size());
      var s1 := ServeEntry(s, i).value.0;
      forall q | s1.lowUser <= q < |s1.procs| ensures MustStay(s1, q) {
        MustStayIff(s1, q);
      }
    }
  }

  /** The last entry gets its turn whatever became of those before it: if it is still flagged when
      the pass is over, memory is exhausted for it in the state the pass ends with. */
  lemma {:induction false} LastEntryIsServed(s: State, i: nat)
    requires s.Ok() && Distinct(s.queue) && i < |s.queue| && SwapInFrom(s, i).Some?
    ensures var s', p := SwapInFrom(s, i).value, s.queue[|s.queue| - 1];
            s'.procs[p].swapin ==> Exhausted(s', p)
    decreases |s.queue| - i
  {
    var (s1, i1) := ServeEntry(s, i).value;
    ServeQueue(s, i);
    if i == |s.queue| - 1 {
      assert SwapInFrom(s1, i1) == Some(s1);
      if s1.procs[s.queue[i]].swapin {
        PassedByExhausted(s, i);
      }
    } else {
      if i1 == i { RemoveKeepsDistinct(s.queue, i); }
      assert s1.queue[|s1.queue| - 1] == s.queue[|s.queue| - 1];
      LastEntryIsServed(s1, i1);
    }
  }
}
