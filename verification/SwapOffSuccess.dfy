/** When `swap_off` succeeds: with enough free memory in one piece everybody comes in, under
    either policy. */
module SwapOffSuccess {
  import opened Options
  import opened Lists
  import opened Holes
  import opened SwapModel
  import opened Tiling
  import opened SwapWorld
  import opened SwapSafety
  import opened SwapConservation
  import opened SwapRuns
  import opened SwapTheorems
  import opened SwapQueue
  import opened SwapFairness
  import opened SwapPolicy
  import opened SwapVictims

  // ---------------------------------------------------------------- a free stretch of memory

  /** The `n` clicks from `a` on are free and lie below the swap base. */
  ghost predicate Stretch(hs: seq<Hole>, swapBase: nat, a: nat, n: nat) {
    n > 0 ==> a + n <= swapBase && forall c: int :: a <= c < a + n ==> Free(hs, c)
  }

  /** In a coalesced list a free stretch lies inside one hole. */
  lemma {:induction false} StretchInHole(hs: seq<Hole>, a: nat, n: nat) returns (i: nat)
    requires Canonical(hs) && n > 0 && forall c: int :: a <= c < a + n ==> Free(hs, c)
    ensures i < |hs| && hs[i].base <= a && a + n <= hs[i].End()
    decreases n
  {
    if n == 1 {
      assert Free(hs, a);
      i :| 0 <= i < |hs| && hs[i].Has(a);
    } else {
      i := StretchInHole(hs, a, n - 1);
      EndNotFree(hs, i);
      assert Free(hs, a + n - 1);
    }
  }

  lemma StretchSuits(hs: seq<Hole>, swapBase: nat, a: nat, n: nat, need: nat) returns (i: nat)
    requires Canonical(hs) && Stretch(hs, swapBase, a, n) && n > 0 && need <= n
    ensures i < |hs| && Suits(hs, swapBase, need, i)
  {
    i := StretchInHole(hs, a, n);
  }

  /** Biting off `n` clicks, wherever, leaves a free stretch of `k - n`. */
  lemma StretchAfterBite(hs: seq<Hole>, swapBase: nat, a: nat, k: nat, i: nat, n: nat) returns (a': nat)
    requires Canonical(hs) && Stretch(hs, swapBase, a, k) && n <= k && i < |hs| && n <= hs[i].len
    ensures Stretch(Carve(hs, i, n), swapBase, a', k - n)
  {
    a' := a;
    if n < k {
      CarveCorrect(hs, i, n);
      var j := StretchInHole(hs, a, k);
      if j == i {
        a' := hs[i].base + n;
        forall c: int | a' <= c < a' + (k - n) ensures Free(Carve(hs, i, n), c) {
          assert hs[i].Has(c);
        }
      } else {
        forall c: int | a <= c < a + (k - n) ensures Free(Carve(hs, i, n), c) {
          assert hs[j].Has(c) && !hs[i].Has(c);
        }
      }
    }
  }

  lemma StretchAfterRelease(hs: seq<Hole>, swapBase: nat, a: nat, n: nat, b: Hole)
    requires Canonical(hs) && Stretch(hs, swapBase, a, n) && (b.len > 0 ==> DisjointFromAll(hs, b))
    ensures Stretch(Release(hs, b), swapBase, a, n)
  {
    if b.len > 0 {
      ReleaseCorrect(hs, b);
    }
  }

  // ---------------------------------------------------------------- sums of sizes

  /** The clicks of all processes on swap. */
  function OnSwapClicks(procs: seq<Proc>): nat {
    if procs == [] then 0
    else (if procs[0].onswap then procs[0].stackOff + procs[0].stackLen else 0) + OnSwapClicks(procs[1..])
  }

  lemma {:induction false} OnSwapUpdate(procs: seq<Proc>, p: nat, rmp: Proc)
    requires p < |procs| && procs[p].onswap && !rmp.onswap
    ensures OnSwapClicks(procs) == OnSwapClicks(procs[p := rmp]) + procs[p].Size()
    decreases |procs|
  {
    if p == 0 {
      assert procs[p := rmp][1..] == procs[1..];
    } else {
      assert procs[p := rmp][1..] == procs[1..][p - 1 := rmp];
      OnSwapUpdate(procs[1..], p - 1, rmp);
    }
  }

  lemma {:induction false} OnSwapSame(a: seq<Proc>, b: seq<Proc>)
    requires |a| == |b|
    requires forall p :: 0 <= p < |a| ==> a[p].onswap == b[p].onswap && a[p].Size() == b[p].Size()
    ensures OnSwapClicks(a) == OnSwapClicks(b)
    decreases |a|
  {
    if a != [] {
      OnSwapSame(a[1..], b[1..]);
    }
  }

  /** The clicks of the flagged entries of a queue. */
  function Wanted(q: seq<nat>, procs: seq<Proc>): nat
    requires forall i :: 0 <= i < |q| ==> q[i] < |procs|
  {
    if q == [] then 0
    else (if procs[q[0]].swapin then procs[q[0]].Size() else 0) + Wanted(q[1..], procs)
  }

  lemma {:induction false} WantedSame(q: seq<nat>, a: seq<Proc>, b: seq<Proc>)
    requires |a| == |b| && forall i :: 0 <= i < |q| ==> q[i] < |a|
    requires forall i :: 0 <= i < |q| ==> a[q[i]] == b[q[i]]
    ensures Wanted(q, a) == Wanted(q, b)
    decreases |q|
  {
    if q != [] {
      WantedSame(q[1..], a, b);
    }
  }

  /** A queue without duplicates wants no more than what is on swap. */
  lemma {:induction false} WantedBound(q: seq<nat>, procs: seq<Proc>)
    requires Distinct(q) && forall i :: 0 <= i < |q| ==> q[i] < |procs|
    requires forall p :: 0 <= p < |procs| && procs[p].swapin ==> procs[p].onswap
    ensures Wanted(q, procs) <= OnSwapClicks(procs)
    decreases |q|
  {
    if q != [] {
      var p := q[0];
      if procs[p].swapin {
        var rmp := procs[p].(onswap := false, swapin := false);
        OnSwapUpdate(procs, p, rmp);
        assert forall i :: 0 <= i < |q[1..]| ==> q[1..][i] != p;
        WantedSame(q[1..], procs, procs[p := rmp]);
        WantedBound(q[1..], procs[p := rmp]);
      } else {
        WantedBound(q[1..], procs);
      }
    }
  }

  // ---------------------------------------------------------------- one turn

  /** With enough memory in one piece, or none needed, the first attempt succeeds. */
  lemma FirstAttemptSucceeds(w: World, a: nat, k: nat, n: nat) returns (i: nat)
    requires Inv(w) && Live(w) < Memory(w) && Stretch(w.s.holes, w.s.swapBase, a, k) && n <= k
    ensures i < |w.s.holes| && n <= w.s.holes[i].len
    ensures AllocMem(w.s, n) == Granted(w.s.holes[i].base, w.s.(holes := Carve(w.s.holes, i, n)))
  {
    SpareMemoryAtHead(w);
    var j := 0;
    if k > 0 {
      j := StretchSuits(w.s.holes, w.s.swapBase, a, k, n);
    }
    ChooseFinds(w.s.worst, w.s.holes, w.s.swapBase, n, j);
    i := Choose(w.s.worst, w.s.holes, w.s.swapBase, n).value;
  }

  lemma LoadHoles(s: State, i: nat, base: nat, s': State)
    requires s.Ok() && i < |s.queue| && Load(s, i, base) == Some(s')
    ensures s'.holes == Release(s.holes, s.procs[s.queue[i]].Block())
  {
  }

  /** What is bitten off a list goes on being apart from a live block. */
  lemma StillApart(w: World, o: Owner, i: nat, n: nat)
    requires Inv(w) && o in w.blocks && w.blocks[o].len > 0 && i < |w.s.holes| && n <= w.s.holes[i].len
    ensures Canonical(Carve(w.s.holes, i, n)) && DisjointFromAll(Carve(w.s.holes, i, n), w.blocks[o])
  {
    CarveCorrect(w.s.holes, i, n);
    DisjointIffNoFreeClick(w.s.holes, w.blocks[o]);
    DisjointIffNoFreeClick(Carve(w.s.holes, i, n), w.blocks[o]);
  }

  /** A flagged entry for which there is room comes in, and takes no more than its size. */
  lemma EntryComesIn(w: World, i: nat, a: nat, k: nat) returns (a': nat)
    requires Inv(w) && Live(w) < Memory(w) && i < |w.s.queue| && ServeEntry(w.s, i).Some?
    requires w.s.procs[w.s.queue[i]].swapin && w.s.procs[w.s.queue[i]].Size() <= k
    requires Stretch(w.s.holes, w.s.swapBase, a, k)
    ensures var (s', i') := ServeEntry(w.s, i).value;
            var p := w.s.queue[i];
            && i' == i && s'.queue == RemoveAt(w.s.queue, i)
            && s'.procs == w.s.procs[p := s'.procs[p]] && !s'.procs[p].onswap && !s'.procs[p].swapin
            && Stretch(s'.holes, w.s.swapBase, a', k - w.s.procs[p].Size())
  {
    var p := w.s.queue[i];
    var n := w.s.procs[p].Size();
    assert ProcOk(w, p);
    var h := FirstAttemptSucceeds(w, a, k, n);
    var s1 := w.s.(holes := Carve(w.s.holes, h, n));
    var s' := ServeEntry(w.s, i).value.0;
    LoadCopies(s1, i, w.s.holes[h].base, s');
    LoadHoles(s1, i, w.s.holes[h].base, s');
    a' := StretchAfterBite(w.s.holes, w.s.swapBase, a, k, h, n);
    CarveCorrect(w.s.holes, h, n);
    if n > 0 {
      StillApart(w, OfProc(p), h, n);
    }
    StretchAfterRelease(s1.holes, w.s.swapBase, a', k - n, w.s.procs[p].Block());
  }

  // ---------------------------------------------------------------- a whole pass

  /** Everybody flagged in `q` has come in, and nobody has gone. */
  ghost predicate AreIn(q: seq<nat>, before: seq<Proc>, after: seq<Proc>)
    requires |before| == |after|
  {
    forall p :: 0 <= p < |after| && after[p].onswap ==> before[p].onswap && !(p in q && before[p].swapin)
  }

  lemma AreInCompose(p: nat, q: seq<nat>, before: seq<Proc>, mid: seq<Proc>, after: seq<Proc>)
    requires |before| == |mid| == |after| && p < |mid| && p !in q && AreIn(q, mid, after)
    requires forall x :: 0 <= x < |mid| && x != p ==> mid[x] == before[x]
    requires mid[p] == before[p] || !mid[p].onswap
    requires before[p].swapin ==> !mid[p].onswap
    ensures AreIn([p] + q, before, after)
  {
    forall x | 0 <= x < |after| && after[x].onswap ensures before[x].onswap && !(x in [p] + q && before[x].swapin) {
      assert mid[x].onswap;
    }
  }

  /** A turn of a pass with memory to spare leaves memory to spare. */
  lemma ServeStays(w: World, i: nat)
    requires Inv(w) && Live(w) < Memory(w) && i < |w.s.queue| && ServeEntry(w.s, i).Some?
    ensures var w' := After(w, ServeEntry(w.s, i).value.0);
            Inv(w') && Live(w') < Memory(w') && w'.s.swapBase == w.s.swapBase
  {
    SpareMemoryAtHead(w);
    ServeKeeps(w, i);
    ServeSetting(w.s, i);
    ServeTotal(w.s, i);
    LiveAfter(w, ServeEntry(w.s, i).value.0);
  }

  /** One turn: its entry comes in if it is flagged, and the rest still finds room. */
  lemma TurnComesIn(w: World, i: nat, a: nat) returns (s1: State, i1: nat, a1: nat)
    requires Inv(w) && Live(w) < Memory(w) && i < |w.s.queue| && ServeEntry(w.s, i).Some?
    requires Stretch(w.s.holes, w.s.swapBase, a, Wanted(w.s.queue[i..], w.s.procs))
    ensures ServeEntry(w.s, i) == Some((s1, i1)) && |s1.procs| == |w.s.procs|
    ensures s1.queue == RemoveAt(w.s.queue, i) && i1 == i
    ensures forall x :: 0 <= x < |s1.procs| && x != w.s.queue[i] ==> s1.procs[x] == w.s.procs[x]
    ensures var p := w.s.queue[i];
            && (s1.procs[p] == w.s.procs[p] || !s1.procs[p].onswap)
            && (w.s.procs[p].swapin ==> !s1.procs[p].onswap)
    ensures Stretch(s1.holes, w.s.swapBase, a1, Wanted(w.s.queue[i + 1..], w.s.procs))
  {
    assert w.s.queue[i..][1..] == w.s.queue[i + 1..];
    s1, i1 := ServeEntry(w.s, i).value.0, ServeEntry(w.s, i).value.1;
    a1 := a;
    if w.s.procs[w.s.queue[i]].swapin {
      a1 := EntryComesIn(w, i, a, Wanted(w.s.queue[i..], w.s.procs));
    }
  }

  lemma RemoveInFront(q: seq<nat>, i: nat)
    requires i < |q|
    ensures RemoveAt(q, i)[i..] == q[i + 1..] && q[i..] == [q[i]] + q[i + 1..]
  {
  }

  lemma RestWants(q: seq<nat>, p: nat, a: seq<Proc>, b: seq<Proc>)
    requires p !in q && |a| == |b| && forall j :: 0 <= j < |q| ==> q[j] < |a|
    requires forall x :: 0 <= x < |a| && x != p ==> b[x] == a[x]
    ensures Wanted(q, b) == Wanted(q, a)
  {
    forall j | 0 <= j < |q| ensures a[q[j]] == b[q[j]] {
      assert q[j] in q;
    }
    WantedSame(q, a, b);
  }

  lemma {:induction false} AllComeIn(w: World, i: nat, a: nat)
    requires Inv(w) && Live(w) < Memory(w) && i <= |w.s.queue| && SwapInFrom(w.s, i).Some?
    requires Stretch(w.s.holes, w.s.swapBase, a, Wanted(w.s.queue[i..], w.s.procs))
    ensures AreIn(w.s.queue[i..], w.s.procs, SwapInFrom(w.s, i).value.procs)
    decreases |w.s.queue| - i
  {
    if i < |w.s.queue| {
      var s1, i1, a1 := TurnComesIn(w, i, a);
      RemoveInFront(w.s.queue, i);
      BehindIsOther(w.s.queue, i);
      RestWants(w.s.queue[i + 1..], w.s.queue[i], w.s.procs, s1.procs);
      ServeStays(w, i);
      AllComeIn(After(w, s1), i1, a1);
      AreInCompose(w.s.queue[i], w.s.queue[i + 1..], w.s.procs, s1.procs, SwapInFrom(w.s, i).value.procs);
    }
  }

  // ---------------------------------------------------------------- swap_off

  /** Everybody on swap is queued and flagged before the pass. */
  lemma {:induction false} EverybodyFlagged(s: State, p: nat)
    requires s.Ok() && s.lowUser <= p <= |s.procs|
    ensures forall q :: p <= q < |s.procs| && s.procs[q].onswap ==> QueueAll(s, p).procs[q].swapin
    ensures forall q :: 0 <= q < |s.procs| && s.procs[q].swapin ==> QueueAll(s, p).procs[q].swapin
    decreases |s.procs| - p
  {
    if p < |s.procs| {
      EverybodyFlagged(if s.procs[p].onswap then SwapInQueue(s, p) else s, p + 1);
    }
  }

  lemma OnSwapIsUser(w: World, p: nat)
    requires Inv(w) && p < |w.s.procs| && w.s.procs[p].onswap
    ensures w.s.lowUser <= p
  {
    assert ProcOk(w, p);
  }

  /** After the queueing of `swap_off` everybody on swap stands flagged on the queue, which wants no
      more than all of them together. */
  lemma EverybodyQueued(w: World)
    requires Inv(w) && NobodyForgotten(w.s) && Tidy(w.s, TurnOff)
    ensures var q := QueueAll(w.s, w.s.lowUser);
            && Inv(w.(s := q)) && SameSetting(w.s, q) && q.holes == w.s.holes
            && (forall p :: 0 <= p < |q.procs| && q.procs[p].onswap ==> q.procs[p].swapin && p in q.queue)
            && Wanted(q.queue, q.procs) <= OnSwapClicks(w.s.procs)
  {
    var q := QueueAll(w.s, w.s.lowUser);
    QueueAllKeeps(w, w.s.lowUser);
    QueueAllOnlyQueues(w.s, w.s.lowUser);
    QueueAllForgetsNobody(w.s, w.s.lowUser);
    EverybodyFlagged(w.s, w.s.lowUser);
    forall p | 0 <= p < |q.procs| && q.procs[p].onswap ensures q.procs[p].swapin && p in q.queue {
      OnSwapIsUser(w, p);
    }
    OnSwapSame(w.s.procs, q.procs);
    forall p | 0 <= p < |q.procs| && q.procs[p].swapin ensures q.procs[p].onswap {
      assert ProcOk(w.(s := q), p);
    }
    WantedBound(q.queue, q.procs);
  }

  /** A hole below the swap base, no longer than it is, is a free stretch. */
  lemma HoleIsStretch(w: World, h: nat, n: nat)
    requires Inv(w) && h < |w.s.holes| && w.s.holes[h].base < w.s.swapBase && n <= w.s.holes[h].len
    ensures Stretch(w.s.holes, w.s.swapBase, w.s.holes[h].base, n)
  {
    NoStraddling(w);
    forall c: int | w.s.holes[h].base <= c < w.s.holes[h].base + n ensures Free(w.s.holes, c) {
      assert w.s.holes[h].Has(c);
    }
  }

  /** The pass of `swap_off` leaves nobody on swap. */
  lemma NobodyLeftOut(w: World, h: nat)
    requires Inv(w) && NobodyForgotten(w.s) && Tidy(w.s, TurnOff) && Live(w) < Memory(w)
    requires h < |w.s.holes| && w.s.holes[h].base < w.s.swapBase && w.s.holes[h].len >= OnSwapClicks(w.s.procs)
    requires SwapIn(QueueAll(w.s, w.s.lowUser)).Some?
    ensures !SomebodyOnSwap(SwapIn(QueueAll(w.s, w.s.lowUser)).value)
  {
    EverybodyQueued(w);
    var q := QueueAll(w.s, w.s.lowUser);
    HoleIsStretch(w, h, Wanted(q.queue, q.procs));
    assert q.queue[0..] == q.queue;
    AllComeIn(w.(s := q), 0, w.s.holes[h].base);
  }

  lemma OffOutcome(w: World)
    requires w.s.Ok() && w.s.swapFd != -1 && Step(w, TurnOff).Some?
    ensures SwapIn(QueueAll(w.s, w.s.lowUser)).Some?
    ensures SwapOff(w.s).Done? || (SwapOff(w.s).NotAllIn? && SomebodyOnSwap(SwapIn(QueueAll(w.s, w.s.lowUser)).value))
  {
  }

  /** `swap_off` succeeds, under either policy, whenever there is memory to spare and one hole below
      the swap base takes all processes on swap together, provided that the queue is in order and
      the hole table has room. */
  lemma SwapOffSucceeds(w: World, h: nat)
    requires Inv(w) && w.s.swapFd != -1 && NobodyForgotten(w.s) && Tidy(w.s, TurnOff) && Roomy(w)
    requires Live(w) < Memory(w)
    requires h < |w.s.holes| && w.s.holes[h].base < w.s.swapBase && w.s.holes[h].len >= OnSwapClicks(w.s.procs)
    ensures SwapOff(w.s).Done?
  {
    SpareMemoryIsSafe(w, TurnOff);
    TurnOffNoPanic(w);
    OffOutcome(w);
    NobodyLeftOut(w, h);
  }
}
