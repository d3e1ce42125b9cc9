/** What the policy in force means for the address that `alloc_mem` grants: stated on the hole
    list from which the block was bitten, without naming the searches. */
module SwapPolicy {
  import opened Options
  import opened Holes
  import opened SwapModel
  import opened SwapWorld
  import opened SwapSafety
  import opened SwapRuns
  import opened SwapTheorems

  /** A hole at `base` below the swap base that holds `n` clicks. */
  predicate Suits(hs: seq<Hole>, swapBase: nat, n: nat, i: nat)
    requires i < |hs|
  {
    hs[i].base < swapBase && hs[i].len >= n
  }

  /** `i` is the lowest hole that suits. */
  ghost predicate Lowest(hs: seq<Hole>, swapBase: nat, n: nat, i: nat) {
    && i < |hs| && Suits(hs, swapBase, n, i)
    && forall j :: 0 <= j < |hs| && Suits(hs, swapBase, n, j) ==> hs[i].base <= hs[j].base
  }

  /** `i` is the longest hole below the swap base, the lowest among equals, and long enough. */
  ghost predicate Longest(hs: seq<Hole>, swapBase: nat, n: nat, i: nat) {
    && i < |hs| && Suits(hs, swapBase, n, i)
    && (forall j :: 0 <= j < |hs| && hs[j].base < swapBase ==> hs[j].len <= hs[i].len)
    && forall j :: 0 <= j < |hs| && hs[j].base < swapBase && hs[j].len == hs[i].len ==> hs[i].base <= hs[j].base
  }

  /** The policy's answer, whatever the search that finds it. */
  ghost predicate Obeys(worst: bool, hs: seq<Hole>, swapBase: nat, n: nat, base: nat) {
    if worst then exists i: nat :: Longest(hs, swapBase, n, i) && hs[i].base == base
    else exists i: nat :: Lowest(hs, swapBase, n, i) && hs[i].base == base
  }

  lemma ChosenObeys(worst: bool, hs: seq<Hole>, swapBase: nat, n: nat, i: nat)
    requires Canonical(hs) && !PicksSwap(worst, hs, swapBase, n) && Choose(worst, hs, swapBase, n) == Some(i)
    ensures Obeys(worst, hs, swapBase, n, hs[i].base)
  {
    SwapSpaceHandedOutIff(worst, hs, swapBase, n);
    if worst {
      WorstFitLongest(hs, swapBase, n);
      assert Longest(hs, swapBase, n, i);
    } else {
      FirstFitLowest(hs, swapBase, n);
      assert Lowest(hs, swapBase, n, i);
    }
  }

  /** What was granted, put back, gives the list from which it was taken, and in that list it
      stood where the policy flag says: at the lowest hole below the swap base that is long
      enough, or at the longest one below the swap base; however many processes went before. */
  lemma {:induction false} GrantObeysPolicy(w: World, n: nat)
    requires Inv(w) && !PicksSwap(w.s.worst, w.s.holes, w.s.swapBase, n) && AllocMem(w.s, n).Granted?
    ensures var (b, s') := (AllocMem(w.s, n).base, AllocMem(w.s, n).state);
            Obeys(w.s.worst, Release(s'.holes, Hole(b, n)), w.s.swapBase, n, b)
    decreases Residents(w.s.procs)
  {
    match Choose(w.s.worst, w.s.holes, w.s.swapBase, n)
    case Some(i) =>
      ChosenObeys(w.s.worst, w.s.holes, w.s.swapBase, n, i);
      CarveThenRelease(w.s.holes, i, n);
    case None =>
      var s1 := SwapOut(w.s).state;
      SwapOutKeeps(w, n);
      SwapOutShrinks(w.s);
      GrantObeysPolicy(After(w, s1), n);
  }

  // ---------------------------------------------------------------- no needless eviction

  lemma ChooseFinds(worst: bool, hs: seq<Hole>, swapBase: nat, n: nat, i: nat)
    requires Canonical(hs) && !PicksSwap(worst, hs, swapBase, n) && i < |hs| && Suits(hs, swapBase, n, i)
    ensures Choose(worst, hs, swapBase, n).Some?
  {
    if worst {
      WorstFitLongest(hs, swapBase, n);
    } else {
      FirstFitLowest(hs, swapBase, n);
    }
  }

  /** While a hole below the swap base is long enough, memory is granted and nothing but the hole
      list changes: nobody is swapped out for it. */
  lemma NobodyLeavesNeedlessly(w: World, n: nat, i: nat)
    requires Inv(w) && !PicksSwap(w.s.worst, w.s.holes, w.s.swapBase, n)
    requires i < |w.s.holes| && Suits(w.s.holes, w.s.swapBase, n, i)
    ensures var r := AllocMem(w.s, n);
            && r.Granted? && r.state == w.s.(holes := r.state.holes)
            && Release(r.state.holes, Hole(r.base, n)) == w.s.holes
  {
    ChooseFinds(w.s.worst, w.s.holes, w.s.swapBase, n, i);
    CarveThenRelease(w.s.holes, Choose(w.s.worst, w.s.holes, w.s.swapBase, n).value, n);
  }

  // ---------------------------------------------------------------- the policy in force

  /** The policy that the last accepted `do_worst_fit` of a run has set. */
  function InForce(ops: seq<Op>, worst: bool): bool {
    if ops == [] then worst
    else InForce(ops[1..], if ops[0] == Policy(0) then false else if ops[0] == Policy(1) then true else worst)
  }

  lemma OffKeepsPolicy(w: World)
    requires Inv(w)
    ensures match SwapOff(w.s)
            case Done(s') => s'.worst == w.s.worst
            case NotAllIn(s') => s'.worst == w.s.worst
            case _ => true
  {
    QueueAllKeeps(w, w.s.lowUser);
    var q := QueueAll(w.s, w.s.lowUser);
    if SwapIn(q).Some? {
      SwapInSetting(q, 0);
    }
  }

  lemma StepPolicy(w: World, op: Op, w': World)
    requires Inv(w) && Legal(w, op) && Step(w, op) == Some(w')
    ensures w'.s.worst == InForce([op], w.s.worst)
  {
    assert [op][1..] == [];
    match op
    case Alloc(clicks, _) => AllocSetting(w.s, clicks);
    case SwapInPass => SwapInSetting(w.s, 0);
    case TurnOff => OffKeepsPolicy(w);
    case _ =>
  }

  lemma {:induction false} RunPolicy(w: World, ops: seq<Op>, w': World)
    requires Inv(w) && Runs(w, ops, w')
    ensures w'.s.worst == InForce(ops, w.s.worst)
    decreases |ops|
  {
    if ops != [] {
      var w1 := Step(w, ops[0]).value;
      StepPolicy(w, ops[0], w1);
      StepKeeps(w, ops[0]);
      RunPolicy(w1, ops[1..], w');
    }
  }

  /** After any run memory is granted by the policy last chosen in it. */
  lemma RunObeysPolicy(w: World, ops: seq<Op>, w': World, n: nat)
    requires Inv(w) && Runs(w, ops, w')
    requires w'.s.Ok() && !PicksSwap(w'.s.worst, w'.s.holes, w'.s.swapBase, n) && AllocMem(w'.s, n).Granted?
    ensures var (b, s') := (AllocMem(w'.s, n).base, AllocMem(w'.s, n).state);
            Obeys(InForce(ops, w.s.worst), Release(s'.holes, Hole(b, n)), w'.s.swapBase, n, b)
  {
    RunKeeps(w, ops, w');
    RunPolicy(w, ops, w');
    GrantObeysPolicy(w', n);
  }
}
