/** Over whole runs: whoever wants to be swapped in stays on the queue that `swap_in` serves, and
    whoever has once fallen off it never comes back. */
module SwapFairness {
  import opened Options
  import opened Lists
  import opened SwapModel
  import opened Tiling
  import opened SwapWorld
  import opened SwapSafety
  import opened SwapRuns
  import opened SwapTheorems
  import opened SwapQueue

  /** No entry is queued again that is still linked but no longer flagged. */
  ghost predicate Tidy(s: State, op: Op) {
    match op
    case QueueIn(p) => p < |s.procs| && (s.procs[p].swapin || p !in s.queue)
    case TurnOff =>
      forall p :: s.lowUser <= p < |s.procs| && s.procs[p].onswap ==> s.procs[p].swapin || p !in s.queue
    case _ => true
  }

  lemma {:induction false} QueueAllForgetsNobody(s: State, p: nat)
    requires s.Ok() && Distinct(s.queue) && NobodyForgotten(s) && s.lowUser <= p <= |s.procs|
    requires forall q :: p <= q < |s.procs| && s.procs[q].onswap ==> s.procs[q].swapin || q !in s.queue
    ensures NobodyForgotten(QueueAll(s, p)) && Distinct(QueueAll(s, p).queue)
    decreases |s.procs| - p
  {
    if p < |s.procs| {
      if s.procs[p].onswap {
        QueueingForgetsNobody(s, p);
        ChainedOk(s.queue, p);
        QueueAllForgetsNobody(SwapInQueue(s, p), p + 1);
      } else {
        QueueAllForgetsNobody(s, p + 1);
      }
    }
  }

  lemma AllocForgetsNobody(s: State, clicks: nat)
    requires s.Ok() && NobodyForgotten(s)
    ensures var r := AllocMem(s, clicks); !r.AllocPanic? ==> NobodyForgotten(r.state)
  {
    AllocSetting(s, clicks);
    var r := AllocMem(s, clicks);
    if !r.AllocPanic? {
      forall p | 0 <= p < |r.state.procs| && r.state.procs[p].swapin ensures p in r.state.queue {
        assert MovedOnly(s.procs[p], r.state.procs[p]);
      }
    }
  }

  lemma OffForgetsNobody(s: State)
    requires s.Ok() && Distinct(s.queue) && NobodyForgotten(s) && Tidy(s, TurnOff)
    ensures match SwapOff(s)
            case Done(s') => NobodyForgotten(s')
            case NotAllIn(s') => NobodyForgotten(s')
            case _ => true
  {
    if s.swapFd != -1 {
      QueueAllForgetsNobody(s, s.lowUser);
      var q := QueueAll(s, s.lowUser);
      if SwapIn(q).Some? {
        PassForgetsNobody(q);
      }
    }
  }

  /** Neither queue nor SWAPIN flags change, or a slot's flag is cleared. */
  lemma FlagsKeptForgetsNobody(s: State, s': State)
    requires NobodyForgotten(s) && s'.queue == s.queue && |s'.procs| == |s.procs|
    requires forall p :: 0 <= p < |s.procs| ==> (s'.procs[p].swapin ==> s.procs[p].swapin)
    ensures NobodyForgotten(s')
  {
  }

  lemma PlainForgetsNobody(w: World, op: Op, w': World)
    requires Inv(w) && NobodyForgotten(w.s) && Legal(w, op) && Step(w, op) == Some(w')
    requires op.Discard? || op.Write? || op.Attach? || op.Exit? || op.SetFlags? || op.TurnOn? || op.Policy?
    ensures NobodyForgotten(w'.s)
  {
    FlagsKeptForgetsNobody(w.s, w'.s);
  }

  lemma StepForgetsNobody(w: World, op: Op)
    requires Inv(w) && NobodyForgotten(w.s) && Legal(w, op) && Tidy(w.s, op) && Step(w, op).Some?
    ensures NobodyForgotten(Step(w, op).value.s)
  {
    match op
    case Alloc(clicks, _) => AllocForgetsNobody(w.s, clicks);
    case QueueIn(p) => QueueingForgetsNobody(w.s, p);
    case SwapInPass => PassForgetsNobody(w.s);
    case TurnOff => OffForgetsNobody(w.s);
    case _ => PlainForgetsNobody(w, op, Step(w, op).value);
  }

  /** All operations of a run are tidy where they happen. */
  ghost predicate TidyRun(w: World, ops: seq<Op>, w': World)
    requires Runs(w, ops, w')
    decreases |ops|
  {
    ops == [] || (Tidy(w.s, ops[0]) && TidyRun(Step(w, ops[0]).value, ops[1..], w'))
  }

  /** After every tidy run from start-up each process flagged SWAPIN is on the queue. */
  lemma RunForgetsNobody(w: World, ops: seq<Op>, w': World)
    requires Initial(w) && Runs(w, ops, w') && TidyRun(w, ops, w')
    ensures NobodyForgotten(w'.s)
  {
    InitialInv(w);
    RunFromForgetsNobody(w, ops, w');
  }

  lemma {:induction false} RunFromForgetsNobody(w: World, ops: seq<Op>, w': World)
    requires Inv(w) && NobodyForgotten(w.s) && Runs(w, ops, w') && TidyRun(w, ops, w')
    ensures NobodyForgotten(w'.s)
    decreases |ops|
  {
    if ops != [] {
      StepKeeps(w, ops[0]);
      StepForgetsNobody(w, ops[0]);
      RunFromForgetsNobody(Step(w, ops[0]).value, ops[1..], w');
    }
  }

  // ---------------------------------------------------------------- nobody comes back

  /** A process on swap that is flagged but not on the queue. */
  predicate Missing(s: State, p: nat) {
    p < |s.procs| && s.procs[p].onswap && s.procs[p].swapin && p !in s.queue
  }

  lemma QueueingLeavesMissing(s: State, p: nat, q: nat)
    requires s.Ok() && s.lowUser <= q < |s.procs| && Missing(s, p)
    ensures Missing(SwapInQueue(s, q), p)
  {
  }

  lemma {:induction false} QueueAllLeavesMissing(s: State, p: nat, q: nat)
    requires s.Ok() && s.lowUser <= q <= |s.procs| && Missing(s, p)
    ensures Missing(QueueAll(s, q), p) && QueueAll(s, q).lowUser == s.lowUser
    decreases |s.procs| - q
  {
    if q < |s.procs| {
      QueueingLeavesMissing(s, p, q);
      QueueAllLeavesMissing(if s.procs[q].onswap then SwapInQueue(s, q) else s, p, q + 1);
    }
  }

  lemma PassLeavesMissing(s: State, p: nat)
    requires s.Ok() && Distinct(s.queue) && Missing(s, p) && SwapIn(s).Some?
    ensures Missing(SwapIn(s).value, p)
  {
    assert s.queue[0..] == s.queue;
    PassSpares(s, 0, p);
    SwapInLeaves(s, 0);
    FlaggedOk(s.queue, SwapIn(s).value.procs);
  }

  lemma OffLeavesMissing(s: State, p: nat)
    requires s.Ok() && Distinct(s.queue) && Missing(s, p)
    ensures match SwapOff(s)
            case Done(s') => Missing(s', p)
            case NotAllIn(s') => Missing(s', p)
            case _ => true
  {
    if s.swapFd != -1 {
      var q := QueueAll(s, s.lowUser);
      QueueAllLeavesMissing(s, p, s.lowUser);
      QueueAllOk(s, s.lowUser);
      if SwapIn(q).Some? {
        PassLeavesMissing(q, p);
      }
    }
  }

  lemma {:induction false} QueueAllOk(s: State, p: nat)
    requires s.Ok() && Distinct(s.queue) && s.lowUser <= p <= |s.procs|
    ensures Distinct(QueueAll(s, p).queue)
    decreases |s.procs| - p
  {
    if p < |s.procs| {
      ChainedOk(s.queue, p);
      QueueAllOk(if s.procs[p].onswap then SwapInQueue(s, p) else s, p + 1);
    }
  }

  lemma PlainLeavesMissing(w: World, op: Op, p: nat)
    requires Inv(w) && Legal(w, op) && Step(w, op).Some? && op != Exit(p)
    requires op.Discard? || op.Write? || op.Attach? || op.Exit? || op.SetFlags? || op.TurnOn? || op.Policy?
    requires Missing(w.s, p) && OfProc(p) in w.blocks
    ensures Missing(Step(w, op).value.s, p) && OfProc(p) in Step(w, op).value.blocks
  {
  }

  lemma StepLeavesMissing(w: World, op: Op, p: nat)
    requires Inv(w) && Legal(w, op) && Step(w, op).Some? && op != Exit(p)
    requires Missing(w.s, p) && OfProc(p) in w.blocks
    ensures Missing(Step(w, op).value.s, p) && OfProc(p) in Step(w, op).value.blocks
  {
    match op
    case Alloc(clicks, _) => GrantedEntry(w.s, clicks, p);
    case QueueIn(q) => QueueingLeavesMissing(w.s, p, q);
    case SwapInPass => PassLeavesMissing(w.s, p);
    case TurnOff => OffLeavesMissing(w.s, p);
    case _ => PlainLeavesMissing(w, op, p);
  }

  /** A process on swap that is flagged SWAPIN but has fallen off the queue stays out of memory
      and off the queue whatever happens, for as long as it does not exit. */
  lemma {:induction false} MissingStaysMissing(w: World, ops: seq<Op>, w': World, p: nat)
    requires Inv(w) && Runs(w, ops, w') && Exit(p) !in ops
    requires Missing(w.s, p) && OfProc(p) in w.blocks
    ensures Missing(w'.s, p) && OfProc(p) in w'.blocks
    decreases |ops|
  {
    if ops != [] {
      StepKeeps(w, ops[0]);
      StepLeavesMissing(w, ops[0], p);
      MissingStaysMissing(Step(w, ops[0]).value, ops[1..], w', p);
    }
  }

  /** While a process is missing, `swap_off` never gets everybody in, however much memory is free. */
  lemma SwapOffFails(w: World, p: nat)
    requires Inv(w) && Missing(w.s, p) && w.s.lowUser <= p && w.s.swapFd != -1
    ensures !SwapOff(w.s).Done? && !SwapOff(w.s).NilFollowed?
  {
    var s := w.s;
    QueueAllLeavesMissing(s, p, s.lowUser);
    QueueAllOk(s, s.lowUser);
    var q := QueueAll(s, s.lowUser);
    if SwapIn(q).Some? {
      PassLeavesMissing(q, p);
      SwapInSetting(q, 0);
    }
  }
}
