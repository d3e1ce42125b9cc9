/** Who may be swapped out and where he goes, in terms of the flags and of the hole list. */
module SwapVictims {
  import opened Options
  import opened Holes
  import opened SwapModel
  import opened SwapWorld
  import opened SwapSafety
  import opened SwapRuns
  import opened SwapQueue

  /** Blocked in wait(), pause() or sigsuspend(), not traced, and no reply pending. */
  predicate MayLeave(p: Proc) {
    (p.paused || p.waiting || p.sigsuspended) && !p.traced && !p.reply
  }

  /** The five flags are the same. */
  predicate SameFlags(a: Proc, b: Proc) {
    && a.paused == b.paused && a.waiting == b.waiting && a.sigsuspended == b.sigsuspended
    && a.traced == b.traced && a.reply == b.reply
  }

  /** In passing from `a` to `b` no flag changes but ONSWAP and SWAPIN, and only who may leave
      goes to the swap device. */
  ghost predicate OnlyWaitersLeave(a: State, b: State) {
    && |a.procs| == |b.procs|
    && (forall p :: 0 <= p < |a.procs| ==> SameFlags(a.procs[p], b.procs[p]))
    && forall p :: 0 <= p < |a.procs| && !a.procs[p].onswap && b.procs[p].onswap ==> MayLeave(a.procs[p])
  }

  lemma OnlyWaitersTrans(a: State, b: State, c: State)
    requires OnlyWaitersLeave(a, b) && OnlyWaitersLeave(b, c)
    ensures OnlyWaitersLeave(a, c)
  {
    forall p | 0 <= p < |a.procs| ensures SameFlags(a.procs[p], c.procs[p]) {
      assert SameFlags(a.procs[p], b.procs[p]) && SameFlags(b.procs[p], c.procs[p]);
    }
  }

  lemma MovesAreWaiters(a: State, b: State)
    requires OnlyMoves(a, b)
    ensures OnlyWaitersLeave(a, b)
  {
    forall p | 0 <= p < |a.procs|
      ensures SameFlags(a.procs[p], b.procs[p])
      ensures !a.procs[p].onswap && b.procs[p].onswap ==> MayLeave(a.procs[p])
    {
      assert MovedOnly(a.procs[p], b.procs[p]);
    }
  }

  // ---------------------------------------------------------------- swap_out

  /** Nothing can be done for the process: it must not leave, or no swap hole takes its image. */
  ghost predicate MustStay(s: State, p: nat)
    requires p < |s.procs|
  {
    || s.procs[p].onswap || !MayLeave(s.procs[p])
    || forall i :: 0 <= i < |s.holes| && s.holes[i].base >= s.swapBase ==>
         s.holes[i].len < s.procs[p].stackOff + s.procs[p].stackLen
  }

  lemma MustStayIff(s: State, p: nat)
    requires p < |s.procs|
    ensures MustStay(s, p) <==> !Evictable(s, p)
  {
  }

  /** `swap_out` finds nobody if and only if every user process is on swap already, must not
      leave, or is longer than every swap hole. */
  lemma NobodyIff(s: State)
    requires s.Ok()
    ensures SwapOut(s).Nobody? <==> forall p :: s.lowUser <= p < |s.procs| ==> MustStay(s, p)
  {
    ScanIsRoundRobin(s);
    forall p | s.lowUser <= p < |s.procs| ensures MustStay(s, p) <==> !Evictable(s, p) {
      MustStayIff(s, p);
    }
    if Scan(s, s.outswap).Some? {
      assert Evictable(s, Scan(s, s.outswap).value);
    }
  }

  lemma VictimChosen(s: State, r: State) returns (p: nat, i: nat)
    requires s.Ok() && SwapOut(s) == Evicted(r)
    ensures EvictsTo(s, p, i, r) && !s.procs[p].onswap && MayLeave(s.procs[p])
    ensures i < |s.holes| && SwapFit(s.holes, s.swapBase, s.procs[p].Size()) == Some(i)
  {
    p := Scan(s, s.outswap).value;
    i := SwapFit(s.holes, s.swapBase, s.procs[p].Size()).value;
  }

  lemma VictimMapped(s: State, p: nat, i: nat, r: State)
    requires EvictsTo(s, p, i, r)
    ensures r.procs == s.procs[p := s.procs[p].(dPhys := s.holes[i].base,
                                                sPhys := s.holes[i].base + s.procs[p].stackOff, onswap := true)]
    ensures r.outswap == p && r.queue == s.queue && r.ram == s.ram
  {
    EvictCopies(s, p, i, r);
  }

  /** The victim of a `swap_out`: a process that may leave, mapped as a whole into the lowest swap
      hole that takes it, from where the next scan goes on. Nobody else is touched. */
  lemma VictimGoes(s: State, r: State) returns (p: nat, i: nat)
    requires s.Ok() && SwapOut(s) == Evicted(r)
    ensures s.lowUser <= p < |s.procs| && !s.procs[p].onswap && MayLeave(s.procs[p])
    ensures i < |s.holes| && s.holes[i].base >= s.swapBase
    ensures s.holes[i].len >= s.procs[p].stackOff + s.procs[p].stackLen
    ensures forall j :: 0 <= j < i ==>
              s.holes[j].base < s.swapBase || s.holes[j].len < s.procs[p].stackOff + s.procs[p].stackLen
    ensures r.procs == s.procs[p := s.procs[p].(dPhys := s.holes[i].base,
                                                sPhys := s.holes[i].base + s.procs[p].stackOff, onswap := true)]
    ensures r.outswap == p && r.queue == s.queue && r.ram == s.ram
  {
    p, i := VictimChosen(s, r);
    VictimMapped(s, p, i, r);
  }

  // ---------------------------------------------------------------- alloc_mem and swap_in

  /** Whoever leaves during an allocation was waiting, not traced, and owed no reply. */
  lemma AllocMovesWaiters(s: State, clicks: nat)
    requires s.Ok()
    ensures match AllocMem(s, clicks)
            case Granted(_, s') => OnlyWaitersLeave(s, s')
            case NoMem(s') => OnlyWaitersLeave(s, s')
            case AllocPanic => true
  {
    AllocSetting(s, clicks);
    var r := AllocMem(s, clicks);
    if !r.AllocPanic? {
      MovesAreWaiters(s, r.state);
    }
  }

  lemma ServeMovesWaiters(s: State, i: nat)
    requires s.Ok() && i < |s.queue| && ServeEntry(s, i).Some?
    ensures OnlyWaitersLeave(s, ServeEntry(s, i).value.0)
  {
    var p, s' := s.queue[i], ServeEntry(s, i).value.0;
    if s.procs[p].swapin {
      AllocMovesWaiters(s, s.procs[p].Size());
      var r := AllocMem(s, s.procs[p].Size());
      if r.Granted? {
        LoadedEntry(r.state, i, r.base, s');
        assert OnlyWaitersLeave(r.state, s');
        OnlyWaitersTrans(s, r.state, s');
      }
    }
  }

  lemma {:induction false} PassMovesWaiters(s: State, i: nat)
    requires s.Ok() && i <= |s.queue| && SwapInFrom(s, i).Some?
    ensures OnlyWaitersLeave(s, SwapInFrom(s, i).value)
    decreases |s.queue| - i
  {
    if i < |s.queue| {
      var (s1, i1) := ServeEntry(s, i).value;
      ServeMovesWaiters(s, i);
      PassMovesWaiters(s1, i1);
      OnlyWaitersTrans(s, s1, SwapInFrom(s, i).value);
    }
  }

  /** Only SWAPIN flags and the queue differ. */
  ghost predicate OnlyQueued(a: State, b: State) {
    && b == a.(queue := b.queue, procs := b.procs) && |b.procs| == |a.procs|
    && forall p :: 0 <= p < |a.procs| ==> b.procs[p] == a.procs[p].(swapin := b.procs[p].swapin)
  }

  lemma QueueingOnlyQueues(s: State, p: nat)
    requires s.Ok() && s.lowUser <= p < |s.procs|
    ensures OnlyQueued(s, SwapInQueue(s, p))
  {
  }

  lemma OnlyQueuedTrans(a: State, b: State, c: State)
    requires OnlyQueued(a, b) && OnlyQueued(b, c)
    ensures OnlyQueued(a, c)
  {
  }

  lemma {:induction false} QueueAllOnlyQueues(s: State, p: nat)
    requires s.Ok() && s.lowUser <= p <= |s.procs|
    ensures OnlyQueued(s, QueueAll(s, p))
    decreases |s.procs| - p
  {
    if p < |s.procs| {
      if s.procs[p].onswap {
        QueueingOnlyQueues(s, p);
        QueueAllOnlyQueues(SwapInQueue(s, p), p + 1);
        OnlyQueuedTrans(s, SwapInQueue(s, p), QueueAll(s, p));
      } else {
        QueueAllOnlyQueues(s, p + 1);
      }
    }
  }

  lemma QueueAllMovesNobody(s: State)
    requires s.Ok()
    ensures OnlyWaitersLeave(s, QueueAll(s, s.lowUser))
  {
    QueueAllOnlyQueues(s, s.lowUser);
    var q := QueueAll(s, s.lowUser);
    forall p | 0 <= p < |s.procs| ensures SameFlags(s.procs[p], q.procs[p]) && q.procs[p].onswap == s.procs[p].onswap {
      assert q.procs[p] == s.procs[p].(swapin := q.procs[p].swapin);
    }
  }

  lemma OffMovesWaiters(s: State)
    requires s.Ok()
    ensures match SwapOff(s)
            case Done(s') => OnlyWaitersLeave(s, s')
            case NotAllIn(s') => OnlyWaitersLeave(s, s')
            case _ => true
  {
    if s.swapFd != -1 {
      var q := QueueAll(s, s.lowUser);
      QueueAllMovesNobody(s);
      if SwapIn(q).Some? {
        PassMovesWaiters(q, 0);
        OnlyWaitersTrans(s, q, SwapIn(q).value);
      }
    }
  }

  // ---------------------------------------------------------------- every operation

  lemma PlainMovesNobody(w: World, op: Op, w': World, p: nat)
    requires w.s.Ok() && Legal(w, op) && Step(w, op) == Some(w') && p < |w.s.procs|
    requires !op.Alloc? && !op.SwapInPass? && !op.TurnOff?
    ensures |w'.s.procs| == |w.s.procs| && (w'.s.procs[p].onswap ==> w.s.procs[p].onswap)
  {
  }

  /** Whatever happens, a process goes from memory to the swap device only while it is blocked in
      wait(), pause() or sigsuspend(), is not traced, and owes no reply. */
  lemma OnlyBlockedProcessesLeave(w: World, op: Op, w': World, p: nat)
    requires w.s.Ok() && Legal(w, op) && Step(w, op) == Some(w')
    requires p < |w.s.procs| == |w'.s.procs| && !w.s.procs[p].onswap && w'.s.procs[p].onswap
    ensures w.s.procs[p].paused || w.s.procs[p].waiting || w.s.procs[p].sigsuspended
    ensures !w.s.procs[p].traced && !w.s.procs[p].reply
  {
    match op
    case Alloc(clicks, _) => AllocMovesWaiters(w.s, clicks);
    case SwapInPass => PassMovesWaiters(w.s, 0);
    case TurnOff => OffMovesWaiters(w.s);
    case _ => PlainMovesNobody(w, op, w', p);
  }
}
