/** The queue of processes that want to be swapped in: what one `swap_in` pass leaves of it,
    and when `swap_inqueue` keeps everybody on it. */
module SwapQueue {
  import opened Options
  import opened Lists
  import opened Holes
  import opened SwapModel
  import opened Tiling
  import opened SwapWorld
  import opened SwapSafety

  /** The entries whose process carries the SWAPIN flag, in queue order. */
  function Flagged(q: seq<nat>, procs: seq<Proc>): seq<nat>
    requires forall i :: 0 <= i < |q| ==> q[i] < |procs|
  {
    if q == [] then []
    else (if procs[q[0]].swapin then [q[0]] else []) + Flagged(q[1..], procs)
  }

  lemma AllocKeepsFlags(s: State, clicks: nat)
    requires s.Ok()
    ensures match AllocMem(s, clicks)
            case Granted(_, s') =>
              s'.queue == s.queue && forall p :: 0 <= p < |s.procs| ==> s'.procs[p].swapin == s.procs[p].swapin
            case NoMem(s') =>
              s'.queue == s.queue && forall p :: 0 <= p < |s.procs| ==> s'.procs[p].swapin == s.procs[p].swapin
            case AllocPanic => true
  {
    AllocSetting(s, clicks);
    var r := AllocMem(s, clicks);
    if !r.AllocPanic? {
      forall p | 0 <= p < |s.procs| ensures r.state.procs[p].swapin == s.procs[p].swapin {
        assert MovedOnly(s.procs[p], r.state.procs[p]);
      }
    }
  }

  /** One turn of the loop, seen from the queue: it touches the flag of its entry only, and
      keeps the entry exactly if the flag stays. */
  lemma ServeQueue(s: State, i: nat)
    requires s.Ok() && Distinct(s.queue) && i < |s.queue| && ServeEntry(s, i).Some?
    ensures var (s', i') := ServeEntry(s, i).value;
            && (forall p :: 0 <= p < |s.procs| && p != s.queue[i] ==> s'.procs[p].swapin == s.procs[p].swapin)
            && (if s'.procs[s.queue[i]].swapin then s'.queue == s.queue && i' == i + 1
                else s'.queue == RemoveAt(s.queue, i) && i' == i)
            && (s'.procs[s.queue[i]].swapin ==> s.procs[s.queue[i]].swapin)
  {
    var p := s.queue[i];
    if s.procs[p].swapin {
      AllocKeepsFlags(s, s.procs[p].Size());
      var r := AllocMem(s, s.procs[p].Size());
      if r.Granted? {
        LoadedEntry(r.state, i, r.base, ServeEntry(s, i).value.0);
      }
    }
  }

  /** `q'` is what a pass from entry `i` on leaves of `q` when it ends with the flags `after`. */
  ghost predicate Leaves(q: seq<nat>, i: nat, q': seq<nat>, before: seq<Proc>, after: seq<Proc>)
    requires i <= |q| && |before| == |after| && forall j :: 0 <= j < |q| ==> q[j] < |after|
  {
    && q' == q[..i] + Flagged(q[i..], after)
    && forall p :: 0 <= p < |after| && (p !in q[i..] || after[p].swapin) ==> after[p].swapin == before[p].swapin
  }

  lemma FlaggedFront(q: seq<nat>, i: nat, procs: seq<Proc>)
    requires i < |q| && forall j :: 0 <= j < |q| ==> q[j] < |procs|
    ensures Flagged(q[i..], procs) == (if procs[q[i]].swapin then [q[i]] else []) + Flagged(q[i + 1..], procs)
  {
    assert q[i..][1..] == q[i + 1..];
  }

  lemma BehindIsOther(q: seq<nat>, i: nat)
    requires Distinct(q) && i < |q|
    ensures q[i] !in q[i + 1..] && forall p :: p in q[i..] <==> p == q[i] || p in q[i + 1..]
  {
    assert q[i..] == [q[i]] + q[i + 1..];
  }

  /** One kept or removed entry in front of what the rest of the pass leaves. */
  lemma LeavesStep(q: seq<nat>, i: nat, q1: seq<nat>, i1: nat, q': seq<nat>,
                   before: seq<Proc>, mid: seq<Proc>, after: seq<Proc>)
    requires |before| == |mid| == |after| && i < |q| && i1 <= |q1|
    requires (forall j :: 0 <= j < |q| ==> q[j] < |after|) && (forall j :: 0 <= j < |q1| ==> q1[j] < |after|)
    requires Distinct(q) && Leaves(q1, i1, q', mid, after)
    requires forall p :: 0 <= p < |mid| && p != q[i] ==> mid[p].swapin == before[p].swapin
    requires mid[q[i]].swapin ==> before[q[i]].swapin
    requires if mid[q[i]].swapin then q1 == q && i1 == i + 1 else q1 == RemoveAt(q, i) && i1 == i
    ensures Leaves(q, i, q', before, after)
  {
    var p := q[i];
    assert q1[i1..] == q[i + 1..];
    BehindIsOther(q, i);
    assert after[p].swapin == mid[p].swapin;
    FlaggedFront(q, i, after);
    LeavesPrefix(q, i, q1, i1, p, mid[p].swapin, Flagged(q[i + 1..], after));
  }

  lemma LeavesPrefix(q: seq<nat>, i: nat, q1: seq<nat>, i1: nat, p: nat, kept: bool, tail: seq<nat>)
    requires i < |q| && i1 <= |q1| && p == q[i]
    requires if kept then q1 == q && i1 == i + 1 else q1 == RemoveAt(q, i) && i1 == i
    ensures q1[..i1] + tail == q[..i] + ((if kept then [p] else []) + tail)
  {
    if kept {
      assert q[..i1] == q[..i] + [p];
    } else {
      assert q1[..i] == q[..i];
    }
  }

  /** A pass leaves the entries before `i` alone, and of the others exactly those, in order,
      whose process is still flagged afterwards. It changes no flag off the queue and sets none. */
  lemma {:induction false} SwapInLeaves(s: State, i: nat)
    requires s.Ok() && Distinct(s.queue) && i <= |s.queue| && SwapInFrom(s, i).Some?
    ensures Leaves(s.queue, i, SwapInFrom(s, i).value.queue, s.procs, SwapInFrom(s, i).value.procs)
    decreases |s.queue| - i
  {
    if i < |s.queue| {
      var (s1, i1) := ServeEntry(s, i).value;
      ServeQueue(s, i);
      if i1 == i { RemoveKeepsDistinct(s.queue, i); }
      SwapInLeaves(s1, i1);
      var s' := SwapInFrom(s, i).value;
      LeavesStep(s.queue, i, s1.queue, i1, s'.queue, s.procs, s1.procs, s'.procs);
    }
  }

  /** `swap_in` leaves exactly the queued processes that are still flagged, in order, without
      duplicates. */
  lemma SwapInLeavesFlagged(s: State)
    requires s.Ok() && Distinct(s.queue) && SwapIn(s).Some?
    ensures var s' := SwapIn(s).value;
            s'.queue == Flagged(s.queue, s'.procs) && Distinct(s'.queue)
  {
    SwapInLeaves(s, 0);
    assert s.queue[0..] == s.queue;
    FlaggedOk(s.queue, SwapIn(s).value.procs);
  }

  lemma {:induction false} FlaggedOk(q: seq<nat>, procs: seq<Proc>)
    requires Distinct(q) && forall i :: 0 <= i < |q| ==> q[i] < |procs|
    ensures Distinct(Flagged(q, procs))
    ensures forall p :: p in Flagged(q, procs) <==> p in q && procs[p].swapin
    decreases |q|
  {
    if q != [] {
      FlaggedOk(q[1..], procs);
      assert q[0] !in q[1..];
      assert forall p :: p in q <==> p == q[0] || p in q[1..];
    }
  }

  lemma LoadedEntry(s: State, i: nat, base: nat, s': State)
    requires s.Ok() && i < |s.queue| && Load(s, i, base) == Some(s')
    ensures var p := s.queue[i];
            && s'.procs == s.procs[p := s'.procs[p]]
            && s'.procs[p] == s.procs[p].MovedTo(base).(onswap := false, swapin := false)
  {
  }

  lemma GrantedEntry(s: State, clicks: nat, p: nat)
    requires s.Ok() && p < |s.procs|
    ensures match AllocMem(s, clicks)
            case Granted(_, s') => MovedOnly(s.procs[p], s'.procs[p])
            case NoMem(s') => MovedOnly(s.procs[p], s'.procs[p])
            case AllocPanic => true
  {
    AllocSetting(s, clicks);
  }

  /** What serving does to the entry served. */
  lemma ServedEntry(s: State, i: nat)
    requires s.Ok() && i < |s.queue| && s.procs[s.queue[i]].swapin && ServeEntry(s, i).Some?
    ensures var p := s.queue[i];
            var rmp, r := ServeEntry(s, i).value.0.procs[p], AllocMem(s, s.procs[p].Size());
            && (r.NoMem? ==> rmp.swapin)
            && (r.Granted? ==>
                  && !rmp.swapin && !rmp.onswap && rmp.Block() == Hole(r.base, s.procs[p].Size())
                  && rmp.sPhys == rmp.dPhys + rmp.stackOff)
  {
    var p := s.queue[i];
    GrantedEntry(s, s.procs[p].Size(), p);
    var r := AllocMem(s, s.procs[p].Size());
    if r.Granted? {
      LoadedEntry(r.state, i, r.base, ServeEntry(s, i).value.0);
    }
  }

  /** The process served at entry `i` is back in real memory, unflagged, with both segments
      mapped alongside, when `swap_in` goes on to the next entry. */
  lemma ServedIsResident(w: World, i: nat)
    requires Inv(w) && i < |w.s.queue| && ServeSafe(w.s, i) && ServeEntry(w.s, i).Some?
    requires w.s.procs[w.s.queue[i]].swapin
    ensures var p := w.s.queue[i];
            var rmp := ServeEntry(w.s, i).value.0.procs[p];
            !rmp.swapin ==>
              && !rmp.onswap && rmp.Block().End() < w.s.swapBase
              && rmp.sPhys == rmp.dPhys + rmp.stackOff && rmp.Size() == w.s.procs[p].Size()
  {
    ServedEntry(w.s, i);
    GrantedEnd(w, w.s.procs[w.s.queue[i]].Size());
  }

  lemma GrantedEnd(w: World, clicks: nat)
    requires Inv(w) && !PicksSwap(w.s.worst, w.s.holes, w.s.swapBase, clicks)
    ensures var r := AllocMem(w.s, clicks); r.Granted? ==> r.base + clicks < w.s.swapBase
  {
    AllocKeeps(w, clicks);
  }

  lemma ResidentInMemory(w: World, p: nat)
    requires p < |w.s.procs| && OfProc(p) in w.blocks
    ensures Inv(w) && !w.s.procs[p].onswap ==> w.blocks[OfProc(p)].base < w.s.swapBase
  {
    if Inv(w) && !w.s.procs[p].onswap { assert BlockOk(w, OfProc(p)); }
  }

  /** One turn of `swap_in` keeps the invariant exactly outside the swap-seed case: a process
      read back into swap space, and no longer flagged as being there, breaks it. */
  lemma ServeKeepsIff(w: World, i: nat)
    requires Inv(w) && i < |w.s.queue| && ServeEntry(w.s, i).Some?
    ensures Inv(After(w, ServeEntry(w.s, i).value.0)) <==> ServeSafe(w.s, i)
  {
    if ServeSafe(w.s, i) {
      ServeKeeps(w, i);
    } else {
      var p := w.s.queue[i];
      SwapSpaceHandedOutIff(w.s.worst, w.s.holes, w.s.swapBase, w.s.procs[p].Size());
      ServedEntry(w.s, i);
      ServeSetting(w.s, i);
      assert ProcOk(w, p);
      ResidentInMemory(After(w, ServeEntry(w.s, i).value.0), p);
    }
  }

  lemma ServeSpares(s: State, i: nat, p: nat)
    requires s.Ok() && i < |s.queue| && ServeEntry(s, i).Some?
    requires p < |s.procs| && p != s.queue[i] && !s.procs[p].Candidate()
    ensures ServeEntry(s, i).value.0.procs[p] == s.procs[p]
  {
    var rmp := s.procs[s.queue[i]];
    if rmp.swapin {
      GrantedEntry(s, rmp.Size(), p);
      var r := AllocMem(s, rmp.Size());
      if r.Granted? {
        LoadedEntry(r.state, i, r.base, ServeEntry(s, i).value.0);
      }
    }
  }

  /** The rest of the pass does not touch a process that is no candidate for swapping out. */
  lemma {:induction false} PassSpares(s: State, i: nat, p: nat)
    requires s.Ok() && Distinct(s.queue) && i <= |s.queue| && SwapInFrom(s, i).Some?
    requires p < |s.procs| && p !in s.queue[i..] && !s.procs[p].Candidate()
    ensures SwapInFrom(s, i).value.procs[p] == s.procs[p]
    decreases |s.queue| - i
  {
    if i < |s.queue| {
      var (s1, i1) := ServeEntry(s, i).value;
      ServeQueue(s, i);
      if i1 == i { RemoveKeepsDistinct(s.queue, i); }
      assert s1.queue[i1..] == s.queue[i..][1..];
      assert s.queue[i] in s.queue[i..];
      ServeSpares(s, i, p);
      PassSpares(s1, i1, p);
    }
  }

  /** Who leaves during a turn of the pass: with an unflagged entry nobody, otherwise exactly the
      resident processes, served or not, whose turn comes while memory is sought for it. */
  lemma ServeEvictsIff(s: State, i: nat, p: nat)
    requires s.Ok() && i < |s.queue| && ServeEntry(s, i).Some?
    requires s.lowUser <= p < |s.procs| && p != s.queue[i] && !s.procs[p].onswap
    ensures var rmp, s' := s.procs[s.queue[i]], ServeEntry(s, i).value.0;
            var tried := rmp.swapin && Choose(s.worst, s.holes, s.swapBase, rmp.Size()).None?;
            && (!tried ==> !s'.procs[p].onswap)
            && (tried ==> (s'.procs[p].onswap <==> TurnComes(s, rmp.Size(), p)))
            && (tried && FirstInTurn(s, p) ==> s'.procs[p].onswap)
            && (tried && OneGoes(s, rmp.Size()) ==> (s'.procs[p].onswap <==> FirstInTurn(s, p)))
  {
    var rmp := s.procs[s.queue[i]];
    if rmp.swapin {
      AllocEvictsIff(s, rmp.Size(), p);
      var r := AllocMem(s, rmp.Size());
      if r.Granted? {
        LoadedEntry(r.state, i, r.base, ServeEntry(s, i).value.0);
      }
    }
  }

  // ---------------------------------------------------------------- a pass that undoes itself

  function SleepingOnSwap(base: nat): Proc {
    Proc(base, base, 0, 10, false, true, false, false, false, true, true)
  }

  function Thrashing(ram: Store, file: Store): State {
    State(8, 0, 1, [Hole(0, 10)], 11, false,
          [SleepingOnSwap(11), SleepingOnSwap(21)], [0, 1], 1, 3, 0, ram, file)
  }

  lemma ThrashFirst(ram: Store, file: Store) returns (s1: State)
    ensures var s := Thrashing(ram, file);
            s.Ok() && ServeEntry(s, 0) == Some((s1, 0)) && s1 == s.(holes := [Hole(11, 10)], queue := [1],
              procs := s1.procs, ram := s1.ram)
            && s1.procs == [SleepingOnSwap(11).(dPhys := 0, sPhys := 0, onswap := false, swapin := false),
                            SleepingOnSwap(21)]
  {
    var s := Thrashing(ram, file);
    assert FirstFit(s.holes, 11, 10) == Some(0);
    assert Carve(s.holes, 0, 10) == [];
    var granted := s.(holes := []);
    assert AllocMem(s, 10) == Granted(0, granted);
    assert Position([], 11) == 0;
    assert Release([], Hole(11, 10)) == [Hole(11, 10)];
    s1 := Load(granted, 0, 0).value;
  }

  lemma ThrashEvict(s1: State)
    requires s1.Ok() && s1.holes == [Hole(11, 10)] && s1.swapBase == 11 && !s1.worst && s1.slots == 8
    requires s1.lowUser == 0 && s1.outswap == 1
    requires s1.procs == [SleepingOnSwap(11).(dPhys := 0, sPhys := 0, onswap := false, swapin := false),
                          SleepingOnSwap(21)]
    ensures SwapOut(s1).Evicted?
    ensures var s2 := SwapOut(s1).state;
            && s2 == s1.(holes := [Hole(0, 10)], procs := s2.procs, file := s2.file, outswap := 0)
            && s2.procs[0].onswap && s2.procs[1] == s1.procs[1]
  {
    assert SwapFit(s1.holes, 11, 10) == Some(0);
    assert Evictable(s1, 0) && NextProc(s1, 1) == 0;
    assert Scan(s1, 1) == Some(0);
    assert Carve(s1.holes, 0, 10) == [];
    assert Position([], 0) == 0;
    assert Release([], Hole(0, 10)) == [Hole(0, 10)];
  }

  lemma ThrashGrant(s1: State, s2: State)
    requires s1.Ok() && s2.Ok() && SwapOut(s1) == Evicted(s2)
    requires s1.holes == [Hole(11, 10)] && s1.swapBase == 11 && !s1.worst
    requires s2.holes == [Hole(0, 10)] && s2.swapBase == 11 && !s2.worst
    ensures AllocMem(s1, 10) == Granted(0, s2.(holes := []))
  {
    assert FirstFit(s1.holes, 11, 10) == None;
    assert FirstFit(s2.holes, 11, 10) == Some(0);
    assert Carve(s2.holes, 0, 10) == [];
    SwapOutShrinks(s1);
    assert AllocMem(s2, 10) == Granted(0, s2.(holes := []));
  }

  lemma ThrashSecond(s1: State) returns (s3: State)
    requires s1.Ok() && s1.holes == [Hole(11, 10)] && s1.swapBase == 11 && !s1.worst && s1.slots == 8
    requires s1.lowUser == 0 && s1.outswap == 1 && s1.queue == [1]
    requires s1.procs == [SleepingOnSwap(11).(dPhys := 0, sPhys := 0, onswap := false, swapin := false),
                          SleepingOnSwap(21)]
    ensures ServeEntry(s1, 0) == Some((s3, 0))
    ensures s3.queue == [] && |s3.procs| == 2 && s3.procs[0].onswap && !s3.procs[1].onswap
  {
    ThrashEvict(s1);
    var s2 := SwapOut(s1).state;
    ThrashGrant(s1, s2);
    s3 := Load(s2.(holes := []), 0, 0).value;
  }

  /** Being served does not mean being in memory when the pass is over: with memory for one,
      the first process is swapped out again to make room for the second. */
  lemma ServedMayLeaveAgain(ram: Store, file: Store)
    ensures var s := Thrashing(ram, file);
            && s.Ok() && SwapIn(s).Some? && ServeEntry(s, 0).Some?
            && !ServeEntry(s, 0).value.0.procs[0].onswap
            && SwapIn(s).value.queue == []
            && SwapIn(s).value.procs[0].onswap && !SwapIn(s).value.procs[1].onswap
  {
    var s := Thrashing(ram, file);
    var s1 := ThrashFirst(ram, file);
    var s3 := ThrashSecond(s1);
    assert SwapInFrom(s3, 0) == Some(s3);
    assert SwapInFrom(s1, 0) == Some(s3);
  }

  // ---------------------------------------------------------------- swap_inqueue

  /** Queueing keeps every entry of the queue if and only if the process was flagged, was not
      on the queue, or was its last entry; otherwise all entries behind it are cut off. */
  lemma QueueingKeepsEntriesIff(s: State, p: nat)
    requires s.Ok() && Distinct(s.queue) && s.lowUser <= p < |s.procs|
    ensures (forall x :: x in s.queue ==> x in SwapInQueue(s, p).queue)
            <==> s.procs[p].swapin || p !in s.queue || s.queue[|s.queue| - 1] == p
  {
    var q := s.queue;
    if !s.procs[p].swapin && p in q {
      var k := IndexOf(q, p);
      if q[|q| - 1] != p {
        var x := q[|q| - 1];
        assert x in q && x !in q[..k + 1];
      } else {
        assert q[..k + 1] == q;
      }
    }
  }

  /** Every flagged process is on the queue, so a pass will look at it. */
  ghost predicate NobodyForgotten(s: State) {
    forall p :: 0 <= p < |s.procs| && s.procs[p].swapin ==> p in s.queue
  }

  lemma QueueingForgetsNobody(s: State, p: nat)
    requires s.Ok() && Distinct(s.queue) && s.lowUser <= p < |s.procs| && NobodyForgotten(s)
    requires s.procs[p].swapin || p !in s.queue
    ensures NobodyForgotten(SwapInQueue(s, p))
    ensures s.procs[p].swapin || SwapInQueue(s, p).queue == s.queue + [p]
  {
  }

  /** A stale entry is what makes queueing forget: when process 3 is still linked but no longer
      flagged, queueing it cuts off process 5, which goes on waiting for a pass to look at it. */
  lemma StaleEntryLosesOthers(s: State)
    requires s.Ok() && s.queue == [3, 5] && s.lowUser <= 3 && |s.procs| > 5
    requires !s.procs[3].swapin && s.procs[5].swapin
    ensures var s' := SwapInQueue(s, 3);
            s'.queue == [3] && s'.procs[5].swapin && !NobodyForgotten(s')
  {
    assert IndexOf(s.queue, 3) == 0;
    var s' := SwapInQueue(s, 3);
    assert s'.procs[5].swapin && 5 !in s'.queue;
  }

  /** A pass forgets nobody. */
  lemma PassForgetsNobody(s: State)
    requires s.Ok() && Distinct(s.queue) && NobodyForgotten(s) && SwapIn(s).Some?
    ensures NobodyForgotten(SwapIn(s).value)
  {
    SwapInLeaves(s, 0);
    assert s.queue[0..] == s.queue;
    FlaggedOk(s.queue, SwapIn(s).value.procs);
  }
}
