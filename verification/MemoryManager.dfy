/** The memory manager as the program has it: the hole table, the process table, the queue
    threaded through the process table, and the globals, all changed in place. Every method
    is proved to compute the function of module `SwapModel` named after it. */
module MemoryManagers {
  import opened Options
  import opened Lists
  import opened Holes
  import opened HoleTables
  import M = SwapModel
  import W = SwapWorld

  /** The process at queue position `i` points at the next one. */
  ghost predicate Follows(swapq: seq<int>, q: seq<nat>, i: int)
    requires forall j :: 0 <= j < |q| ==> q[j] < |swapq|
  {
    0 <= i < |q| ==> swapq[q[i]] == At(q, i + 1)
  }

  /** Following `swapq` from `head` visits the processes of `q` in order and ends. */
  ghost predicate Queued(swapq: seq<int>, head: int, q: seq<nat>) {
    && (forall i :: 0 <= i < |q| ==> q[i] < |swapq|)
    && head == At(q, 0)
    && forall i :: 0 <= i < |q| ==> Follows(swapq, q, i)
  }

  /** `*pmp = rmp->mp_swapq` takes entry `i` out of the queue. */
  lemma UnlinkQueued(a: seq<int>, head: int, q: seq<nat>, i: nat, b: seq<int>)
    requires Queued(a, head, q) && NoRepeat(q) && i < |q|
    requires b == if i == 0 then a else a[q[i - 1] := At(q, i + 1)]
    ensures Queued(b, if i == 0 then At(q, 1) else head, RemoveAt(q, i)) && NoRepeat(RemoveAt(q, i))
  {
    NoRepeatMeans(q);
    NoRepeatMeans(RemoveAt(q, i));
    W.RemoveKeepsDistinct(q, i);
    var rest := RemoveAt(q, i);
    forall j | 0 <= j < |rest| ensures Follows(b, rest, j) {
      var o := if j < i then j else j + 1;
      assert rest[j] == q[o] && Follows(a, q, o);
      assert i > 0 && o != i - 1 ==> q[o] != q[i - 1];
      assert j + 1 < |rest| ==> rest[j + 1] == q[if j + 1 < i then j + 1 else j + 2];
    }
  }

  /** Chaining `p` behind the last entry, where it may already be linked further ahead. */
  lemma ChainQueued(a: seq<int>, head: int, q: seq<nat>, p: nat, b: seq<int>)
    requires Queued(a, head, q) && NoRepeat(q) && p < |a|
    requires b == (if q == [] then a else a[q[|q| - 1] := p])[p := NIL]
    ensures Queued(b, if q == [] then p else head, M.Chained(q, p)) && NoRepeat(M.Chained(q, p))
  {
    NoRepeatMeans(q);
    NoRepeatMeans(M.Chained(q, p));
    W.ChainedOk(q, p);
    var r := M.Chained(q, p);
    forall j | 0 <= j < |r| ensures Follows(b, r, j) {
      if j < |q| {
        assert r[j] == q[j] && Follows(a, q, j);
        assert j + 1 < |r| ==> r[j] != p;
        if j < |q| - 1 { assert q[j] != q[|q| - 1]; }
      }
    }
  }

  lemma MovedInTwoSteps(s: M.State, p: nat, k: nat, s1: M.State, s2: M.State)
    requires p < |s.procs| && M.Evictable(s, p) && k == SwapFit(s.holes, s.swapBase, s.procs[p].Size()).value
    requires s1 == s.(holes := Carve(s.holes, k, s.procs[p].Size()))
    requires s2 == s1.(file := M.CopyBytes(s1.file, s1.FileAt(s.holes[k].base), s1.ram,
                                           s1.procs[p].dPhys * s1.clickSize, s1.procs[p].Size() * s1.clickSize),
                       procs := s1.procs[p := s1.procs[p].MovedTo(s.holes[k].base)])
    ensures s2 == M.MovedOut(s, p)
  {
  }

  lemma AdmitGranted(s: M.State, i: nat, base: nat, s1: M.State)
    requires s.Ok() && s1.Ok() && i < |s.queue| && i < |s1.queue|
    requires M.AllocMem(s, s.procs[s.queue[i]].Size()) == M.Granted(base, s1)
    ensures M.Load(s1, i, base) == None ==> M.Admit(s, i) == None
    ensures M.Load(s1, i, base).Some? ==> M.Admit(s, i) == Some((M.Load(s1, i, base).value, i))
  {
  }

  lemma AdmitPassed(s: M.State, i: nat, s1: M.State)
    requires s.Ok() && i < |s.queue|
    requires M.AllocMem(s, s.procs[s.queue[i]].Size()) == M.NoMem(s1)
    ensures M.Admit(s, i) == Some((s1, i + 1))
  {
  }

  /** A pass over the queue, one turn at a time. */
  lemma PassGoesOn(s: M.State, i: nat, s1: M.State, i1: nat)
    requires s.Ok() && i < |s.queue| && M.ServeEntry(s, i) == Some((s1, i1))
    ensures M.SwapInFrom(s, i) == M.SwapInFrom(s1, i1) && |s1.queue| - i1 == |s.queue| - i - 1
  {
  }

  lemma PassPanics(s: M.State, i: nat)
    requires s.Ok() && i < |s.queue| && M.ServeEntry(s, i) == None
    ensures M.SwapInFrom(s, i) == None
  {
  }

  lemma PassEnds(s: M.State)
    requires s.Ok()
    ensures M.SwapInFrom(s, |s.queue|) == Some(s)
  {
  }

  datatype OffCode = OK | ENOMEM | PANIC | CRASH

  /** What `swap_on` returns; after a success it falls off its end without a value. */
  datatype OnCode = EBUSY | OPEN_ERRNO | NO_VALUE

  class MemoryManager {
    const table: HoleTable
    const mproc: array<M.Proc>
    const swapq: array<int>
    const lowUser: nat
    const clickSize: nat
    var inQueue: int
    var outswap: nat
    var worstFit: int
    var swapFd: int
    var swapOffset: nat
    var ram: M.Store
    var file: M.Store
    ghost var queue: seq<nat>

    /** The globals' initial values, around a hole table set up by `mem_init`. */
    constructor (t: HoleTable, procs: array<M.Proc>, low: nat, click: nat, memory: M.Store, swapFile: M.Store)
      requires t.Valid() && low < procs.Length
      ensures Valid() && table == t && mproc == procs
      ensures Abs() == M.State(t.slot.Length, low, click, t.Contents(), t.swapBase, false,
                               procs[..], [], low, -1, 0, memory, swapFile)
    {
      table, mproc, lowUser, clickSize := t, procs, low, click;
      swapq := new int[procs.Length](_ => NIL);
      inQueue, outswap, worstFit, swapFd, swapOffset := NIL, low, 0, -1, 0;
      ram, file, queue := memory, swapFile, [];
    }

    ghost predicate Shaped()
      reads this, table, table.slot, mproc, swapq
    {
      && table.Valid()
      && swapq.Length == mproc.Length
      && Queued(swapq[..], inQueue, queue)
      && NoRepeat(queue)
    }

    ghost function Abs(): M.State
      reads this, table, table.slot, mproc, swapq
      requires Shaped()
    {
      M.State(table.slot.Length, lowUser, clickSize, table.Contents(), table.swapBase, worstFit != 0,
              mproc[..], queue, outswap, swapFd, swapOffset, ram, file)
    }

    ghost predicate Valid()
      reads this, table, table.slot, mproc, swapq
    {
      Shaped() && Abs().Ok()
    }

    method FreeMem(base: nat, clicks: nat) returns (panicked: bool)
      requires Valid()
      modifies table, table.slot
      ensures Valid()
      ensures M.FreeMem(old(Abs()), Hole(base, clicks)) == if panicked then None else Some(Abs())
    {
      panicked := table.FreeMem(base, clicks);
    }

    // -------------------------------------------------------------- swap_out

    /** The scan of `swap_out` for its next victim, and the swap hole that will take it. */
    method FindVictim() returns (found: bool, rmp: nat, prev: int, hp: int, ghost k: nat)
      requires Valid()
      ensures found <==> M.Scan(Abs(), outswap).Some?
      ensures found ==>
                && rmp == M.Scan(Abs(), outswap).value && lowUser <= rmp < mproc.Length && M.Evictable(Abs(), rmp)
                && k == SwapFit(table.Contents(), table.swapBase, mproc[rmp].Size()).value
                && table.Cursor(hp, prev, k) && hp != NIL
    {
      rmp, found, prev, hp, k := outswap, false, NIL, NIL, 0;
      ghost var s := Abs();
      while true
        invariant lowUser <= rmp < mproc.Length
        invariant M.Scan(s, outswap) == M.Scan(s, rmp)
        decreases M.Ahead(s, rmp)
      {
        rmp := if rmp + 1 == mproc.Length then lowUser else rmp + 1;
        if mproc[rmp].Candidate() {
          prev, hp, k := table.FindSwapHole(mproc[rmp].Size());
          if hp != NIL {
            found := true;
            return;
          }
        }
        if rmp == outswap {
          return;
        }
      }
    }

    /** Bite `size` clicks off the swap hole found. */
    method TakeHole(size: nat, prev: int, hp: int, ghost k: nat) returns (newBase: nat)
      requires Valid() && k < |table.Contents()| && table.Contents()[k].len >= size
      requires table.Cursor(hp, prev, k)
      modifies table, table.slot
      ensures Valid() && newBase == old(Abs()).holes[k].base
      ensures Abs() == old(Abs()).(holes := Carve(old(Abs()).holes, k, size))
    {
      newBase := table.Bite(prev, hp, size, k);
    }

    /** Write the image of `rmp` to the swap file and map it there. */
    method WriteOut(rmp: nat, newBase: nat) returns (oldBase: nat)
      requires Valid() && rmp < mproc.Length
      modifies this`file, mproc
      ensures Valid() && oldBase == old(mproc[rmp].dPhys)
      ensures var s, p := old(Abs()), old(mproc[rmp]);
              Abs() == s.(file := M.CopyBytes(s.file, s.FileAt(newBase), s.ram,
                                              p.dPhys * clickSize, p.Size() * clickSize),
                          procs := s.procs[rmp := p.MovedTo(newBase)])
    {
      var off := swapOffset + (newBase - table.swapBase) * clickSize;
      file := M.CopyBytes(file, off, ram, mproc[rmp].dPhys * clickSize, mproc[rmp].Size() * clickSize);
      oldBase := mproc[rmp].dPhys;
      mproc[rmp] := mproc[rmp].MovedTo(newBase);
    }

    /** Take the swap hole found and move the image of `rmp` there. */
    method MoveOut(rmp: nat, prev: int, hp: int, ghost k: nat) returns (oldBase: nat)
      requires Valid() && lowUser <= rmp < mproc.Length && M.Evictable(Abs(), rmp)
      requires k == SwapFit(table.Contents(), table.swapBase, mproc[rmp].Size()).value
      requires table.Cursor(hp, prev, k)
      modifies this`file, mproc, table, table.slot
      ensures Valid() && oldBase == old(mproc[rmp].dPhys)
      ensures Abs() == M.MovedOut(old(Abs()), rmp)
    {
      ghost var s0 := Abs();
      var newBase := TakeHole(mproc[rmp].Size(), prev, hp, k);
      ghost var s1 := Abs();
      oldBase := WriteOut(rmp, newBase);
      MovedInTwoSteps(s0, rmp, k, s1, Abs());
    }

    /** Set ONSWAP and remember where the scan stopped. */
    method Park(rmp: nat)
      requires Valid() && lowUser <= rmp < mproc.Length
      modifies this`outswap, mproc
      ensures Valid() && Abs() == M.Parked(old(Abs()), rmp)
    {
      mproc[rmp] := mproc[rmp].(onswap := true);
      outswap := rmp;
    }

    method SwapOut() returns (done: bool, panicked: bool)
      requires Valid()
      modifies this`outswap, this`file, mproc, table, table.slot
      ensures panicked ==> M.SwapOut(old(Abs())) == M.SwapOutPanic
      ensures !panicked ==> Valid() && M.SwapOut(old(Abs())) == if done then M.Evicted(Abs()) else M.Nobody
      ensures !panicked && !done ==> Abs() == old(Abs())
    {
      var found, rmp, prev, hp, k := FindVictim();
      if !found {
        return false, false;
      }
      var size := mproc[rmp].Size();
      var oldBase := MoveOut(rmp, prev, hp, k);
      panicked := FreeMem(oldBase, size);
      Park(rmp);
      done := true;
    }

    // -------------------------------------------------------------- alloc_mem

    /** `alloc_mem`: None stands for NO_MEM. */
    method AllocMem(clicks: nat) returns (r: Option<nat>, panicked: bool)
      requires Valid()
      modifies this`outswap, this`file, mproc, table, table.slot
      ensures panicked ==> M.AllocMem(old(Abs()), clicks) == M.AllocPanic
      ensures !panicked ==>
                Valid() && M.AllocMem(old(Abs()), clicks)
                           == if r.Some? then M.Granted(r.value, Abs()) else M.NoMem(Abs())
    {
      ghost var s0 := Abs();
      while true
        invariant Valid() && M.AllocMem(s0, clicks) == M.AllocMem(Abs(), clicks)
        decreases M.Residents(mproc[..])
      {
        ghost var s1 := Abs();
        r := Attempt(clicks);
        if r.Some? {
          return r, false;
        }
        if M.SwapOut(s1).Evicted? { M.SwapOutShrinks(s1); }
        var done, full := SwapOut();
        if full || !done {
          return None, full;
        }
      }
    }

    /** One attempt under the policy in force. */
    method Attempt(clicks: nat) returns (r: Option<nat>)
      requires Valid()
      modifies table, table.slot
      ensures Valid()
      ensures var s := old(Abs());
              match Choose(s.worst, s.holes, s.swapBase, clicks)
              case None => r == None && Abs() == s
              case Some(i) => r == Some(s.holes[i].base) && Abs() == s.(holes := Carve(s.holes, i, clicks))
    {
      if worstFit == 0 {
        r := table.FirstFitAttempt(clicks);
      } else {
        r := table.WorstFitAttempt(clicks);
      }
    }

    /** `do_worst_fit`: only 0 and 1 are taken. */
    method DoWorstFit(x: int)
      requires Valid()
      modifies this`worstFit
      ensures Valid()
      ensures Abs() == if x == 0 || x == 1 then old(Abs()).(worst := x == 1) else old(Abs())
    {
      if x == 0 || x == 1 {
        worstFit := x;
      }
    }

    // -------------------------------------------------------------- the swap-in queue

    /** Hook `rmp` behind the last entry. */
    method Append(last: int, rmp: nat)
      requires Valid() && lowUser <= rmp < mproc.Length && last == At(queue, |queue| - 1)
      modifies this`inQueue, this`queue, swapq
      ensures Valid()
      ensures Abs() == old(Abs()).(queue := M.Chained(old(queue), rmp))
    {
      ghost var links := swapq[..];
      if last == NIL {
        inQueue := rmp;
      } else {
        swapq[last] := rmp;
      }
      swapq[rmp] := NIL;
      ChainQueued(links, old(inQueue), queue, rmp, swapq[..]);
      queue := M.Chained(queue, rmp);
    }

    /** `swap_inqueue`. */
    method SwapInQueue(rmp: nat)
      requires Valid() && lowUser <= rmp < mproc.Length
      modifies this`inQueue, this`queue, mproc, swapq
      ensures Valid()
      ensures Abs() == M.SwapInQueue(old(Abs()), rmp)
    {
      if mproc[rmp].swapin {
        return;
      }
      var last := FindLast();
      Append(last, rmp);
      mproc[rmp] := mproc[rmp].(swapin := true);
    }

    /** The walk to the end of the queue: its last entry, NIL if there is none. */
    method FindLast() returns (last: int)
      requires Valid()
      ensures last == At(queue, |queue| - 1)
    {
      last := NIL;
      var next := inQueue;
      ghost var i := 0;
      while next != NIL
        invariant 0 <= i <= |queue| && next == At(queue, i) && last == At(queue, i - 1)
        decreases |queue| - i
      {
        assert Follows(swapq[..], queue, i);
        last := next;
        next := swapq[next];
        i := i + 1;
      }
    }

    // -------------------------------------------------------------- swap_in

    /** `*pmp = rmp->mp_swapq` for queue entry `i`; a NIL `pmp` stands for the queue head. */
    method Unlink(pmp: int, rmp: int, ghost i: nat)
      requires Valid() && i < |queue| && rmp == queue[i] && pmp == At(queue, i - 1)
      modifies this`inQueue, this`queue, swapq
      ensures Valid() && Abs() == old(Abs()).(queue := RemoveAt(old(queue), i))
      ensures i <= |queue| && pmp == At(queue, i - 1)
    {
      ghost var links := swapq[..];
      assert Follows(links, queue, i);
      if pmp == NIL {
        inQueue := swapq[rmp];
      } else {
        swapq[pmp] := swapq[rmp];
      }
      UnlinkQueued(links, old(inQueue), queue, i, swapq[..]);
      queue := RemoveAt(queue, i);
    }

    /** Map `rmp` into its new block and read its image there. */
    method ReadBack(rmp: nat, newBase: nat) returns (oldBase: nat)
      requires Valid() && rmp < mproc.Length
      modifies this`ram, mproc
      ensures Valid() && oldBase == old(mproc[rmp].dPhys)
      ensures Abs() == M.ReadIn(old(Abs()), rmp, newBase)
    {
      oldBase := mproc[rmp].dPhys;
      var size := mproc[rmp].Size();
      mproc[rmp] := mproc[rmp].MovedTo(newBase);
      var off := swapOffset + (oldBase - table.swapBase) * clickSize;
      ram := M.CopyBytes(ram, newBase * clickSize, file, off, size * clickSize);
    }

    /** Clear ONSWAP and SWAPIN. */
    method Wake(rmp: nat)
      requires Valid() && rmp < mproc.Length
      modifies mproc
      ensures Valid() && Abs() == M.Awake(old(Abs()), rmp)
    {
      mproc[rmp] := mproc[rmp].(onswap := false, swapin := false);
    }

    /** Memory has been found for queue entry `i`: bring it in. */
    method LoadEntry(pmp: int, rmp: nat, newBase: nat, ghost i: nat) returns (panicked: bool)
      requires Valid() && i < |queue| && rmp == queue[i] && pmp == At(queue, i - 1)
      modifies this`inQueue, this`queue, this`ram, mproc, swapq, table, table.slot
      ensures panicked ==> M.Load(old(Abs()), i, newBase) == None
      ensures !panicked ==> Valid() && M.Load(old(Abs()), i, newBase) == Some(Abs())
      ensures !panicked ==> i <= |queue| && pmp == At(queue, i - 1)
    {
      var size := mproc[rmp].Size();
      var oldBase := ReadBack(rmp, newBase);
      panicked := FreeMem(oldBase, size);
      if !panicked {
        Wake(rmp);
        Unlink(pmp, rmp, i);
      }
    }

    /** Find memory for queue entry `i` and load it, or pass it by. */
    method Admit(pmp: int, rmp: nat, ghost i: nat) returns (passed: bool, panicked: bool)
      requires Valid() && i < |queue| && rmp == queue[i] && pmp == At(queue, i - 1)
      modifies this`outswap, this`file, this`inQueue, this`queue, this`ram, mproc, swapq, table, table.slot
      ensures panicked ==> M.Admit(old(Abs()), i) == None
      ensures !panicked ==> Valid() && M.Admit(old(Abs()), i) == Some((Abs(), if passed then i + 1 else i))
      ensures !panicked && passed ==> queue == old(queue) && rmp == At(queue, i)
      ensures !panicked && !passed ==> i <= |queue| && pmp == At(queue, i - 1)
    {
      ghost var s0 := Abs();
      var newBase;
      newBase, panicked := AllocMem(mproc[rmp].Size());
      if panicked {
        return false, true;
      }
      ghost var s1 := Abs();
      if newBase == None {
        AdmitPassed(s0, i, s1);
        return true, false;
      }
      AdmitGranted(s0, i, newBase.value, s1);
      panicked := LoadEntry(pmp, rmp, newBase.value, i);
      passed := false;
    }

    /** One turn of `swap_in`'s loop; `passed` when `pmp` has to move on. */
    method Serve(pmp: int, rmp: nat, ghost i: nat) returns (passed: bool, panicked: bool)
      requires Valid() && i < |queue| && rmp == queue[i] && pmp == At(queue, i - 1)
      modifies this`outswap, this`file, this`inQueue, this`queue, this`ram, mproc, swapq, table, table.slot
      ensures panicked ==> M.ServeEntry(old(Abs()), i) == None
      ensures !panicked ==> Valid() && M.ServeEntry(old(Abs()), i) == Some((Abs(), if passed then i + 1 else i))
      ensures !panicked && passed ==> queue == old(queue) && rmp == At(queue, i)
      ensures !panicked && !passed ==> i <= |queue| && pmp == At(queue, i - 1)
    {
      if !mproc[rmp].swapin {
        Unlink(pmp, rmp, i);
        return false, false;
      }
      passed, panicked := Admit(pmp, rmp, i);
    }

    /** `*pmp` names the entry behind `pmp`. */
    lemma Named(pmp: int, i: nat)
      requires Valid() && i <= |queue| && pmp == At(queue, i - 1)
      ensures i > 0 ==> 0 <= pmp < swapq.Length && swapq[pmp] == At(queue, i)
      ensures i == 0 ==> pmp == NIL && inQueue == At(queue, 0)
    {
      assert Follows(swapq[..], queue, i - 1);
    }

    /** `swap_in`: one pass over the queue by a pointer to the pointer that names the entry. */
    method SwapIn() returns (panicked: bool)
      requires Valid()
      modifies this`outswap, this`file, this`inQueue, this`queue, this`ram, mproc, swapq, table, table.slot
      ensures panicked ==> M.SwapIn(old(Abs())) == None
      ensures !panicked ==> Valid() && M.SwapIn(old(Abs())) == Some(Abs())
    {
      var pmp, rmp := NIL, inQueue;
      ghost var i: nat := 0;
      ghost var result := M.SwapInFrom(Abs(), 0);
      while rmp != NIL
        invariant Valid() && i <= |queue| && rmp == At(queue, i) && pmp == At(queue, i - 1)
        invariant result == M.SwapInFrom(Abs(), i)
        decreases |queue| - i
      {
        ghost var s := Abs();
        var passed;
        passed, panicked := Serve(pmp, rmp, i);
        if panicked {
          PassPanics(s, i);
          return;
        }
        PassGoesOn(s, i, Abs(), if passed then i + 1 else i);
        if passed {
          pmp, i := rmp, i + 1;
        }
        Named(pmp, i);
        rmp := if pmp == NIL then inQueue else swapq[pmp];
      }
      PassEnds(Abs());
      panicked := false;
    }

    // -------------------------------------------------------------- swap_on, swap_off

    /** `swap_on`; `fd` is what opening the swap file returned. */
    method SwapOn(fd: int, offset: nat, bytes: nat) returns (panicked: bool, code: OnCode)
      requires Valid() && clickSize > 0
      modifies this`swapFd, this`swapOffset, table, table.slot
      ensures Valid()
      ensures M.SwapOn(old(Abs()), fd, offset, bytes) == if panicked then None else Some(Abs())
      ensures code == if old(swapFd) != -1 then EBUSY else if fd < 0 then OPEN_ERRNO else NO_VALUE
    {
      if swapFd != -1 {
        return false, EBUSY;
      }
      swapFd := fd;
      if swapFd < 0 {
        return false, OPEN_ERRNO;
      }
      swapOffset := offset;
      var size := SwapClicks(bytes);
      panicked := FreeMem(table.swapBase, size);
      code := NO_VALUE;
    }

    /** The size of the swap area in clicks, capped at what the click range leaves. */
    method SwapClicks(bytes: nat) returns (size: nat)
      requires Valid() && clickSize > 0
      ensures size == M.SwapSize(Abs(), bytes)
    {
      size := bytes / clickSize;
      var max := if table.swapBase < M.CLICK_RANGE then M.CLICK_RANGE - table.swapBase else 0;
      if size > max {
        size := max;
      }
    }

    /** The first loop of `swap_off`. */
    method QueueEverybody()
      requires Valid()
      modifies this`inQueue, this`queue, mproc, swapq
      ensures Valid()
      ensures Abs() == M.QueueAll(old(Abs()), lowUser)
    {
      ghost var s0 := Abs();
      var rmp := lowUser;
      while rmp < mproc.Length
        invariant Valid() && lowUser <= rmp <= mproc.Length
        invariant M.QueueAll(s0, lowUser) == M.QueueAll(Abs(), rmp)
      {
        if mproc[rmp].onswap {
          SwapInQueue(rmp);
        }
        rmp := rmp + 1;
      }
    }

    /** The second loop of `swap_off`. */
    method AllIn() returns (all: bool)
      requires Valid()
      ensures all <==> !M.SomebodyOnSwap(Abs())
    {
      for rmp := lowUser to mproc.Length
        invariant forall p :: lowUser <= p < rmp ==> !mproc[p].onswap
      {
        if mproc[rmp].onswap {
          assert Abs().procs[rmp].onswap;
          return false;
        }
      }
      return true;
    }

    /** Queue everybody on swap and bring in whom `swap_in` can. */
    method BringIn() returns (panicked: bool)
      requires Valid()
      modifies this`outswap, this`file, this`inQueue, this`queue, this`ram, mproc, swapq, table, table.slot
      ensures panicked ==> M.SwapIn(M.QueueAll(old(Abs()), lowUser)) == None
      ensures !panicked ==> Valid() && M.SwapIn(M.QueueAll(old(Abs()), lowUser)) == Some(Abs())
    {
      QueueEverybody();
      panicked := SwapIn();
    }

    /** The sweep of `swap_off`, and the swap file closed. */
    method Close() returns (code: OffCode)
      requires Valid()
      modifies this`swapFd, table, table.slot
      ensures code == OK ==> Valid() && M.Closed(old(Abs())) == M.Done(Abs())
      ensures code == ENOMEM ==> Valid() && M.Closed(old(Abs())) == M.NotAllIn(Abs())
      ensures code == CRASH ==> M.Closed(old(Abs())) == M.NilFollowed
      ensures code != PANIC
    {
      var all := AllIn();
      if !all {
        return ENOMEM;
      }
      var ok := table.SweepSwap();
      if !ok {
        return CRASH;
      }
      swapFd := -1;
      return OK;
    }

    /** `swap_off`. Besides panicking it can follow a NIL pointer while sweeping. */
    method SwapOff() returns (code: OffCode)
      requires Valid()
      modifies this`swapFd, this`outswap, this`file, this`inQueue, this`queue, this`ram,
               mproc, swapq, table, table.slot
      ensures code == OK ==> Valid() && M.SwapOff(old(Abs())) == M.Done(Abs())
      ensures code == ENOMEM ==> Valid() && M.SwapOff(old(Abs())) == M.NotAllIn(Abs())
      ensures code == PANIC ==> M.SwapOff(old(Abs())) == M.SwapOffPanic
      ensures code == CRASH ==> M.SwapOff(old(Abs())) == M.NilFollowed
    {
      if swapFd == -1 {
        return OK;
      }
      ghost var s0 := Abs();
      var panicked := BringIn();
      if panicked {
        return PANIC;
      }
      code := Close();
    }
  }
}
