/** The memory manager's state as a value, and what `alloc_mem`, `free_mem`, `swap_out`,
    `swap_inqueue`, `swap_in`, `swap_on` and `swap_off` make of it. Class `MemoryManager`
    is proved to compute these functions; the theorems are about them. */
module SwapModel {
  import opened Options
  import opened Lists
  import opened Holes
  import opened HoleTables

  const CLICK_RANGE: nat := 0x1_0000_0000

  /** Memory and swap file contents, byte by byte. */
  type Store = int -> bv8

  /** `n` bytes of `src` from `from` on, copied into `dst` at `at`. */
  function CopyBytes(dst: Store, at: int, src: Store, from: int, n: int): (r: Store)
    ensures forall a :: r(a) == if at <= a < at + n then src(from + (a - at)) else dst(a)
  {
    (a: int) => if at <= a < at + n then src(from + (a - at)) else dst(a)
  }

  /** A process table entry. `stackOff` is the distance from the start of the data segment to
      the start of the stack segment, so the image runs over `stackOff + stackLen` clicks. */
  datatype Proc = Proc(
      dPhys: nat, sPhys: nat, stackOff: nat, stackLen: nat,
      paused: bool, waiting: bool, sigsuspended: bool,
      traced: bool, reply: bool, onswap: bool, swapin: bool)
  {
    function Size(): nat { stackOff + stackLen }

    function Block(): Hole { Hole(dPhys, Size()) }

    /** Blocked on a call the memory manager handles, and not to be avoided. */
    predicate Candidate() {
      (paused || waiting || sigsuspended) && !(traced || reply || onswap)
    }

    /** The entry after both segments were mapped from `base` on. */
    function MovedTo(base: nat): Proc {
      this.(dPhys := base, sPhys := base + stackOff)
    }
  }

  datatype State = State(
      slots: nat, lowUser: nat, clickSize: nat,
      holes: seq<Hole>, swapBase: nat, worst: bool,
      procs: seq<Proc>, queue: seq<nat>, outswap: nat,
      swapFd: int, swapOffset: nat, ram: Store, file: Store)
  {
    /** The process table has user entries, and the scan pointer is on one. */
    predicate Ok() {
      && lowUser <= outswap < |procs|
      && forall i :: 0 <= i < |queue| ==> lowUser <= queue[i] < |procs|
    }

    /** Where in the swap file the swap click `base` lives. */
    function FileAt(base: nat): int {
      swapOffset + (base - swapBase) * clickSize
    }
  }

  // ---------------------------------------------------------------- free_mem

  /** None: the machine has panicked because the hole table is full. */
  function FreeMem(s: State, b: Hole): (r: Option<State>)
    ensures r.Some? ==> r.value == s.(holes := Release(s.holes, b))
    ensures r.None? <==> b.len > 0 && |s.holes| == s.slots
  {
    if b.len > 0 && |s.holes| == s.slots then None
    else Some(s.(holes := Release(s.holes, b)))
  }

  // ---------------------------------------------------------------- swap_out

  predicate Evictable(s: State, p: nat)
    requires p < |s.procs|
  {
    s.procs[p].Candidate() && SwapFit(s.holes, s.swapBase, s.procs[p].Size()).Some?
  }

  /** The entry the wrapping scan looks at after `p`. */
  function NextProc(s: State, p: nat): (r: nat)
    requires s.Ok() && p < |s.procs|
    ensures r < |s.procs|
    ensures p >= s.lowUser ==> r >= s.lowUser
  {
    if p + 1 == |s.procs| then s.lowUser else p + 1
  }

  /** How many entries the scan still looks at once it stands on `p`. */
  function Ahead(s: State, p: nat): nat
    requires s.Ok() && s.lowUser <= p < |s.procs|
  {
    if p < s.outswap then s.outswap - p else |s.procs| - s.lowUser - (p - s.outswap)
  }

  /** The scan loop of `swap_out` from `p` on: it stops behind `outswap`. */
  function Scan(s: State, p: nat): (r: Option<nat>)
    requires s.Ok() && s.lowUser <= p < |s.procs|
    ensures r.Some? ==> s.lowUser <= r.value < |s.procs| && Evictable(s, r.value)
    decreases Ahead(s, p)
  {
    var q := NextProc(s, p);
    if Evictable(s, q) then Some(q)
    else if q == s.outswap then None
    else Scan(s, q)
  }

  /** Take the first swap hole that holds the image of `p`, write it there and map it there. */
  function MovedOut(s: State, p: nat): (r: State)
    requires p < |s.procs| && Evictable(s, p)
  {
    var rmp := s.procs[p];
    var i := SwapFit(s.holes, s.swapBase, rmp.Size()).value;
    var newBase := s.holes[i].base;
    s.(holes := Carve(s.holes, i, rmp.Size()),
       file := CopyBytes(s.file, s.FileAt(newBase), s.ram, rmp.dPhys * s.clickSize, rmp.Size() * s.clickSize),
       procs := s.procs[p := rmp.MovedTo(newBase)])
  }

  /** Flag `p` as swapped out and let the next scan start behind it. */
  function Parked(s: State, p: nat): State
    requires p < |s.procs|
  {
    s.(procs := s.procs[p := s.procs[p].(onswap := true)], outswap := p)
  }

  /** Swap `p` out: its old memory is freed once it has moved. */
  function Evict(s: State, p: nat): (r: Option<State>)
    requires s.Ok() && s.lowUser <= p < |s.procs| && Evictable(s, p)
    ensures r.Some? ==> r.value.Ok() && |r.value.procs| == |s.procs|
  {
    match FreeMem(MovedOut(s, p), s.procs[p].Block())
    case None => None
    case Some(freed) => Some(Parked(freed, p))
  }

  datatype SwapOutResult = Nobody | Evicted(state: State) | SwapOutPanic

  function SwapOut(s: State): (r: SwapOutResult)
    requires s.Ok()
    ensures r.Evicted? ==> r.state.Ok() && |r.state.procs| == |s.procs|
  {
    match Scan(s, s.outswap)
    case None => Nobody
    case Some(p) =>
      match Evict(s, p)
      case None => SwapOutPanic
      case Some(s') => Evicted(s')
  }

  /** Number of processes that are not on the swap device. */
  function Residents(procs: seq<Proc>): nat {
    if procs == [] then 0 else (if procs[0].onswap then 0 else 1) + Residents(procs[1..])
  }

  lemma {:induction false} ResidentsUpdate(procs: seq<Proc>, p: nat, proc: Proc)
    requires p < |procs|
    ensures Residents(procs[p := proc]) + (if procs[p].onswap then 0 else 1)
            == Residents(procs) + (if proc.onswap then 0 else 1)
    decreases |procs|
  {
    if p == 0 {
      assert procs[p := proc][1..] == procs[1..];
    } else {
      assert procs[p := proc][1..] == procs[1..][p - 1 := proc];
      ResidentsUpdate(procs[1..], p - 1, proc);
    }
  }

  /** Each successful `swap_out` leaves one resident process fewer. */
  lemma SwapOutShrinks(s: State)
    requires s.Ok() && SwapOut(s).Evicted?
    ensures Residents(SwapOut(s).state.procs) == Residents(s.procs) - 1
  {
    var p := Scan(s, s.outswap).value;
    var s' := Evict(s, p).value;
    assert s'.procs == s.procs[p := s'.procs[p]];
    ResidentsUpdate(s.procs, p, s'.procs[p]);
  }

  // ---------------------------------------------------------------- alloc_mem

  datatype AllocResult = Granted(base: nat, state: State) | NoMem(state: State) | AllocPanic {
    predicate Keeps(s: State) {
      AllocPanic? || (state.Ok() && |state.procs| == |s.procs| && state.queue == s.queue)
    }
  }

  /** Try, and as long as that fails swap somebody out and try again. */
  function AllocMem(s: State, clicks: nat): (r: AllocResult)
    requires s.Ok()
    ensures r.Keeps(s)
    decreases Residents(s.procs)
  {
    match Choose(s.worst, s.holes, s.swapBase, clicks)
    case Some(i) => Granted(s.holes[i].base, s.(holes := Carve(s.holes, i, clicks)))
    case None =>
      match SwapOut(s)
      case Nobody => NoMem(s)
      case SwapOutPanic => AllocPanic
      case Evicted(s') =>
        SwapOutShrinks(s);
        AllocMem(s', clicks)
  }

  // ---------------------------------------------------------------- the swap-in queue

  /** Chaining `p` behind the last entry. An unflagged entry that is still linked gets cut
      off behind itself. */
  function Chained(q: seq<nat>, p: nat): seq<nat> {
    if p in q then q[..IndexOf(q, p) + 1] else q + [p]
  }

  function SwapInQueue(s: State, p: nat): (r: State)
    requires s.Ok() && s.lowUser <= p < |s.procs|
    ensures r.Ok() && |r.procs| == |s.procs|
  {
    if s.procs[p].swapin then s
    else s.(queue := Chained(s.queue, p), procs := s.procs[p := s.procs[p].(swapin := true)])
  }

  /** The image of `p` read from its swap space into the block at `newBase` and mapped there. */
  function ReadIn(s: State, p: nat, newBase: nat): State
    requires p < |s.procs|
  {
    var rmp := s.procs[p];
    s.(procs := s.procs[p := rmp.MovedTo(newBase)],
       ram := CopyBytes(s.ram, newBase * s.clickSize, s.file, s.FileAt(rmp.dPhys), rmp.Size() * s.clickSize))
  }

  /** Both swap flags of `p` cleared. */
  function Awake(s: State, p: nat): State
    requires p < |s.procs|
  {
    s.(procs := s.procs[p := s.procs[p].(onswap := false, swapin := false)])
  }

  /** Read the process of queue entry `i` back into the block at `newBase`, free its swap space
      and take it off the queue. */
  function Load(s: State, i: nat, newBase: nat): (r: Option<State>)
    requires s.Ok() && i < |s.queue|
    ensures r.Some? ==> r.value.Ok() && |r.value.procs| == |s.procs| && r.value.queue == RemoveAt(s.queue, i)
  {
    var p := s.queue[i];
    match FreeMem(ReadIn(s, p, newBase), s.procs[p].Block())
    case None => None
    case Some(freed) => Some(Awake(freed, p).(queue := RemoveAt(s.queue, i)))
  }

  /** A flagged entry's turn: it is loaded if memory is found for it and passed by if not. */
  function Admit(s: State, i: nat): (r: Option<(State, nat)>)
    requires s.Ok() && i < |s.queue|
    ensures r.Some? ==>
              var (s', i') := r.value;
              s'.Ok() && |s'.procs| == |s.procs| && i' <= |s'.queue| && |s'.queue| - i' == |s.queue| - i - 1
  {
    match AllocMem(s, s.procs[s.queue[i]].Size())
    case AllocPanic => None
    case NoMem(s') => Some((s', i + 1))
    case Granted(base, s') =>
      match Load(s', i, base)
      case None => None
      case Some(s'') => Some((s'', i))
  }

  /** One turn of `swap_in`'s loop at queue entry `i`: the state and the entry to look at
      next. An entry without its flag is cleaned out. */
  function ServeEntry(s: State, i: nat): (r: Option<(State, nat)>)
    requires s.Ok() && i < |s.queue|
    ensures r.Some? ==>
              var (s', i') := r.value;
              s'.Ok() && |s'.procs| == |s.procs| && i' <= |s'.queue| && |s'.queue| - i' == |s.queue| - i - 1
  {
    if s.procs[s.queue[i]].swapin then Admit(s, i)
    else Some((s.(queue := RemoveAt(s.queue, i)), i))
  }

  /** `swap_in` from queue entry `i` on; None is a panic. */
  function SwapInFrom(s: State, i: nat): (r: Option<State>)
    requires s.Ok() && i <= |s.queue|
    ensures r.Some? ==> r.value.Ok() && |r.value.procs| == |s.procs|
    decreases |s.queue| - i
  {
    if i == |s.queue| then Some(s)
    else
      match ServeEntry(s, i)
      case None => None
      case Some((s', i')) => SwapInFrom(s', i')
  }

  function SwapIn(s: State): (r: Option<State>)
    requires s.Ok()
    ensures r.Some? ==> r.value.Ok() && |r.value.procs| == |s.procs|
  {
    SwapInFrom(s, 0)
  }

  // ---------------------------------------------------------------- swap_on and swap_off

  /** `fd` is what opening the swap file returned, -1 on failure. */
  function SwapOn(s: State, fd: int, offset: nat, bytes: nat): (r: Option<State>)
    requires s.Ok() && s.clickSize > 0
    ensures r.Some? ==> r.value.Ok() && |r.value.procs| == |s.procs|
  {
    if s.swapFd != -1 then Some(s)
    else if fd < 0 then Some(s.(swapFd := fd))
    else
      var on := s.(swapFd := fd, swapOffset := offset);
      FreeMem(on, Hole(s.swapBase, SwapSize(s, bytes)))
  }

  /** Whole clicks, capped so that the swap area ends inside the click range. */
  function SwapSize(s: State, bytes: nat): nat
    requires s.clickSize > 0
  {
    var size := bytes / s.clickSize;
    var max := if s.swapBase < CLICK_RANGE then CLICK_RANGE - s.swapBase else 0;
    if size > max then max else size
  }

  /** Put every process on swap on the queue, table order. */
  function QueueAll(s: State, p: nat): (r: State)
    requires s.Ok() && s.lowUser <= p <= |s.procs|
    ensures r.Ok() && |r.procs| == |s.procs|
    decreases |s.procs| - p
  {
    if p == |s.procs| then s
    else QueueAll(if s.procs[p].onswap then SwapInQueue(s, p) else s, p + 1)
  }

  ghost predicate SomebodyOnSwap(s: State) {
    exists p :: s.lowUser <= p < |s.procs| && s.procs[p].onswap
  }

  datatype SwapOffResult = Done(state: State) | NotAllIn(state: State) | SwapOffPanic | NilFollowed

  /** The end of `swap_off`, once the pass over the queue is over. */
  ghost function Closed(s: State): (r: SwapOffResult)
    requires s.Ok()
    ensures r.Done? || r.NotAllIn? ==> r.state.Ok()
  {
    if SomebodyOnSwap(s) then NotAllIn(s)
    else
      match Swept(s.holes, s.swapBase)
      case None => NilFollowed
      case Some(left) => Done(s.(holes := left, swapFd := -1))
  }

  ghost function SwapOff(s: State): (r: SwapOffResult)
    requires s.Ok()
    ensures r.Done? || r.NotAllIn? ==> r.state.Ok()
  {
    if s.swapFd == -1 then Done(s)
    else
      match SwapIn(QueueAll(s, s.lowUser))
      case None => SwapOffPanic
      case Some(s') => Closed(s')
  }
}
