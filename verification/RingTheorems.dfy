/** What the semaphore-guarded ring guarantees over all runs, and the same in place. */
module RingTheorems {
  import opened RingDeques
  import opened Sums
  import opened RingProtocol
  import opened Semaphores

  // ---------------------------------------------------------------- safety

  /** At most one user is between its down(mutex) and up(mutex). */
  lemma MutualExclusion(g: System, schedule: seq<nat>, g': System, i: nat, j: nat)
    requires Initial(g) && Runs(g, schedule, g')
    requires i < |g'.users| && j < |g'.users| && g'.users[i].Holds() && g'.users[j].Holds()
    ensures i == j
  {
    InitialInv(g);
    RunKeeps(g, schedule, g');
    if i != j {
      SumAtLeastTwo(g'.users, i, j, Holding);
    }
  }

  lemma {:induction false} InFlightSplit(us: seq<User>)
    ensures Sum(us, InFlight) == Sum(us, Reserving) + Sum(us, Announcing) + Sum(us, Claiming) + Sum(us, Returning)
    decreases |us|
  {
    if us != [] {
      InFlightSplit(us[1..]);
    }
  }

  /** The two counting semaphores and the rounds under way always add up to the ring's size,
      no message is overwritten or read from an empty ring, and the tail stands where head and
      size say. */
  lemma RingIsSound(g: System, schedule: seq<nat>, g': System)
    requires Initial(g) && Runs(g, schedule, g')
    ensures g'.empty + g'.full + Sum(g'.users, InFlight) == |g.ring.table|
    ensures Valid(g'.ring) && g'.ring.tail == Wrap(g'.ring.head + g'.ring.size, |g'.ring.table|)
    ensures forall i :: 0 <= i < |g'.users| ==> !Step(g', i).Overrun?
  {
    InitialInv(g);
    RunKeeps(g, schedule, g');
    InFlightSplit(g'.users);
    forall i | 0 <= i < |g'.users| ensures !Step(g', i).Overrun? {
      NoOverrun(g', i);
    }
  }

  /** Nothing is lost, invented or read twice, and normal messages are read in sending order. */
  lemma MessagesConserved(g: System, schedule: seq<nat>, g': System)
    requires Initial(g) && Runs(g, schedule, g')
    ensures Valid(g'.ring)
    ensures multiset(Contents(g'.ring)) + multiset(g'.read) == multiset(g'.sent)
    ensures Normals(g'.sent) == Normals(g'.read) + Normals(Contents(g'.ring))
  {
    InitialInv(g);
    RunKeeps(g, schedule, g');
  }

  // ---------------------------------------------------------------- progress

  ghost predicate AllStuck(g: System)
    requires Valid(g.ring)
  {
    forall i :: 0 <= i < |g.users| ==> !Step(g, i).Moved?
  }

  ghost predicate AllFinished(g: System) {
    forall i :: 0 <= i < |g.users| ==> g.users[i].Finished()
  }

  /** While the mutex is taken its holder can move. */
  lemma HolderMoves(g: System) returns (i: nat)
    requires Inv(g) && g.mutex == 0
    ensures i < |g.users| && Step(g, i).Moved?
  {
    i := SumWitness(g.users, Holding);
    NoOverrun(g, i);
  }

  /** When nothing moves, no round is under way and only users in front of a semaphore that is
      down still have something to do: senders at a full ring, or readers at an empty one. */
  lemma StuckShape(g: System)
    requires Inv(g) && AllStuck(g)
    ensures forall i :: 0 <= i < |g.users| ==> g.users[i].pc == Outside
    ensures g.full == g.ring.size && g.empty == |g.ring.table| - g.ring.size
    ensures || AllFinished(g)
            || (g.ring.size == |g.ring.table|
                && forall i :: 0 <= i < |g.users| ==> g.users[i].Finished() || g.users[i].Sender?)
            || (g.ring.size == 0
                && forall i :: 0 <= i < |g.users| ==> g.users[i].Finished() || g.users[i].Reader?)
  {
    if g.mutex == 0 {
      var i := HolderMoves(g);
      assert false;
    }
    forall i | 0 <= i < |g.users| ensures g.users[i].pc == Outside {
      NoOverrun(g, i);
      assert !Step(g, i).Moved?;
    }
    SumZero(g.users, Reserving);
    SumZero(g.users, Announcing);
    SumZero(g.users, Claiming);
    SumZero(g.users, Returning);
    forall i | 0 <= i < |g.users| && !g.users[i].Finished()
      ensures if g.users[i].Sender? then g.empty == 0 else g.full == 0
    {
      assert !Step(g, i).Moved?;
    }
  }

  // ---------------------------------------------------------------- termination and outcome

  function Rank(pc: Pc): (r: nat)
    ensures r < 5
  {
    match pc
    case Outside => 0
    case Admitted => 1
    case Critical => 2
    case Done => 3
    case Released => 4
  }

  function Work(u: User): nat {
    if u.Calls() == 0 then 0 else 5 * u.Calls() - Rank(u.pc)
  }

  lemma StepWorks(g: System, i: nat)
    requires Inv(g) && i < |g.users| && Step(g, i).Moved?
    ensures Sum(Step(g, i).g.users, Work) < Sum(g.users, Work)
  {
    Recount(g, i, Work);
  }

  /** Every run ends: it has at most five steps for every message to be sent or read. */
  lemma {:induction false} RunsEnd(g: System, schedule: seq<nat>, g': System)
    requires Inv(g) && Runs(g, schedule, g')
    ensures |schedule| + Sum(g'.users, Work) <= Sum(g.users, Work)
    decreases |schedule|
  {
    if schedule != [] {
      StepKeeps(g, schedule[0]);
      StepWorks(g, schedule[0]);
      RunsEnd(Step(g, schedule[0]).g, schedule[1..], g');
    }
  }

  /** The message of the current round has already gone through. */
  predicate Past(pc: Pc) { pc == Done || pc == Released }

  function SendsLeft(u: User): nat {
    if u.Reader? || u.todo == [] then 0 else |u.todo| - (if Past(u.pc) then 1 else 0)
  }

  function ReadsLeft(u: User): nat {
    if u.Sender? || u.left == 0 then 0 else u.left - (if Past(u.pc) then 1 else 0)
  }

  /** One user's step, looked at without the others. */
  lemma UserConserves(g: System, i: nat, g': System)
    requires i < |g.users| && Valid(g.ring) && Step(g, i) == Moved(g') && |g'.users| == |g.users|
    requires g.users[i].pc == Outside || g.users[i].Calls() > 0
    ensures |g'.sent| + SendsLeft(g'.users[i]) == |g.sent| + SendsLeft(g.users[i])
    ensures |g'.read| + ReadsLeft(g'.users[i]) == |g.read| + ReadsLeft(g.users[i])
  {
  }

  lemma StepConserves(g: System, i: nat)
    requires Inv(g) && i < |g.users| && Step(g, i).Moved?
    ensures var g' := Step(g, i).g;
            && |g'.sent| + Sum(g'.users, SendsLeft) == |g.sent| + Sum(g.users, SendsLeft)
            && |g'.read| + Sum(g'.users, ReadsLeft) == |g.read| + Sum(g.users, ReadsLeft)
  {
    Recount(g, i, SendsLeft);
    Recount(g, i, ReadsLeft);
    UserConserves(g, i, Step(g, i).g);
  }

  lemma {:induction false} RunConserves(g: System, schedule: seq<nat>, g': System)
    requires Inv(g) && Runs(g, schedule, g')
    ensures |g'.sent| + Sum(g'.users, SendsLeft) == |g.sent| + Sum(g.users, SendsLeft)
    ensures |g'.read| + Sum(g'.users, ReadsLeft) == |g.read| + Sum(g.users, ReadsLeft)
    decreases |schedule|
  {
    if schedule != [] {
      StepKeeps(g, schedule[0]);
      StepConserves(g, schedule[0]);
      RunConserves(Step(g, schedule[0]).g, schedule[1..], g');
    }
  }

  lemma StuckLeft(g: System)
    requires Inv(g) && AllStuck(g)
    ensures AllFinished(g) <==> Sum(g.users, SendsLeft) == 0 && Sum(g.users, ReadsLeft) == 0
    ensures Sum(g.users, SendsLeft) > 0 ==> g.ring.size == |g.ring.table| && Sum(g.users, ReadsLeft) == 0
    ensures Sum(g.users, ReadsLeft) > 0 ==> g.ring.size == 0 && Sum(g.users, SendsLeft) == 0
  {
    StuckShape(g);
    if AllFinished(g) {
      SumZero(g.users, SendsLeft);
      SumZero(g.users, ReadsLeft);
    } else {
      var i :| 0 <= i < |g.users| && !g.users[i].Finished();
      SumAtLeast(g.users, i, SendsLeft);
      SumAtLeast(g.users, i, ReadsLeft);
      if g.users[i].Sender? {
        SumZero(g.users, ReadsLeft);
      } else {
        SumZero(g.users, SendsLeft);
      }
    }
  }

  /** Whatever the schedule, a run that can go no further has finished all its users if and
      only if there were enough messages for the readers and not more than the readers and the
      ring can take. */
  lemma OutcomeIndependentOfSchedule(g: System, schedule: seq<nat>, g': System)
    requires Initial(g) && Runs(g, schedule, g') && Valid(g'.ring) && AllStuck(g')
    ensures AllFinished(g') <==>
            Sum(g.users, ReadsLeft) <= Sum(g.users, SendsLeft) <= Sum(g.users, ReadsLeft) + |g.ring.table|
  {
    InitialInv(g);
    RunKeeps(g, schedule, g');
    RunConserves(g, schedule, g');
    StuckLeft(g');
  }

  // ---------------------------------------------------------------- in place

  /** The shared ring, its three semaphores and the users' positions. */
  class Shared {
    const mutex: Semaphore
    const empty: Semaphore
    const full: Semaphore
    const queue: Queue
    const users: array<User>
    ghost var sent: seq<Message>
    ghost var read: seq<Message>

    /** What the main program sets up before it forks. */
    constructor (memory: array<Message>, people: array<User>)
      requires memory.Length > 0
      requires forall i :: 0 <= i < people.Length ==> people[i].pc == Outside
      ensures Distinct() && users == people && queue.table == memory
      ensures Initial(Abs()) && Abs().users == people[..]
    {
      queue := new Queue(memory);
      full := new Semaphore(0);
      empty := new Semaphore(memory.Length);
      mutex := new Semaphore(1);
      users, sent, read := people, [], [];
    }

    ghost predicate Distinct()
    {
      mutex != empty && mutex != full && empty != full
    }

    ghost function Abs(): System
      reads this, mutex, empty, full, queue, queue.table, users
    {
      System(mutex.value, empty.value, full.value, queue.Abs(), users[..], sent, read)
    }

    method SetPc(i: nat, pc: Pc)
      requires i < users.Length
      modifies users
      ensures users[..] == old(users[..])[i := old(users[i]).(pc := pc)]
    {
      users[i] := users[i].(pc := pc);
    }

    /** The guarded access to the ring. */
    method Use(i: nat)
      requires i < users.Length && users[i].Calls() > 0 && Valid(queue.Abs())
      requires if users[i].Sender? then queue.size < queue.table.Length else queue.size > 0
      modifies this`sent, this`read, queue, queue.table, users
      ensures Valid(old(queue.Abs())) && Moved(Abs()) == Access(old(Abs()), i)
    {
      if users[i].Sender? {
        var m := users[i].todo[0];
        queue.Send(m);
        sent := sent + [m];
      } else {
        var m := queue.Read();
        read := read + [m];
      }
      SetPc(i, Done);
    }

    /** The last `up` of a round. */
    method EndRound(i: nat)
      requires Distinct() && i < users.Length && users[i].Calls() > 0
      modifies full, empty, users
      ensures Abs() == Finish(old(Abs()), i)
    {
      if users[i].Sender? {
        full.V();
        users[i] := Sender(Outside, users[i].todo[1..]);
      } else {
        empty.V();
        users[i] := Reader(Outside, users[i].left - 1);
      }
    }

    /** The next operation of user `i`'s loop; false when it has to wait or has finished. */
    method Advance(i: nat) returns (moved: bool)
      requires Distinct() && i < users.Length && Valid(queue.Abs())
      requires users[i].pc == Outside || users[i].Calls() > 0
      requires !Step(Abs(), i).Overrun?
      modifies this, mutex, empty, full, queue, queue.table, users
      ensures Valid(old(queue.Abs()))
      ensures if moved then Step(old(Abs()), i) == Moved(Abs())
              else Step(old(Abs()), i) == Stuck && Abs() == old(Abs())
    {
      moved := true;
      match users[i].pc
      case Outside =>
        var gate := if users[i].Sender? then empty else full;
        if users[i].Calls() == 0 || gate.value == 0 {
          return false;
        }
        gate.P();
        SetPc(i, Admitted);
      case Admitted =>
        if mutex.value == 0 {
          return false;
        }
        mutex.P();
        SetPc(i, Critical);
      case Critical =>
        Use(i);
      case Done =>
        mutex.V();
        SetPc(i, Released);
      case Released =>
        EndRound(i);
    }

    /** Any scheduler driving the users performs a run of the transition system: the calls of
        `Advance` that moved. So every theorem about runs holds of the objects. */
    method Drive(schedule: seq<nat>) returns (ghost moves: seq<nat>)
      requires Distinct() && Inv(Abs())
      requires forall k :: 0 <= k < |schedule| ==> schedule[k] < users.Length
      modifies this, mutex, empty, full, queue, queue.table, users
      ensures Inv(Abs()) && Runs(old(Abs()), moves, Abs())
    {
      moves := [];
      ghost var g0 := Abs();
      for k := 0 to |schedule|
        invariant Inv(Abs()) && Runs(g0, moves, Abs())
      {
        ghost var g := Abs();
        var i := schedule[k];
        assert g.users[i] == users[i];
        NoOverrun(g, i);
        var moved := Advance(i);
        if moved {
          StepKeeps(g, i);
          RunSnoc(g0, moves, g, i, Abs());
          moves := moves + [i];
        }
      }
    }
  }
}
