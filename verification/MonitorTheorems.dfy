/** What the monitor and its buffer guarantee over all runs. */
module MonitorTheorems {
  import opened PriorityBuffers
  import opened Sums
  import opened MonitorProtocol

  // ---------------------------------------------------------------- safety

  /** At most one thread is inside the monitor, although a woken thread never takes the entry
      semaphore and a post may land before its addressee has come to wait for it. */
  lemma MutualExclusion(g: System, schedule: seq<nat>, g': System, i: nat, j: nat)
    requires Initial(g) && Runs(g, schedule, g')
    requires i < |g'.threads| && j < |g'.threads| && g'.threads[i].Owns() && g'.threads[j].Owns()
    ensures i == j
  {
    InitialInv(g);
    RunKeeps(g, schedule, g');
    OwnerAlone(g', i);
  }

  /** The entry semaphore, the posts on the way and the owners always add up to one. */
  lemma TokenConserved(g: System, schedule: seq<nat>, g': System)
    requires Initial(g) && Runs(g, schedule, g')
    ensures g'.s + g'.fullW + g'.emptyW + Sum(g'.threads, Owning) == 1
  {
    InitialInv(g);
    RunKeeps(g, schedule, g');
  }

  /** `if` is enough: a sender that resumes finds exactly one place free, a reader that resumes
      exactly one message, whatever other threads tried in between. */
  lemma ResumedFindsItsTurn(g: System, i: nat)
    requires Inv(g) && i < |g.threads| && g.threads[i].pc == Blocked && Step(g, i).Moved?
    ensures |g.buffer| == if g.threads[i].Sender? then g.capacity - 1 else 1
  {
  }

  /** No read pops an empty list, and the buffer never exceeds its capacity. */
  lemma BufferBounds(g: System, schedule: seq<nat>, g': System)
    requires Initial(g) && Runs(g, schedule, g')
    ensures |g'.buffer| <= g'.capacity == g.capacity
    ensures forall i :: 0 <= i < |g'.threads| ==> !Step(g', i).PoppedEmpty?
  {
    InitialInv(g);
    RunKeeps(g, schedule, g');
    RunCapacity(g, schedule, g');
    forall i | 0 <= i < |g'.threads| ensures !Step(g', i).PoppedEmpty? {
      if g'.threads[i].Owns() { assert OwnerOk(g', g'.threads[i]); }
    }
  }

  lemma {:induction false} RunCapacity(g: System, schedule: seq<nat>, g': System)
    requires Runs(g, schedule, g')
    ensures g'.capacity == g.capacity && |g'.threads| == |g.threads|
    decreases |schedule|
  {
    if schedule != [] {
      RunCapacity(Step(g, schedule[0]).g, schedule[1..], g');
    }
  }

  /** No wake-up is lost: with the monitor free, somebody is counted as waiting for space only
      if the buffer is full, and for a message only if it is empty. */
  lemma NoLostWakeUp(g: System, schedule: seq<nat>, g': System)
    requires Initial(g) && Runs(g, schedule, g') && g'.s == 1
    ensures g'.fullN > 0 ==> |g'.buffer| == g'.capacity
    ensures g'.emptyN > 0 ==> |g'.buffer| == 0
  {
    InitialInv(g);
    RunKeeps(g, schedule, g');
  }

  /** Messages of each class are read in the order they were sent: what was read is what was
      sent, less what is in the buffer, and urgent messages stand in front. */
  lemma ClassesAreQueues(g: System, schedule: seq<nat>, g': System, urgent: bool)
    requires Initial(g) && Runs(g, schedule, g')
    ensures Class(g'.sent, urgent) == Class(g'.read, urgent) + Class(g'.buffer, urgent)
    ensures g'.buffer == Class(g'.buffer, true) + Class(g'.buffer, false)
  {
    InitialInv(g);
    RunKeeps(g, schedule, g');
  }

  // ---------------------------------------------------------------- progress

  /** No thread can take a step. */
  ghost predicate AllStuck(g: System) {
    forall i :: 0 <= i < |g.threads| ==> !Step(g, i).Moved?
  }

  ghost predicate AllFinished(g: System) {
    forall i :: 0 <= i < |g.threads| ==> g.threads[i].Finished()
  }

  /** In terms of the priority itself: in every reachable state no message of priority 1 stands behind
      another one, so what is read has priority 1 if any message in the buffer has. */
  lemma PriorityOneIsReadFirst(g: System, schedule: seq<nat>, g': System, k: nat)
    requires Initial(g) && Runs(g, schedule, g') && k < |g'.buffer| && g'.buffer[k].pri == 1
    ensures forall j :: 0 <= j <= k ==> g'.buffer[j].pri == 1
  {
    InitialInv(g);
    RunKeeps(g, schedule, g');
    GroupedIff(g'.buffer);
    assert g'.buffer[k].Urgent();
    forall j | 0 <= j <= k ensures g'.buffer[j].pri == 1 {
      assert g'.buffer[j].Urgent();
    }
  }

  lemma OwnerMoves(g: System, i: nat)
    requires Inv(g) && i < |g.threads| && g.threads[i].Owns()
    ensures Step(g, i).Moved?
  {
    assert OwnerOk(g, g.threads[i]);
  }

  /** A thread that waits outside the monitor moves once its condition has been posted to. */
  lemma WokenMoves(g: System, i: nat)
    requires i < |g.threads| && g.threads[i].Waits() && !g.threads[i].Owns()
    requires if g.threads[i].Sender? then g.fullW > 0 else g.emptyW > 0
    ensures Step(g, i).Moved?
  {
  }

  /** As long as the monitor is owned or on its way to somebody, somebody can move. */
  lemma SomebodyMoves(g: System) returns (i: nat)
    requires Inv(g) && g.s == 0
    ensures i < |g.threads| && Step(g, i).Moved?
  {
    if Sum(g.threads, Owning) > 0 {
      i := SumWitness(g.threads, Owning);
      OwnerMoves(g, i);
    } else if g.fullW > 0 {
      i := SumWitness(g.threads, WaitingFull);
      NotOwning(g, i);
      WokenMoves(g, i);
    } else {
      i := SumWitness(g.threads, WaitingEmpty);
      NotOwning(g, i);
      WokenMoves(g, i);
    }
  }

  /** When nothing moves any more, the monitor is free. */
  lemma StuckIsFree(g: System)
    requires Inv(g) && AllStuck(g)
    ensures g.s == 1 && Sum(g.threads, Owning) == 0
  {
    if g.s == 0 {
      var i := SomebodyMoves(g);
      assert false;
    }
  }

  lemma NotOwning(g: System, i: nat)
    requires i < |g.threads| && Sum(g.threads, Owning) == 0
    ensures !g.threads[i].Owns()
  {
    SumAtLeast(g.threads, i, Owning);
  }

  /** The only way to get stuck with work left: all senders with something to send wait for
      space in a full buffer and no reader has anything left to do, or the other way round. */
  lemma StuckShape(g: System)
    requires Inv(g) && AllStuck(g)
    ensures || AllFinished(g)
            || (|g.buffer| == g.capacity
                && forall i :: 0 <= i < |g.threads| ==>
                     g.threads[i].Finished() || (g.threads[i].Sender? && g.threads[i].pc == Blocked))
            || (g.buffer == []
                && forall i :: 0 <= i < |g.threads| ==>
                     g.threads[i].Finished() || (g.threads[i].Reader? && g.threads[i].pc == Blocked))
  {
    StuckIsFree(g);
    forall i | 0 <= i < |g.threads| ensures g.threads[i].Finished() || g.threads[i].pc == Blocked {
      NotOwning(g, i);
      assert !Step(g, i).Moved?;
    }
    forall i | 0 <= i < |g.threads| && g.threads[i].pc == Blocked
      ensures if g.threads[i].Sender? then g.fullN > 0 else g.emptyN > 0
    {
      SumAtLeast(g.threads, i, WaitingFull);
      SumAtLeast(g.threads, i, WaitingEmpty);
    }
  }

  // ---------------------------------------------------------------- termination

  function Rank(pc: Pc): (r: nat)
    ensures r < 8
  {
    match pc
    case Outside => 0
    case Entered => 1
    case Waiting => 2
    case Blocked => 3
    case Acting => 4
    case Signalling => 5
    case Reentering => 6
    case Leaving => 7
  }

  /** An upper bound for the steps a thread still takes. */
  function Work(t: Thread): nat {
    if t.Calls() == 0 then 0 else 8 * t.Calls() - Rank(t.pc)
  }

  lemma ThreadWorks(g: System, i: nat, g': System)
    requires i < |g.threads| && Step(g, i) == Moved(g') && |g'.threads| == |g.threads|
    requires g.threads[i].pc == Outside || g.threads[i].Calls() > 0
    ensures Work(g'.threads[i]) < Work(g.threads[i])
  {
  }

  lemma StepWorks(g: System, i: nat, g': System)
    requires Busy(g) && i < |g.threads| && Step(g, i) == Moved(g')
    ensures Sum(g'.threads, Work) < Sum(g.threads, Work)
  {
    StepReplaces(g, i, g');
    ThreadWorks(g, i, g');
    SumUpdate(g.threads, i, g'.threads[i], Work);
  }

  /** Every run ends: it has at most eight steps for every message to be sent or read. */
  lemma {:induction false} RunsEnd(g: System, schedule: seq<nat>, g': System)
    requires Inv(g) && Runs(g, schedule, g')
    ensures |schedule| + Sum(g'.threads, Work) <= Sum(g.threads, Work)
    decreases |schedule|
  {
    if schedule != [] {
      StepKeeps(g, schedule[0]);
      StepWorks(g, schedule[0], Step(g, schedule[0]).g);
      RunsEnd(Step(g, schedule[0]).g, schedule[1..], g');
    }
  }

  // ---------------------------------------------------------------- outcome

  /** The message of the current call has already gone through. */
  predicate Past(pc: Pc) { pc == Signalling || pc == Reentering || pc == Leaving }

  function SendsLeft(t: Thread): nat {
    if t.Reader? || t.todo == [] then 0 else |t.todo| - (if Past(t.pc) then 1 else 0)
  }

  function ReadsLeft(t: Thread): nat {
    if t.Sender? || t.left == 0 then 0 else t.left - (if Past(t.pc) then 1 else 0)
  }

  lemma ActConserves(g: System, i: nat, g': System)
    requires i < |g.threads| && Act(g, i) == Moved(g') && |g'.threads| == |g.threads|
    requires g.threads[i].pc == Acting && g.threads[i].Calls() > 0
    ensures |g'.sent| + SendsLeft(g'.threads[i]) == |g.sent| + SendsLeft(g.threads[i])
    ensures |g'.read| + ReadsLeft(g'.threads[i]) == |g.read| + ReadsLeft(g.threads[i])
  {
  }

  /** Steps that move no message leave what is left to do. */
  lemma OtherStepsConserve(g: System, i: nat, g': System)
    requires i < |g.threads| && Step(g, i) == Moved(g') && |g'.threads| == |g.threads|
    requires g.threads[i].pc != Acting && (g.threads[i].pc == Outside || g.threads[i].Calls() > 0)
    ensures SendsLeft(g'.threads[i]) == SendsLeft(g.threads[i])
    ensures ReadsLeft(g'.threads[i]) == ReadsLeft(g.threads[i])
  {
  }

  lemma StepConserves(g: System, i: nat, g': System)
    requires Busy(g) && i < |g.threads| && Step(g, i) == Moved(g')
    ensures |g'.sent| + Sum(g'.threads, SendsLeft) == |g.sent| + Sum(g.threads, SendsLeft)
    ensures |g'.read| + Sum(g'.threads, ReadsLeft) == |g.read| + Sum(g.threads, ReadsLeft)
  {
    StepReplaces(g, i, g');
    SumUpdate(g.threads, i, g'.threads[i], SendsLeft);
    SumUpdate(g.threads, i, g'.threads[i], ReadsLeft);
    if g.threads[i].pc == Acting {
      ActConserves(g, i, g');
    } else {
      OtherStepsConserve(g, i, g');
      OnlyActsMove(g, i, g');
    }
  }

  lemma {:induction false} RunConserves(g: System, schedule: seq<nat>, g': System)
    requires Inv(g) && Runs(g, schedule, g')
    ensures |g'.sent| + Sum(g'.threads, SendsLeft) == |g.sent| + Sum(g.threads, SendsLeft)
    ensures |g'.read| + Sum(g'.threads, ReadsLeft) == |g.read| + Sum(g.threads, ReadsLeft)
    decreases |schedule|
  {
    if schedule != [] {
      StepKeeps(g, schedule[0]);
      StepConserves(g, schedule[0], Step(g, schedule[0]).g);
      RunConserves(Step(g, schedule[0]).g, schedule[1..], g');
    }
  }

  /** What is left to do in a stuck state. */
  lemma StuckLeft(g: System)
    requires Inv(g) && AllStuck(g)
    ensures AllFinished(g) <==> Sum(g.threads, SendsLeft) == 0 && Sum(g.threads, ReadsLeft) == 0
    ensures Sum(g.threads, SendsLeft) > 0 ==> |g.buffer| == g.capacity && Sum(g.threads, ReadsLeft) == 0
    ensures Sum(g.threads, ReadsLeft) > 0 ==> |g.buffer| == 0 && Sum(g.threads, SendsLeft) == 0
  {
    StuckShape(g);
    if AllFinished(g) {
      SumZero(g.threads, SendsLeft);
      SumZero(g.threads, ReadsLeft);
    } else {
      var i :| 0 <= i < |g.threads| && !g.threads[i].Finished();
      SumAtLeast(g.threads, i, SendsLeft);
      SumAtLeast(g.threads, i, ReadsLeft);
      if g.threads[i].Sender? {
        SumZero(g.threads, ReadsLeft);
      } else {
        SumZero(g.threads, SendsLeft);
      }
    }
  }

  /** Whatever the schedule, a run that can go no further has finished all its threads if and
      only if there were enough messages for the readers and not more than the readers and the
      buffer can take. */
  lemma OutcomeIndependentOfSchedule(g: System, schedule: seq<nat>, g': System)
    requires Initial(g) && Runs(g, schedule, g') && AllStuck(g')
    ensures AllFinished(g') <==>
            Sum(g.threads, ReadsLeft) <= Sum(g.threads, SendsLeft) <= Sum(g.threads, ReadsLeft) + g.capacity
  {
    InitialInv(g);
    RunKeeps(g, schedule, g');
    RunConserves(g, schedule, g');
    RunCapacity(g, schedule, g');
    StuckLeft(g');
  }
}
