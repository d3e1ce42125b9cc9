/** The monitor and the threads that use its buffer as a transition system: any number of
    senders and readers, any capacity of at least one, one step per semaphore operation. A
    signalled thread goes on without taking the entry semaphore again; the signaller does. */
module MonitorProtocol {
  import opened Lists
  import opened PriorityBuffers
  import opened Sums

  /** Where a thread stands in `send_msg` or `read_msg`. */
  datatype Pc =
    | Outside        // not in the call, or in front of enter()
    | Entered        // took s, about to look at the size
    | Waiting        // counted itself as waiting, about to leave() the monitor
    | Blocked        // left the monitor, in front of or in the condition's wait()
    | Acting         // about to insert or remove a message
    | Signalling     // about to look whether to signal
    | Reentering     // handed the monitor over, in front of enter()
    | Leaving        // about to leave()

  datatype Thread =
    | Sender(pc: Pc, todo: seq<Message>)   // the messages still to be sent, current one first
    | Reader(pc: Pc, left: nat)            // how many messages it still has to read
  {
    function Calls(): nat { if Sender? then |todo| else left }

    /** Nothing left to do. */
    predicate Finished() { pc == Outside && Calls() == 0 }

    /** Between a successful wait for the monitor and giving it away. */
    predicate Owns() {
      pc == Entered || pc == Waiting || pc == Acting || pc == Signalling || pc == Leaving
    }

    /** Counted as waiting and not yet woken. */
    predicate Waits() { pc == Waiting || pc == Blocked }
  }

  /** `s` is the entry semaphore; `fullW` and `emptyW` are the semaphores of the two conditions,
      `fullN` and `emptyN` their waiting counts. `sent` and `read` record what went through. */
  datatype System = System(
      capacity: nat, s: nat,
      fullW: nat, fullN: nat, emptyW: nat, emptyN: nat,
      buffer: seq<Message>, threads: seq<Thread>,
      sent: seq<Message>, read: seq<Message>)

  /** A thread that cannot go on now, one that went on, or one that popped an empty list. */
  datatype Outcome = Stuck | Moved(g: System) | PoppedEmpty

  function To(g: System, i: nat, pc: Pc): System
    requires i < |g.threads|
  {
    g.(threads := g.threads[i := g.threads[i].(pc := pc)])
  }

  /** enter(): take the entry semaphore. */
  function Enter(g: System, i: nat, next: Pc): Outcome
    requires i < |g.threads|
  {
    if g.s == 0 then Stuck else Moved(To(g, i, next).(s := g.s - 1))
  }

  /** `if (size ...) wait(cond)` up to counting itself. */
  function Check(g: System, i: nat): System
    requires i < |g.threads|
  {
    if g.threads[i].Sender? then
      if |g.buffer| == g.capacity then To(g, i, Waiting).(fullN := g.fullN + 1) else To(g, i, Acting)
    else
      if |g.buffer| == 0 then To(g, i, Waiting).(emptyN := g.emptyN + 1) else To(g, i, Acting)
  }

  /** The wait on the condition's own semaphore. */
  function Wake(g: System, i: nat): Outcome
    requires i < |g.threads|
  {
    if g.threads[i].Sender? then
      if g.fullW == 0 then Stuck else Moved(To(g, i, Acting).(fullW := g.fullW - 1))
    else
      if g.emptyW == 0 then Stuck else Moved(To(g, i, Acting).(emptyW := g.emptyW - 1))
  }

  function Act(g: System, i: nat): Outcome
    requires i < |g.threads|
  {
    var t := g.threads[i];
    if t.Sender? then
      if t.todo == [] then Stuck
      else Moved(To(g, i, Signalling).(buffer := Inserted(g.buffer, t.todo[0]), sent := g.sent + [t.todo[0]]))
    else
      if g.buffer == [] then PoppedEmpty
      else Moved(To(g, i, Signalling).(buffer := g.buffer[1..], read := g.read + [g.buffer[0]]))
  }

  /** `if (size ...) signal(cond)`: with somebody counted, uncount one, post, and go and queue
      for the monitor; otherwise keep it. */
  function Signal(g: System, i: nat): System
    requires i < |g.threads|
  {
    if g.threads[i].Sender? then
      if |g.buffer| == 1 && g.emptyN > 0
      then To(g, i, Reentering).(emptyN := g.emptyN - 1, emptyW := g.emptyW + 1)
      else To(g, i, Leaving)
    else
      if |g.buffer| == g.capacity - 1 && g.fullN > 0
      then To(g, i, Reentering).(fullN := g.fullN - 1, fullW := g.fullW + 1)
      else To(g, i, Leaving)
  }

  /** leave() at the end of a call; the thread goes on to its next call. */
  function Leave(g: System, i: nat): System
    requires i < |g.threads|
  {
    var t := g.threads[i];
    var done := if t.Sender? then Sender(Outside, if t.todo == [] then [] else t.todo[1..])
                else Reader(Outside, if t.left == 0 then 0 else t.left - 1);
    g.(threads := g.threads[i := done], s := g.s + 1)
  }

  function Step(g: System, i: nat): Outcome
    requires i < |g.threads|
  {
    var t := g.threads[i];
    match t.pc
    case Outside => if t.Calls() == 0 then Stuck else Enter(g, i, Entered)
    case Entered => Moved(Check(g, i))
    case Waiting => Moved(To(g, i, Blocked).(s := g.s + 1))
    case Blocked => Wake(g, i)
    case Acting => Act(g, i)
    case Signalling => Moved(Signal(g, i))
    case Reentering => Enter(g, i, Leaving)
    case Leaving => Moved(Leave(g, i))
  }

  predicate Initial(g: System) {
    && g.capacity >= 1 && g.s == 1
    && g.fullW == 0 && g.fullN == 0 && g.emptyW == 0 && g.emptyN == 0
    && g.buffer == [] && g.sent == [] && g.read == []
    && forall i :: 0 <= i < |g.threads| ==> g.threads[i].pc == Outside
  }

  /** A run: the threads of `schedule` step one after the other, none of them stuck. */
  ghost predicate Runs(g: System, schedule: seq<nat>, g': System)
    decreases |schedule|
  {
    if schedule == [] then g == g'
    else
      && schedule[0] < |g.threads|
      && Step(g, schedule[0]).Moved?
      && Runs(Step(g, schedule[0]).g, schedule[1..], g')
  }

  // ---------------------------------------------------------------- the invariant

  function Owning(t: Thread): nat { if t.Owns() then 1 else 0 }

  function WaitingFull(t: Thread): nat { if t.Sender? && t.Waits() then 1 else 0 }

  function WaitingEmpty(t: Thread): nat { if t.Reader? && t.Waits() then 1 else 0 }

  /** Nobody is counted as waiting for something that is already there. */
  predicate Quiet(g: System) {
    (g.fullN > 0 ==> |g.buffer| == g.capacity) && (g.emptyN > 0 ==> |g.buffer| == 0)
  }

  /** What the owner of the monitor may rely on at each point. */
  predicate OwnerOk(g: System, t: Thread) {
    var n := |g.buffer|;
    match t.pc
    case Entered => Quiet(g)
    case Waiting => Quiet(g) && n == if t.Sender? then g.capacity else 0
    case Acting =>
      if t.Sender? then
        n < g.capacity && (g.fullN > 0 ==> n == g.capacity - 1) && (g.emptyN > 0 ==> n == 0)
      else
        n > 0 && (g.emptyN > 0 ==> n == 1) && (g.fullN > 0 ==> n == g.capacity)
    case Signalling =>
      if t.Sender? then
        n > 0 && (g.fullN > 0 ==> n == g.capacity) && (g.emptyN > 0 ==> n == 1)
      else
        n < g.capacity && (g.fullN > 0 ==> n == g.capacity - 1) && (g.emptyN > 0 ==> n == 0)
    case Leaving => Quiet(g)
    case _ => true
  }

  /** The monitor is in exactly one place: free, on its way to a woken thread, or owned. */
  ghost predicate OneToken(g: System) {
    g.s + g.fullW + g.emptyW + Sum(g.threads, Owning) == 1
  }

  ghost predicate Counted(g: System) {
    && g.fullN + g.fullW == Sum(g.threads, WaitingFull)
    && g.emptyN + g.emptyW == Sum(g.threads, WaitingEmpty)
    && (g.fullN == 0 || g.emptyN == 0)
  }

  /** What holds while the monitor is free or on its way: a handed-over monitor finds exactly
      the one free place, or the one message, its new owner was waiting for. */
  predicate TransitOk(g: System) {
    && |g.buffer| <= g.capacity
    && (g.s == 1 ==> Quiet(g))
    && (g.fullW == 1 ==> |g.buffer| == g.capacity - 1 && g.emptyN == 0)
    && (g.emptyW == 1 ==> |g.buffer| == 1 && g.fullN == 0)
  }

  ghost predicate Phases(g: System) {
    && TransitOk(g)
    && forall i :: 0 <= i < |g.threads| && g.threads[i].Owns() ==> OwnerOk(g, g.threads[i])
  }

  ghost predicate Accounted(g: System) {
    && Grouped(g.buffer)
    && (forall u: bool :: Class(g.sent, u) == Class(g.read, u) + Class(g.buffer, u))
    && |g.sent| == |g.read| + |g.buffer|
  }

  ghost predicate Inv(g: System) {
    && g.capacity >= 1
    && OneToken(g) && Counted(g) && Phases(g) && Accounted(g) && Busy(g)
  }

  lemma InitialInv(g: System)
    requires Initial(g)
    ensures Inv(g)
  {
    SumZero(g.threads, Owning);
    SumZero(g.threads, WaitingFull);
    SumZero(g.threads, WaitingEmpty);
    assert [] + [] == Class([], true);
  }

  // ---------------------------------------------------------------- every step keeps it

  /** While one thread owns the monitor, the semaphores are down and nobody else owns it. */
  lemma OwnerAlone(g: System, i: nat)
    requires Inv(g) && i < |g.threads| && g.threads[i].Owns()
    ensures g.s == 0 && g.fullW == 0 && g.emptyW == 0
    ensures forall j :: 0 <= j < |g.threads| && j != i ==> !g.threads[j].Owns()
  {
    SumAtLeast(g.threads, i, Owning);
    forall j | 0 <= j < |g.threads| && j != i ensures !g.threads[j].Owns() {
      SumAtLeastTwo(g.threads, i, j, Owning);
    }
  }

  /** How the counts change when thread `i` becomes `t`. */
  lemma Recount(g: System, i: nat, t: Thread)
    requires i < |g.threads|
    ensures var ts := g.threads[i := t];
            && Sum(ts, Owning) + Owning(g.threads[i]) == Sum(g.threads, Owning) + Owning(t)
            && Sum(ts, WaitingFull) + WaitingFull(g.threads[i]) == Sum(g.threads, WaitingFull) + WaitingFull(t)
            && Sum(ts, WaitingEmpty) + WaitingEmpty(g.threads[i]) == Sum(g.threads, WaitingEmpty) + WaitingEmpty(t)
  {
    SumUpdate(g.threads, i, t, Owning);
    SumUpdate(g.threads, i, t, WaitingFull);
    SumUpdate(g.threads, i, t, WaitingEmpty);
  }

  /** A step replaces one thread. */
  lemma StepReplaces(g: System, i: nat, g': System)
    requires i < |g.threads| && Step(g, i) == Moved(g')
    ensures |g'.threads| == |g.threads| && g'.threads == g.threads[i := g'.threads[i]]
    ensures g'.capacity == g.capacity
  {
    match g.threads[i].pc
    case Acting => ActReplaces(g, i, g');
    case Signalling => assert g' == Signal(g, i);
    case Leaving => assert g' == Leave(g, i);
    case _ =>
  }

  lemma ActReplaces(g: System, i: nat, g': System)
    requires i < |g.threads| && Act(g, i) == Moved(g')
    ensures |g'.threads| == |g.threads| && g'.threads == g.threads[i := g'.threads[i]]
    ensures g'.capacity == g.capacity
  {
  }

  lemma RecountStep(g: System, i: nat, g': System)
    requires i < |g.threads| && Step(g, i) == Moved(g')
    ensures |g'.threads| == |g.threads|
    ensures var t, t' := g.threads[i], g'.threads[i];
            && Sum(g'.threads, Owning) + Owning(t) == Sum(g.threads, Owning) + Owning(t')
            && Sum(g'.threads, WaitingFull) + WaitingFull(t) == Sum(g.threads, WaitingFull) + WaitingFull(t')
            && Sum(g'.threads, WaitingEmpty) + WaitingEmpty(t) == Sum(g.threads, WaitingEmpty) + WaitingEmpty(t')
  {
    StepReplaces(g, i, g');
    Recount(g, i, g'.threads[i]);
  }

  /** What thread `i` turning into `t` means for the semaphores and waiting counts of `g'`. */
  ghost predicate Balanced(g: System, i: nat, g': System, t: Thread)
    requires i < |g.threads|
  {
    var u := g.threads[i];
    && g'.s + g'.fullW + g'.emptyW + Owning(t) == g.s + g.fullW + g.emptyW + Owning(u)
    && g'.fullN + g'.fullW + WaitingFull(u) == g.fullN + g.fullW + WaitingFull(t)
    && g'.emptyN + g'.emptyW + WaitingEmpty(u) == g.emptyN + g.emptyW + WaitingEmpty(t)
  }

  lemma OwnerBalance(g: System, i: nat)
    requires i < |g.threads| && g.threads[i].Owns() && Step(g, i).Moved?
    ensures Balanced(g, i, Step(g, i).g, Step(g, i).g.threads[i])
  {
  }

  lemma TakerBalance(g: System, i: nat)
    requires i < |g.threads| && !g.threads[i].Owns() && Step(g, i).Moved?
    ensures Balanced(g, i, Step(g, i).g, Step(g, i).g.threads[i])
  {
  }

  /** Only a thread that finds the buffer full or empty is newly counted as waiting. */
  lemma WaitersOneSided(g: System, i: nat)
    requires i < |g.threads| && Step(g, i).Moved? && g.capacity >= 1
    requires g.fullN == 0 || g.emptyN == 0
    requires g.threads[i].pc == Entered ==> Quiet(g)
    ensures Step(g, i).g.fullN == 0 || Step(g, i).g.emptyN == 0
  {
  }

  /** Every step keeps the token and the waiting counts. */
  lemma StepCounts(g: System, i: nat)
    requires Inv(g) && i < |g.threads| && Step(g, i).Moved?
    ensures var g' := Step(g, i).g; OneToken(g') && Counted(g')
  {
    RecountStep(g, i, Step(g, i).g);
    if g.threads[i].Owns() {
      OwnerBalance(g, i);
      assert OwnerOk(g, g.threads[i]);
    } else {
      TakerBalance(g, i);
    }
    WaitersOneSided(g, i);
  }

  /** An owner's step, looked at without the other threads. */
  lemma OwnerStepLocal(g: System, i: nat)
    requires i < |g.threads| && g.threads[i].Owns() && Step(g, i).Moved?
    requires g.capacity >= 1 && |g.buffer| <= g.capacity && (g.fullN == 0 || g.emptyN == 0)
    requires g.s == 0 && g.fullW == 0 && g.emptyW == 0 && OwnerOk(g, g.threads[i])
    ensures var g' := Step(g, i).g;
            TransitOk(g') && (g'.threads[i].Owns() ==> OwnerOk(g', g'.threads[i]))
  {
    if g.threads[i].pc == Acting && g.threads[i].Sender? {
      assert |Inserted(g.buffer, g.threads[i].todo[0])| == |g.buffer| + 1;
    }
  }

  /** Only thread `i` may own the monitor after its step. */
  lemma PhasesFrom(g: System, i: nat, g': System)
    requires i < |g.threads| && |g'.threads| == |g.threads| && g'.threads == g.threads[i := g'.threads[i]]
    requires forall j :: 0 <= j < |g.threads| && j != i ==> !g.threads[j].Owns()
    requires TransitOk(g') && (g'.threads[i].Owns() ==> OwnerOk(g', g'.threads[i]))
    ensures Phases(g')
  {
  }

  lemma OwnerStepPhases(g: System, i: nat)
    requires Inv(g) && i < |g.threads| && g.threads[i].Owns() && Step(g, i).Moved?
    ensures Phases(Step(g, i).g)
  {
    OwnerAlone(g, i);
    OwnerStepLocal(g, i);
    StepReplaces(g, i, Step(g, i).g);
    PhasesFrom(g, i, Step(g, i).g);
  }

  /** A thread that steps without owning the monitor takes it from one of the semaphores. */
  lemma TakerTakesToken(g: System, i: nat)
    requires i < |g.threads| && !g.threads[i].Owns() && Step(g, i).Moved?
    ensures g.s + g.fullW + g.emptyW >= 1
  {
  }

  lemma NobodyOwns(g: System)
    requires OneToken(g) && g.s + g.fullW + g.emptyW >= 1
    ensures forall j :: 0 <= j < |g.threads| ==> !g.threads[j].Owns()
    ensures g.s + g.fullW + g.emptyW == 1
  {
    forall j | 0 <= j < |g.threads| ensures !g.threads[j].Owns() {
      SumAtLeast(g.threads, j, Owning);
    }
  }

  /** A taker's step, looked at without the other threads. */
  lemma TakerStepLocal(g: System, i: nat)
    requires i < |g.threads| && !g.threads[i].Owns() && Step(g, i).Moved?
    requires g.capacity >= 1 && TransitOk(g) && g.s + g.fullW + g.emptyW == 1
    ensures var g' := Step(g, i).g;
            TransitOk(g') && (g'.threads[i].Owns() ==> OwnerOk(g', g'.threads[i]))
  {
  }

  lemma TakerStepPhases(g: System, i: nat)
    requires Inv(g) && i < |g.threads| && !g.threads[i].Owns() && Step(g, i).Moved?
    ensures Phases(Step(g, i).g)
  {
    TakerTakesToken(g, i);
    NobodyOwns(g);
    TakerStepLocal(g, i);
    StepReplaces(g, i, Step(g, i).g);
    PhasesFrom(g, i, Step(g, i).g);
  }

  lemma SendClass(q: seq<Message>, sent: seq<Message>, read: seq<Message>, m: Message, u: bool)
    requires Grouped(q) && Class(sent, u) == Class(read, u) + Class(q, u)
    ensures Class(sent + [m], u) == Class(read, u) + Class(Inserted(q, m), u)
  {
    InsertRefinesQueues(q, m);
    ClassConcat(sent, [m], u);
    ClassPure([m], m.Urgent());
    Associate(Class(read, u), Class(q, u), Class([m], u));
    Associate(Class(sent, u), [], []);
  }

  lemma SendAccounted(q: seq<Message>, sent: seq<Message>, read: seq<Message>, m: Message)
    requires Grouped(q) && forall u: bool :: Class(sent, u) == Class(read, u) + Class(q, u)
    ensures Grouped(Inserted(q, m)) && |Inserted(q, m)| == |q| + 1
    ensures forall u: bool :: Class(sent + [m], u) == Class(read, u) + Class(Inserted(q, m), u)
  {
    InsertRefinesQueues(q, m);
    forall u: bool ensures Class(sent + [m], u) == Class(read, u) + Class(Inserted(q, m), u) {
      SendClass(q, sent, read, m, u);
    }
  }

  lemma ReadClass(q: seq<Message>, sent: seq<Message>, read: seq<Message>, u: bool)
    requires q != [] && Class(sent, u) == Class(read, u) + Class(q, u)
    ensures Class(sent, u) == Class(read + [q[0]], u) + Class(q[1..], u)
  {
    assert q == [q[0]] + q[1..];
    ClassConcat(read, [q[0]], u);
    ClassConcat([q[0]], q[1..], u);
    Associate(Class(read, u), Class([q[0]], u), Class(q[1..], u));
  }

  lemma ReadAccounted(q: seq<Message>, sent: seq<Message>, read: seq<Message>)
    requires Grouped(q) && q != [] && forall u: bool :: Class(sent, u) == Class(read, u) + Class(q, u)
    ensures Grouped(q[1..])
    ensures forall u: bool :: Class(sent, u) == Class(read + [q[0]], u) + Class(q[1..], u)
  {
    TakeRefinesQueues(q);
    forall u: bool ensures Class(sent, u) == Class(read + [q[0]], u) + Class(q[1..], u) {
      ReadClass(q, sent, read, u);
    }
  }

  lemma ActAccounted(g: System, i: nat, g': System)
    requires Accounted(g) && i < |g.threads| && Act(g, i) == Moved(g')
    ensures Accounted(g')
  {
    var t := g.threads[i];
    if t.Sender? {
      SendAccounted(g.buffer, g.sent, g.read, t.todo[0]);
    } else {
      ReadAccounted(g.buffer, g.sent, g.read);
    }
  }

  /** Messages move only while a thread acts. */
  lemma OnlyActsMove(g: System, i: nat, g': System)
    requires i < |g.threads| && Step(g, i) == Moved(g') && g.threads[i].pc != Acting
    ensures g'.buffer == g.buffer && g'.sent == g.sent && g'.read == g.read
  {
  }

  lemma StepAccounted(g: System, i: nat, g': System)
    requires Accounted(g) && i < |g.threads| && Step(g, i) == Moved(g')
    ensures Accounted(g')
  {
    if g.threads[i].pc == Acting {
      ActAccounted(g, i, g');
    } else {
      OnlyActsMove(g, i, g');
    }
  }

  /** A thread inside a call has a call to make. */
  ghost predicate Busy(g: System) {
    forall i :: 0 <= i < |g.threads| ==> g.threads[i].pc == Outside || g.threads[i].Calls() > 0
  }

  lemma StepBusy(g: System, i: nat)
    requires Busy(g) && i < |g.threads| && Step(g, i).Moved?
    ensures Busy(Step(g, i).g) && Step(g, i).g.capacity == g.capacity
  {
  }

  /** Every step of every thread keeps the invariant. */
  lemma StepKeeps(g: System, i: nat)
    requires Inv(g) && i < |g.threads| && Step(g, i).Moved?
    ensures Inv(Step(g, i).g)
  {
    StepAccounted(g, i, Step(g, i).g);
    StepBusy(g, i);
    StepCounts(g, i);
    if g.threads[i].Owns() {
      OwnerStepPhases(g, i);
    } else {
      TakerStepPhases(g, i);
    }
  }

  lemma {:induction false} RunKeeps(g: System, schedule: seq<nat>, g': System)
    requires Inv(g) && Runs(g, schedule, g')
    ensures Inv(g')
    decreases |schedule|
  {
    if schedule != [] {
      StepKeeps(g, schedule[0]);
      RunKeeps(Step(g, schedule[0]).g, schedule[1..], g');
    }
  }

  /** A run goes on with one more step. */
  lemma {:induction false} RunSnoc(g: System, schedule: seq<nat>, g1: System, i: nat, g2: System)
    requires Runs(g, schedule, g1) && i < |g1.threads| && Step(g1, i) == Moved(g2)
    ensures Runs(g, schedule + [i], g2)
    decreases |schedule|
  {
    if schedule == [] {
      assert [i][1..] == [] && Runs(g2, [], g2);
    } else {
      RunSnoc(Step(g, schedule[0]).g, schedule[1..], g1, i, g2);
      assert (schedule + [i])[1..] == schedule[1..] + [i];
    }
  }
}
