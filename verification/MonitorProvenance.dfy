/** Where the messages come from: over every run each sender puts exactly the messages it set out to
    send, in that order. */
module MonitorProvenance {
  import opened Lists
  import opened PriorityBuffers
  import opened MonitorProtocol
  import opened MonitorTheorems
  import opened Sums

  /** What a sender still has to put: the current message is over with once it has gone through. */
  function StillToPut(u: Thread): seq<Message> {
    if u.Reader? || u.todo == [] then []
    else if Past(u.pc) then u.todo[1..]
    else u.todo
  }

  /** What a thread sets out to send. */
  function Plan(u: Thread): seq<Message> {
    if u.Reader? then [] else u.todo
  }

  /** What a step of thread `j` has added, if that is thread `i`. */
  function PutIn(g: System, j: nat, g': System, i: nat): seq<Message> {
    if j == i then Behind(g.sent, g'.sent) else []
  }

  /** The messages that the steps of thread `i` have added to those sent, in order. */
  ghost function PutBy(g: System, schedule: seq<nat>, g': System, i: nat): seq<Message>
    requires Runs(g, schedule, g')
    decreases |schedule|
  {
    if schedule == [] then []
    else
      var g1 := Step(g, schedule[0]).g;
      PutIn(g, schedule[0], g1, i) + PutBy(g1, schedule[1..], g', i)
  }

  lemma ActPuts(g: System, i: nat, g': System)
    requires i < |g.threads| && Act(g, i) == Moved(g') && g.threads[i].pc == Acting && |g'.threads| == |g.threads|
    ensures g'.sent == g.sent + Behind(g.sent, g'.sent)
    ensures Behind(g.sent, g'.sent) + StillToPut(g'.threads[i]) == StillToPut(g.threads[i])
  {
    var t := g.threads[i];
    if t.Sender? {
      assert t.todo == [t.todo[0]] + t.todo[1..];
    }
  }

  lemma OthersPutNothing(g: System, i: nat, g': System)
    requires i < |g.threads| && Step(g, i) == Moved(g') && |g'.threads| == |g.threads|
    requires g.threads[i].pc != Acting && (g.threads[i].pc == Outside || g.threads[i].Calls() > 0)
    ensures StillToPut(g'.threads[i]) == StillToPut(g.threads[i])
  {
  }

  /** One step of thread `i`, looked at without the others. */
  lemma ThreadPuts(g: System, i: nat, g': System)
    requires i < |g.threads| && Step(g, i) == Moved(g') && |g'.threads| == |g.threads|
    requires g.threads[i].pc == Outside || g.threads[i].Calls() > 0
    ensures g'.sent == g.sent + Behind(g.sent, g'.sent)
    ensures Behind(g.sent, g'.sent) + StillToPut(g'.threads[i]) == StillToPut(g.threads[i])
  {
    if g.threads[i].pc == Acting {
      ActPuts(g, i, g');
    } else {
      OnlyActsMove(g, i, g');
      OthersPutNothing(g, i, g');
      Associate(g.sent, [], []);
      Associate(StillToPut(g.threads[i]), [], []);
    }
  }

  lemma StepPuts(g: System, j: nat, g': System, i: nat)
    requires Inv(g) && j < |g.threads| && i < |g.threads| && Step(g, j) == Moved(g')
    ensures |g'.threads| == |g.threads|
    ensures PutIn(g, j, g', i) + StillToPut(g'.threads[i]) == StillToPut(g.threads[i])
  {
    StepReplaces(g, j, g');
    ThreadPuts(g, j, g');
    Associate([], [], StillToPut(g.threads[i]));
  }

  /** What a sender has put in a run, followed by what it still has to put, is what it had to put
      at the start. */
  lemma {:induction false} RunPuts(g: System, schedule: seq<nat>, g': System, i: nat)
    requires Inv(g) && Runs(g, schedule, g') && i < |g.threads|
    ensures i < |g'.threads|
    ensures PutBy(g, schedule, g', i) + StillToPut(g'.threads[i]) == StillToPut(g.threads[i])
    decreases |schedule|
  {
    if schedule != [] {
      var j, g1 := schedule[0], Step(g, schedule[0]).g;
      StepKeeps(g, j);
      StepPuts(g, j, g1, i);
      RunPuts(g1, schedule[1..], g', i);
      InFront(PutIn(g, j, g1, i), PutBy(g1, schedule[1..], g', i), StillToPut(g'.threads[i]),
              StillToPut(g1.threads[i]), StillToPut(g.threads[i]));
    }
  }

  /** From the start on: the messages of each sender that went through, in order, and those still to
      come are together exactly its plan. */
  lemma SendersKeepTheirPlan(g: System, schedule: seq<nat>, g': System, i: nat)
    requires Initial(g) && Runs(g, schedule, g') && i < |g.threads|
    ensures i < |g'.threads|
    ensures PutBy(g, schedule, g', i) + StillToPut(g'.threads[i]) == Plan(g.threads[i])
  {
    InitialInv(g);
    RunPuts(g, schedule, g', i);
  }

  // ---------------------------------------------------------------- all senders together

  function LeftOver(u: Thread): multiset<Message> { multiset(StillToPut(u)) }

  function Planned(u: Thread): multiset<Message> { multiset(Plan(u)) }

  lemma StepGathers(g: System, i: nat, g': System)
    requires Inv(g) && i < |g.threads| && Step(g, i) == Moved(g')
    ensures multiset(g'.sent) + Gather(g'.threads, LeftOver) == multiset(g.sent) + Gather(g.threads, LeftOver)
  {
    StepReplaces(g, i, g');
    ThreadPuts(g, i, g');
    GatherUpdate(g.threads, i, g'.threads[i], LeftOver);
    var a := Behind(g.sent, g'.sent);
    MultisetOf(g.sent, a);
    MultisetOf(a, StillToPut(g'.threads[i]));
    Handover(multiset(g.sent), multiset(a), Gather(g.threads, LeftOver), Gather(g'.threads, LeftOver),
             LeftOver(g.threads[i]), LeftOver(g'.threads[i]));
  }

  lemma {:induction false} RunGathers(g: System, schedule: seq<nat>, g': System)
    requires Inv(g) && Runs(g, schedule, g')
    ensures multiset(g'.sent) + Gather(g'.threads, LeftOver) == multiset(g.sent) + Gather(g.threads, LeftOver)
    decreases |schedule|
  {
    if schedule != [] {
      var g1 := Step(g, schedule[0]).g;
      StepKeeps(g, schedule[0]);
      StepGathers(g, schedule[0], g1);
      RunGathers(g1, schedule[1..], g');
    }
  }

  lemma StartsWithPlan(g: System)
    requires Initial(g)
    ensures Gather(g.threads, LeftOver) == Gather(g.threads, Planned)
  {
    forall i | 0 <= i < |g.threads| ensures LeftOver(g.threads[i]) == Planned(g.threads[i]) {}
    GatherSame(g.threads, LeftOver, Planned);
  }

  lemma EndsWithNothing(g: System)
    requires AllFinished(g)
    ensures Gather(g.threads, LeftOver) == multiset{}
  {
    forall i | 0 <= i < |g.threads| ensures LeftOver(g.threads[i]) == multiset{} {
      assert g.threads[i].Finished();
    }
    GatherEmpty(g.threads, LeftOver);
  }

  /** When all have finished, the messages sent are those that the senders set out to send, each as
      often as planned. */
  lemma FinishedSentAll(g: System, schedule: seq<nat>, g': System)
    requires Initial(g) && Runs(g, schedule, g') && AllFinished(g')
    ensures multiset(g'.sent) == Gather(g.threads, Planned)
  {
    InitialInv(g);
    RunGathers(g, schedule, g');
    StartsWithPlan(g);
    EndsWithNothing(g');
    assert multiset(g.sent) + Gather(g.threads, Planned) == Gather(g.threads, Planned);
  }
}
