/** Where the messages come from: over every run each sender puts exactly the messages it set out to
    send, in that order. */
module RingProvenance {
  import opened Lists
  import opened RingDeques
  import opened RingProtocol
  import opened RingTheorems
  import opened Sums

  /** What a sender still has to put: the current message is over with once it has gone through. */
  function StillToPut(u: User): seq<Message> {
    if u.Reader? || u.todo == [] then []
    else if Past(u.pc) then u.todo[1..]
    else u.todo
  }

  /** What a user sets out to send. */
  function Plan(u: User): seq<Message> {
    if u.Reader? then [] else u.todo
  }

  /** What a step of user `j` has added, if that is user `i`. */
  function PutIn(g: System, j: nat, g': System, i: nat): seq<Message> {
    if j == i then Behind(g.sent, g'.sent) else []
  }

  /** The messages that the steps of user `i` have added to those sent, in order. */
  ghost function PutBy(g: System, schedule: seq<nat>, g': System, i: nat): seq<Message>
    requires Runs(g, schedule, g')
    decreases |schedule|
  {
    if schedule == [] then []
    else
      var g1 := Step(g, schedule[0]).g;
      PutIn(g, schedule[0], g1, i) + PutBy(g1, schedule[1..], g', i)
  }

  /** One step of user `i`, looked at without the others. */
  lemma UserPuts(g: System, i: nat, g': System)
    requires i < |g.users| && Valid(g.ring) && Step(g, i) == Moved(g') && |g'.users| == |g.users|
    requires g.users[i].pc == Outside || g.users[i].Calls() > 0
    ensures g'.sent == g.sent + Behind(g.sent, g'.sent)
    ensures Behind(g.sent, g'.sent) + StillToPut(g'.users[i]) == StillToPut(g.users[i])
  {
    var u := g.users[i];
    if u.Sender? && u.pc == Critical {
      assert u.todo == [u.todo[0]] + u.todo[1..];
    }
  }

  lemma StepReplaces(g: System, i: nat, g': System)
    requires i < |g.users| && Valid(g.ring) && Step(g, i) == Moved(g')
    ensures |g'.users| == |g.users| && g'.users == g.users[i := g'.users[i]]
  {
  }

  lemma StepPuts(g: System, j: nat, g': System, i: nat)
    requires Inv(g) && j < |g.users| && i < |g.users| && Step(g, j) == Moved(g')
    ensures |g'.users| == |g.users|
    ensures PutIn(g, j, g', i) + StillToPut(g'.users[i]) == StillToPut(g.users[i])
  {
    StepReplaces(g, j, g');
    UserPuts(g, j, g');
    Associate([], [], StillToPut(g.users[i]));
  }

  /** What a sender has put in a run, followed by what it still has to put, is what it had to put
      at the start. */
  lemma {:induction false} RunPuts(g: System, schedule: seq<nat>, g': System, i: nat)
    requires Inv(g) && Runs(g, schedule, g') && i < |g.users|
    ensures i < |g'.users|
    ensures PutBy(g, schedule, g', i) + StillToPut(g'.users[i]) == StillToPut(g.users[i])
    decreases |schedule|
  {
    if schedule != [] {
      var j, g1 := schedule[0], Step(g, schedule[0]).g;
      StepKeeps(g, j);
      StepPuts(g, j, g1, i);
      RunPuts(g1, schedule[1..], g', i);
      InFront(PutIn(g, j, g1, i), PutBy(g1, schedule[1..], g', i), StillToPut(g'.users[i]),
              StillToPut(g1.users[i]), StillToPut(g.users[i]));
    }
  }

  /** From the start on: the messages of each sender that went through, in order, and those still to
      come are together exactly its plan. */
  lemma SendersKeepTheirPlan(g: System, schedule: seq<nat>, g': System, i: nat)
    requires Initial(g) && Runs(g, schedule, g') && i < |g.users|
    ensures i < |g'.users|
    ensures PutBy(g, schedule, g', i) + StillToPut(g'.users[i]) == Plan(g.users[i])
  {
    InitialInv(g);
    RunPuts(g, schedule, g', i);
  }

  // ---------------------------------------------------------------- all senders together

  function LeftOver(u: User): multiset<Message> { multiset(StillToPut(u)) }

  function Planned(u: User): multiset<Message> { multiset(Plan(u)) }

  lemma StepGathers(g: System, i: nat, g': System)
    requires Inv(g) && i < |g.users| && Step(g, i) == Moved(g')
    ensures multiset(g'.sent) + Gather(g'.users, LeftOver) == multiset(g.sent) + Gather(g.users, LeftOver)
  {
    StepReplaces(g, i, g');
    UserPuts(g, i, g');
    GatherUpdate(g.users, i, g'.users[i], LeftOver);
    var a := Behind(g.sent, g'.sent);
    MultisetOf(g.sent, a);
    MultisetOf(a, StillToPut(g'.users[i]));
    Handover(multiset(g.sent), multiset(a), Gather(g.users, LeftOver), Gather(g'.users, LeftOver),
             LeftOver(g.users[i]), LeftOver(g'.users[i]));
  }

  lemma {:induction false} RunGathers(g: System, schedule: seq<nat>, g': System)
    requires Inv(g) && Runs(g, schedule, g')
    ensures multiset(g'.sent) + Gather(g'.users, LeftOver) == multiset(g.sent) + Gather(g.users, LeftOver)
    decreases |schedule|
  {
    if schedule != [] {
      var g1 := Step(g, schedule[0]).g;
      StepKeeps(g, schedule[0]);
      StepGathers(g, schedule[0], g1);
      RunGathers(g1, schedule[1..], g');
    }
  }

  lemma StartsWithPlan(g: System)
    requires Initial(g)
    ensures Gather(g.users, LeftOver) == Gather(g.users, Planned)
  {
    forall i | 0 <= i < |g.users| ensures LeftOver(g.users[i]) == Planned(g.users[i]) {}
    GatherSame(g.users, LeftOver, Planned);
  }

  lemma EndsWithNothing(g: System)
    requires AllFinished(g)
    ensures Gather(g.users, LeftOver) == multiset{}
  {
    forall i | 0 <= i < |g.users| ensures LeftOver(g.users[i]) == multiset{} {
      assert g.users[i].Finished();
    }
    GatherEmpty(g.users, LeftOver);
  }

  /** When all have finished, the messages sent are those that the senders set out to send, each as
      often as planned. */
  lemma FinishedSentAll(g: System, schedule: seq<nat>, g': System)
    requires Initial(g) && Runs(g, schedule, g') && AllFinished(g')
    ensures multiset(g'.sent) == Gather(g.users, Planned)
  {
    InitialInv(g);
    RunGathers(g, schedule, g');
    StartsWithPlan(g);
    EndsWithNothing(g');
    assert multiset(g.sent) + Gather(g.users, Planned) == Gather(g.users, Planned);
  }
}
