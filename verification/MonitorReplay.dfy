/** The order in which the monitor's buffer hands messages out, over whole runs: it is the order
    of two queues, of which the urgent one is served first. */
module MonitorReplay {
  import opened PriorityBuffers
  import opened MonitorProtocol
  import opened Replays

  /** The reference design. */
  datatype Counter = Counter(urgent: seq<Message>, normal: seq<Message>) {
    function Put(m: Message): Counter {
      if m.Urgent() then Counter(urgent + [m], normal) else Counter(urgent, normal + [m])
    }

    predicate Empty() { urgent == [] && normal == [] }

    function Next(): (Message, Counter)
      requires !Empty()
    {
      if urgent != [] then (urgent[0], Counter(urgent[1..], normal)) else (normal[0], Counter(urgent, normal[1..]))
    }
  }

  /** One access at the counter; on an empty one reading has no effect. */
  function Serve(c: Counter, call: Call<Message>): (Counter, seq<Message>) {
    match call
    case Put(m) => (c.Put(m), [])
    case Get => if c.Empty() then (c, []) else (c.Next().1, [c.Next().0])
  }

  /** The access that the next step of thread `i` makes, if any. */
  function CallOf(g: System, i: nat): seq<Call<Message>>
    requires i < |g.threads|
  {
    var t := g.threads[i];
    if t.pc != Acting then []
    else if t.Reader? then [Get]
    else if t.todo == [] then []
    else [Put(t.todo[0])]
  }

  /** The accesses of a run, in the order in which they happened. */
  ghost function CallsOf(g: System, schedule: seq<nat>, g': System): seq<Call<Message>>
    requires Runs(g, schedule, g')
    decreases |schedule|
  {
    if schedule == [] then []
    else CallOf(g, schedule[0]) + CallsOf(Step(g, schedule[0]).g, schedule[1..], g')
  }

  function AsCounter(q: seq<Message>): Counter {
    Counter(Class(q, true), Class(q, false))
  }

  /** Inserting by counting is putting at the end of the message's queue. */
  lemma InsertIsPut(q: seq<Message>, m: Message)
    requires Grouped(q)
    ensures AsCounter(Inserted(q, m)) == AsCounter(q).Put(m)
  {
    InsertRefinesQueues(q, m);
  }

  /** Taking the first element is taking the next message. */
  lemma TakeIsNext(q: seq<Message>)
    requires Grouped(q) && q != []
    ensures !AsCounter(q).Empty() && AsCounter(q).Next() == (q[0], AsCounter(q[1..]))
  {
    TakeRefinesQueues(q);
  }

  /** The buffer and the messages read, as the two queues see them. */
  function Seen(g: System): (Counter, seq<Message>) {
    (AsCounter(g.buffer), g.read)
  }

  lemma SendReplays(g: System, i: nat, g': System)
    requires Grouped(g.buffer) && i < |g.threads| && Act(g, i) == Moved(g') && g.threads[i].Sender?
    ensures var call := Put(g.threads[i].todo[0]);
            Replay(Serve, Seen(g).0, g.read, [call]) == Seen(g') && g'.sent == g.sent + Puts([call])
  {
    var m := g.threads[i].todo[0];
    InsertIsPut(g.buffer, m);
    ReplayOne(Serve, Seen(g).0, g.read, Put(m));
    assert g.read + [] == g.read;
  }

  lemma ReadReplays(g: System, i: nat, g': System)
    requires Grouped(g.buffer) && i < |g.threads| && Act(g, i) == Moved(g') && g.threads[i].Reader?
    ensures Replay(Serve, Seen(g).0, g.read, [Get]) == Seen(g') && g'.sent == g.sent + Puts([Get])
  {
    TakeIsNext(g.buffer);
    ReplayOne(Serve, Seen(g).0, g.read, Get);
  }

  /** What one step does to the buffer is what its access does to the two queues. */
  lemma StepReplays(g: System, i: nat, g': System)
    requires Grouped(g.buffer) && i < |g.threads| && Step(g, i) == Moved(g')
    ensures Replay(Serve, Seen(g).0, g.read, CallOf(g, i)) == Seen(g') && g'.sent == g.sent + Puts(CallOf(g, i))
  {
    if g.threads[i].pc != Acting {
      OnlyActsMove(g, i, g');
    } else if g.threads[i].Sender? {
      SendReplays(g, i, g');
    } else {
      ReadReplays(g, i, g');
    }
  }

  lemma {:induction false} RunReplays(g: System, schedule: seq<nat>, g': System)
    requires Inv(g) && Runs(g, schedule, g')
    ensures Replay(Serve, Seen(g).0, g.read, CallsOf(g, schedule, g')) == Seen(g')
    ensures g'.sent == g.sent + Puts(CallsOf(g, schedule, g'))
    decreases |schedule|
  {
    if schedule != [] {
      var i, g1 := schedule[0], Step(g, schedule[0]).g;
      StepKeeps(g, i);
      StepReplays(g, i, g1);
      RunReplays(g1, schedule[1..], g');
      ReplayFront(Serve, Seen(g).0, g.read, Seen(g1), CallOf(g, i), CallsOf(g1, schedule[1..], g'),
                  g.sent, g1.sent, g'.sent);
    }
  }

  /** Whatever the interleaving, the messages read are exactly those that the two queues would
      have handed out for the same accesses, in the same order, and what is left is the same. */
  lemma ReadsAreTheCounters(g: System, schedule: seq<nat>, g': System)
    requires Initial(g) && Runs(g, schedule, g')
    ensures Replay(Serve, Counter([], []), [], CallsOf(g, schedule, g')) == (AsCounter(g'.buffer), g'.read)
    ensures Puts(CallsOf(g, schedule, g')) == g'.sent
  {
    InitialInv(g);
    RunReplays(g, schedule, g');
  }
}
