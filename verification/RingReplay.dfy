/** The order in which the ring hands messages out, over whole runs: it is the order of the
    reference desk, a stack of urgent messages on top of a queue of normal ones. */
module RingReplay {
  import opened RingDeques
  import opened RingProtocol
  import opened Replays

  /** One access at the desk; on an empty one reading has no effect. */
  function Serve(d: Desk, call: Call<Message>): (Desk, seq<Message>) {
    match call
    case Put(m) => (d.Put(m), [])
    case Get => if d.Empty() then (d, []) else (d.Next().1, [d.Next().0])
  }

  /** The access that the next step of user `i` makes, if any. */
  function CallOf(g: System, i: nat): seq<Call<Message>>
    requires i < |g.users|
  {
    var u := g.users[i];
    if u.pc != Critical then []
    else if u.Reader? then [Get]
    else if u.todo == [] then []
    else [Put(u.todo[0])]
  }

  /** The accesses of a run, in the order in which they happened. */
  ghost function CallsOf(g: System, schedule: seq<nat>, g': System): seq<Call<Message>>
    requires Runs(g, schedule, g')
    decreases |schedule|
  {
    if schedule == [] then []
    else CallOf(g, schedule[0]) + CallsOf(Step(g, schedule[0]).g, schedule[1..], g')
  }

  /** The ring and the messages read, as the desk sees them. */
  ghost function Seen(g: System): (Desk, seq<Message>)
    requires Valid(g.ring)
  {
    (AsDesk(Contents(g.ring)), g.read)
  }

  lemma SendReplays(g: System, i: nat)
    requires Inv(g) && i < |g.users| && Step(g, i).Moved? && Valid(Step(g, i).g.ring)
    requires g.users[i].Sender? && g.users[i].pc == Critical
    ensures var g' := Step(g, i).g;
            Replay(Serve, Seen(g).0, g.read, CallOf(g, i)) == Seen(g') && g'.sent == g.sent + Puts(CallOf(g, i))
  {
    var m := g.users[i].todo[0];
    SendRefinesDesk(g.ring, m);
    ReplayOne(Serve, Seen(g).0, g.read, Put(m));
    assert g.read + [] == g.read;
  }

  lemma ReadReplays(g: System, i: nat)
    requires Inv(g) && i < |g.users| && Step(g, i).Moved? && Valid(Step(g, i).g.ring)
    requires g.users[i].Reader? && g.users[i].pc == Critical
    ensures var g' := Step(g, i).g;
            Replay(Serve, Seen(g).0, g.read, CallOf(g, i)) == Seen(g') && g'.sent == g.sent + Puts(CallOf(g, i))
  {
    ReadRefinesDesk(g.ring);
    ReplayOne(Serve, Seen(g).0, g.read, Get);
  }

  /** What one step does to the ring is what its access does to the desk. */
  lemma StepReplays(g: System, i: nat)
    requires Inv(g) && i < |g.users| && Step(g, i).Moved? && Valid(Step(g, i).g.ring)
    ensures var g' := Step(g, i).g;
            Replay(Serve, Seen(g).0, g.read, CallOf(g, i)) == Seen(g') && g'.sent == g.sent + Puts(CallOf(g, i))
  {
    if g.users[i].pc == Critical {
      if g.users[i].Sender? {
        SendReplays(g, i);
      } else {
        ReadReplays(g, i);
      }
    }
  }

  lemma {:induction false} RunReplays(g: System, schedule: seq<nat>, g': System)
    requires Inv(g) && Runs(g, schedule, g')
    ensures Valid(g'.ring) && Replay(Serve, Seen(g).0, g.read, CallsOf(g, schedule, g')) == Seen(g')
    ensures g'.sent == g.sent + Puts(CallsOf(g, schedule, g'))
    decreases |schedule|
  {
    if schedule != [] {
      var i, g1 := schedule[0], Step(g, schedule[0]).g;
      StepKeeps(g, i);
      StepReplays(g, i);
      RunReplays(g1, schedule[1..], g');
      ReplayFront(Serve, Seen(g).0, g.read, Seen(g1), CallOf(g, i), CallsOf(g1, schedule[1..], g'),
                  g.sent, g1.sent, g'.sent);
    }
  }

  /** Whatever the interleaving, the messages read are exactly those that the desk would have
      handed out for the same accesses, in the same order, and what is left is the same. */
  lemma ReadsAreTheDesks(g: System, schedule: seq<nat>, g': System)
    requires Initial(g) && Runs(g, schedule, g')
    ensures Valid(g'.ring)
    ensures Replay(Serve, Desk([], []), [], CallsOf(g, schedule, g')) == (AsDesk(Contents(g'.ring)), g'.read)
    ensures Puts(CallsOf(g, schedule, g')) == g'.sent
  {
    InitialInv(g);
    assert Contents(g.ring) == [];
    RunReplays(g, schedule, g');
  }
}
