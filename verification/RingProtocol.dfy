/** Users and readers around the shared ring as a transition system, one step per operation
    on the semaphores `empty`, `full` and `mutex` and one for the access they guard. */
module RingProtocol {
  import opened Lists
  import opened RingDeques
  import opened Sums

  datatype Pc =
    | Outside     // in front of down(empty) or down(full)
    | Admitted    // in front of down(mutex)
    | Critical    // about to send_msg or read_msg
    | Done        // in front of up(mutex)
    | Released    // in front of up(full) or up(empty)

  datatype User =
    | Sender(pc: Pc, todo: seq<Message>)
    | Reader(pc: Pc, left: nat)
  {
    function Calls(): nat { if Sender? then |todo| else left }

    predicate Finished() { pc == Outside && Calls() == 0 }

    predicate Holds() { pc == Critical || pc == Done }
  }

  datatype System = System(
      mutex: nat, empty: nat, full: nat, ring: Ring, users: seq<User>,
      sent: seq<Message>, read: seq<Message>)

  /** `Overrun`: sending into a full ring or reading from an empty one. */
  datatype Outcome = Stuck | Moved(g: System) | Overrun

  function To(g: System, i: nat, pc: Pc): System
    requires i < |g.users|
  {
    g.(users := g.users[i := g.users[i].(pc := pc)])
  }

  function Access(g: System, i: nat): Outcome
    requires i < |g.users| && Valid(g.ring)
  {
    var u := g.users[i];
    if u.Sender? then
      if u.todo == [] then Stuck
      else if g.ring.size == |g.ring.table| then Overrun
      else Moved(To(g, i, Done).(ring := SendMsg(g.ring, u.todo[0]), sent := g.sent + [u.todo[0]]))
    else
      if g.ring.size == 0 then Overrun
      else Moved(To(g, i, Done).(ring := ReadMsg(g.ring).1, read := g.read + [ReadMsg(g.ring).0]))
  }

  /** The last `up` of a round; the user goes on to its next message. */
  function Finish(g: System, i: nat): System
    requires i < |g.users|
  {
    var u := g.users[i];
    if u.Sender? then
      g.(full := g.full + 1, users := g.users[i := Sender(Outside, if u.todo == [] then [] else u.todo[1..])])
    else
      g.(empty := g.empty + 1, users := g.users[i := Reader(Outside, if u.left == 0 then 0 else u.left - 1)])
  }

  function Step(g: System, i: nat): Outcome
    requires i < |g.users| && Valid(g.ring)
  {
    var u := g.users[i];
    match u.pc
    case Outside =>
      if u.Calls() == 0 then Stuck
      else if u.Sender? then
        if g.empty == 0 then Stuck else Moved(To(g, i, Admitted).(empty := g.empty - 1))
      else
        if g.full == 0 then Stuck else Moved(To(g, i, Admitted).(full := g.full - 1))
    case Admitted => if g.mutex == 0 then Stuck else Moved(To(g, i, Critical).(mutex := g.mutex - 1))
    case Critical => Access(g, i)
    case Done => Moved(To(g, i, Released).(mutex := g.mutex + 1))
    case Released => Moved(Finish(g, i))
  }

  predicate Initial(g: System) {
    && Valid(g.ring) && g.ring.size == 0
    && g.mutex == 1 && g.empty == |g.ring.table| && g.full == 0
    && g.sent == [] && g.read == []
    && forall i :: 0 <= i < |g.users| ==> g.users[i].pc == Outside
  }

  ghost predicate Runs(g: System, schedule: seq<nat>, g': System)
    decreases |schedule|
  {
    if schedule == [] then g == g'
    else
      && schedule[0] < |g.users| && Valid(g.ring)
      && Step(g, schedule[0]).Moved?
      && Runs(Step(g, schedule[0]).g, schedule[1..], g')
  }

  // ---------------------------------------------------------------- the invariant

  function Holding(u: User): nat { if u.Holds() then 1 else 0 }

  /** A sender that took a place and has not filled it yet. */
  function Reserving(u: User): nat {
    if u.Sender? && (u.pc == Admitted || u.pc == Critical) then 1 else 0
  }

  /** A sender that filled a place and has not announced it yet. */
  function Announcing(u: User): nat {
    if u.Sender? && (u.pc == Done || u.pc == Released) then 1 else 0
  }

  /** A reader that was promised a message and has not taken it yet. */
  function Claiming(u: User): nat {
    if u.Reader? && (u.pc == Admitted || u.pc == Critical) then 1 else 0
  }

  /** A reader that took a message and has not given the place back yet. */
  function Returning(u: User): nat {
    if u.Reader? && (u.pc == Done || u.pc == Released) then 1 else 0
  }

  /** Between the first `down` and the last `up` of a round. */
  function InFlight(u: User): nat { if u.pc != Outside then 1 else 0 }

  ghost predicate Counted(g: System) {
    && g.mutex + Sum(g.users, Holding) == 1
    && g.empty + Sum(g.users, Reserving) + Sum(g.users, Returning) == |g.ring.table| - g.ring.size
    && g.full + Sum(g.users, Announcing) + Sum(g.users, Claiming) == g.ring.size
  }

  /** The normal messages in order. */
  function Normals(c: seq<Message>): seq<Message> {
    if c == [] then []
    else Normals(c[..|c| - 1]) + (if c[|c| - 1].Urgent() then [] else [c[|c| - 1]])
  }

  ghost predicate Accounted(g: System)
    requires Valid(g.ring)
  {
    Grouped(Contents(g.ring)) && Balanced(Contents(g.ring), g.sent, g.read)
  }

  ghost predicate Busy(g: System) {
    forall i :: 0 <= i < |g.users| ==> g.users[i].pc == Outside || g.users[i].Calls() > 0
  }

  ghost predicate Inv(g: System) {
    Valid(g.ring) && Counted(g) && Accounted(g) && Busy(g)
  }

  lemma InitialInv(g: System)
    requires Initial(g)
    ensures Inv(g)
  {
    SumZero(g.users, Holding);
    SumZero(g.users, Reserving);
    SumZero(g.users, Announcing);
    SumZero(g.users, Claiming);
    SumZero(g.users, Returning);
    assert Contents(g.ring) == [];
  }

  // ---------------------------------------------------------------- every step keeps it

  /** The semaphores admit nobody for whom there is no place or no message. */
  lemma NoOverrun(g: System, i: nat)
    requires Inv(g) && i < |g.users|
    ensures !Step(g, i).Overrun?
  {
    SumAtLeast(g.users, i, Reserving);
    SumAtLeast(g.users, i, Claiming);
  }

  lemma Recount(g: System, i: nat, f: User -> nat)
    requires i < |g.users| && Valid(g.ring) && Step(g, i).Moved?
    ensures var g' := Step(g, i).g;
            Sum(g'.users, f) + f(g.users[i]) == Sum(g.users, f) + f(g'.users[i])
  {
    var g' := Step(g, i).g;
    assert g'.users == g.users[i := g'.users[i]];
    SumUpdate(g.users, i, g'.users[i], f);
  }

  /** What one user's step does to the semaphores and the ring, seen through the counts. */
  lemma StepBalance(g: System, i: nat)
    requires i < |g.users| && Valid(g.ring) && Step(g, i).Moved? && (g.users[i].pc == Outside || g.users[i].Calls() > 0)
    ensures var g', u, u' := Step(g, i).g, g.users[i], Step(g, i).g.users[i];
            && g'.mutex + Holding(u') == g.mutex + Holding(u)
            && g'.empty + Reserving(u') + Returning(u') + g'.ring.size
               == g.empty + Reserving(u) + Returning(u) + g.ring.size
            && g'.full + Announcing(u') + Claiming(u') + g.ring.size
               == g.full + Announcing(u) + Claiming(u) + g'.ring.size
  {
  }

  lemma StepCounted(g: System, i: nat)
    requires Inv(g) && i < |g.users| && Step(g, i).Moved?
    ensures Valid(Step(g, i).g.ring) && Counted(Step(g, i).g)
    ensures |Step(g, i).g.ring.table| == |g.ring.table|
  {
    StepRing(g, i);
    StepBalance(g, i);
    Recount(g, i, Holding);
    Recount(g, i, Reserving);
    Recount(g, i, Announcing);
    Recount(g, i, Claiming);
    Recount(g, i, Returning);
  }

  lemma StepRing(g: System, i: nat)
    requires i < |g.users| && Valid(g.ring) && Step(g, i).Moved?
    ensures Valid(Step(g, i).g.ring) && |Step(g, i).g.ring.table| == |g.ring.table|
  {
    if g.users[i].pc == Critical {
      if g.users[i].Sender? {
        SendDeque(g.ring, g.users[i].todo[0]);
      } else {
        ReadDeque(g.ring);
      }
    }
  }

  lemma {:induction false} NormalsConcat(a: seq<Message>, b: seq<Message>)
    ensures Normals(a + b) == Normals(a) + Normals(b)
    decreases |b|
  {
    if b == [] {
      assert a + b == a;
    } else {
      assert (a + b)[..|a + b| - 1] == a + b[..|b| - 1];
      NormalsConcat(a, b[..|b| - 1]);
    }
  }

  lemma NormalsOne(m: Message)
    ensures Normals([m]) == if m.Urgent() then [] else [m]
  {
    assert [m][..0] == [];
  }

  lemma SendNormals(c: seq<Message>, sent: seq<Message>, read: seq<Message>, m: Message)
    requires Normals(sent) == Normals(read) + Normals(c)
    ensures Normals(sent + [m]) == Normals(read) + Normals(if m.Urgent() then [m] + c else c + [m])
  {
    NormalsConcat(sent, [m]);
    NormalsOne(m);
    if m.Urgent() {
      NormalsConcat([m], c);
      Associate(Normals(sent), [], []);
      Associate(Normals(c), [], []);
    } else {
      NormalsConcat(c, [m]);
      Associate(Normals(read), Normals(c), [m]);
    }
  }

  lemma ReadNormals(c: seq<Message>, rest: seq<Message>, sent: seq<Message>, read: seq<Message>, m: Message)
    requires c == [m] + rest && Normals(sent) == Normals(read) + Normals(c)
    ensures Normals(sent) == Normals(read + [m]) + Normals(rest)
  {
    NormalsConcat([m], rest);
    NormalsConcat(read, [m]);
    Associate(Normals(read), Normals([m]), Normals(rest));
  }

  /** The books over contents, sent and read messages. */
  ghost predicate Balanced(c: seq<Message>, sent: seq<Message>, read: seq<Message>) {
    && multiset(sent) == multiset(read) + multiset(c)
    && Normals(sent) == Normals(read) + Normals(c)
    && |sent| == |read| + |c|
  }

  lemma SendBalanced(c: seq<Message>, sent: seq<Message>, read: seq<Message>, m: Message)
    requires Balanced(c, sent, read)
    ensures Balanced(if m.Urgent() then [m] + c else c + [m], sent + [m], read)
  {
    SendNormals(c, sent, read, m);
  }

  lemma ReadBalanced(c: seq<Message>, rest: seq<Message>, sent: seq<Message>, read: seq<Message>, m: Message)
    requires Balanced(c, sent, read) && c == [m] + rest
    ensures Balanced(rest, sent, read + [m])
  {
    ReadNormals(c, rest, sent, read, m);
  }

  lemma StepAccounted(g: System, i: nat)
    requires Valid(g.ring) && Accounted(g) && i < |g.users| && Step(g, i).Moved?
    requires Valid(Step(g, i).g.ring)
    ensures Accounted(Step(g, i).g)
  {
    var u, c := g.users[i], Contents(g.ring);
    if u.pc == Critical {
      if u.Sender? {
        SendAccounted(g, u.todo[0]);
      } else {
        ReadAccounted(g);
      }
    }
  }

  lemma SendAccounted(g: System, m: Message)
    requires Valid(g.ring) && Accounted(g) && g.ring.size < |g.ring.table|
    ensures Valid(SendMsg(g.ring, m)) && Accounted(g.(ring := SendMsg(g.ring, m), sent := g.sent + [m]))
  {
    SendRefinesDesk(g.ring, m);
    SendDeque(g.ring, m);
    SendBalanced(Contents(g.ring), g.sent, g.read, m);
  }

  lemma ReadAccounted(g: System)
    requires Valid(g.ring) && Accounted(g) && g.ring.size > 0
    ensures Valid(ReadMsg(g.ring).1)
    ensures Accounted(g.(ring := ReadMsg(g.ring).1, read := g.read + [ReadMsg(g.ring).0]))
  {
    ReadRefinesDesk(g.ring);
    ReadDeque(g.ring);
    ReadBalanced(Contents(g.ring), Contents(ReadMsg(g.ring).1), g.sent, g.read, ReadMsg(g.ring).0);
  }

  lemma StepBusy(g: System, i: nat)
    requires Busy(g) && i < |g.users| && Valid(g.ring) && Step(g, i).Moved?
    ensures Busy(Step(g, i).g)
  {
  }

  /** Every step of every user keeps the invariant. */
  lemma StepKeeps(g: System, i: nat)
    requires Inv(g) && i < |g.users| && Step(g, i).Moved?
    ensures Inv(Step(g, i).g) && |Step(g, i).g.ring.table| == |g.ring.table|
  {
    StepCounted(g, i);
    StepAccounted(g, i);
    StepBusy(g, i);
  }

  lemma {:induction false} RunKeeps(g: System, schedule: seq<nat>, g': System)
    requires Inv(g) && Runs(g, schedule, g')
    ensures Inv(g') && |g'.ring.table| == |g.ring.table|
    decreases |schedule|
  {
    if schedule != [] {
      StepKeeps(g, schedule[0]);
      RunKeeps(Step(g, schedule[0]).g, schedule[1..], g');
    }
  }

  /** A run goes on with one more step. */
  lemma {:induction false} RunSnoc(g: System, schedule: seq<nat>, g1: System, i: nat, g2: System)
    requires Runs(g, schedule, g1) && i < |g1.users| && Valid(g1.ring) && Step(g1, i) == Moved(g2)
    ensures Runs(g, schedule + [i], g2)
    decreases |schedule|
  {
    if schedule == [] {
      assert [i][1..] == [] && Runs(g2, [], g2);
    } else {
      RunSnoc(Step(g, schedule[0]).g, schedule[1..], g1, i, g2);
      assert (schedule + [i])[1..] == schedule[1..] + [i];
    }
  }
}
