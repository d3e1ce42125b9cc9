/** The objects of the monitor in place: conditions and the buffer built from semaphores,
    with the calling threads' positions. One call of `Advance` performs the next atomic piece
    of one thread's call and is proved to be one step of the transition system. */
module MonitorObjects {
  import opened PriorityBuffers
  import opened MonitorProtocol
  import opened Semaphores

  class Condition {
    const w: Semaphore
    var waitingCount: nat

    constructor ()
      ensures waitingCount == 0 && w.value == 0 && fresh(w)
    {
      w := new Semaphore(0);
      waitingCount := 0;
    }

    /** Wake one counted waiter, if there is one. */
    method Signal() returns (woken: bool)
      modifies this, w
      ensures woken <==> old(waitingCount) > 0
      ensures waitingCount == if woken then old(waitingCount) - 1 else old(waitingCount)
      ensures w.value == if woken then old(w.value) + 1 else old(w.value)
    {
      if waitingCount > 0 {
        waitingCount := waitingCount - 1;
        w.V();
        return true;
      }
      return false;
    }
  }

  class Buffer {
    const s: Semaphore
    const full: Condition
    const empty: Condition
    const list: MessageList
    const capacity: nat
    const threads: array<Thread>
    ghost var sent: seq<Message>
    ghost var read: seq<Message>

    constructor (cap: nat, users: array<Thread>)
      requires cap >= 1 && forall i :: 0 <= i < users.Length ==> users[i].pc == Outside
      ensures Valid() && threads == users && capacity == cap
      ensures Initial(Abs()) && Abs().threads == users[..]
    {
      s := new Semaphore(1);
      full := new Condition();
      empty := new Condition();
      list := new MessageList();
      capacity, threads, sent, read := cap, users, [], [];
    }

    /** All parts are different objects. */
    ghost predicate Valid()
      reads this
    {
      && full != empty && full.w != empty.w && s != full.w && s != empty.w
    }

    ghost function Parts(): set<object>
      reads this
    {
      {this, s, full, full.w, empty, empty.w, list, threads}
    }

    ghost function Abs(): System
      reads this, s, full, full.w, empty, empty.w, list, threads
    {
      System(capacity, s.value, full.w.value, full.waitingCount, empty.w.value, empty.waitingCount,
             list.items, threads[..], sent, read)
    }

    method SetPc(i: nat, pc: Pc)
      requires i < threads.Length
      modifies threads
      ensures threads[..] == old(threads[..])[i := old(threads[i]).(pc := pc)]
    {
      threads[i] := threads[i].(pc := pc);
    }

    /** `if (size ...) wait(cond)`, up to the count. */
    method CheckSize(i: nat)
      requires Valid() && i < threads.Length
      modifies full`waitingCount, empty`waitingCount, threads
      ensures Abs() == Check(old(Abs()), i)
    {
      var size := list.GetSize();
      if threads[i].Sender? {
        if size == capacity {
          full.waitingCount := full.waitingCount + 1;
          SetPc(i, Waiting);
          return;
        }
      } else if size == 0 {
        empty.waitingCount := empty.waitingCount + 1;
        SetPc(i, Waiting);
        return;
      }
      SetPc(i, Acting);
    }

    /** Insert or remove a message. */
    method Transfer(i: nat)
      requires Valid() && i < threads.Length && threads[i].Calls() > 0
      requires threads[i].Reader? ==> list.items != []
      modifies this`sent, this`read, list, threads
      ensures Moved(Abs()) == Act(old(Abs()), i)
    {
      if threads[i].Sender? {
        var m := threads[i].todo[0];
        list.Send(m);
        sent := sent + [m];
      } else {
        ghost var was := list.items;
        var m := list.Read();
        assert was[0] == m && was[1..] == list.items;
        read := read + [m];
      }
      SetPc(i, Signalling);
    }

    /** `if (size ...) signal(cond)`, up to giving the monitor away. */
    method SignalOther(i: nat)
      requires Valid() && i < threads.Length
      modifies full, full.w, empty, empty.w, threads
      ensures Abs() == Signal(old(Abs()), i)
    {
      var size := list.GetSize();
      var woken := false;
      if threads[i].Sender? {
        if size == 1 {
          woken := empty.Signal();
        }
      } else if size == capacity - 1 {
        woken := full.Signal();
      }
      SetPc(i, if woken then Reentering else Leaving);
    }

    /** The end of a call. */
    method Finish(i: nat)
      requires Valid() && i < threads.Length && threads[i].Calls() > 0
      modifies s, threads
      ensures Abs() == Leave(old(Abs()), i)
    {
      s.V();
      threads[i] := if threads[i].Sender? then Sender(Outside, threads[i].todo[1..])
                    else Reader(Outside, threads[i].left - 1);
    }

    /** The next piece of thread `i`'s call; false when it has to wait or has nothing to do. */
    method Advance(i: nat) returns (moved: bool)
      requires Valid() && i < threads.Length
      requires threads[i].pc == Outside || threads[i].Calls() > 0
      requires !Step(Abs(), i).PoppedEmpty?
      modifies Parts()
      ensures Valid()
      ensures if moved then Step(old(Abs()), i) == Moved(Abs())
              else Step(old(Abs()), i) == Stuck && Abs() == old(Abs())
    {
      moved := true;
      match threads[i].pc
      case Outside =>
        if threads[i].Calls() == 0 || s.value == 0 {
          return false;
        }
        s.P();
        SetPc(i, Entered);
      case Entered =>
        CheckSize(i);
      case Waiting =>
        s.V();
        SetPc(i, Blocked);
      case Blocked =>
        var w := if threads[i].Sender? then full.w else empty.w;
        if w.value == 0 {
          return false;
        }
        w.P();
        SetPc(i, Acting);
      case Acting =>
        Transfer(i);
      case Signalling =>
        SignalOther(i);
      case Reentering =>
        if s.value == 0 {
          return false;
        }
        s.P();
        SetPc(i, Leaving);
      case Leaving =>
        Finish(i);
    }

    /** Any scheduler driving the threads performs a run of the transition system: the calls
        of `Advance` that moved. So every theorem about runs holds of the objects. */
    method Drive(schedule: seq<nat>) returns (ghost moves: seq<nat>)
      requires Valid() && Inv(Abs())
      requires forall k :: 0 <= k < |schedule| ==> schedule[k] < threads.Length
      modifies Parts()
      ensures Valid() && Inv(Abs()) && Runs(old(Abs()), moves, Abs())
    {
      moves := [];
      ghost var g0 := Abs();
      for k := 0 to |schedule|
        invariant Valid() && Inv(Abs()) && Runs(g0, moves, Abs())
      {
        ghost var g := Abs();
        var i := schedule[k];
        assert g.threads[i] == threads[i];
        NeverPopsEmpty(g, i);
        var moved := Advance(i);
        if moved {
          StepKeeps(g, i);
          RunSnoc(g0, moves, g, i, Abs());
          moves := moves + [i];
        }
      }
    }
  }

  lemma NeverPopsEmpty(g: System, i: nat)
    requires Inv(g) && i < |g.threads|
    ensures !Step(g, i).PoppedEmpty?
  {
    if g.threads[i].Owns() { assert OwnerOk(g, g.threads[i]); }
  }
}
