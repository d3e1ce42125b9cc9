/** The scheduler in place: the process table with its ready queue threaded through it by
    index, and the four assignments that move the head to the tail. */
module ReadyQueues {
  import opened Lists
  import opened Scheduler

  const NIL_PROC: int := -1

  /** Every process of the queue points at the next one, the last one at nothing. */
  ghost predicate Points(next: seq<int>, q: seq<nat>, i: int)
    requires forall j :: 0 <= j < |q| ==> q[j] < |next|
  {
    0 <= i < |q| ==> next[q[i]] == if i + 1 < |q| then q[i + 1] else NIL_PROC
  }

  ghost predicate Linked(next: seq<int>, head: int, tail: int, q: seq<nat>) {
    && (forall i :: 0 <= i < |q| ==> q[i] < |next|)
    && (if q == [] then head == NIL_PROC else head == q[0] && tail == q[|q| - 1])
    && forall i :: Points(next, q, i)
  }

  /** The four assignments of `sched`, also when the head is the tail. */
  lemma RotateLinked(next: seq<int>, head: int, tail: int, q: seq<nat>, next': seq<int>)
    requires Linked(next, head, tail, q) && q != [] && NoRepeat(q)
    requires next' == next[q[|q| - 1] := q[0]][q[0] := NIL_PROC]
    ensures next[q[|q| - 1] := q[0]][q[0]] == Rotate(q)[0]
    ensures Linked(next', Rotate(q)[0], head, Rotate(q))
  {
    var r, n := Rotate(q), |q|;
    assert Points(next, q, 0) && Differ(q, 0, n - 1);
    forall i | 0 <= i < n ensures Points(next', r, i) {
      assert r[i] == if i + 1 < n then q[i + 1] else q[0];
      assert Points(next, q, i + 1);
      assert Differ(q, 0, i + 1) && Differ(q, i + 1, n - 1) && Differ(q, 0, n - 1);
    }
    assert forall i :: i < 0 || i >= n ==> Points(next', r, i);
  }

  /** The link of a process that is not queued does not matter. */
  lemma UnlinkedEntry(next: seq<int>, head: int, tail: int, q: seq<nat>, p: nat, link: int)
    requires Linked(next, head, tail, q) && p < |next| && p !in q
    ensures Linked(next[p := link], head, tail, q)
  {
    var changed := next[p := link];
    forall i ensures Points(changed, q, i) {
      assert Points(next, q, i);
    }
  }

  class Processes {
    const table: array<Task>
    const next: array<int>       // p_nextready
    var head: int                // rdy_head[USER_Q]
    var tail: int                // rdy_tail[USER_Q]
    var timeA: int               // PROC_TIME[0]
    var timeB: int               // PROC_TIME[1]
    ghost var queue: seq<nat>

    constructor (procs: array<Task>, a: int, b: int)
      ensures Good() && Abs() == State(procs[..], [], a, b) && table == procs
    {
      table := procs;
      next := new int[procs.Length](_ => NIL_PROC);
      head, tail, timeA, timeB, queue := NIL_PROC, NIL_PROC, a, b, [];
    }

    ghost predicate Good()
      reads this, next
    {
      && next.Length == table.Length
      && Linked(next[..], head, tail, queue)
      && NoRepeat(queue)
    }

    ghost function Abs(): State
      reads this, table
    {
      State(table[..], queue, timeA, timeB)
    }

    /** Move the head of the queue to its end. */
    method MoveHeadToTail()
      requires Good() && queue != []
      modifies this`head, this`tail, this`queue, next
      ensures Good() && queue == Rotate(old(queue))
    {
      RotateLinked(next[..], head, tail, queue, next[..][tail := head][head := NIL_PROC]);
      RotateDistinct(queue);
      next[tail] := head;
      tail := head;
      head := next[head];
      next[tail] := NIL_PROC;
      queue := Rotate(queue);
    }

    /** `sched`. */
    method Tick()
      requires Good()
      modifies this`head, this`tail, this`queue, next, table
      ensures Good() && Abs() == Sched(old(Abs()))
    {
      if head == NIL_PROC {
        return;
      }
      if table[head].first {
        table[head] := table[head].(first := false);
        MoveHeadToTail();
      } else {
        table[head] := table[head].(ticks := table[head].ticks - 1);
        if table[head].ticks == 0 {
          if table[head].group == A {
            table[head] := table[head].(ticks := timeA);
          } else {
            table[head] := table[head].(ticks := timeB);
          }
          MoveHeadToTail();
        }
      }
    }

    /** `set_scheduler`. */
    method SetShare(rp: nat, x: int) returns (code: int)
      requires Good() && rp < table.Length
      modifies this`timeA, this`timeB
      ensures Good() && (Abs(), code) == SetScheduler(old(Abs()), rp, x)
    {
      if table[rp].group == A {
        timeA := x;
        timeB := 100 - x;
        return 0;
      }
      return -1;
    }

    /** `change_group`. */
    method SwitchGroup(rp: nat) returns (code: int)
      requires Good() && rp < table.Length
      modifies table
      ensures Good() && code == 0 && Abs() == ChangeGroup(old(Abs()), rp)
    {
      if table[rp].group == A {
        table[rp] := table[rp].(group := B);
        return 0;
      }
      table[rp] := table[rp].(group := A);
      return 0;
    }

    /** The scheduling fields `do_fork` gives a child, after the copy of its parent's entry. */
    method InitChild(parent: nat, child: nat, pid: int)
      requires Good() && parent < table.Length && child < table.Length && child !in queue
      modifies table, next
      ensures Good() && Abs() == Fork(old(Abs()), child, pid)
    {
      UnlinkedEntry(next[..], head, tail, queue, child, next[parent]);
      table[child], next[child] := table[parent], next[parent];
      if pid % 2 == 0 {
        table[child] := table[child].(group := A);
        table[child] := table[child].(ticks := timeA);
      } else {
        table[child] := table[child].(group := B);
        table[child] := table[child].(ticks := timeB);
      }
      table[child] := table[child].(first := true);
    }
  }
}
