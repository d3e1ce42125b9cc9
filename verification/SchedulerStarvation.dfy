/** When somebody starves: a process that comes to the head without a positive budget stays there
    for ever, and whether that happens is decided by the times of the groups that are queued. */
module SchedulerStarvation {
  import opened Iteration
  import opened Lists
  import opened Scheduler

  /** The queue never changes again: its head is charged for ever. */
  ghost predicate Stays(s: State) {
    forall n: nat :: Iter(Sched, s, n).queue == s.queue
  }

  /** That is so from call `n` on. */
  ghost predicate StaysAfter(s: State, n: nat) {
    Stays(Iter(Sched, s, n))
  }

  /** The process has nothing left, or its group will give it nothing. */
  predicate Doomed(s: State, p: nat)
    requires p < |s.table|
  {
    s.table[p].ticks <= 0 || s.Time(s.table[p].group) <= 0
  }

  ghost predicate SomebodyDoomed(s: State)
    requires Valid(s)
  {
    exists i :: 0 <= i < |s.queue| && Doomed(s, s.queue[i])
  }

  /** How many turns a doomed process still has. */
  function TurnsLeft(t: Task): nat {
    (if t.first then 1 else 0) + (if t.ticks > 0 then 1 else 0)
  }

  /** A doomed process moves up with every turn of others and loses one with every turn of its own. */
  lemma TurnDooms(s: State, j: nat)
    requires Valid(s) && j < |s.queue| && Doomed(s, s.queue[j]) && Cost(s.table[s.queue[0]]) > 0
    ensures var r, p := Turn(s), s.queue[j];
            && Valid(r) && |r.queue| == |s.queue| && Doomed(r, p)
            && (if j > 0 then r.queue[j - 1] == p && r.table[p] == s.table[p]
                else r.queue[|r.queue| - 1] == p && TurnsLeft(r.table[p]) < TurnsLeft(s.table[p]))
  {
    RotateDistinct(s.queue);
    if j > 0 { assert Differ(s.queue, 0, j); }
  }

  lemma StaysLater(s: State, m: nat, r: State, n: nat)
    requires Iter(Sched, s, m) == r && StaysAfter(r, n)
    ensures StaysAfter(s, m + n)
  {
    IterAdd(Sched, s, m, n);
  }

  /** A doomed process blocks the queue in the end, unless another one does before. */
  lemma {:induction false} DoomedBlocks(s: State, j: nat) returns (n: nat)
    requires Valid(s) && j < |s.queue| && Doomed(s, s.queue[j])
    ensures StaysAfter(s, n)
    decreases TurnsLeft(s.table[s.queue[j]]), j
  {
    var c := Cost(s.table[s.queue[0]]);
    if c <= 0 {
      n := 0;
      forall m: nat ensures Iter(Sched, s, m).queue == s.queue {
        StarvingHead(s, m);
      }
    } else {
      TurnTakesCost(s);
      TurnDooms(s, j);
      var m := DoomedBlocks(Turn(s), if j > 0 then j - 1 else |s.queue| - 1);
      StaysLater(s, c, Turn(s), m);
      n := c + m;
    }
  }

  /** Without a doomed process there will never be one. */
  lemma {:induction false} NobodyDoomed(s: State, n: nat)
    requires Valid(s) && !SomebodyDoomed(s)
    ensures var r := Iter(Sched, s, n); Valid(r) && !SomebodyDoomed(r) && |r.queue| == |s.queue|
    decreases n
  {
    if n > 0 {
      TickDoomsNobody(s);
      NobodyDoomed(Sched(s), n - 1);
    }
  }

  lemma TickDoomsNobody(s: State)
    requires Valid(s) && !SomebodyDoomed(s)
    ensures Valid(Sched(s)) && !SomebodyDoomed(Sched(s)) && |Sched(s).queue| == |s.queue|
  {
    SchedValid(s);
    var r := Sched(s);
    forall i | 0 <= i < |r.queue| ensures !Doomed(r, r.queue[i]) {
      assert r.queue[i] in multiset(r.queue);
      assert r.queue[i] in s.queue;
      var j :| 0 <= j < |s.queue| && s.queue[j] == r.queue[i];
      assert !Doomed(s, s.queue[j]);
    }
    assert |multiset(r.queue)| == |multiset(s.queue)|;
  }

  /** Somebody ends at the head for ever if and only if some queued process has nothing left or
      belongs to a group without positive time. */
  lemma StarvationIff(s: State)
    requires Valid(s) && |s.queue| > 1
    ensures (exists n: nat :: StaysAfter(s, n)) <==> SomebodyDoomed(s)
  {
    if SomebodyDoomed(s) {
      var j :| 0 <= j < |s.queue| && Doomed(s, s.queue[j]);
      var n := DoomedBlocks(s, j);
      assert StaysAfter(s, n);
    } else {
      forall n: nat ensures !StaysAfter(s, n) {
        NobodyDoomed(s, n);
        var r := Iter(Sched, s, n);
        assert !Doomed(r, r.queue[0]);
        HeadGivesWayIff(r);
      }
    }
  }

  /** Set while everybody queued has something left, a proportion starves somebody if and only if
      it leaves nothing to a group of which somebody is queued. */
  lemma ProportionStarvesIff(s: State, p: nat, x: int)
    requires Valid(s) && |s.queue| > 1 && p < |s.table| && s.table[p].group == A
    requires forall i :: 0 <= i < |s.queue| ==> s.table[s.queue[i]].ticks > 0
    ensures (exists n: nat :: StaysAfter(SetScheduler(s, p, x).0, n)) <==>
            || (x <= 0 && exists i :: 0 <= i < |s.queue| && s.table[s.queue[i]].group == A)
            || (x >= 100 && exists i :: 0 <= i < |s.queue| && s.table[s.queue[i]].group == B)
  {
    var r := SetScheduler(s, p, x).0;
    StarvationIff(r);
    assert forall i :: 0 <= i < |s.queue| ==>
             (Doomed(r, r.queue[i]) <==> if s.table[s.queue[i]].group == A then x <= 0 else x >= 100);
  }

  function TwoTasks(): State {
    State([Task(A, 1, false), Task(B, 1, false)], [0, 1], 50, 50)
  }

  /** An instance: when the first of two processes takes all time away from its own group, from
      the second call on it is charged for ever and the other one waits for ever. */
  lemma ProportionCanStarve(n: nat)
    requires n >= 2
    ensures Valid(TwoTasks()) && Positive(TwoTasks())
    ensures Iter(Sched, SetScheduler(TwoTasks(), 0, 0).0, n).queue == [0, 1]
  {
    var s := SetScheduler(TwoTasks(), 0, 0).0;
    NoRepeatMeans(s.queue);
    var s1 := State([Task(A, 0, false), Task(B, 1, false)], [1, 0], 0, 100);
    var s2 := State([Task(A, 0, false), Task(B, 100, false)], [0, 1], 0, 100);
    assert Sched(s) == s1 && Sched(s1) == s2;
    NoRepeatMeans(s2.queue);
    StarvingHead(s2, n - 2);
    FrontTwice(s, s1, s2, n);
  }

  lemma FrontTwice(s: State, s1: State, s2: State, n: nat)
    requires n >= 2 && Sched(s) == s1 && Sched(s1) == s2
    ensures Iter(Sched, s, n) == Iter(Sched, s2, n - 2)
  {
    assert Iter(Sched, s, n) == Iter(Sched, s1, n - 1);
  }
}
