/** What `set_scheduler`, `change_group` and `do_fork` mean for the shares that processes get from
    then on, in numbers. */
module SchedulerShares {
  import opened Iteration
  import opened Lists
  import opened Scheduler
  import opened SchedulerTheorems

  lemma {:induction false} MembersSame(s: State, r: State, q: seq<nat>, g: Group)
    requires |r.table| == |s.table| && forall i :: 0 <= i < |q| ==> q[i] < |s.table|
    requires forall i :: 0 <= i < |q| ==> r.table[q[i]].group == s.table[q[i]].group
    ensures Members(r, q, g) == Members(s, q, g)
    decreases |q|
  {
    if q != [] {
      MembersSame(s, r, q[..|q| - 1], g);
    }
  }

  lemma GroupOf(s: State, r: State, p: nat)
    requires Valid(s) && SameGroups(s, r) && p in s.queue
    ensures r.table[p].group == s.table[p].group
  {
    assert s.queue[IndexOf(s.queue, p)] == p;
  }

  /** `r` is what `s` has settled to under the proportion `x`. */
  ghost predicate Settles(s: State, x: int, r: State) {
    && Valid(s) && Valid(r) && Positive(r) && Fresh(r) && SameGroups(s, r)
    && r.queue == s.queue && r.timeA == x && r.timeB == 100 - x
  }

  lemma SettlesAfterSetting(s: State, p: nat, x: int) returns (n: nat, r: State)
    requires Valid(s) && Positive(s) && p < |s.table| && s.table[p].group == A && 0 < x < 100
    ensures r == Iter(Sched, SetScheduler(s, p, x).0, n) && Settles(s, x, r)
  {
    var s1 := SetScheduler(s, p, x).0;
    ProportionValidIff(s, p, x);
    var r1;
    r1, r := TwoRoundsFreshen(s1);
    n := RoundCalls(s1) + RoundCalls(r1);
  }

  /** The calls of one round under the proportion `x`. */
  function Round(s: State, x: int): int
    requires Valid(s)
  {
    Members(s, s.queue, A) * x + Members(s, s.queue, B) * (100 - x)
  }

  lemma RoundIsLength(s: State, x: int, r: State)
    requires Settles(s, x, r)
    ensures Round(s, x) == RoundLength(r)
  {
    MembersSame(s, r, s.queue, A);
    MembersSame(s, r, s.queue, B);
  }

  lemma RoundRestores(s: State, x: int, r: State)
    requires Settles(s, x, r)
    ensures Round(s, x) >= 0 && Iter(Sched, r, Round(s, x)) == r
  {
    RoundIsLength(s, x, r);
    if s.queue == [] {
      assert Round(s, x) == 0;
    } else {
      ExactShare(r, s.queue[0]);
    }
  }

  lemma ShareOf(s: State, x: int, r: State, q: nat)
    requires Settles(s, x, r) && q in s.queue
    ensures Round(s, x) >= 0 && q < |s.table|
    ensures HeadCount(r, Round(s, x), q) == if s.table[q].group == A then x else 100 - x
  {
    RoundIsLength(s, x, r);
    ExactShare(r, q);
    GroupOf(s, r, q);
  }

  /** After a group A process has set the proportion to `x`, and a settling time of two rounds, each
      round has nA * x + nB * (100 - x) calls, of which every queued process of group A gets `x` and
      every one of group B `100 - x`; so it goes on in every later round. */
  lemma SharesAreAsSet(s: State, p: nat, x: int) returns (n: nat, r: State)
    requires Valid(s) && Positive(s) && p < |s.table| && s.table[p].group == A && 0 < x < 100
    ensures r == Iter(Sched, SetScheduler(s, p, x).0, n) && r.queue == s.queue
    ensures Round(s, x) >= 0 && Iter(Sched, r, Round(s, x)) == r
    ensures forall q :: q in s.queue ==>
              q < |s.table| && HeadCount(r, Round(s, x), q) == if s.table[q].group == A then x else 100 - x
  {
    n, r := SettlesAfterSetting(s, p, x);
    RoundRestores(s, x, r);
    forall q | q in s.queue
      ensures q < |s.table| && HeadCount(r, Round(s, x), q) == if s.table[q].group == A then x else 100 - x
    {
      ShareOf(s, x, r, q);
    }
  }

  /** What a queued process is refilled with once a settling time of two rounds is over. */
  lemma Settled(s: State, p: nat) returns (n: nat, r: State)
    requires Valid(s) && Positive(s) && p in s.queue
    ensures r == Iter(Sched, s, n) && |r.table| == |s.table|
    ensures r.table[p] == Task(s.table[p].group, if s.table[p].group == A then s.timeA else s.timeB, false)
  {
    var r1;
    r1, r := TwoRoundsFreshen(s);
    n := RoundCalls(s) + RoundCalls(r1);
    GroupOf(s, r, p);
    assert r.queue[IndexOf(r.queue, p)] == p;
  }

  /** A process that has changed its group gets the other group's time from then on. */
  lemma ChangeGroupChangesShare(s: State, p: nat) returns (n: nat, r: State)
    requires Valid(s) && Positive(s) && p in s.queue
    ensures r == Iter(Sched, ChangeGroup(s, p), n) && |r.table| == |s.table|
    ensures r.table[p].ticks == if s.table[p].group == A then s.timeB else s.timeA
  {
    OpKeeps(s, Regroup(p));
    n, r := Settled(ChangeGroup(s, p), p);
  }

  /** A child with an even pid gets the time of group A, any other the time of group B: as its first
      budget, and from then on. */
  lemma ChildShareByPid(s: State, child: nat, pid: int) returns (n: nat, r: State)
    requires Valid(s) && Positive(s) && child < |s.table| && child !in s.queue
    ensures var time := if pid % 2 == 0 then s.timeA else s.timeB;
            && Fork(s, child, pid).table[child].ticks == time
            && r == Iter(Sched, Ready(Fork(s, child, pid), child), n)
            && |r.table| == |s.table| && r.table[child].ticks == time
  {
    OpKeeps(s, Spawn(child, pid));
    var s1 := Fork(s, child, pid);
    ForkGivesBudget(s, child, pid);
    OpKeeps(s1, Join(child));
    n, r := Settled(Ready(s1, child), child);
  }

  lemma RoundShare(s: State, p: nat)
    requires Valid(s) && Positive(s) && p in s.queue
    ensures HeadCount(s, RoundCalls(s), p) == Cost(s.table[p])
  {
    CostsTotal(s, |s.queue|);
    assert Costs(s)[..|s.queue|] == Costs(s) && s.queue[..|s.queue|] == s.queue;
    WholeRound(s, p);
  }

  /** A first turn is one call long and leaves the budget alone: in the first round the process gets
      one call, in the second its whole budget. Otherwise it gets what it has left, and then its
      group's time. */
  lemma FirstTurnLeavesBudget(s: State, p: nat) returns (n: nat, r: State)
    requires Valid(s) && Positive(s) && p in s.queue
    ensures n == RoundCalls(s) && r == Iter(Sched, s, n) && Valid(r) && Positive(r)
    ensures HeadCount(s, n, p) == if s.table[p].first then 1 else s.table[p].ticks
    ensures HeadCount(r, RoundCalls(r), p)
            == if s.table[p].first then s.table[p].ticks
               else if s.table[p].group == A then s.timeA else s.timeB
  {
    n := RoundCalls(s);
    RoundShare(s, p);
    r := OneRound(s);
    assert s.queue[IndexOf(s.queue, p)] == p;
    RoundShare(r, p);
  }
}
