/** Whole runs of the scheduler: exact waiting times and exact proportional shares. */
module SchedulerTheorems {
  import opened Iteration
  import opened Lists
  import opened Scheduler

  // ---------------------------------------------------------------- waiting time

  /** The calls of `sched` that the listed processes will spend at the head before they rotate. */
  function CostSum(s: State, q: seq<nat>): int
    requires forall i :: 0 <= i < |q| ==> q[i] < |s.table|
  {
    if q == [] then 0 else CostSum(s, q[..|q| - 1]) + Cost(s.table[q[|q| - 1]])
  }

  /** How long `p` still has to wait: what the processes ahead of it will use up. */
  function Ahead(s: State, p: nat): int
    requires p in s.queue && forall i :: 0 <= i < |s.queue| ==> s.queue[i] < |s.table|
  {
    CostSum(s, s.queue[..IndexOf(s.queue, p)])
  }

  lemma {:induction false} CostSumSame(s: State, s': State, q: seq<nat>)
    requires forall i :: 0 <= i < |q| ==>
               q[i] < |s.table| && q[i] < |s'.table| && Cost(s'.table[q[i]]) == Cost(s.table[q[i]])
    ensures CostSum(s', q) == CostSum(s, q)
    decreases |q|
  {
    if q != [] {
      CostSumSame(s, s', q[..|q| - 1]);
    }
  }

  lemma {:induction false} CostSumFront(s: State, q: seq<nat>)
    requires q != [] && forall i :: 0 <= i < |q| ==> q[i] < |s.table|
    ensures CostSum(s, q) == Cost(s.table[q[0]]) + CostSum(s, q[1..])
    decreases |q|
  {
    if |q| > 1 {
      CostSumFront(s, q[..|q| - 1]);
      assert q[..|q| - 1][1..] == q[1..][..|q| - 2];
    } else {
      assert q[..0] == [] && q[1..] == [];
    }
  }

  lemma {:induction false} CostSumPositive(s: State, q: seq<nat>)
    requires forall i :: 0 <= i < |q| ==> q[i] < |s.table| && Cost(s.table[q[i]]) > 0
    ensures CostSum(s, q) >= |q|
    decreases |q|
  {
    if q != [] {
      CostSumPositive(s, q[..|q| - 1]);
    }
  }

  lemma IndexIs(q: seq<nat>, p: nat, k: nat)
    requires k < |q| && q[k] == p && NoRepeat(q)
    ensures p in q && IndexOf(q, p) == k
  {
    NoRepeatMeans(q);
  }

  /** One call of `sched` brings everybody behind the head closer by exactly one. */
  lemma TickBringsCloser(s: State, p: nat)
    requires Valid(s) && Positive(s) && p in s.queue && s.queue[0] != p
    ensures p in Sched(s).queue && Ahead(Sched(s), p) == Ahead(s, p) - 1
  {
    var q, h := s.queue, s.queue[0];
    var k := IndexOf(q, p);
    var s' := Sched(s);
    SchedValid(s);
    NoRepeatMeans(q);
    CostSumFront(s, q[..k]);
    assert q[..k][1..] == q[1..k];
    CostSumSame(s, s', q[1..k]);
    if s'.queue == q {
      CostSumFront(s', q[..k]);
    } else {
      assert s'.queue[k - 1] == p;
      IndexIs(s'.queue, p, k - 1);
      assert s'.queue[..k - 1] == q[1..k];
    }
  }

  datatype Op =
    | Tick                              // sched
    | Spawn(child: nat, pid: int)       // do_fork
    | Join(p: nat)                      // a process becomes runnable
    | Regroup(p: nat)                   // change_group
    | Proportion(p: nat, x: int)        // set_scheduler

  predicate Legal(s: State, op: Op) {
    match op
    case Tick => true
    case Spawn(child, _) => child < |s.table| && child !in s.queue
    case Join(p) => p < |s.table| && p !in s.queue && s.table[p].ticks > 0
    case Regroup(p) => p < |s.table|
    case Proportion(p, x) => p < |s.table| && (s.table[p].group == A ==> 0 < x < 100)
  }

  function Do(s: State, op: Op): State
    requires Legal(s, op) && forall i :: 0 <= i < |s.queue| ==> s.queue[i] < |s.table|
  {
    match op
    case Tick => Sched(s)
    case Spawn(child, pid) => Fork(s, child, pid)
    case Join(p) => Ready(s, p)
    case Regroup(p) => ChangeGroup(s, p)
    case Proportion(p, x) => SetScheduler(s, p, x).0
  }

  /** Every operation keeps the queue sound and all budgets positive. */
  lemma OpKeeps(s: State, op: Op)
    requires Valid(s) && Positive(s) && Legal(s, op)
    ensures Valid(Do(s, op)) && Positive(Do(s, op))
  {
    NoRepeatMeans(s.queue);
    NoRepeatMeans(Do(s, op).queue);
    if op.Tick? {
      SchedValid(s);
      SchedPositive(s);
    } else if op.Proportion? && s.table[op.p].group == A {
      ProportionValidIff(s, op.p, op.x);
    }
  }

  /** Nothing but `sched` changes how long a waiting process still has to wait: newcomers join
      behind it, and changes of group or proportion leave current budgets alone. */
  lemma OthersDoNotDelay(s: State, op: Op, p: nat)
    requires Valid(s) && Positive(s) && Legal(s, op) && !op.Tick? && p in s.queue
    ensures p in Do(s, op).queue && Ahead(Do(s, op), p) == Ahead(s, p)
  {
    var k := IndexOf(s.queue, p);
    var s' := Do(s, op);
    OpKeeps(s, op);
    assert s'.queue[k] == p;
    IndexIs(s'.queue, p, k);
    assert s'.queue[..k] == s.queue[..k];
    CostSumSame(s, s', s.queue[..k]);
  }

  /** A child just forked may join the queue, and has then to wait for exactly what all processes
      queued before it have left. */
  lemma SpawnedMayJoin(s: State, child: nat, pid: int)
    requires Valid(s) && Positive(s) && Legal(s, Spawn(child, pid))
    ensures var s1 := Do(s, Spawn(child, pid));
            && Valid(s1) && Legal(s1, Join(child))
            && var s2 := Do(s1, Join(child));
               Valid(s2) && Positive(s2) && child in s2.queue && Ahead(s2, child) == CostSum(s, s.queue)
  {
    var s1 := Do(s, Spawn(child, pid));
    OpKeeps(s, Spawn(child, pid));
    ForkGivesBudget(s, child, pid);
    OpKeeps(s1, Join(child));
    var s2 := Do(s1, Join(child));
    IndexIs(s2.queue, child, |s.queue|);
    assert s2.queue[..|s.queue|] == s.queue;
    CostSumSame(s, s2, s.queue);
  }

  ghost predicate Runs(s: State, ops: seq<Op>, s': State)
    decreases |ops|
  {
    if ops == [] then s == s'
    else Valid(s) && Legal(s, ops[0]) && Runs(Do(s, ops[0]), ops[1..], s')
  }

  function Ticks(ops: seq<Op>): nat {
    if ops == [] then 0 else (if ops[0].Tick? then 1 else 0) + Ticks(ops[1..])
  }

  lemma AheadZeroIff(s: State, p: nat)
    requires Valid(s) && Positive(s) && p in s.queue
    ensures Ahead(s, p) >= 0 && (Ahead(s, p) == 0 <==> s.queue[0] == p)
  {
    var k := IndexOf(s.queue, p);
    CostSumPositive(s, s.queue[..k]);
  }

  /** No starvation, with an exact bound: through any run, whatever else is called in between,
      a queued process comes closer by one with every call of `sched`, and is the head after
      exactly as many calls as the processes ahead of it had left, not one earlier. */
  lemma {:induction false} ExactWaiting(s: State, ops: seq<Op>, s': State, p: nat)
    requires Valid(s) && Positive(s) && Runs(s, ops, s') && p in s.queue
    requires Ticks(ops) <= Ahead(s, p)
    ensures Valid(s') && Positive(s') && p in s'.queue && Ahead(s', p) == Ahead(s, p) - Ticks(ops)
    ensures s'.queue[0] == p <==> Ticks(ops) == Ahead(s, p)
    decreases |ops|
  {
    if ops == [] {
      AheadZeroIff(s, p);
    } else {
      var s1 := Do(s, ops[0]);
      OpKeeps(s, ops[0]);
      if ops[0].Tick? {
        AheadZeroIff(s, p);
        TickBringsCloser(s, p);
      } else {
        OthersDoNotDelay(s, ops[0], p);
      }
      ExactWaiting(s1, ops[1..], s', p);
      AheadZeroIff(s', p);
    }
  }

  // ---------------------------------------------------------------- turns and rounds

  /** `p` is among the first `k` of the queue. */
  predicate Among(q: seq<nat>, p: nat, k: nat) {
    p in q && IndexOf(q, p) < k
  }

  /** The state after `k` turns of a round: the first `k` processes stand at the end of the
      queue with new budgets, the others wait as before. */
  function Turned(s: State, k: nat): State
    requires k <= |s.queue|
  {
    s.(table := seq(|s.table|, p requires 0 <= p < |s.table| =>
                      if Among(s.queue, p, k) then Refreshed(s, s.table[p]) else s.table[p]),
       queue := s.queue[k..] + s.queue[..k])
  }

  lemma RotateStep(q: seq<nat>, k: nat)
    requires k < |q|
    ensures Rotate(q[k..] + q[..k]) == q[k + 1..] + q[..k + 1]
  {
    var r := q[k..] + q[..k];
    assert r[1..] == q[k + 1..] + q[..k];
  }

  lemma RotatedDistinct(q: seq<nat>, k: nat)
    requires NoRepeat(q) && k <= |q|
    ensures NoRepeat(q[k..] + q[..k])
  {
    NoRepeatMeans(q);
    NoRepeatMeans(q[k..] + q[..k]);
  }

  /** Turn by turn through a round: the process at position `k` comes to the head with its
      budget untouched, and its turn gives the next state of the round. */
  lemma TurnedNext(s: State, k: nat)
    requires Valid(s) && k < |s.queue|
    ensures Valid(Turned(s, k)) && Turned(s, k).queue[0] == s.queue[k]
    ensures Turned(s, k).table[s.queue[k]] == s.table[s.queue[k]]
    ensures Turn(Turned(s, k)) == Turned(s, k + 1)
  {
    var q, r := s.queue, Turned(s, k);
    RotatedDistinct(q, k);
    RotateStep(q, k);
    IndexIs(q, q[k], k);
    forall p | 0 <= p < |s.table| ensures Turn(r).table[p] == Turned(s, k + 1).table[p] {
      if p != q[k] && p in q {
        assert q[IndexOf(q, p)] == p;
      }
    }
    assert Turn(r).table == Turned(s, k + 1).table;
  }

  /** The budgets of the queued processes, in queue order. */
  function Costs(s: State): (cs: seq<nat>)
    requires forall i :: 0 <= i < |s.queue| ==> s.queue[i] < |s.table| && Cost(s.table[s.queue[i]]) >= 0
    ensures |cs| == |s.queue| && forall i :: 0 <= i < |cs| ==> cs[i] == Cost(s.table[s.queue[i]])
  {
    seq(|s.queue|, i requires 0 <= i < |s.queue| => Cost(s.table[s.queue[i]]) as nat)
  }

  function Stages(s: State): (ys: seq<State>)
    ensures |ys| == |s.queue| + 1 && forall k :: 0 <= k < |ys| ==> ys[k] == Turned(s, k)
  {
    seq(|s.queue| + 1, k requires 0 <= k <= |s.queue| => Turned(s, k))
  }

  lemma RoundLegs(s: State, i: int)
    requires Valid(s) && Positive(s)
    ensures Leg(Sched, Stages(s), Costs(s), i)
  {
    if 0 <= i < |s.queue| {
      TurnedNext(s, i);
      TurnTakesCost(Turned(s, i));
    }
  }

  lemma TurnedNone(s: State)
    ensures Turned(s, 0) == s
  {
    assert s.queue[0..] + s.queue[..0] == s.queue;
    assert Turned(s, 0).table == s.table;
  }

  /** After the sum of the first `k` budgets exactly `k` turns are over. */
  lemma RoundProgress(s: State, k: nat)
    requires Valid(s) && Positive(s) && k <= |s.queue|
    ensures Iter(Sched, s, Total(Costs(s)[..k])) == Turned(s, k)
  {
    forall i ensures Leg(Sched, Stages(s), Costs(s), i) {
      RoundLegs(s, i);
    }
    Journey(Sched, Stages(s), Costs(s), k);
    TurnedNone(s);
  }

  // ---------------------------------------------------------------- shares

  /** `p` is the process the next call of `sched` charges. */
  predicate Charged(s: State, p: nat) {
    s.queue != [] && s.queue[0] == p
  }

  function ChargedTo(p: nat): State -> bool {
    (s: State) => Charged(s, p)
  }

  /** At how many of the next `n` calls `p` is the process being charged. */
  function HeadCount(s: State, n: nat, p: nat): nat {
    Hits(Sched, s, n, ChargedTo(p))
  }

  function OwnCosts(s: State, p: nat): (hs: seq<nat>)
    requires forall i :: 0 <= i < |s.queue| ==> s.queue[i] < |s.table| && Cost(s.table[s.queue[i]]) >= 0
    ensures |hs| == |s.queue|
    ensures forall i :: 0 <= i < |hs| ==> hs[i] == if s.queue[i] == p then Cost(s.table[s.queue[i]]) else 0
  {
    seq(|s.queue|, i requires 0 <= i < |s.queue| =>
      if s.queue[i] == p then Cost(s.table[s.queue[i]]) as nat else 0)
  }

  lemma RoundLegHits(s: State, p: nat, i: int)
    requires Valid(s) && Positive(s)
    ensures LegHits(Sched, Stages(s), Costs(s), ChargedTo(p), OwnCosts(s, p), i)
  {
    if 0 <= i < |s.queue| {
      var r := Turned(s, i);
      TurnedNext(s, i);
      TurnTakesCost(r);
      HitsSteady(Sched, r, Costs(s)[i], ChargedTo(p), s.queue[i] == p);
    }
  }

  /** A whole round: it takes the sum of all budgets and charges everybody its own. */
  lemma WholeRound(s: State, p: nat)
    requires Valid(s) && Positive(s) && p in s.queue
    ensures Iter(Sched, s, Total(Costs(s))) == Turned(s, |s.queue|)
    ensures HeadCount(s, Total(Costs(s)), p) == Cost(s.table[p])
  {
    var n, cs, hs := |s.queue|, Costs(s), OwnCosts(s, p);
    RoundProgress(s, n);
    assert cs[..n] == cs && hs[..n] == hs;
    forall i ensures Leg(Sched, Stages(s), cs, i) {
      RoundLegs(s, i);
    }
    forall i ensures LegHits(Sched, Stages(s), cs, ChargedTo(p), hs, i) {
      RoundLegHits(s, p, i);
    }
    JourneyHits(Sched, Stages(s), cs, ChargedTo(p), hs, n);
    TurnedNone(s);
    OwnTotal(s, p);
  }

  lemma OwnTotal(s: State, p: nat)
    requires Valid(s) && Positive(s) && p in s.queue
    ensures Total(OwnCosts(s, p)) == Cost(s.table[p])
  {
    var k := IndexOf(s.queue, p);
    forall j | 0 <= j < |s.queue| && j != k ensures s.queue[j] != p {
      assert Differ(s.queue, j, k) && Differ(s.queue, k, j);
    }
    TotalSingle(OwnCosts(s, p), k);
  }

  /** Nobody is on its first turn and everybody has its group's full budget. */
  ghost predicate Fresh(s: State)
    requires Valid(s)
  {
    forall i :: 0 <= i < |s.queue| ==>
      var t := s.table[s.queue[i]]; !t.first && t.ticks == s.Time(t.group)
  }

  function Members(s: State, q: seq<nat>, g: Group): nat
    requires forall i :: 0 <= i < |q| ==> q[i] < |s.table|
  {
    if q == [] then 0
    else Members(s, q[..|q| - 1], g) + (if s.table[q[|q| - 1]].group == g then 1 else 0)
  }

  /** The calls of one round of a fresh queue: nA * PROC_TIME[0] + nB * PROC_TIME[1]. */
  function RoundLength(s: State): int
    requires Valid(s)
  {
    Members(s, s.queue, A) * s.timeA + Members(s, s.queue, B) * s.timeB
  }

  lemma {:induction false} FreshTotal(s: State, k: nat)
    requires Valid(s) && Positive(s) && Fresh(s) && k <= |s.queue|
    ensures Total(Costs(s)[..k]) == Members(s, s.queue[..k], A) * s.timeA + Members(s, s.queue[..k], B) * s.timeB
    decreases k
  {
    if k > 0 {
      FreshTotal(s, k - 1);
      assert Costs(s)[..k][..k - 1] == Costs(s)[..k - 1];
      MembersNext(s, k - 1);
    }
  }

  lemma MembersNext(s: State, k: nat)
    requires Valid(s) && k < |s.queue|
    ensures Members(s, s.queue[..k + 1], A) * s.timeA + Members(s, s.queue[..k + 1], B) * s.timeB
            == Members(s, s.queue[..k], A) * s.timeA + Members(s, s.queue[..k], B) * s.timeB
               + s.Time(s.table[s.queue[k]].group)
  {
    assert s.queue[..k + 1][..k] == s.queue[..k];
    AddOne(Members(s, s.queue[..k], A), s.timeA);
    AddOne(Members(s, s.queue[..k], B), s.timeB);
  }

  lemma AddOne(a: int, b: int)
    ensures (a + 1) * b == a * b + b
  {
  }

  /** A fresh queue is the same after a full round of turns. */
  lemma FreshRound(s: State)
    requires Valid(s) && Fresh(s)
    ensures Turned(s, |s.queue|) == s
  {
    var n, r := |s.queue|, Turned(s, |s.queue|);
    assert s.queue[n..] + s.queue[..n] == s.queue;
    forall p | 0 <= p < |s.table| ensures r.table[p] == s.table[p] {
      if p in s.queue {
        assert s.queue[IndexOf(s.queue, p)] == p;
      }
    }
    assert r.table == s.table;
  }

  /** The round takes what the queued processes have left. */
  lemma RoundIsTotal(s: State)
    requires Valid(s) && Positive(s) && Fresh(s)
    ensures RoundLength(s) == Total(Costs(s))
  {
    var n := |s.queue|;
    FreshTotal(s, n);
    assert Costs(s)[..n] == Costs(s) && s.queue[..n] == s.queue;
  }

  lemma FreshCost(s: State, p: nat)
    requires Valid(s) && Fresh(s) && p in s.queue
    ensures Cost(s.table[p]) == s.Time(s.table[p].group)
  {
    assert s.queue[IndexOf(s.queue, p)] == p;
  }

  lemma ShareOver(s: State, p: nat, n: int)
    requires Valid(s) && Positive(s) && Fresh(s) && p in s.queue && n == Total(Costs(s))
    ensures n >= 0 && Iter(Sched, s, n) == s && HeadCount(s, n, p) == s.Time(s.table[p].group)
  {
    WholeRound(s, p);
    FreshRound(s);
    FreshCost(s, p);
  }

  /** Exact proportional share: one round of a fresh queue restores the queue and every budget,
      and charges each process exactly its group's share of the round. */
  lemma ExactShare(s: State, p: nat)
    requires Valid(s) && Positive(s) && Fresh(s) && p in s.queue
    ensures RoundLength(s) >= 0
    ensures Iter(Sched, s, RoundLength(s)) == s
    ensures HeadCount(s, RoundLength(s), p) == s.Time(s.table[p].group)
  {
    RoundIsTotal(s);
    ShareOver(s, p, RoundLength(s));
  }

  /** The same over any number of rounds. */
  lemma ExactShareForever(s: State, p: nat, rounds: nat)
    requires Valid(s) && Positive(s) && Fresh(s) && p in s.queue
    ensures rounds * RoundLength(s) >= 0
    ensures Iter(Sched, s, rounds * RoundLength(s)) == s
    ensures HeadCount(s, rounds * RoundLength(s), p) == rounds * s.Time(s.table[p].group)
  {
    ExactShare(s, p);
    Loops(Sched, s, RoundLength(s), ChargedTo(p), rounds);
  }

  /** One full round of turns: the queue is back in order, everybody has been refreshed. */
  lemma FullRound(s: State)
    requires Valid(s)
    ensures var r := Turned(s, |s.queue|);
            && Valid(r) && r == s.(table := r.table) && |r.table| == |s.table|
            && forall i :: 0 <= i < |s.queue| ==> r.table[s.queue[i]] == Refreshed(s, s.table[s.queue[i]])
  {
    var n := |s.queue|;
    assert s.queue[n..] + s.queue[..n] == s.queue;
    forall i | 0 <= i < n ensures Turned(s, n).table[s.queue[i]] == Refreshed(s, s.table[s.queue[i]]) {
      assert s.queue[i] in s.queue;
    }
  }

  lemma RefreshedPositive(s: State, r: State)
    requires Positive(s) && r == s.(table := r.table) && |r.table| == |s.table|
    requires forall i :: 0 <= i < |s.queue| ==> r.table[s.queue[i]] == Refreshed(s, s.table[s.queue[i]])
    ensures Positive(r)
  {
  }

  /** A round leaves all budgets positive. */
  lemma RoundPositive(s: State)
    requires Valid(s) && Positive(s)
    ensures Valid(Turned(s, |s.queue|)) && Positive(Turned(s, |s.queue|))
    ensures Turned(s, |s.queue|).queue == s.queue
  {
    FullRound(s);
    RefreshedPositive(s, Turned(s, |s.queue|));
  }

  /** A round takes the sum of all budgets. */
  lemma RoundTime(s: State)
    requires Valid(s) && Positive(s)
    ensures Iter(Sched, s, Total(Costs(s))) == Turned(s, |s.queue|)
  {
    RoundProgress(s, |s.queue|);
    assert Costs(s)[..|s.queue|] == Costs(s);
  }

  lemma {:induction false} CostsTotal(s: State, k: nat)
    requires Valid(s) && Positive(s) && k <= |s.queue|
    ensures Total(Costs(s)[..k]) == CostSum(s, s.queue[..k])
    decreases k
  {
    if k > 0 {
      CostsTotal(s, k - 1);
      assert Costs(s)[..k][..k - 1] == Costs(s)[..k - 1] && s.queue[..k][..k - 1] == s.queue[..k - 1];
    }
  }

  /** The calls of one round: what all queued processes have left. */
  function RoundCalls(s: State): nat
    requires Valid(s) && Positive(s)
  {
    CostSumPositive(s, s.queue);
    CostSum(s, s.queue)
  }

  /** One round refreshes everybody and leaves the queue in the same order. */
  lemma OneRound(s: State) returns (r: State)
    requires Valid(s) && Positive(s)
    ensures r == Iter(Sched, s, RoundCalls(s))
    ensures Valid(r) && Positive(r) && r == s.(table := r.table) && |r.table| == |s.table|
    ensures forall i :: 0 <= i < |s.queue| ==> r.table[s.queue[i]] == Refreshed(s, s.table[s.queue[i]])
  {
    CostsTotal(s, |s.queue|);
    assert Costs(s)[..|s.queue|] == Costs(s) && s.queue[..|s.queue|] == s.queue;
    r := Turned(s, |s.queue|);
    RoundTime(s);
    RoundPositive(s);
    FullRound(s);
  }

  /** The queued processes are in the same groups. */
  ghost predicate SameGroups(s: State, r: State)
    requires Valid(s)
  {
    && |r.table| == |s.table|
    && forall i :: 0 <= i < |s.queue| ==> r.table[s.queue[i]].group == s.table[s.queue[i]].group
  }

  /** Two refreshments make a queue fresh. */
  lemma RefreshedTwice(s: State, r1: State, r2: State)
    requires Valid(s) && Positive(s) && |r1.table| == |r2.table| == |s.table|
    requires r1 == s.(table := r1.table) && r2 == r1.(table := r2.table)
    requires forall i :: 0 <= i < |s.queue| ==> r1.table[s.queue[i]] == Refreshed(s, s.table[s.queue[i]])
    requires forall i :: 0 <= i < |s.queue| ==> r2.table[s.queue[i]] == Refreshed(r1, r1.table[s.queue[i]])
    ensures Valid(r2) && Positive(r2) && Fresh(r2) && r2 == s.(table := r2.table) && SameGroups(s, r2)
  {
  }

  lemma TwoRounds(s: State) returns (r1: State, r2: State)
    requires Valid(s) && Positive(s)
    ensures r1 == Iter(Sched, s, RoundCalls(s)) && Valid(r1) && Positive(r1)
    ensures r2 == Iter(Sched, r1, RoundCalls(r1))
    ensures Valid(r2) && Positive(r2) && Fresh(r2) && r2 == s.(table := r2.table) && SameGroups(s, r2)
  {
    r1 := OneRound(s);
    r2 := OneRound(r1);
    RefreshedTwice(s, r1, r2);
  }

  lemma Onward(s: State, m: nat, r1: State, n: nat, r2: State)
    requires r1 == Iter(Sched, s, m) && r2 == Iter(Sched, r1, n)
    ensures r2 == Iter(Sched, s, m + n)
  {
    IterAdd(Sched, s, m, n);
  }

  /** Whatever the budgets and first turns at the start, two rounds, taking exactly as many calls
      as the budgets at their starts add up to, leave the queue in the same order and fresh; from
      then on the shares are exact. */
  lemma TwoRoundsFreshen(s: State) returns (r1: State, r2: State)
    requires Valid(s) && Positive(s)
    ensures r1 == Iter(Sched, s, RoundCalls(s)) && Valid(r1) && Positive(r1)
    ensures r2 == Iter(Sched, s, RoundCalls(s) + RoundCalls(r1))
    ensures Valid(r2) && Positive(r2) && Fresh(r2) && r2 == s.(table := r2.table) && SameGroups(s, r2)
  {
    r1, r2 := TwoRounds(s);
    Onward(s, RoundCalls(s), r1, RoundCalls(r1), r2);
  }
}
