/** The round-robin scheduler with two groups of processes: the state as a value, one call of
    `sched`, and the operations by which processes enter it and change it. */
module Scheduler {
  import opened Iteration
  import opened Lists

  datatype Group = A | B

  datatype Task = Task(group: Group, ticks: int, first: bool)

  /** `queue` is the user ready queue, head first; `timeA` and `timeB` are PROC_TIME. */
  datatype State = State(table: seq<Task>, queue: seq<nat>, timeA: int, timeB: int) {
    function Time(g: Group): int { if g == A then timeA else timeB }
  }

  /** The ready queue lists processes of the table, none of them twice. */
  ghost predicate Valid(s: State) {
    (forall i :: 0 <= i < |s.queue| ==> s.queue[i] < |s.table|) && NoRepeat(s.queue)
  }

  /** The head goes to the end of the queue. */
  function Rotate(q: seq<nat>): seq<nat>
    requires q != []
  {
    q[1..] + [q[0]]
  }

  function SetTask(s: State, p: nat, t: Task): State
    requires p < |s.table|
  {
    s.(table := s.table[p := t])
  }

  /** One call of `sched`, the clock's verdict on the running process. A queue head outside the
      table does not occur in a valid state. */
  function Sched(s: State): State {
    if s.queue == [] || s.queue[0] >= |s.table| then s
    else
      var h := s.queue[0];
      var t := s.table[h];
      if t.first then SetTask(s, h, t.(first := false)).(queue := Rotate(s.queue))
      else if t.ticks - 1 == 0 then SetTask(s, h, t.(ticks := s.Time(t.group))).(queue := Rotate(s.queue))
      else SetTask(s, h, t.(ticks := t.ticks - 1))
  }

  /** `set_scheduler`: only a process of group A may set the proportion; `x` is not checked. */
  function SetScheduler(s: State, p: nat, x: int): (State, int)
    requires p < |s.table|
  {
    if s.table[p].group == A then (s.(timeA := x, timeB := 100 - x), 0) else (s, -1)
  }

  /** `change_group`: the current budget stays. */
  function ChangeGroup(s: State, p: nat): State
    requires p < |s.table|
  {
    SetTask(s, p, s.table[p].(group := if s.table[p].group == A then B else A))
  }

  /** What `do_fork` gives a child: group by pid, that group's budget, first turn ahead. */
  function Fork(s: State, child: nat, pid: int): State
    requires child < |s.table|
  {
    var g := if pid % 2 == 0 then A else B;
    SetTask(s, child, Task(g, s.Time(g), true))
  }

  /** A runnable process joins at the tail. */
  function Ready(s: State, p: nat): State {
    s.(queue := s.queue + [p])
  }

  // ---------------------------------------------------------------- budgets

  /** How many calls of `sched` a process spends at the head of the queue. */
  function Cost(t: Task): int { if t.first then 1 else t.ticks }

  ghost predicate Positive(s: State) {
    && s.timeA > 0 && s.timeB > 0
    && forall i :: 0 <= i < |s.queue| ==> s.queue[i] < |s.table| && s.table[s.queue[i]].ticks > 0
  }

  /** The head's budget after its turn. */
  function Refreshed(s: State, t: Task): Task {
    if t.first then t.(first := false) else t.(ticks := s.Time(t.group))
  }

  /** A whole turn of the head. */
  function Turn(s: State): State
    requires s.queue != [] && s.queue[0] < |s.table|
  {
    var h := s.queue[0];
    SetTask(s, h, Refreshed(s, s.table[h])).(queue := Rotate(s.queue))
  }

  lemma RotateDistinct(q: seq<nat>)
    requires q != [] && NoRepeat(q)
    ensures NoRepeat(Rotate(q)) && multiset(Rotate(q)) == multiset(q)
  {
    assert q == [q[0]] + q[1..];
    var r := Rotate(q);
    NoRepeatMeans(q);
    forall i, j | 0 <= i < j < |q| ensures r[i] != r[j] {
      assert r[i] == q[i + 1];
      assert r[j] == if j + 1 < |q| then q[j + 1] else q[0];
    }
    NoRepeatMeans(r);
  }

  /** The ready queue stays a list of distinct processes, always the same ones. */
  lemma SchedValid(s: State)
    requires Valid(s)
    ensures Valid(Sched(s)) && multiset(Sched(s).queue) == multiset(s.queue)
  {
    if s.queue != [] { RotateDistinct(s.queue); }
  }

  /** A head with budget `c` keeps its place for `c` calls and not one longer. */
  lemma {:induction false} TurnTakesCost(s: State)
    requires Valid(s) && s.queue != [] && Cost(s.table[s.queue[0]]) > 0
    ensures Iter(Sched, s, Cost(s.table[s.queue[0]])) == Turn(s)
    ensures forall j :: 0 <= j < Cost(s.table[s.queue[0]]) ==> Iter(Sched, s, j).queue == s.queue
    decreases Cost(s.table[s.queue[0]])
  {
    var h := s.queue[0];
    var t := s.table[h];
    if !t.first && t.ticks > 1 {
      var s' := Sched(s);
      SchedValid(s);
      TurnTakesCost(s');
      assert s'.table[h := Refreshed(s', s'.table[h])] == s.table[h := Refreshed(s, t)];
    }
  }

  lemma {:induction false} StarvingHead(s: State, n: nat)
    requires Valid(s) && s.queue != []
    requires !s.table[s.queue[0]].first && s.table[s.queue[0]].ticks <= 0
    ensures Iter(Sched, s, n).queue == s.queue
    decreases n
  {
    if n > 0 {
      SchedValid(s);
      StarvingHead(Sched(s), n - 1);
    }
  }

  /** The head ever gives way to somebody else exactly when it is on its first turn or has a
      positive budget; a budget that is not positive is counted down without end. */
  lemma HeadGivesWayIff(s: State)
    requires Valid(s) && |s.queue| > 1
    ensures (exists n: nat :: Iter(Sched, s, n).queue != s.queue) <==>
            s.table[s.queue[0]].first || s.table[s.queue[0]].ticks > 0
  {
    var t := s.table[s.queue[0]];
    if t.first || t.ticks > 0 {
      TurnTakesCost(s);
      var n: nat := Cost(t);
      assert Differ(s.queue, 0, 1);
      assert Iter(Sched, s, n).queue[0] == s.queue[1] != s.queue[0];
    } else {
      forall n: nat ensures Iter(Sched, s, n).queue == s.queue {
        StarvingHead(s, n);
      }
    }
  }

  // ---------------------------------------------------------------- what keeps budgets positive

  lemma SchedPositive(s: State)
    requires Valid(s) && Positive(s)
    ensures Positive(Sched(s))
  {
    SchedValid(s);
    var r := Sched(s);
    forall i | 0 <= i < |r.queue| ensures r.table[r.queue[i]].ticks > 0 {
      assert r.queue[i] in multiset(r.queue);
      assert r.queue[i] in s.queue;
    }
  }

  /** A proportion keeps all budgets positive, now and at every later refill, exactly when it
      leaves something to both groups. */
  lemma ProportionValidIff(s: State, p: nat, x: int)
    requires p < |s.table| && Positive(s) && s.table[p].group == A
    ensures Positive(SetScheduler(s, p, x).0) <==> 0 < x < 100
  {
  }

  lemma ForkGivesBudget(s: State, child: nat, pid: int)
    requires Positive(s) && child < |s.table| && child !in s.queue
    ensures var r := Fork(s, child, pid);
            Positive(r) && r.table[child].ticks > 0 && Cost(r.table[child]) == 1
  {
  }
}
