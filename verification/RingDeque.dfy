/** The ring buffer in shared memory: urgent messages go in at the head, normal ones at the
    tail, reading takes from the head. */
module RingDeques {

  datatype Message = Message(pri: int, source: int, m: char) {
    predicate Urgent() { pri == 1 }
  }

  datatype Ring = Ring(table: seq<Message>, head: int, tail: int, size: int)

  /** Position `i` places round a ring of `n`, for at most one turn. */
  function Wrap(i: int, n: int): int {
    if i < n then i else i - n
  }

  /** The remainder the program computes is one step round the ring. */
  lemma WrapIsModulo(i: int, n: int)
    requires 0 <= i <= n && 0 < n
    ensures Wrap(i, n) == i % n
  {
  }

  predicate Valid(r: Ring) {
    && |r.table| > 0
    && 0 <= r.head < |r.table| && 0 <= r.size <= |r.table|
    && r.tail == Wrap(r.head + r.size, |r.table|)
  }

  /** The messages in the order in which they would be read. */
  function Contents(r: Ring): (c: seq<Message>)
    requires Valid(r)
    ensures |c| == r.size
  {
    seq(r.size, i requires 0 <= i < r.size => r.table[Wrap(r.head + i, |r.table|)])
  }

  function SendMsg(r: Ring, m: Message): Ring
    requires 0 <= r.head < |r.table| && 0 <= r.tail < |r.table|
  {
    var n := |r.table|;
    if m.Urgent() then
      var h := if r.head - 1 < 0 then n - 1 else r.head - 1;
      Ring(r.table[h := m], h, r.tail, r.size + 1)
    else
      Ring(r.table[r.tail := m], r.head, (r.tail + 1) % n, r.size + 1)
  }

  function ReadMsg(r: Ring): (Message, Ring)
    requires 0 <= r.head < |r.table|
  {
    (r.table[r.head], Ring(r.table, (r.head + 1) % |r.table|, r.tail, r.size - 1))
  }

  /** Into a ring with a free place, sending puts the message in front or at the back. */
  lemma SendDeque(r: Ring, m: Message)
    requires Valid(r) && r.size < |r.table|
    ensures Valid(SendMsg(r, m))
    ensures Contents(SendMsg(r, m)) == if m.Urgent() then [m] + Contents(r) else Contents(r) + [m]
  {
    var n, r' := |r.table|, SendMsg(r, m);
    WrapIsModulo(r.tail + 1, n);
    var c, c' := Contents(r), Contents(r');
    forall i | 0 <= i < r.size + 1
      ensures c'[i] == if m.Urgent() then ([m] + c)[i] else (c + [m])[i]
    {
      var at := Wrap(r'.head + i, n);
      assert c'[i] == r'.table[at];
      if m.Urgent() && i > 0 {
        assert at == Wrap(r.head + (i - 1), n);
      }
    }
  }

  /** From a ring that is not empty, reading takes the first message. */
  lemma ReadDeque(r: Ring)
    requires Valid(r) && r.size > 0
    ensures Valid(ReadMsg(r).1) && Contents(r) == [ReadMsg(r).0] + Contents(ReadMsg(r).1)
  {
    var n, r' := |r.table|, ReadMsg(r).1;
    WrapIsModulo(r.head + 1, n);
    var c, c' := Contents(r), Contents(r');
    forall i | 0 <= i < r.size ensures c[i] == ([r.table[r.head]] + c')[i] {
      if i > 0 {
        assert c'[i - 1] == r'.table[Wrap(r'.head + (i - 1), n)];
        assert Wrap(r'.head + (i - 1), n) == Wrap(r.head + i, n);
      } else {
        assert c[0] == r.table[Wrap(r.head, n)];
      }
    }
  }

  /** In terms of the priority itself: a message of priority 1 is read next, any other one after all
      that are in the ring. */
  lemma PriorityOneIsReadNext(r: Ring, m: Message)
    requires Valid(r) && r.size < |r.table|
    ensures Valid(SendMsg(r, m)) && |Contents(SendMsg(r, m))| == r.size + 1
    ensures m.pri == 1 ==> ReadMsg(SendMsg(r, m)).0 == m
    ensures m.pri != 1 ==> Contents(SendMsg(r, m))[r.size] == m
    ensures m.pri != 1 && r.size > 0 ==> ReadMsg(SendMsg(r, m)).0 == ReadMsg(r).0
  {
    SendDeque(r, m);
    ReadIsFront(SendMsg(r, m));
    if r.size > 0 {
      ReadIsFront(r);
    }
  }

  lemma ReadIsFront(r: Ring)
    requires Valid(r) && r.size > 0
    ensures |Contents(r)| == r.size && Contents(r)[0] == ReadMsg(r).0
  {
    ReadDeque(r);
  }

  // ---------------------------------------------------------------- stack and queue

  /** The length of the leading stretch of urgent messages. */
  function Lead(c: seq<Message>): (k: nat)
    ensures k <= |c| && (forall i :: 0 <= i < k ==> c[i].Urgent()) && (k < |c| ==> !c[k].Urgent())
  {
    if c == [] || !c[0].Urgent() then 0 else 1 + Lead(c[1..])
  }

  /** No urgent message behind a normal one. */
  ghost predicate Grouped(c: seq<Message>) {
    forall i :: Lead(c) <= i < |c| ==> !c[i].Urgent()
  }

  /** The reference design: a stack of urgent messages on top of a queue of normal ones. */
  datatype Desk = Desk(stack: seq<Message>, fifo: seq<Message>) {
    function Put(m: Message): Desk {
      if m.Urgent() then Desk([m] + stack, fifo) else Desk(stack, fifo + [m])
    }

    predicate Empty() { stack == [] && fifo == [] }

    function Next(): (Message, Desk)
      requires !Empty()
    {
      if stack != [] then (stack[0], Desk(stack[1..], fifo)) else (fifo[0], Desk(stack, fifo[1..]))
    }
  }

  function AsDesk(c: seq<Message>): Desk {
    Desk(c[..Lead(c)], c[Lead(c)..])
  }

  lemma LeadIs(c: seq<Message>, k: nat)
    requires k <= |c| && (forall i :: 0 <= i < k ==> c[i].Urgent()) && (k < |c| ==> !c[k].Urgent())
    ensures Lead(c) == k
  {
  }

  lemma PutInFront(c: seq<Message>, m: Message)
    requires Grouped(c) && m.Urgent()
    ensures Grouped([m] + c) && AsDesk([m] + c) == AsDesk(c).Put(m)
  {
    var c' := [m] + c;
    assert forall i :: 0 < i < |c'| ==> c'[i] == c[i - 1];
    LeadIs(c', Lead(c) + 1);
  }

  lemma PutAtBack(c: seq<Message>, m: Message)
    requires Grouped(c) && !m.Urgent()
    ensures Grouped(c + [m]) && AsDesk(c + [m]) == AsDesk(c).Put(m)
  {
    LeadIs(c + [m], Lead(c));
  }

  /** Sending into the ring is putting on the desk. */
  lemma SendRefinesDesk(r: Ring, m: Message)
    requires Valid(r) && r.size < |r.table| && Grouped(Contents(r))
    ensures Valid(SendMsg(r, m)) && Grouped(Contents(SendMsg(r, m)))
    ensures AsDesk(Contents(SendMsg(r, m))) == AsDesk(Contents(r)).Put(m)
  {
    SendDeque(r, m);
    if m.Urgent() {
      PutInFront(Contents(r), m);
    } else {
      PutAtBack(Contents(r), m);
    }
  }

  /** Reading from the ring is taking the next message from the desk. */
  lemma ReadRefinesDesk(r: Ring)
    requires Valid(r) && r.size > 0 && Grouped(Contents(r))
    ensures Valid(ReadMsg(r).1) && Grouped(Contents(ReadMsg(r).1))
    ensures !AsDesk(Contents(r)).Empty()
    ensures AsDesk(Contents(r)).Next() == (ReadMsg(r).0, AsDesk(Contents(ReadMsg(r).1)))
  {
    ReadDeque(r);
    var c, c' := Contents(r), Contents(ReadMsg(r).1);
    var k := Lead(c);
    assert c' == c[1..];
    assert forall i :: 0 <= i < |c'| ==> c'[i] == c[i + 1];
    if k > 0 {
      LeadIs(c', k - 1);
      assert c[..k][1..] == c'[..k - 1] && c'[k - 1..] == c[k..];
    } else {
      LeadIs(c', 0);
    }
  }

  // ---------------------------------------------------------------- in place

  class Queue {
    const table: array<Message>
    var head: int
    var tail: int
    var size: int

    function Abs(): Ring
      reads this, table
    {
      Ring(table[..], head, tail, size)
    }

    /** `queue_init` on freshly shared memory. */
    constructor (memory: array<Message>)
      requires memory.Length > 0
      ensures table == memory && Valid(Abs()) && Contents(Abs()) == []
    {
      table := memory;
      head, tail, size := 0, 0, 0;
    }

    /** Head and tail are places of the table; this much holds however the ring is used. */
    ghost predicate Placed()
      reads this
    {
      0 <= head < table.Length && 0 <= tail < table.Length
    }

    /** `send_msg` checks nothing: sending into a full ring overwrites. */
    method Send(m: Message)
      requires Placed()
      modifies this, table
      ensures Placed() && Abs() == SendMsg(old(Abs()), m)
      ensures old(Valid(Abs()) && size < table.Length) ==>
                && Valid(Abs())
                && Contents(Abs()) == if m.Urgent() then [m] + Contents(old(Abs())) else Contents(old(Abs())) + [m]
    {
      if Valid(Abs()) && size < table.Length { SendDeque(Abs(), m); }
      if m.pri == 1 {
        head := head - 1;
        if head < 0 {
          head := table.Length - 1;
        }
        table[head] := m;
      } else {
        table[tail] := m;
        tail := (tail + 1) % table.Length;
      }
      size := size + 1;
    }

    /** `read_msg` checks nothing either: reading an empty ring gives what lies at its head. */
    method Read() returns (m: Message)
      requires Placed()
      modifies this
      ensures Placed() && (m, Abs()) == ReadMsg(old(Abs()))
      ensures old(Valid(Abs()) && size > 0) ==>
                Valid(Abs()) && Contents(old(Abs())) == [m] + Contents(Abs())
    {
      if Valid(Abs()) && size > 0 { ReadDeque(Abs()); }
      m := table[head];
      head := (head + 1) % table.Length;
      size := size - 1;
    }
  }
}
