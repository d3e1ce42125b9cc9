/** The message list behind the monitor: priority messages are inserted behind the priority
    messages already there, normal ones at the end, and reading takes the first. */
module PriorityBuffers {

  datatype Message = Message(pri: int, source: int, body: string) {
    predicate Urgent() { pri == 1 }
  }

  // ---------------------------------------------------------------- the list as a value

  function CountUrgent(q: seq<Message>): (r: nat)
    ensures r <= |q|
  {
    if q == [] then 0
    else CountUrgent(q[..|q| - 1]) + (if q[|q| - 1].Urgent() then 1 else 0)
  }

  /** `send_msg`'s insertion: position by counting, not by looking where the block ends. */
  function Inserted(q: seq<Message>, m: Message): seq<Message> {
    var at := if m.Urgent() then CountUrgent(q) else |q|;
    q[..at] + [m] + q[at..]
  }

  /** The messages of one class in order. */
  function Class(q: seq<Message>, urgent: bool): seq<Message> {
    if q == [] then []
    else Class(q[..|q| - 1], urgent) + (if q[|q| - 1].Urgent() == urgent then [q[|q| - 1]] else [])
  }

  /** A block of urgent messages followed by a block of normal ones. */
  ghost predicate Grouped(q: seq<Message>) {
    q == Class(q, true) + Class(q, false)
  }

  lemma {:induction false} ClassConcat(a: seq<Message>, b: seq<Message>, urgent: bool)
    ensures Class(a + b, urgent) == Class(a, urgent) + Class(b, urgent)
    decreases |b|
  {
    if b == [] {
      assert a + b == a;
    } else {
      assert (a + b)[..|a + b| - 1] == a + b[..|b| - 1];
      ClassConcat(a, b[..|b| - 1], urgent);
    }
  }

  lemma {:induction false} ClassPure(q: seq<Message>, urgent: bool)
    requires forall i :: 0 <= i < |q| ==> q[i].Urgent() == urgent
    ensures Class(q, urgent) == q && Class(q, !urgent) == []
    decreases |q|
  {
    if q != [] {
      ClassPure(q[..|q| - 1], urgent);
    }
  }

  lemma {:induction false} ClassMembers(q: seq<Message>, urgent: bool)
    ensures forall i :: 0 <= i < |Class(q, urgent)| ==> Class(q, urgent)[i].Urgent() == urgent
    ensures |Class(q, true)| + |Class(q, false)| == |q| && CountUrgent(q) == |Class(q, true)|
    decreases |q|
  {
    if q != [] {
      ClassMembers(q[..|q| - 1], urgent);
    }
  }

  /** A list is grouped exactly when no urgent message stands behind a normal one. */
  lemma GroupedIff(q: seq<Message>)
    ensures Grouped(q) <==> forall i, j :: 0 <= i < j < |q| && q[j].Urgent() ==> q[i].Urgent()
  {
    ClassMembers(q, true);
    ClassMembers(q, false);
    var n := CountUrgent(q);
    if Grouped(q) {
      assert forall k :: 0 <= k < n ==> q[k] == Class(q, true)[k];
      assert forall k :: n <= k < |q| ==> q[k] == Class(q, false)[k - n];
    }
    if forall i, j :: 0 <= i < j < |q| && q[j].Urgent() ==> q[i].Urgent() {
      OrderedIsGrouped(q);
    }
  }

  lemma OrderedIsGrouped(q: seq<Message>)
    requires forall i, j :: 0 <= i < j < |q| && q[j].Urgent() ==> q[i].Urgent()
    ensures Grouped(q)
  {
    var k := FirstNormal(q);
    TwoBlocks(q[..k], q[k..]);
    assert q == q[..k] + q[k..];
  }

  lemma TwoBlocks(p: seq<Message>, n: seq<Message>)
    requires (forall i :: 0 <= i < |p| ==> p[i].Urgent()) && forall i :: 0 <= i < |n| ==> !n[i].Urgent()
    ensures Grouped(p + n)
  {
    ClassPure(p, true);
    ClassPure(n, false);
    ClassConcat(p, n, true);
    ClassConcat(p, n, false);
    assert p + [] == p && [] + n == n;
  }

  lemma FirstNormal(q: seq<Message>) returns (k: nat)
    requires forall i, j :: 0 <= i < j < |q| && q[j].Urgent() ==> q[i].Urgent()
    ensures k <= |q| && (forall i :: 0 <= i < k ==> q[i].Urgent()) && forall i :: k <= i < |q| ==> !q[i].Urgent()
  {
    k := 0;
    while k < |q| && q[k].Urgent()
      invariant k <= |q| && forall i :: 0 <= i < k ==> q[i].Urgent()
    {
      k := k + 1;
    }
  }

  lemma ClassInsert(a: seq<Message>, m: Message, b: seq<Message>, urgent: bool)
    ensures Class(a + [m] + b, urgent)
            == Class(a, urgent) + (if m.Urgent() == urgent then [m] else []) + Class(b, urgent)
  {
    ClassConcat(a + [m], b, urgent);
    ClassConcat(a, [m], urgent);
    ClassPure([m], m.Urgent());
  }

  /** The two blocks of a grouped list. */
  lemma GroupedBlocks(q: seq<Message>)
    requires Grouped(q)
    ensures q[..CountUrgent(q)] == Class(q, true) && q[CountUrgent(q)..] == Class(q, false)
    ensures Class(Class(q, true), true) == Class(q, true) && Class(Class(q, true), false) == []
    ensures Class(Class(q, false), false) == Class(q, false) && Class(Class(q, false), true) == []
  {
    ClassMembers(q, true);
    ClassMembers(q, false);
    ClassPure(Class(q, true), true);
    ClassPure(Class(q, false), false);
  }

  lemma InsertUrgent(q: seq<Message>, m: Message)
    requires Grouped(q) && m.Urgent()
    ensures Inserted(q, m) == Class(q, true) + [m] + Class(q, false)
    ensures Class(Inserted(q, m), true) == Class(q, true) + [m] && Class(Inserted(q, m), false) == Class(q, false)
  {
    var p, n := Class(q, true), Class(q, false);
    GroupedBlocks(q);
    assert Inserted(q, m) == p + [m] + n;
    ClassInsert(p, m, n, true);
    ClassInsert(p, m, n, false);
    assert p + [m] + [] == p + [m];
  }

  lemma InsertNormal(q: seq<Message>, m: Message)
    requires Grouped(q) && !m.Urgent()
    ensures Inserted(q, m) == q + [m]
    ensures Class(Inserted(q, m), true) == Class(q, true) && Class(Inserted(q, m), false) == Class(q, false) + [m]
  {
    assert q[..|q|] + [m] + q[|q|..] == q + [m];
    ClassConcat(q, [m], true);
    ClassConcat(q, [m], false);
    ClassPure([m], false);
  }

  /** Sending appends to the queue of the message's class and leaves the other queue alone: on
      a grouped list counting does find the end of the urgent block. */
  lemma InsertRefinesQueues(q: seq<Message>, m: Message)
    requires Grouped(q)
    ensures Grouped(Inserted(q, m)) && |Inserted(q, m)| == |q| + 1
    ensures Class(Inserted(q, m), m.Urgent()) == Class(q, m.Urgent()) + [m]
    ensures Class(Inserted(q, m), !m.Urgent()) == Class(q, !m.Urgent())
  {
    if m.Urgent() {
      InsertUrgent(q, m);
    } else {
      InsertNormal(q, m);
      assert (Class(q, true) + Class(q, false)) + [m] == Class(q, true) + (Class(q, false) + [m]);
    }
  }

  /** The first message belongs to its class alone. */
  lemma ClassFront(q: seq<Message>, urgent: bool)
    requires q != []
    ensures Class(q, urgent) == (if q[0].Urgent() == urgent then [q[0]] else []) + Class(q[1..], urgent)
  {
    assert q == [q[0]] + q[1..];
    ClassConcat([q[0]], q[1..], urgent);
    ClassPure([q[0]], q[0].Urgent());
  }

  lemma TailGrouped(q: seq<Message>)
    requires Grouped(q) && q != []
    ensures Grouped(q[1..])
  {
    GroupedIff(q);
    GroupedIff(q[1..]);
  }

  /** An urgent message stands in front if there is one at all. */
  lemma UrgentFirst(q: seq<Message>)
    requires Grouped(q) && q != []
    ensures q[0].Urgent() <==> Class(q, true) != []
  {
    ClassMembers(q, true);
    ClassMembers(q, false);
    assert q[0] == (Class(q, true) + Class(q, false))[0];
  }

  /** Reading takes the oldest urgent message, or the oldest normal one if there is none. */
  lemma TakeRefinesQueues(q: seq<Message>)
    requires Grouped(q) && q != []
    ensures Grouped(q[1..])
    ensures if Class(q, true) != []
            then q[0] == Class(q, true)[0] && Class(q[1..], true) == Class(q, true)[1..]
                 && Class(q[1..], false) == Class(q, false)
            else q[0] == Class(q, false)[0] && Class(q[1..], false) == Class(q, false)[1..]
                 && Class(q[1..], true) == []
  {
    TailGrouped(q);
    UrgentFirst(q);
    ClassFront(q, true);
    ClassFront(q, false);
  }

  /** Counting finds the right place only because of the grouping: on a list that is not
      grouped the same insertion can put an urgent message behind a normal one. */
  lemma CountingNeedsGrouping(u: Message, n: Message)
    requires u.Urgent() && !n.Urgent()
    ensures Inserted([n, u], u) == [n, u, u] && !Grouped([n, u, u])
  {
    var q := [n, u];
    assert q[..1] == [n] && [n][..0] == [];
    assert CountUrgent([n]) == 0 && CountUrgent(q) == 1;
    GroupedIff([n, u, u]);
    var r := [n, u, u];
    assert r[1].Urgent() && !r[0].Urgent();
  }

  // ---------------------------------------------------------------- the list in place

  /** Iterator position in front of the first element. */
  const BEFORE_BEGIN: int := -1

  class MessageList {
    var items: seq<Message>

    constructor ()
      ensures items == []
    {
      items := [];
    }

    /** `get_size`: counts by walking. */
    method GetSize() returns (counter: nat)
      ensures counter == |items|
    {
      counter := 0;
      var i := 0;
      while i != |items|
        invariant 0 <= i <= |items| && counter == i
        decreases |items| - i
      {
        i := i + 1;
        counter := counter + 1;
      }
    }

    /** `find_next_pri`: an iterator to the element a new urgent message goes behind. */
    method FindNextPri() returns (i: int)
      ensures i == CountUrgent(items) - 1
    {
      i := 0;
      var counter := 0;
      while i != |items|
        invariant 0 <= i <= |items| && counter == CountUrgent(items[..i])
        decreases |items| - i
      {
        assert items[..i + 1][..i] == items[..i];
        if items[i].pri == 1 {
          counter := counter + 1;
        }
        i := i + 1;
      }
      assert items[..|items|] == items;
      if counter == 0 {
        i := BEFORE_BEGIN;
      } else {
        counter := counter - 1;
        i := 0;
        for j := 0 to counter
          invariant i == j
        {
          i := i + 1;
        }
      }
    }

    /** `find_last`: an iterator to the last element. */
    method FindLast() returns (i: int)
      ensures i == |items| - 1
    {
      i := 0;
      var counter := 0;
      while i != |items|
        invariant 0 <= i <= |items| && counter == i
        decreases |items| - i
      {
        counter := counter + 1;
        i := i + 1;
      }
      if counter == 0 {
        i := BEFORE_BEGIN;
      } else {
        counter := counter - 1;
        i := 0;
        for j := 0 to counter
          invariant i == j
        {
          i := i + 1;
        }
      }
    }

    method InsertAfter(i: int, m: Message)
      requires BEFORE_BEGIN <= i < |items|
      modifies this
      ensures items == old(items)[..i + 1] + [m] + old(items)[i + 1..]
    {
      items := items[..i + 1] + [m] + items[i + 1..];
    }

    /** The middle of `send_msg`, between the two synchronisation points. */
    method Send(m: Message)
      modifies this
      ensures items == Inserted(old(items), m)
    {
      if m.pri == 1 {
        var nextPri := FindNextPri();
        InsertAfter(nextPri, m);
      } else {
        var last := FindLast();
        InsertAfter(last, m);
      }
    }

    /** The middle of `read_msg`. */
    method Read() returns (m: Message)
      requires items != []
      modifies this
      ensures old(items) == [m] + items
    {
      m := items[0];
      items := items[1..];
    }
  }
}
