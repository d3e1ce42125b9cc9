/** Working through a list of accesses on a reference design, one at a time. */
module Replays {
  import opened Lists

  datatype Call<M> = Put(m: M) | Get

  /** `serve` says what one access makes of the design and which messages it hands out; the
      result is the design and the messages taken in the end. */
  function Replay<D, M>(serve: (D, Call<M>) -> (D, seq<M>), d: D, taken: seq<M>, calls: seq<Call<M>>): (D, seq<M>)
    decreases |calls|
  {
    if calls == [] then (d, taken)
    else
      var (next, out) := serve(d, calls[0]);
      Replay(serve, next, taken + out, calls[1..])
  }

  function Puts<M>(calls: seq<Call<M>>): seq<M> {
    if calls == [] then []
    else (if calls[0].Put? then [calls[0].m] else []) + Puts(calls[1..])
  }

  lemma ReplayOne<D, M>(serve: (D, Call<M>) -> (D, seq<M>), d: D, taken: seq<M>, c: Call<M>)
    ensures Replay(serve, d, taken, [c]) == (serve(d, c).0, taken + serve(d, c).1)
    ensures Puts([c]) == if c.Put? then [c.m] else []
  {
    assert [c][1..] == [];
  }

  lemma {:induction false} PutsConcat<M>(a: seq<Call<M>>, b: seq<Call<M>>)
    ensures Puts(a + b) == Puts(a) + Puts(b)
    decreases |a|
  {
    if a == [] {
      assert a + b == b;
    } else {
      assert (a + b)[1..] == a[1..] + b && (a + b)[0] == a[0];
      PutsConcat(a[1..], b);
      Associate(if a[0].Put? then [a[0].m] else [], Puts(a[1..]), Puts(b));
    }
  }

  lemma {:induction false} ReplayConcat<D, M>(serve: (D, Call<M>) -> (D, seq<M>), d: D, taken: seq<M>,
                                              a: seq<Call<M>>, b: seq<Call<M>>)
    ensures var (mid, out) := Replay(serve, d, taken, a);
            Replay(serve, d, taken, a + b) == Replay(serve, mid, out, b)
    decreases |a|
  {
    if a == [] {
      assert a + b == b;
    } else {
      assert (a + b)[1..] == a[1..] + b;
      var (next, out) := serve(d, a[0]);
      ReplayConcat(serve, next, taken + out, a[1..], b);
    }
  }

  /** One access in front of others that are already accounted for. */
  lemma ReplayFront<D, M>(serve: (D, Call<M>) -> (D, seq<M>), d: D, taken: seq<M>, mid: (D, seq<M>),
                          a: seq<Call<M>>, b: seq<Call<M>>, sent: seq<M>, sent1: seq<M>, sent2: seq<M>)
    requires Replay(serve, d, taken, a) == mid && sent1 == sent + Puts(a) && sent2 == sent1 + Puts(b)
    ensures Replay(serve, d, taken, a + b) == Replay(serve, mid.0, mid.1, b) && sent2 == sent + Puts(a + b)
  {
    ReplayConcat(serve, d, taken, a, b);
    PutsConcat(a, b);
  }
}
