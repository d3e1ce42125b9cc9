/** The HOLE_MAP system call's word format: what `do_hole_map` writes and what the loop of
    the reader program `t.c` makes of it. */
module HoleMaps {
  import opened Options
  import opened Holes

  const WORD: nat := 4
  const UINT_RANGE: int := 0x1_0000_0000

  /** A C `int` seen as the unsigned size it is compared and divided with. */
  function AsUnsigned(n: int): (r: nat)
    requires -0x8000_0000 <= n < 0x8000_0000
    ensures r < UINT_RANGE && (r - n) % UINT_RANGE == 0
    ensures 0 <= n ==> r == n
    ensures n < 0 ==> r >= 0x8000_0000
  {
    if n < 0 then n + UINT_RANGE else n
  }

  /** How many (length, base) pairs the call is willing to write; the subtraction is unsigned. */
  function PairLimit(nbytes: int): (r: nat)
    requires -0x8000_0000 <= nbytes < 0x8000_0000
    ensures WORD <= nbytes ==> WORD * (2 * r + 1) <= nbytes < WORD * (2 * r + 3)
  {
    var words := AsUnsigned(nbytes) / WORD;
    (if words == 0 then UINT_RANGE - 1 else words - 1) / 2
  }

  /** Length and base of each hole, in list order. */
  function Flat(hs: seq<Hole>): (r: seq<int>)
    ensures |r| == 2 * |hs|
  {
    if hs == [] then [] else [hs[0].len, hs[0].base] + Flat(hs[1..])
  }

  /** The words the call writes: all pairs, then a terminating 0. */
  function Encode(hs: seq<Hole>): (r: seq<int>)
    ensures |r| == 2 * |hs| + 1
  {
    Flat(hs) + [0]
  }

  /** What the reader's loop collects from a buffer; None when it runs off the end. */
  function Decode(b: seq<int>): (r: Option<seq<(int, int)>>) {
    if b == [] then None
    else if b[0] == 0 then Some([])
    else if |b| == 1 then None
    else
      match Decode(b[2..])
      case None => None
      case Some(rest) => Some([(b[0], b[1])] + rest)
  }

  function AsPairs(hs: seq<Hole>): (r: seq<(int, int)>)
    ensures |r| == |hs| && forall i :: 0 <= i < |r| ==> r[i] == (hs[i].len as int, hs[i].base as int)
  {
    seq(|hs|, i requires 0 <= i < |hs| => (hs[i].len as int, hs[i].base as int))
  }

  /** The reader recovers exactly the encoded holes, whatever lies behind them in its buffer,
      if and only if no hole is empty: an empty hole would read as the end mark. */
  lemma {:induction false} RoundTripIff(hs: seq<Hole>, junk: seq<int>)
    ensures Decode(Encode(hs) + junk).Some?
    ensures Decode(Encode(hs) + junk) == Some(AsPairs(hs))
            <==> forall i :: 0 <= i < |hs| ==> hs[i].len > 0
    decreases |hs|
  {
    if hs != [] {
      var b := Encode(hs) + junk;
      assert b == [hs[0].len, hs[0].base] + (Encode(hs[1..]) + junk);
      if hs[0].len > 0 {
        assert b[2..] == Encode(hs[1..]) + junk;
        RoundTripIff(hs[1..], junk);
        var rest := Decode(b[2..]).value;
        assert Decode(b) == Some([(hs[0].len as int, hs[0].base as int)] + rest);
        assert AsPairs(hs) == [(hs[0].len as int, hs[0].base as int)] + AsPairs(hs[1..]);
        if rest == AsPairs(hs[1..]) {
          forall i | 0 <= i < |hs| ensures hs[i].len > 0 {
            if i > 0 { assert hs[1..][i - 1].len > 0; }
          }
        } else {
          assert AsPairs(hs)[1..] == AsPairs(hs[1..]);
          assert ([(hs[0].len as int, hs[0].base as int)] + rest)[1..] == rest;
          var i :| 0 <= i < |hs[1..]| && hs[1..][i].len == 0;
          assert hs[i + 1].len == 0;
        }
      }
    }
  }

  lemma {:induction false} FlatSnoc(hs: seq<Hole>, h: Hole)
    ensures Flat(hs + [h]) == Flat(hs) + [h.len, h.base]
    decreases |hs|
  {
    if hs == [] {
      assert hs + [h] == [h];
      assert Flat([h]) == [h.len, h.base] + Flat([]);
    } else {
      assert (hs + [h])[1..] == hs[1..] + [h];
      FlatSnoc(hs[1..], h);
    }
  }

  lemma FlatNext(hs: seq<Hole>, k: nat)
    requires k < |hs|
    ensures Flat(hs[..k + 1]) == Flat(hs[..k]) + [hs[k].len, hs[k].base]
  {
    assert hs[..k + 1] == hs[..k] + [hs[k]];
    FlatSnoc(hs[..k], hs[k]);
  }

  /** The holes the call reports: the leading regular ones, as many as fit. */
  function Reported(hs: seq<Hole>, swapBase: nat, nbytes: int): (r: seq<Hole>)
    requires -0x8000_0000 <= nbytes < 0x8000_0000
    ensures r <= hs
  {
    var n := RegularPrefix(hs, swapBase);
    hs[..if PairLimit(nbytes) < n then PairLimit(nbytes) else n]
  }

  lemma WalkedReport(hs: seq<Hole>, swapBase: nat, nbytes: int, k: nat)
    requires -0x8000_0000 <= nbytes < 0x8000_0000 && k <= |hs| && k <= PairLimit(nbytes)
    requires forall j :: 0 <= j < k ==> hs[j].base < swapBase
    requires k == |hs| || hs[k].base >= swapBase || k == PairLimit(nbytes)
    ensures Reported(hs, swapBase, nbytes) == hs[..k]
  {
    if k == |hs| || hs[k].base >= swapBase {
      WalkedPrefix(hs, swapBase, k);
    }
  }

  /** End to end: for any buffer of at least a word, decoding gives the first regular holes in
      address order, as many as the buffer has room for, and the words fit the buffer. */
  lemma HoleMapRoundTrip(hs: seq<Hole>, swapBase: nat, nbytes: int, junk: seq<int>)
    requires Canonical(hs) && WORD <= nbytes < 0x8000_0000
    ensures var k := |Reported(hs, swapBase, nbytes)|;
            && Decode(Encode(Reported(hs, swapBase, nbytes)) + junk) == Some(AsPairs(hs[..k]))
            && (forall i :: 0 <= i < |hs| && i < k ==> hs[i].base < swapBase)
            && (k < |hs| && hs[k].base < swapBase ==> k == (nbytes / WORD - 1) / 2)
            && WORD * |Encode(Reported(hs, swapBase, nbytes))| <= nbytes
  {
    RoundTripIff(Reported(hs, swapBase, nbytes), junk);
  }

  /** The words written fit the caller's buffer exactly when its size is not negative: a
      negative size is compared as a huge unsigned one. Sizes below a word write nothing. */
  lemma EncodingFitsIff(hs: seq<Hole>, swapBase: nat, nbytes: int)
    requires -0x8000_0000 <= nbytes < 0x8000_0000
    ensures var written := if AsUnsigned(nbytes) < WORD then 0 else WORD * |Encode(Reported(hs, swapBase, nbytes))|;
            written <= nbytes <==> 0 <= nbytes
  {
  }

  /** Store one pair behind the words already collected. */
  method StorePair(buffer: array<int>, i: nat, len: int, base: int)
    requires i + 1 < buffer.Length
    modifies buffer
    ensures buffer[..i + 2] == old(buffer[..i]) + [len, base]
  {
    buffer[i] := len;
    buffer[i + 1] := base;
  }

  /** The reader program's loop over its buffer; it prints the length of every pair. */
  method ReadMap(b: array<int>) returns (r: Option<seq<(int, int)>>)
    ensures r == Decode(b[..])
  {
    var p := 0;
    var seen: seq<(int, int)> := [];
    assert b[0..] == b[..];
    assert forall d: seq<(int, int)> :: [] + d == d;
    while p < b.Length && b[p] != 0
      invariant 0 <= p <= b.Length
      invariant Decode(b[..]) == match Decode(b[p..])
                                 case None => None
                                 case Some(rest) => Some(seen + rest)
      decreases b.Length - p
    {
      if p + 1 == b.Length {
        assert b[p..] == [b[p]];
        return None;
      }
      var l, a := b[p], b[p + 1];
      assert b[p..][2..] == b[p + 2..];
      ghost var tail := Decode(b[p + 2..]);
      if tail.Some? {
        assert seen + ([(l, a)] + tail.value) == (seen + [(l, a)]) + tail.value;
      }
      seen := seen + [(l, a)];
      p := p + 2;
    }
    if p == b.Length {
      return None;
    }
    assert Decode(b[p..]) == Some([]) && seen + [] == seen;
    return Some(seen);
  }
}
