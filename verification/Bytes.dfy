/** File contents, zero padding and the small value types the other modules share. */
module Bytes {
  type byte = bv8
  type Bytes = seq<byte>

  datatype Option<+T> = None | Some(value: T)

  datatype Result<+T> = Success(value: T) | Failure(error: string)

  /** Byte x of a file; reading past the end leaves the zero of a fresh buffer. */
  function At(b: Bytes, x: int): byte {
    if 0 <= x < |b| then b[x] else 0
  }

  /** What a buffer of n zero bytes holds after ReadAt(buf, off), end of file included. */
  function Window(b: Bytes, off: nat, n: nat): (w: Bytes)
    ensures |w| == n
  {
    seq(n, x => At(b, off + x))
  }

  /** The prefix of a file that lies within a recorded size. */
  function Clip(b: Bytes, n: nat): (c: Bytes)
    ensures |c| == Min(|b|, n) && c <= b
  {
    if |b| <= n then b else b[..n]
  }

  const MAX_INT64 := 0x7FFF_FFFF_FFFF_FFFF

  function PowerOfTen(n: nat): (p: nat)
    ensures p > 0 && (n > 0 ==> p >= 10)
  {
    if n == 0 then 1 else 10 * PowerOfTen(n - 1)
  }

  function Min(a: int, b: int): int { if a <= b then a else b }

  function Max(a: int, b: int): int { if a >= b then a else b }

  /** The largest entry, 0 for none. */
  function MaxOf(sizes: seq<nat>): nat {
    if sizes == [] then 0 else Max(MaxOf(sizes[..|sizes| - 1]), sizes[|sizes| - 1])
  }

  lemma {:induction false} MaxOfIsMaximum(sizes: seq<nat>)
    ensures forall i | 0 <= i < |sizes| :: sizes[i] <= MaxOf(sizes)
    ensures sizes == [] || exists i :: 0 <= i < |sizes| && sizes[i] == MaxOf(sizes)
  {
    if sizes != [] {
      var init := sizes[..|sizes| - 1];
      MaxOfIsMaximum(init);
      forall i | 0 <= i < |sizes| ensures sizes[i] <= MaxOf(sizes) {
        if i < |init| { assert init[i] == sizes[i]; }
      }
      if init != [] {
        var i :| 0 <= i < |init| && init[i] == MaxOf(init);
        assert sizes[i] == MaxOf(init);
      }
      assert sizes[|sizes| - 1] == MaxOf(sizes) || MaxOf(init) == MaxOf(sizes);
    }
  }

  function Count(flags: seq<bool>): nat {
    if flags == [] then 0 else Count(flags[..|flags| - 1]) + if flags[|flags| - 1] then 1 else 0
  }

  /** Counting flags is the cardinality of the set of their positions. */
  lemma {:induction false} CountIsCardinality(flags: seq<bool>)
    ensures Count(flags) == |set i | 0 <= i < |flags| && flags[i]|
  {
    var all := set i | 0 <= i < |flags| && flags[i];
    if flags == [] {
      assert all == {};
    } else {
      var n := |flags| - 1;
      var init := flags[..n];
      CountIsCardinality(init);
      var rest := set i | 0 <= i < |init| && init[i];
      assert all == if flags[n] then rest + {n} else rest;
    }
  }

  /** Every position is either flagged or not. */
  lemma {:induction false} CountComplement(flags: seq<bool>, others: seq<bool>)
    requires |flags| == |others|
    requires forall i | 0 <= i < |flags| :: others[i] == !flags[i]
    ensures Count(flags) + Count(others) == |flags|
  {
    if flags != [] {
      var n := |flags| - 1;
      CountComplement(flags[..n], others[..n]);
    }
  }
}
