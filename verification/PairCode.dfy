/** A lawful column code, so that the laws asked of the library can be met with k > 1.
    Two data bytes a, b get the parity bytes a + b and a + w*b, where a byte is four
    elements of the field with four elements and w is a generator of that field. */
module PairCode {
  import opened Bytes
  import opened ColumnCode

  function Plus(a: byte, b: byte): byte { a ^ b }

  /** Multiplication by w: the pair (h, l) becomes (h + l, h). */
  function TimesW(b: byte): byte {
    ((b & 0xAA) ^ ((b & 0x55) << 1)) | ((b & 0xAA) >> 1)
  }

  /** Division by w is multiplication by w squared. */
  function OverW(b: byte): byte { TimesW(TimesW(b)) }

  function Encode(d: Bytes): Bytes {
    if |d| == 2 then [Plus(d[0], d[1]), Plus(d[0], TimesW(d[1]))] else [0, 0]
  }

  function Decode(sym: Symbols): (d: Bytes)
    ensures |d| == 2
  {
    if |sym| == 4 then Solve(sym[0], sym[1], sym[2], sym[3]) else [0, 0]
  }

  function Solve(a: Option<byte>, b: Option<byte>, p: Option<byte>, q: Option<byte>): (d: Bytes)
    ensures |d| == 2
  {
    match (a, b, p, q)
    case (Some(x), Some(y), _, _) => [x, y]
    case (Some(x), None, Some(s), _) => [x, Plus(x, s)]
    case (Some(x), None, None, Some(t)) => [x, OverW(Plus(x, t))]
    case (None, Some(y), Some(s), _) => [Plus(s, y), y]
    case (None, Some(y), None, Some(t)) => [Plus(TimesW(y), t), y]
    case (None, None, Some(s), Some(t)) =>
      // the parities differ by (1 + w)*b, and w*(1 + w) = 1
      [Plus(s, TimesW(Plus(s, t))), TimesW(Plus(s, t))]
    case _ => [0, 0]
  }

  const PAIR := Code(2, 2, Encode, Decode)

  lemma PlusCancels(a: byte, b: byte)
    ensures Plus(a, Plus(a, b)) == b && Plus(Plus(a, b), b) == a && Plus(b, Plus(a, b)) == a
  {
  }

  lemma DivisionInverts(b: byte)
    ensures OverW(TimesW(b)) == b
    ensures TimesW(Plus(b, TimesW(b))) == b
  {
  }

  lemma PlusDifference(a: byte, b: byte, c: byte)
    ensures Plus(Plus(a, b), Plus(a, c)) == Plus(b, c)
  {
  }

  lemma SolveInverts(x: byte, y: byte, a: Option<byte>, b: Option<byte>, p: Option<byte>, q: Option<byte>)
    requires a.Some? ==> a.value == x
    requires b.Some? ==> b.value == y
    requires p.Some? ==> p.value == Plus(x, y)
    requires q.Some? ==> q.value == Plus(x, TimesW(y))
    requires (a.Some? && (b.Some? || p.Some? || q.Some?)) || (b.Some? && (p.Some? || q.Some?)) || (p.Some? && q.Some?)
    ensures Solve(a, b, p, q) == [x, y]
  {
    PlusCancels(x, y);
    PlusCancels(x, TimesW(y));
    DivisionInverts(y);
    PlusDifference(x, y, TimesW(y));
    hide Plus, TimesW, OverW;
  }

  lemma AtLeastTwo(sym: Symbols)
    requires |sym| == 4
    ensures Present(sym) == (if sym[0].Some? then 1 else 0) + (if sym[1].Some? then 1 else 0)
                          + (if sym[2].Some? then 1 else 0) + (if sym[3].Some? then 1 else 0)
  {
    var flags := seq(|sym|, i requires 0 <= i < |sym| => sym[i].Some?);
    assert flags[..3][..2] == flags[..2] && flags[..2][..1] == flags[..1] && flags[..1][..0] == [];
    assert Count(flags[..3]) == Count(flags[..2]) + if flags[2] then 1 else 0;
    assert Count(flags[..2]) == Count(flags[..1]) + if flags[1] then 1 else 0;
  }

  lemma DecodeInverts(d: Bytes, sym: Symbols)
    requires |d| == 2 && PAIR.Enough(sym) && Fits(sym, PAIR.Word(d))
    ensures Decode(sym) == d
  {
    AtLeastTwo(sym);
    hide Plus, TimesW, Solve;
    var word := PAIR.Word(d);
    assert word == [d[0], d[1], Plus(d[0], d[1]), Plus(d[0], TimesW(d[1]))];
    assert forall i | 0 <= i < 4 && sym[i].Some? :: sym[i].value == word[i];
    SolveInverts(d[0], d[1], sym[0], sym[1], sym[2], sym[3]);
  }

  lemma PairIsLawful()
    ensures PAIR.Lawful()
  {
    forall d: Bytes, sym: Symbols | |d| == 2 && PAIR.Enough(sym) && Fits(sym, PAIR.Word(d))
      ensures Decode(sym) == d
    {
      DecodeInverts(d, sym);
    }
  }
}
