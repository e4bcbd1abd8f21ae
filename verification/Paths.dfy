/** File locations of an arcset and how they print. */
module Paths {
  predicate NoSlash(s: string) { '/' !in s }

  /** What can be part of a file name. */
  type PlainName = s: string | NoSlash(s)

  /** A file of the arcset tree is in the directory of its partition and its name starts with
      the stripe number and a letter; every other file is outside. */
  datatype Path =
    | Data(part: nat, stripe: nat, shard: PlainName)
    | Parity(part: nat, stripe: nat)
    | Pad(part: nat, stripe: nat)
    | Outside(name: string)

  predicate IsDigit(c: char) { '0' <= c <= '9' }

  predicate AllDigits(s: string) { forall i | 0 <= i < |s| :: IsDigit(s[i]) }

  function Digit(d: nat): (c: char)
    requires d < 10
    ensures IsDigit(c)
  {
    '0' + d as char
  }

  function DigitValue(c: char): (d: nat)
    requires IsDigit(c)
    ensures d < 10
  {
    (c - '0') as nat
  }

  function Decimal(n: nat): (s: string)
    ensures |s| > 0 && AllDigits(s)
    ensures n < 10 || s[0] != '0'
  {
    if n < 10 then [Digit(n)] else Decimal(n / 10) + [Digit(n % 10)]
  }

  /** The number printed with at least `width` digits, zeros in front. */
  function Padded(width: nat, n: nat): (s: string)
    ensures AllDigits(s) && |s| > 0
  {
    var d := Decimal(n);
    Zeros(width - |d|) + d
  }

  function Zeros(n: int): (s: string)
    ensures AllDigits(s)
    ensures |s| == if n <= 0 then 0 else n
    ensures forall i | 0 <= i < |s| :: s[i] == '0'
  {
    if n <= 0 then "" else "0" + Zeros(n - 1)
  }

  function Value(s: string): nat
    requires AllDigits(s)
  {
    if s == "" then 0 else 10 * Value(s[..|s| - 1]) + DigitValue(s[|s| - 1])
  }

  lemma {:induction false} DecimalParses(n: nat)
    ensures Value(Decimal(n)) == n
  {
    if n >= 10 {
      DecimalParses(n / 10);
      var d := Decimal(n);
      assert d[..|d| - 1] == Decimal(n / 10);
    }
  }

  lemma {:induction false} LeadingZeros(n: int, s: string)
    requires AllDigits(s)
    ensures Value(Zeros(n) + s) == Value(s)
    decreases |s|, n
  {
    var z := Zeros(n);
    if s != "" {
      assert (z + s)[..|z + s| - 1] == z + s[..|s| - 1];
      LeadingZeros(n, s[..|s| - 1]);
    } else if n > 0 {
      assert z + s == z;
      assert z[..|z| - 1] == Zeros(n - 1);
      assert Zeros(n - 1) + s == Zeros(n - 1);
      LeadingZeros(n - 1, s);
    }
  }

  /** Fixed-width numbers parse back, and so are different for different numbers. */
  lemma PaddedParses(width: nat, n: nat)
    ensures Value(Padded(width, n)) == n
  {
    DecimalParses(n);
    LeadingZeros(width - |Decimal(n)|, Decimal(n));
  }

  /** Digits followed by a non-digit can be cut in one way only. */
  lemma CutUnique(a: string, x: string, b: string, y: string)
    requires AllDigits(a) && AllDigits(b)
    requires x != "" && !IsDigit(x[0]) && y != "" && !IsDigit(y[0])
    requires a + x == b + y
    ensures a == b && x == y
  {
    var whole := a + x;
    assert whole[|a|] == x[0] && whole[|b|] == y[0];
    assert forall i | 0 <= i < |a| :: IsDigit(whole[i]);
    assert forall i | 0 <= i < |b| :: IsDigit(whole[i]);
    assert |a| == |b|;
    assert whole[..|a|] == a && whole[..|b|] == b;
    assert whole[|a|..] == x && whole[|b|..] == y;
  }

  /** How an arcset prints its files below its root directory. */
  datatype Naming = Naming(partitionWidth: nat, seqWidth: nat, ext: PlainName)

  function Tail(naming: Naming, p: Path): (s: string)
    requires !p.Outside?
    ensures s != "" && !IsDigit(s[0])
  {
    match p
    case Data(_, _, shard) => "D-" + shard
    case Parity(_, _) => "E" + naming.ext
    case Pad(_, _) => "P" + naming.ext
  }

  function Print(naming: Naming, p: Path): string
    requires !p.Outside?
  {
    Padded(naming.partitionWidth, p.part) + ("/" + (Padded(naming.seqWidth, p.stripe) + Tail(naming, p)))
  }

  function LastSlash(s: string): (i: nat)
    requires !NoSlash(s)
    ensures i < |s| && s[i] == '/' && NoSlash(s[i + 1..])
  {
    var n := |s| - 1;
    if s[n] == '/' then n
    else
      assert s == s[..n] + [s[n]];
      var i := LastSlash(s[..n]);
      assert s[i + 1..] == s[..n][i + 1..] + [s[n]];
      i
  }

  function AfterSlash(s: string): (r: string)
    ensures NoSlash(r)
  {
    if NoSlash(s) then s else s[LastSlash(s) + 1..]
  }

  /** The last component of a file's path. */
  function BaseName(naming: Naming, p: Path): string {
    if p.Outside? then AfterSlash(p.name) else Padded(naming.seqWidth, p.stripe) + Tail(naming, p)
  }

  lemma NumberTailUnique(width: nat, a: nat, x: string, b: nat, y: string)
    requires x != "" && !IsDigit(x[0]) && y != "" && !IsDigit(y[0])
    requires Padded(width, a) + x == Padded(width, b) + y
    ensures a == b && x == y
  {
    CutUnique(Padded(width, a), x, Padded(width, b), y);
    PaddedParses(width, a);
    PaddedParses(width, b);
  }

  lemma TailUnique(naming: Naming, p: Path, q: Path)
    requires !p.Outside? && !q.Outside? && Tail(naming, p) == Tail(naming, q)
    ensures p.Data? <==> q.Data?
    ensures p.Parity? <==> q.Parity?
    ensures p.Data? && q.Data? ==> p.shard == q.shard
  {
    assert Tail(naming, p)[0] == Tail(naming, q)[0];
    if p.Data? {
      assert Tail(naming, p)[2..] == p.shard && Tail(naming, q)[2..] == q.shard;
    }
  }

  /** Distinct files print differently: what is printed determines the partition, the stripe, the kind of
      the file, and the rest of a data file's name. */
  lemma PrintInjective(naming: Naming, p: Path, q: Path)
    requires !p.Outside? && !q.Outside?
    requires Print(naming, p) == Print(naming, q)
    ensures p == q
  {
    var v := naming.seqWidth;
    var p', q' := Padded(v, p.stripe) + Tail(naming, p), Padded(v, q.stripe) + Tail(naming, q);
    NumberTailUnique(naming.partitionWidth, p.part, "/" + p', q.part, "/" + q');
    assert ("/" + p')[1..] == p' && ("/" + q')[1..] == q';
    NumberTailUnique(v, p.stripe, Tail(naming, p), q.stripe, Tail(naming, q));
    TailUnique(naming, p, q);
  }

  lemma SmallNumbers()
    ensures Padded(2, 1) == "01" && Padded(3, 0) == "000" && Padded(3, 42) == "042"
  {
    assert Zeros(0) == "" && Zeros(1) == "0" && Zeros(2) == "00";
    assert Decimal(0) == "0" && Decimal(1) == "1" && Decimal(4) == "4" && Decimal(42) == Decimal(4) + "2";
  }

  /** How the files of partition 1, stripe 42 are named: directory and stripe with leading zeros, then the letter of the
      kind. */
  lemma PrintedNames()
    ensures var naming := Naming(2, 3, ".bin");
            && Print(naming, Data(1, 42, "k-a")) == "01/042D-k-a"
            && Print(naming, Parity(1, 42)) == "01/042E.bin"
            && Print(naming, Pad(1, 42)) == "01/042P.bin"
  {
    SmallNumbers();
    hide Padded, Decimal, Zeros;
    assert "01" + ("/" + ("042" + ("D-" + "k-a"))) == "01/042D-k-a";
    assert "01" + ("/" + ("042" + ("E" + ".bin"))) == "01/042E.bin";
    assert "01" + ("/" + ("042" + ("P" + ".bin"))) == "01/042P.bin";
  }
}
