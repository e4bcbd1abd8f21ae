/** Names of the files of a stripe, planning stripes, and why planning again changes nothing. */
module EcNames {
  import opened Bytes
  import opened Paths
  import Layout

  /** The number of leading digits from position i on. */
  function DigitsFrom(s: string, i: nat): (n: nat)
    requires i <= |s|
    ensures i + n <= |s|
    ensures forall j | i <= j < i + n :: IsDigit(s[j])
    ensures i + n < |s| ==> !IsDigit(s[i + n])
    decreases |s| - i
  {
    if i < |s| && IsDigit(s[i]) then 1 + DigitsFrom(s, i + 1) else 0
  }

  /** A name without a leading `<digits>D<digits>_` or `<digits>E<digits>_`. */
  function Stripped(name: string): string {
    var i := DigitsFrom(name, 0);
    if i == 0 || i + 1 >= |name| || (name[i] != 'D' && name[i] != 'E') then name
    else
      var n := DigitsFrom(name, i + 1);
      var j := i + 1 + n;
      if n == 0 || j >= |name| || name[j] != '_' then name else name[j + 1..]
  }

  /** The first position from `from` on that is not a digit. */
  method SkipDigits(name: string, from: nat) returns (i: nat)
    requires from <= |name|
    ensures i == from + DigitsFrom(name, from)
  {
    i := from;
    while i < |name| && IsDigit(name[i])
      invariant from <= i <= |name| && DigitsFrom(name, from) == i - from + DigitsFrom(name, i)
    {
      i := i + 1;
    }
  }

  lemma SomeDigits(s: string, i: nat)
    requires i < |s|
    ensures DigitsFrom(s, i) > 0 <==> IsDigit(s[i])
  {
  }

  method StripECPrefix(name: string) returns (base: string)
    ensures base == Stripped(name)
  {
    hide DigitsFrom, IsDigit;
    var i := SkipDigits(name, 0);
    if i + 1 < |name| { SomeDigits(name, i + 1); }
    if i < |name| && (name[i] == 'D' || name[i] == 'E') && i > 0 && i + 1 < |name| && IsDigit(name[i + 1]) {
      var j := SkipDigits(name, i + 1);
      if j < |name| && name[j] == '_' { return name[j + 1..]; }
    }
    return name;
  }

  /** The printed name of position `pos` (from 1) of stripe `stripe` (from 1). */
  function DataName(stripe: nat, pos: nat, base: string): string {
    Decimal(stripe) + "D" + Decimal(pos) + "_" + base
  }

  lemma {:induction false} DigitsOfPrefix(s: string, digits: string, rest: string, i: nat)
    requires i <= |s| && s[i..] == digits + rest && AllDigits(digits) && (rest == "" || !IsDigit(rest[0]))
    ensures DigitsFrom(s, i) == |digits|
    decreases |digits|
  {
    if digits != "" {
      assert s[i] == digits[0];
      assert s[i + 1..] == digits[1..] + rest;
      DigitsOfPrefix(s, digits[1..], rest, i + 1);
    } else if rest != "" {
      assert s[i] == rest[0];
    }
  }

  /** Stripping takes off exactly what printing put on, for every base name. */
  lemma StripInvertsPrint(stripe: nat, pos: nat, base: string)
    ensures Stripped(DataName(stripe, pos, base)) == base
  {
    var a, b := Decimal(stripe), Decimal(pos);
    var name := DataName(stripe, pos, base);
    var tail := "D" + b + "_" + base;
    assert name[0..] == a + tail;
    DigitsOfPrefix(name, a, tail, 0);
    assert name[|a|] == 'D';
    assert name[|a| + 1..] == b + ("_" + base);
    DigitsOfPrefix(name, b, "_" + base, |a| + 1);
    assert name[|a| + 1 + |b|] == '_';
    assert name[|a| + 1 + |b| + 1..] == base;
  }

  /** What is stripped: digits, a D or an E, digits and an underscore, whatever the numbers. */
  lemma PrefixIsStripped(a: string, c: char, b: string, rest: string)
    requires a != "" && b != "" && AllDigits(a) && AllDigits(b) && (c == 'D' || c == 'E')
    ensures Stripped(a + ([c] + (b + ("_" + rest)))) == rest
  {
    var name := a + ([c] + (b + ("_" + rest)));
    assert name[0..] == name && name[|a|] == c;
    DigitsOfPrefix(name, a, [c] + (b + ("_" + rest)), 0);
    assert name[|a| + 1..] == b + ("_" + rest);
    DigitsOfPrefix(name, b, "_" + rest, |a| + 1);
    assert name[|a| + 1 + |b|] == '_';
    assert name[|a| + 1 + |b| + 1..] == rest;
  }

  /** Nothing else is. */
  lemma OnlyPrefixIsStripped(name: string) returns (a: string, c: char, b: string)
    ensures Stripped(name) == name ||
            (&& a != "" && b != "" && AllDigits(a) && AllDigits(b) && (c == 'D' || c == 'E')
             && name == a + ([c] + (b + ("_" + Stripped(name)))))
  {
    hide DigitsFrom, AllDigits;
    a, c, b := "", 'D', "";
    if Stripped(name) != name {
      var i := DigitsFrom(name, 0);
      var j := i + 1 + DigitsFrom(name, i + 1);
      a, c, b := name[..i], name[i], name[i + 1..j];
      LeadingDigits(name, 0);
      LeadingDigits(name, i + 1);
      TakenApart(name, i, j);
    }
  }

  lemma LeadingDigits(s: string, i: nat)
    requires i <= |s|
    ensures AllDigits(s[i..i + DigitsFrom(s, i)])
  {
  }

  lemma TakenApart(s: string, i: nat, j: nat)
    requires i < j < |s| && s[j] == '_'
    ensures s == s[..i] + ([s[i]] + (s[i + 1..j] + ("_" + s[j + 1..])))
  {
  }

  // ---- planning -----------------------------------------------------------------------------

  datatype File = File(dir: string, name: string)

  /** A file of a stripe: its kind, stripe and position from 1, its present and its new path. */
  datatype StripeFile = StripeFile(kind: char, stripe: nat, pos: nat, orig: Option<File>, renamed: File)

  datatype Shape = Shape(k: nat, m: nat) {
    predicate Valid() { Layout.ValidShape(k, m) }

    function Total(): nat { k + m }
  }

  function DotFrom(s: string, i: nat): (at: Option<nat>)
    requires i <= |s|
    ensures at.Some? ==> at.value < |s|
    decreases |s| - i
  {
    if i == |s| then None else if s[i] == '.' then Some(i) else DotFrom(s, i + 1)
  }

  /** What follows the first dot of the stripped name. */
  function Extension(name: string): string {
    var base := Stripped(name);
    var dot := DotFrom(base, 0);
    if dot.Some? then base[dot.value + 1..] else "bin"
  }

  lemma {:induction false} DotFromIs(s: string, i: nat, dot: nat)
    requires i <= dot < |s| && s[dot] == '.' && '.' !in s[i..dot]
    ensures DotFrom(s, i) == Some(dot)
    decreases dot - i
  {
    if i < dot {
      assert s[i] == s[i..dot][0] && s[i..dot][1..] == s[i + 1..dot];
      DotFromIs(s, i + 1, dot);
    }
  }

  /** The extension is what follows the first dot of the stripped name, and "bin" when it has none. */
  lemma ExtensionExactly(name: string, stem: string, ext: string)
    ensures Stripped(name) == stem + "." + ext && '.' !in stem ==> Extension(name) == ext
    ensures '.' !in Stripped(name) ==> Extension(name) == "bin"
  {
    hide Stripped;
    var base := Stripped(name);
    if base == stem + "." + ext && '.' !in stem {
      assert base[0..|stem|] == stem && base[|stem|] == '.' && base[|stem| + 1..] == ext;
      DotFromIs(base, 0, |stem|);
    }
    if DotFrom(base, 0).Some? {
      DotIsThere(base, 0);
    }
  }

  lemma {:induction false} DotIsThere(s: string, i: nat)
    requires i <= |s| && DotFrom(s, i).Some?
    ensures '.' in s
    decreases |s| - i
  {
    if s[i] != '.' {
      DotIsThere(s, i + 1);
    }
  }

  function Stripes(shape: Shape, files: nat): nat
    requires shape.Valid()
  {
    (files + shape.k - 1) / shape.k
  }

  function BaseAt(files: seq<File>, ext: string, idx: nat): string {
    if idx < |files| then Stripped(files[idx].name) else "pad." + ext
  }

  /** The entry of stripe s at position p, both from 0. */
  function Entry(shape: Shape, files: seq<File>, dir: string, ext: string, s: nat, p: nat): StripeFile
    requires shape.Valid()
  {
    var idx := s * shape.k + p;
    if p < shape.k then
      StripeFile('D', s + 1, p + 1, if idx < |files| then Some(files[idx]) else None,
                 File(dir, DataName(s + 1, p + 1, BaseAt(files, ext, idx))))
    else
      StripeFile('E', s + 1, p + 1, None, File(dir, Decimal(s + 1) + "E" + Decimal(p + 1) + "." + ext))
  }

  ghost predicate StripePlanned(shape: Shape, files: seq<File>, dir: string, ext: string, s: nat,
                                group: seq<StripeFile>)
    requires shape.Valid()
  {
    |group| == shape.Total() && forall p | 0 <= p < shape.Total() :: group[p] == Entry(shape, files, dir, ext, s, p)
  }

  ghost predicate Planned(shape: Shape, files: seq<File>, dir: string, ext: string, groups: seq<seq<StripeFile>>)
    requires shape.Valid()
  {
    && |groups| == Stripes(shape, |files|)
    && forall s | 0 <= s < |groups| :: StripePlanned(shape, files, dir, ext, s, groups[s])
  }

  method PlanStripes(files: seq<File>, shape: Shape, outputDir: string) returns (r: Result<seq<seq<StripeFile>>>)
    ensures r.Success? <==> shape.Valid() && files != []
    ensures r.Success? ==>
              var dir := if outputDir == "" then files[0].dir else outputDir;
              Planned(shape, files, dir, Extension(files[0].name), r.value)
  {
    if !shape.Valid() { return Failure("invalid ec config"); }
    if files == [] { return Failure("no data files provided"); }
    var dir := if outputDir == "" then files[0].dir else outputDir;
    var ext := Extension(files[0].name);
    var n := Stripes(shape, |files|);
    var groups: seq<seq<StripeFile>> := [];
    for s := 0 to n
      invariant |groups| == s
      invariant forall t | 0 <= t < s :: StripePlanned(shape, files, dir, ext, t, groups[t])
    {
      hide StripePlanned;
      var group := PlanOne(files, shape, dir, ext, s);
      groups := groups + [group];
    }
    return Success(groups);
  }

  method PlanOne(files: seq<File>, shape: Shape, dir: string, ext: string, s: nat) returns (group: seq<StripeFile>)
    requires shape.Valid()
    ensures StripePlanned(shape, files, dir, ext, s, group)
  {
    group := [];
    hide Decimal, Stripped;
    for pos := 0 to shape.k
      invariant |group| == pos && forall p | 0 <= p < pos :: group[p] == Entry(shape, files, dir, ext, s, p)
    {
      var idx := s * shape.k + pos;
      var orig, name;
      if idx < |files| {
        var base := StripECPrefix(files[idx].name);
        orig, name := Some(files[idx]), DataName(s + 1, pos + 1, base);
      } else {
        orig, name := None, DataName(s + 1, pos + 1, "pad." + ext);
      }
      group := group + [StripeFile('D', s + 1, pos + 1, orig, File(dir, name))];
    }
    for pos := 0 to shape.m
      invariant |group| == shape.k + pos
      invariant forall p | 0 <= p < shape.k + pos :: group[p] == Entry(shape, files, dir, ext, s, p)
    {
      var position := shape.k + pos + 1;
      var name := Decimal(s + 1) + "E" + Decimal(position) + "." + ext;
      group := group + [StripeFile('E', s + 1, position, None, File(dir, name))];
    }
  }

  // ---- what the names are -------------------------------------------------------------------

  lemma DecimalInjective(a: nat, b: nat)
    requires Decimal(a) == Decimal(b)
    ensures a == b
  {
    DecimalParses(a);
    DecimalParses(b);
  }

  /** A number, a letter, a number and something else can be taken apart in one way. */
  lemma NameParts(s: nat, c: char, p: nat, rest: string, s': nat, c': char, p': nat, rest': string)
    requires !IsDigit(c) && !IsDigit(c') && rest != "" && !IsDigit(rest[0]) && rest' != "" && !IsDigit(rest'[0])
    requires Decimal(s) + ([c] + (Decimal(p) + rest)) == Decimal(s') + ([c'] + (Decimal(p') + rest'))
    ensures s == s' && c == c' && p == p' && rest == rest'
  {
    var x, x' := [c] + (Decimal(p) + rest), [c'] + (Decimal(p') + rest');
    hide Decimal;
    CutUnique(Decimal(s), x, Decimal(s'), x');
    DecimalInjective(s, s');
    assert x[0] == c && x'[0] == c';
    assert x[1..] == Decimal(p) + rest && x'[1..] == Decimal(p') + rest';
    CutUnique(Decimal(p), rest, Decimal(p'), rest');
    DecimalInjective(p, p');
  }

  /** A planned name is the number of the stripe, a letter for data or parity, the number of the position, and then, for
      data, an underscore and the stripped name of the file, for parity a dot and the extension. */
  lemma NameOf(shape: Shape, files: seq<File>, dir: string, ext: string, s: nat, p: nat)
    requires shape.Valid()
    ensures var e := Entry(shape, files, dir, ext, s, p);
            e.renamed.dir == dir && e.stripe == s + 1 && e.pos == p + 1 && e.kind == if p < shape.k then 'D' else 'E'
    ensures var e := Entry(shape, files, dir, ext, s, p);
            var idx := s * shape.k + p;
            var base := if idx < |files| then Stripped(files[idx].name) else "pad." + ext;
            e.renamed.name == Decimal(s + 1) + ([e.kind] + (Decimal(p + 1)
              + if p < shape.k then "_" + base else "." + ext))
  {
    hide Decimal, Stripped;
    var base := BaseAt(files, ext, s * shape.k + p);
    assert "D" == ['D'] && "E" == ['E'];
    assert Decimal(s + 1) + "D" + Decimal(p + 1) + "_" + base
        == Decimal(s + 1) + (['D'] + (Decimal(p + 1) + ("_" + base)));
    assert Decimal(s + 1) + "E" + Decimal(p + 1) + "." + ext
        == Decimal(s + 1) + (['E'] + (Decimal(p + 1) + ("." + ext)));
  }

  lemma EntriesDiffer(shape: Shape, files: seq<File>, dir: string, ext: string, s: nat, p: nat, t: nat, q: nat)
    requires shape.Valid() && (s, p) != (t, q)
    ensures Entry(shape, files, dir, ext, s, p).renamed != Entry(shape, files, dir, ext, t, q).renamed
  {
    hide Decimal, Stripped, Entry;
    NameOf(shape, files, dir, ext, s, p);
    NameOf(shape, files, dir, ext, t, q);
    var e, e' := Entry(shape, files, dir, ext, s, p), Entry(shape, files, dir, ext, t, q);
    var rest := if p < shape.k then "_" + BaseAt(files, ext, s * shape.k + p) else "." + ext;
    var rest' := if q < shape.k then "_" + BaseAt(files, ext, t * shape.k + q) else "." + ext;
    if e.renamed == e'.renamed {
      NameParts(s + 1, e.kind, p + 1, rest, t + 1, e'.kind, q + 1, rest');
    }
  }

  /** No two positions of a plan, of one stripe or of two, have the same file. */
  lemma PlannedNamesDiffer(shape: Shape, files: seq<File>, dir: string, ext: string, groups: seq<seq<StripeFile>>,
                           s: nat, p: nat, t: nat, q: nat)
    requires shape.Valid() && Planned(shape, files, dir, ext, groups)
    requires s < |groups| && t < |groups| && p < shape.Total() && q < shape.Total() && (s, p) != (t, q)
    ensures p < |groups[s]| && q < |groups[t]| && groups[s][p].renamed != groups[t][q].renamed
  {
    hide Decimal, BaseAt, Entry;
    assert StripePlanned(shape, files, dir, ext, s, groups[s]) && StripePlanned(shape, files, dir, ext, t, groups[t]);
    assert groups[s][p] == Entry(shape, files, dir, ext, s, p) && groups[t][q] == Entry(shape, files, dir, ext, t, q);
    EntriesDiffer(shape, files, dir, ext, s, p, t, q);
  }

  // ---- what planning keeps ------------------------------------------------------------------

  /** The stripes are just enough for the files. */
  lemma StripeCount(shape: Shape, files: nat)
    requires shape.Valid() && files > 0
    ensures var n := Stripes(shape, files);
            n > 0 && (n - 1) * shape.k < files <= n * shape.k
  {
    var k := shape.k;
    var n := Stripes(shape, files);
    assert files + k - 1 == n * k + (files + k - 1) % k;
    assert (n - 1) * k == n * k - k;
  }

  lemma Monotone(a: nat, b: nat, k: nat)
    requires a <= b
    ensures a * k <= b * k
  {
    assert b * k == a * k + (b - a) * k;
    assert (b - a) * k >= 0;
  }

  /** Where the file at an index of the list is planned. */
  lemma StripeOfFile(shape: Shape, files: nat, idx: nat)
    requires shape.Valid() && idx < files
    ensures idx / shape.k < Stripes(shape, files) && idx % shape.k < shape.k
    ensures (idx / shape.k) * shape.k + idx % shape.k == idx
  {
    var k, n, s := shape.k, Stripes(shape, files), idx / shape.k;
    StripeCount(shape, files);
    assert idx == s * k + idx % k;
    Monotone(n, Max(n, s), k);
  }

  /** Every file of the list is the data of one position, in list order. */
  lemma OriginalsInOrder(shape: Shape, files: seq<File>, dir: string, ext: string, groups: seq<seq<StripeFile>>,
                         idx: nat)
    requires shape.Valid() && Planned(shape, files, dir, ext, groups) && idx < |files|
    ensures idx / shape.k < |groups| && groups[idx / shape.k][idx % shape.k].orig == Some(files[idx])
  {
    StripeOfFile(shape, |files|, idx);
    OriginalAt(shape, files, dir, ext, groups, idx / shape.k, idx % shape.k);
  }

  lemma OriginalAt(shape: Shape, files: seq<File>, dir: string, ext: string, groups: seq<seq<StripeFile>>, s: nat,
                   p: nat)
    requires shape.Valid() && Planned(shape, files, dir, ext, groups) && s < |groups| && p < shape.k
    requires s * shape.k + p < |files|
    ensures groups[s][p].orig == Some(files[s * shape.k + p])
  {
    assert StripePlanned(shape, files, dir, ext, s, groups[s]);
    assert groups[s][p] == Entry(shape, files, dir, ext, s, p);
  }

  /** A data position is padding exactly when the list has no file for it, which is only in the last stripe. */
  lemma PaddingIsLast(shape: Shape, files: seq<File>, dir: string, ext: string, groups: seq<seq<StripeFile>>, s: nat,
                      p: nat)
    requires shape.Valid() && files != [] && Planned(shape, files, dir, ext, groups) && s < |groups| && p < shape.k
    ensures groups[s][p].orig.None? <==> s * shape.k + p >= |files|
    ensures groups[s][p].orig.None? ==> s == |groups| - 1
  {
    var k := shape.k;
    StripeCount(shape, |files|);
    assert StripePlanned(shape, files, dir, ext, s, groups[s]);
    assert groups[s][p] == Entry(shape, files, dir, ext, s, p);
    if s < |groups| - 1 {
      Monotone(s + 1, |groups| - 1, k);
      assert (s + 1) * k == s * k + k;
    }
  }

  /** The data files under their new names, in plan order: the first `count` positions. */
  function Renamed(shape: Shape, files: seq<File>, dir: string, ext: string, count: nat): (rs: seq<File>)
    requires shape.Valid()
    ensures |rs| == count
  {
    seq(count, idx requires 0 <= idx < count => Entry(shape, files, dir, ext, idx / shape.k, idx % shape.k).renamed)
  }

  lemma RenamedEntry(shape: Shape, files: seq<File>, dir: string, ext: string, count: nat, s: nat, p: nat)
    requires shape.Valid() && p < shape.k && s * shape.k + p < count
    ensures Renamed(shape, files, dir, ext, count)[s * shape.k + p] == Entry(shape, files, dir, ext, s, p).renamed
  {
    hide Entry;
    Layout.DivModUnique(s * shape.k + p, shape.k, s, p);
  }

  lemma RenamedAt(shape: Shape, files: seq<File>, dir: string, ext: string, count: nat, s: nat, p: nat)
    requires shape.Valid() && p < shape.k && s * shape.k + p < count
    ensures var f := Renamed(shape, files, dir, ext, count)[s * shape.k + p];
            f.dir == dir && Stripped(f.name) == BaseAt(files, ext, s * shape.k + p)
  {
    var idx := s * shape.k + p;
    hide Stripped, DataName, BaseAt, Renamed;
    RenamedEntry(shape, files, dir, ext, count, s, p);
    StripInvertsPrint(s + 1, p + 1, BaseAt(files, ext, idx));
  }

  lemma SameEntry(shape: Shape, files: seq<File>, dir: string, ext: string, count: nat, s: nat, p: nat)
    requires shape.Valid() && |files| <= count
    ensures Entry(shape, Renamed(shape, files, dir, ext, count), dir, ext, s, p).renamed
         == Entry(shape, files, dir, ext, s, p).renamed
  {
    hide Stripped, DataName, Stripes, Renamed;
    if p < shape.k && s * shape.k + p < count {
      RenamedAt(shape, files, dir, ext, count, s, p);
    }
  }

  lemma SameExtension(shape: Shape, files: seq<File>, dir: string, ext: string, count: nat)
    requires shape.Valid() && files != [] && |files| <= count && ext == Extension(files[0].name)
    ensures var again := Renamed(shape, files, dir, ext, count);
            Extension(again[0].name) == ext && again[0].dir == dir
  {
    hide Stripped, DataName, Stripes, Renamed;
    RenamedAt(shape, files, dir, ext, count, 0, 0);
  }

  /** Planning again with the renamed files, with or without the pads, gives the same names everywhere. */
  lemma PlanIsFixpoint(shape: Shape, files: seq<File>, dir: string, count: nat, s: nat, p: nat)
    requires shape.Valid() && files != [] && |files| <= count <= Stripes(shape, |files|) * shape.k
    requires s < Stripes(shape, |files|) && p < shape.Total()
    ensures var ext := Extension(files[0].name);
            var again := Renamed(shape, files, dir, ext, count);
            && Extension(again[0].name) == ext
            && again[0].dir == dir
            && Stripes(shape, |again|) == Stripes(shape, |files|)
            && Entry(shape, again, dir, ext, s, p).renamed == Entry(shape, files, dir, ext, s, p).renamed
  {
    hide Stripes, Renamed, Entry, Extension;
    var ext := Extension(files[0].name);
    SameExtension(shape, files, dir, ext, count);
    SameStripes(shape, |files|, count);
    SameEntry(shape, files, dir, ext, count, s, p);
  }

  lemma SameStripes(shape: Shape, files: nat, count: nat)
    requires shape.Valid() && 0 < files <= count <= Stripes(shape, files) * shape.k
    ensures Stripes(shape, count) == Stripes(shape, files)
  {
    var k, n := shape.k, Stripes(shape, files);
    StripeCount(shape, files);
    assert (n - 1) * k == n * k - k;
    Layout.DivModUnique(count + k - 1, k, n, count + k - 1 - n * k);
  }
}
