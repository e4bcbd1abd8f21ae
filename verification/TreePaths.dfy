/** Where the files of an arcset really are: the program joins directory and file name with a function that cleans the
    path, so what a name contains decides where the file goes. */
module TreePaths {
  import opened Paths
  import opened CleanPath

  function DirName(naming: Naming, part: nat): string { Padded(naming.partitionWidth, part) }

  /** Directory and file name as they are joined; the name is the stripe number and what follows it. */
  function Joined(naming: Naming, part: nat, stripe: nat, tail: string): string {
    DirName(naming, part) + ("/" + (Padded(naming.seqWidth, stripe) + tail))
  }

  /** Where a shard goes below the arcset's root, for any key and any base name. */
  function RelPath(naming: Naming, part: nat, stripe: nat, key: string, base: string): string {
    Clean(Joined(naming, part, stripe, "D-" + key + "-" + base))
  }

  /** The path of a file below the arcset's root, as the program computes and stores it. */
  function Located(naming: Naming, p: Path): string
    requires !p.Outside?
  {
    Clean(Print(naming, p))
  }

  lemma NumbersAreProper(width: nat, n: nat, rest: string)
    requires NoSlash(rest)
    ensures Proper(Padded(width, n) + rest) && !StartsWith(Padded(width, n) + rest, "..")
  {
    DigitsInFront(Padded(width, n), rest);
  }

  lemma DirIsProper(naming: Naming, part: nat)
    ensures Proper(DirName(naming, part)) && !StartsWith(DirName(naming, part), "..")
  {
    NumbersAreProper(naming.partitionWidth, part, "");
    assert DirName(naming, part) + "" == DirName(naming, part);
  }

  lemma NoSlashInSum(a: string, b: string)
    ensures NoSlash(a + b) <==> NoSlash(a) && NoSlash(b)
  {
  }

  lemma DigitsHaveNoSlash(s: string)
    requires AllDigits(s)
    ensures NoSlash(s)
  {
    assert forall i | 0 <= i < |s| :: IsDigit(s[i]);
  }

  lemma SplitBelow(dir: string, file: string)
    requires NoSlash(dir) && dir != ""
    ensures !IsAbs(dir + ("/" + file)) && Split(dir + ("/" + file)) == [dir] + Split(file)
  {
    var s := dir + ("/" + file);
    assert s[0] == dir[0];
    assert dir[0] in dir;
    assert Split(dir) == [dir];
    hide Split;
    assert s == dir + "/" + file;
    SplitOfSum(dir, file);
  }

  lemma PartsHaveNoSlash(s: string)
    ensures forall c | c in Parts(s) :: NoSlash(c)
  {
    PartsAreNormal(s);
    hide Parts, NoSlash;
    assert forall i | 0 <= i < |Parts(s)| :: Proper(Parts(s)[i]);
  }

  lemma TwoPartsExactly(dir: string, file: string)
    requires Proper(dir) && dir != ".." && (NoSlash(file) ==> Proper(file) && file != "..")
    ensures Parts(dir + ("/" + file)) == [dir, file] <==> NoSlash(file)
  {
    SplitBelow(dir, file);
    PartsHaveNoSlash(dir + ("/" + file));
    assert file in [dir, file];
    if NoSlash(file) {
      assert [dir] + Split(file) == [dir, file];
      assert Normal(false, [dir, file]);
      NormalIsKept(false, [dir, file]);
    }
    hide Kept, Split;
  }

  /** A file is in the directory of its partition, under its own name, if and only if the name has no slash. */
  lemma InPlaceExactly(naming: Naming, part: nat, stripe: nat, tail: string)
    ensures Parts(Joined(naming, part, stripe, tail))
              == [DirName(naming, part), Padded(naming.seqWidth, stripe) + tail]
       <==> NoSlash(tail)
  {
    var number := Padded(naming.seqWidth, stripe);
    hide Parts, Padded, NoSlash, Proper;
    DirIsProper(naming, part);
    DigitsHaveNoSlash(number);
    NoSlashInSum(number, tail);
    if NoSlash(tail) {
      NumbersAreProper(naming.seqWidth, stripe, tail);
    }
    TwoPartsExactly(DirName(naming, part), number + tail);
  }

  /** So a shard is in its partition's directory if and only if the key of its dataset has no slash. */
  lemma ShardInPlaceExactly(naming: Naming, part: nat, stripe: nat, key: string, base: PlainName)
    ensures Parts(RelPath(naming, part, stripe, key, base))
              == [DirName(naming, part), Padded(naming.seqWidth, stripe) + ("D-" + key + "-" + base)]
       <==> NoSlash(key)
  {
    var tail := "D-" + key + "-" + base;
    assert NoSlash(tail) <==> NoSlash(key) by {
      NoSlashInSum("D-" + key, "-" + base);
      NoSlashInSum("D-", key);
      NoSlashInSum("-", base);
    }
    hide Parts, Padded, NoSlash, Clean;
    InPlaceExactly(naming, part, stripe, tail);
    CleanHasParts(Joined(naming, part, stripe, tail));
  }

  lemma TailHasNoSlash(naming: Naming, p: Path)
    requires !p.Outside?
    ensures NoSlash(Tail(naming, p))
  {
  }

  lemma LocatedParts(naming: Naming, p: Path)
    requires !p.Outside?
    ensures Parts(Print(naming, p)) == [DirName(naming, p.part), Padded(naming.seqWidth, p.stripe) + Tail(naming, p)]
  {
    TailHasNoSlash(naming, p);
    InPlaceExactly(naming, p.part, p.stripe, Tail(naming, p));
    hide Parts, Tail;
  }

  /** Different files of the model are in different places of the tree. */
  lemma LocatedInjective(naming: Naming, p: Path, q: Path)
    requires !p.Outside? && !q.Outside?
    ensures Located(naming, p) == Located(naming, q) <==> p == q
  {
    hide Parts, Clean, Padded, Tail;
    if Located(naming, p) == Located(naming, q) {
      LocatedParts(naming, p);
      LocatedParts(naming, q);
      CleanIsCanonical(Print(naming, p), Print(naming, q));
      var ps, qs := Parts(Print(naming, p)), Parts(Print(naming, q));
      assert ps[0] == qs[0] && ps[1] == qs[1];
      assert Print(naming, p) == ps[0] + ("/" + ps[1]) && Print(naming, q) == qs[0] + ("/" + qs[1]);
      PrintInjective(naming, p, q);
    }
  }

  /** The path leads into the directory of the partition, or into one below it. */
  predicate LiesIn(naming: Naming, rel: string, part: nat) {
    Parts(rel) != [] && Parts(rel)[0] == DirName(naming, part)
  }

  /** The directory of a partition holds exactly the files of that partition. */
  lemma LiesInOwn(naming: Naming, p: Path, part: nat)
    requires !p.Outside?
    ensures LiesIn(naming, Located(naming, p), part) <==> p.part == part
  {
    LocatedParts(naming, p);
    CleanHasParts(Print(naming, p));
    PaddedParses(naming.partitionWidth, p.part);
    PaddedParses(naming.partitionWidth, part);
    hide Parts, Padded, Tail, Clean;
  }

  lemma CleanHasParts(s: string)
    ensures IsAbs(Clean(s)) == IsAbs(s) && Parts(Clean(s)) == Parts(s)
  {
    CleanIsCanonical(Clean(s), s);
    CleanIsCanonical(s, s);
  }

  // ---- names that are not plain -------------------------------------------------------------

  lemma {:induction false} KeptRestarts(rooted: bool, a: seq<string>, b: seq<string>)
    requires Kept(rooted, a) == []
    ensures Kept(rooted, a + b) == Kept(rooted, b)
    decreases |b|
  {
    if b == [] {
      assert a + b == a;
    } else {
      KeptRestarts(rooted, a, b[..|b| - 1]);
      assert (a + b)[..|a + b| - 1] == a + b[..|b| - 1];
    }
  }

  lemma UpTwice(a: string, b: string)
    requires Proper(a) && Proper(b) && a != ".." && b != ".."
    ensures Kept(false, [a, b, "..", ".."]) == []
  {
    var cs := [a, b, "..", ".."];
    assert cs[..3][..2] == [a, b] && cs[..2][..1] == [a] && [a, b][..1] == [a] && [a][..0] == [];
    assert Kept(false, [a]) == [a];
    assert Kept(false, [a, b]) == [a, b];
    assert cs[..3] == [a, b, ".."] && [a, b, ".."][..2] == [a, b];
    assert Kept(false, cs[..3]) == [a, b][..1];
  }

  lemma SplitThrice(a: string, b: string, c: string, rest: string)
    requires NoSlash(a) && NoSlash(b) && NoSlash(c)
    ensures Split(a + "/" + b + "/" + c + "/" + rest) == [a, b, c] + Split(rest)
  {
    assert Split(a) == [a];
    hide Split, NoSlash;
    SplitLast(a, b);
    SplitLast(a + "/" + b, c);
    SplitOfSum(a + "/" + b + "/" + c, rest);
  }

  lemma SplitOutwards(first: string, rest: string)
    requires NoSlash(first)
    ensures Split(first + "/../../" + rest) == [first, "..", ".."] + Split(rest)
  {
    hide Split;
    SplitThrice(first, "..", "..", rest);
    assert "/" + ".." + "/" + ".." + "/" == "/../../";
    assert first + "/" + ".." + "/" + ".." + "/" + rest == first + ("/" + ".." + "/" + ".." + "/") + rest;
  }

  lemma LeadsOut(dir: string, first: string, rest: string)
    requires Proper(dir) && dir != ".." && Proper(first) && first != ".."
    requires rest != "" && !IsAbs(rest)
    ensures !IsAbs(dir + ("/" + (first + "/../../" + rest)))
    ensures Parts(dir + ("/" + (first + "/../../" + rest))) == Parts(rest)
  {
    hide Split, Kept, IsAbs;
    SplitBelow(dir, first + "/../../" + rest);
    SplitOutwards(first, rest);
    var out := [dir, first, "..", ".."];
    assert [dir] + ([first, "..", ".."] + Split(rest)) == out + Split(rest);
    UpTwice(dir, first);
    KeptRestarts(false, out, Split(rest));
  }

  /** A key that leads out of the directory: neither partition nor stripe plays a part in where the shard is. */
  lemma KeyLeadsOut(naming: Naming, part: nat, stripe: nat, key: string, base: string)
    requires key != "" && !IsAbs(key)
    ensures RelPath(naming, part, stripe, "a/../../" + key, base) == Clean(key + "-" + base)
  {
    var number := Padded(naming.seqWidth, stripe);
    NumbersAreProper(naming.seqWidth, stripe, "D-a");
    DirIsProper(naming, part);
    var first, rest := number + "D-a", key + "-" + base;
    assert first != "..";
    assert rest[0] == key[0];
    hide Padded, Parts, Clean, Proper;
    var tail := "D-" + ("a/../../" + key) + "-" + base;
    assert number + tail == first + "/../../" + rest by { TailSpells(key, base); }
    LeadsOut(DirName(naming, part), first, rest);
    CleanIsCanonical(Joined(naming, part, stripe, tail), rest);
  }

  lemma TailSpells(key: string, base: string)
    ensures "D-" + ("a/../../" + key) + "-" + base == "D-a" + ("/../../" + (key + "-" + base))
  {
  }

  /** Two datasets whose keys are not the same and whose shards c.bin, in different partitions, have one path. */
  lemma TwoShardsOnePath(ext: PlainName)
    ensures var naming, key := Naming(2, 3, ext), "a/../../01/000D-b";
            RelPath(naming, 0, 0, key, "c.bin") == RelPath(naming, 1, 0, "b", "c.bin")
  {
    var naming := Naming(2, 3, ext);
    SmallNumbers();
    assert "a/../../" + "01/000D-b" == "a/../../01/000D-b";
    assert "01" + ("/" + ("000" + ("D-" + "b" + "-" + "c.bin"))) == "01/000D-b" + "-" + "c.bin";
    hide Padded, Clean;
    KeyLeadsOut(naming, 0, 0, "01/000D-b", "c.bin");
  }

  /** A key with which the shards of all partitions and stripes are in the directory of partition 1. */
  lemma AllInOneDirectory(ext: PlainName, part: nat, stripe: nat, base: PlainName)
    ensures LiesIn(Naming(2, 3, ext), RelPath(Naming(2, 3, ext), part, stripe, "a/../../01/x", base), 1)
  {
    var naming := Naming(2, 3, ext);
    var last := "x-" + base;
    var rest := "01" + ("/" + last);
    NoSlashInSum("x-", base);
    assert last[0] == 'x';
    assert Proper("01") && Proper(last) && last != "..";
    TwoPartsExactly("01", last);
    SmallNumbers();
    hide Padded, Parts, Proper, NoSlash, Clean;
    assert "a/../../" + "01/x" == "a/../../01/x";
    assert rest == "01/x" + "-" + base;
    KeyLeadsOut(naming, part, stripe, "01/x", base);
    CleanHasParts(rest);
  }

  // ---- finding a file by its path -----------------------------------------------------------

  /** A clean relative path is always found as it is, and by its full path below the root exactly when it does not
      start with "..". */
  lemma PathIsFound(root: string, rel: string)
    requires rel != "" && !IsAbs(rel) && Clean(rel) == rel && IsAbs(root) && Clean(root) == root
    ensures Normalize(root, rel) == rel
    ensures Normalize(root, Clean(root + "/" + rel)) == rel <==> !StartsWith(rel, "..")
  {
    var cs := Parts(rel);
    PartsAreNormal(rel);
    assert rel == Written(false, cs);
    FullIsAbs(root, rel);
    if StartsWith(rel, "..") {
      assert rel[0] == '.';
    } else if cs == [] {
      CleanBelow(root, []);
      assert Parts(root) + [] == Parts(root);
      CleanIsCanonical(root, root);
    } else {
      StartsAlike(cs);
      InsideIsNormal(cs);
      NormalizeFinds(root, cs);
      CleanBelow(root, cs);
    }
    hide Parts, Clean, Below, Join, Normal;
  }

  lemma StartsAlike(cs: seq<string>)
    requires cs != [] && !StartsWith(Join(cs), "..")
    ensures !StartsWith(cs[0], "..") && cs[0] != ".."
  {
    hide Join;
    JoinStarts(cs);
    var s, c := Join(cs), cs[0];
    assert StartsWith(c, "..") <==> |c| >= 2 && c[0] == '.' && c[1] == '.';
    assert StartsWith(s, "..") <==> |s| >= 2 && s[0] == '.' && s[1] == '.';
  }

  lemma FullIsAbs(root: string, rel: string)
    requires IsAbs(root)
    ensures IsAbs(Clean(root + "/" + rel))
  {
  }

  lemma JoinedIsRelative(naming: Naming, part: nat, stripe: nat, tail: string)
    ensures var rel := Clean(Joined(naming, part, stripe, tail)); rel != "" && !IsAbs(rel) && Clean(rel) == rel
  {
    var s := Joined(naming, part, stripe, tail);
    DirIsProper(naming, part);
    hide Split, Padded;
    SplitBelow(DirName(naming, part), Padded(naming.seqWidth, stripe) + tail);
    RelativeStays(s);
  }

  lemma RelativeStays(s: string)
    requires !IsAbs(s)
    ensures Clean(s) != "" && !IsAbs(Clean(s)) && Clean(Clean(s)) == Clean(s)
  {
    var cs := Parts(s);
    PartsAreNormal(s);
    CleanIsCanonical(s, s);
    hide Parts, Join, Normal;
    if cs != [] {
      JoinStarts(cs);
      assert Proper(cs[0]) by { NormalStarts(false, cs); }
    }
  }

  lemma NormalStarts(rooted: bool, cs: seq<string>)
    requires Normal(rooted, cs) && cs != []
    ensures Proper(cs[0])
  {
  }

  /** A shard is found by the path that is stored for it, whatever its key, and by the full path below the arcset's root
      if and only if the stored path does not start with "..". */
  lemma ShardPathIsFound(root: string, naming: Naming, part: nat, stripe: nat, key: string, base: string)
    requires IsAbs(root) && Clean(root) == root
    ensures var rel := RelPath(naming, part, stripe, key, base);
            && Normalize(root, rel) == rel
            && (Normalize(root, Clean(root + "/" + rel)) == rel <==> !StartsWith(rel, ".."))
  {
    hide Normalize, Clean, StartsWith, Joined;
    JoinedIsRelative(naming, part, stripe, "D-" + key + "-" + base);
    PathIsFound(root, RelPath(naming, part, stripe, key, base));
  }

  /** The files of the model are found both ways. */
  lemma LocatedIsFound(root: string, naming: Naming, p: Path)
    requires IsAbs(root) && Clean(root) == root && !p.Outside?
    ensures var rel := Located(naming, p);
            Normalize(root, rel) == rel && Normalize(root, Clean(root + "/" + rel)) == rel
    ensures Located(naming, p) != "" && !IsAbs(Located(naming, p))
  {
    hide Normalize, Clean, StartsWith, Parts, Tail, Join, Normal;
    var s := Print(naming, p);
    assert s == Joined(naming, p.part, p.stripe, Tail(naming, p));
    JoinedIsRelative(naming, p.part, p.stripe, Tail(naming, p));
    LocatedParts(naming, p);
    DirIsProper(naming, p.part);
    LocatedStarts(naming, p);
    PathIsFound(root, Located(naming, p));
  }

  lemma LocatedStarts(naming: Naming, p: Path)
    requires !p.Outside?
    ensures !StartsWith(Located(naming, p), "..")
  {
    var cs := Parts(Print(naming, p));
    LocatedParts(naming, p);
    assert !IsAbs(Print(naming, p)) by {
      SplitBelow(DirName(naming, p.part), Padded(naming.seqWidth, p.stripe) + Tail(naming, p));
      DirIsProper(naming, p.part);
    }
    DirIsProper(naming, p.part);
    hide Parts, Tail, Padded, Join;
    NotDotDot(cs);
  }
}
