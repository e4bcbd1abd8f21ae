/** Slash-separated path strings: cleaning them, cutting a root off, and joining them below a root. */
module CleanPath {
  import opened Bytes
  import opened Paths

  /** The components between slashes. */
  function Split(s: string): (cs: seq<string>)
    ensures |cs| > 0 && forall c | c in cs :: NoSlash(c)
  {
    if NoSlash(s) then [s] else Split(s[..LastSlash(s)]) + [s[LastSlash(s) + 1..]]
  }

  function Join(cs: seq<string>): string {
    if cs == [] then "" else if |cs| == 1 then cs[0] else Join(cs[..|cs| - 1]) + "/" + cs[|cs| - 1]
  }

  /** What is left of the components: empty ones and "." go, ".." takes the one before it along, or
      nothing at a root. */
  function Kept(rooted: bool, cs: seq<string>): seq<string> {
    if cs == [] then []
    else
      var before, c := Kept(rooted, cs[..|cs| - 1]), cs[|cs| - 1];
      if c == "" || c == "." then before
      else if c != ".." then before + [c]
      else if before != [] && before[|before| - 1] != ".." then before[..|before| - 1]
      else if rooted then before
      else before + [".."]
  }

  predicate IsAbs(s: string) { s != "" && s[0] == '/' }

  /** The components of a path after cleaning. */
  function Parts(s: string): seq<string> { Kept(IsAbs(s), Split(s)) }

  function Written(rooted: bool, cs: seq<string>): string {
    if rooted then "/" + Join(cs) else if cs == [] then "." else Join(cs)
  }

  function Clean(s: string): string { Written(IsAbs(s), Parts(s)) }

  // ---- clean paths --------------------------------------------------------------------------

  predicate Proper(c: string) { c != "" && c != "." && NoSlash(c) }

  /** Components as cleaning leaves them: ".." only in front, and never below a root. */
  predicate Normal(rooted: bool, cs: seq<string>) {
    && (forall i | 0 <= i < |cs| :: Proper(cs[i]))
    && (forall i | 0 <= i < |cs| && cs[i] == ".." :: !rooted && forall j | 0 <= j < i :: cs[j] == "..")
  }

  lemma {:induction false} KeptIsNormal(rooted: bool, cs: seq<string>)
    requires forall c | c in cs :: NoSlash(c)
    ensures Normal(rooted, Kept(rooted, cs))
  {
    if cs != [] {
      KeptIsNormal(rooted, cs[..|cs| - 1]);
    }
  }

  lemma NormalPrefix(rooted: bool, cs: seq<string>)
    requires Normal(rooted, cs) && cs != []
    ensures var n := |cs| - 1;
            && Normal(rooted, cs[..n]) && cs[n] != "" && cs[n] != "."
            && (cs[n] == ".." ==> !rooted && (n > 0 ==> cs[..n][n - 1] == ".."))
  {
    var n := |cs| - 1;
    assert Proper(cs[n]);
    hide NoSlash;
  }

  lemma {:induction false} NormalIsKept(rooted: bool, cs: seq<string>)
    requires Normal(rooted, cs)
    ensures Kept(rooted, cs) == cs
  {
    if cs != [] {
      var n := |cs| - 1;
      NormalPrefix(rooted, cs);
      hide Normal;
      NormalIsKept(rooted, cs[..n]);
      assert cs == cs[..n] + [cs[n]];
    }
  }

  lemma LastSlashIs(s: string, i: nat)
    requires i < |s| && s[i] == '/' && NoSlash(s[i + 1..])
    ensures LastSlash(s) == i
  {
    var j := LastSlash(s);
    assert forall x | i < x < |s| :: s[x] != '/' by {
      assert forall x | i < x < |s| :: s[x] == s[i + 1..][x - i - 1];
    }
    assert forall x | j < x < |s| :: s[x] != '/' by {
      assert forall x | j < x < |s| :: s[x] == s[j + 1..][x - j - 1];
    }
  }

  lemma SplitLast(s: string, c: string)
    requires NoSlash(c)
    ensures Split(s + "/" + c) == Split(s) + [c]
  {
    var whole := s + "/" + c;
    assert whole[|s|] == '/' && whole[|s| + 1..] == c;
    LastSlashIs(whole, |s|);
    assert whole[..|s|] == s;
  }

  lemma {:induction false} SplitInvertsJoin(cs: seq<string>)
    requires cs != [] && forall c | c in cs :: NoSlash(c)
    ensures Split(Join(cs)) == cs
  {
    var n := |cs| - 1;
    assert cs == cs[..n] + [cs[n]];
    if n > 0 {
      SplitInvertsJoin(cs[..n]);
      SplitLast(Join(cs[..n]), cs[n]);
    }
  }

  lemma {:induction false} SplitOfSum(a: string, b: string)
    ensures Split(a + "/" + b) == Split(a) + Split(b)
    decreases |b|
  {
    if NoSlash(b) {
      SplitLast(a, b);
    } else {
      var init, last := b[..LastSlash(b)], b[LastSlash(b) + 1..];
      assert b == init + "/" + last;
      assert a + "/" + b == (a + "/" + init) + "/" + last;
      SplitOfSum(a, init);
      SplitLast(a + "/" + init, last);
    }
  }

  /** A leading slash only adds an empty component. */
  lemma SplitRooted(s: string)
    ensures Split("/" + s) == [""] + Split(s)
  {
    SplitOfSum("", s);
    assert "" + "/" + s == "/" + s;
  }

  lemma {:induction false} EmptyInFront(rooted: bool, cs: seq<string>)
    ensures Kept(rooted, [""] + cs) == Kept(rooted, cs)
  {
    if cs != [] {
      EmptyInFront(rooted, cs[..|cs| - 1]);
      assert ([""] + cs)[..|cs|] == [""] + cs[..|cs| - 1];
    } else {
      assert Kept(rooted, [""][..0]) == [];
    }
  }

  lemma JoinStarts(cs: seq<string>)
    requires cs != []
    ensures |Join(cs)| >= |cs[0]| && forall i | 0 <= i < |cs[0]| :: Join(cs)[i] == cs[0][i]
    ensures Join(cs) == cs[0] || (|Join(cs)| > |cs[0]| && Join(cs)[|cs[0]|] == '/')
  {
    if |cs| > 1 {
      JoinStarts(cs[..|cs| - 1]);
    }
  }

  /** Normal components are what their path cleans to. */
  lemma WrittenParts(rooted: bool, cs: seq<string>)
    requires Normal(rooted, cs)
    ensures IsAbs(Written(rooted, cs)) == rooted && Parts(Written(rooted, cs)) == cs
  {
    NormalIsKept(rooted, cs);
    if cs != [] {
      SplitInvertsJoin(cs);
      JoinStarts(cs);
      assert Proper(cs[0]);
    } else {
      assert Kept(false, ["."]) == [] by { assert ["."][..0] == []; }
    }
    if rooted {
      SplitRooted(Join(cs));
      EmptyInFront(true, Split(Join(cs)));
      if cs == [] {
        assert Split("") == [""];
        assert Kept(true, [""]) == [] by { assert [""][..0] == []; }
      }
    }
  }

  lemma PartsAreNormal(s: string)
    ensures Normal(IsAbs(s), Parts(s))
  {
    KeptIsNormal(IsAbs(s), Split(s));
  }

  /** Cleaning twice is cleaning once, and two paths clean alike exactly when their parts agree. */
  lemma CleanIsCanonical(a: string, b: string)
    ensures Clean(Clean(a)) == Clean(a)
    ensures Clean(a) == Clean(b) <==> IsAbs(a) == IsAbs(b) && Parts(a) == Parts(b)
  {
    PartsAreNormal(a);
    PartsAreNormal(b);
    WrittenParts(IsAbs(a), Parts(a));
    WrittenParts(IsAbs(b), Parts(b));
  }

  // ---- below a root -------------------------------------------------------------------------

  predicate StartsWith(s: string, prefix: string) { prefix <= s }

  /** The path of `target` as seen from `root`, as far as it is below it; None when it is not. */
  function Below(root: string, target: string): Option<string> {
    if Clean(root) == Clean(target) then Some(".")
    else if IsAbs(root) && IsAbs(target) && Parts(root) <= Parts(target) then
      Some(Join(Parts(target)[|Parts(root)|..]))
    else None
  }

  /** The path a shard is looked up by: relative to the root when it lies below it, else as it is. */
  function Normalize(root: string, p: string): string {
    if p == "" then ""
    else if !IsAbs(p) then Clean(p)
    else if Below(root, p).Some? && !StartsWith(Below(root, p).value, "..") then Below(root, p).value
    else p
  }

  /** The parts of a path below a directory: those of the directory, then its own. */
  lemma {:induction false} KeptAppends(rooted: bool, a: seq<string>, b: seq<string>)
    requires Normal(true, b)
    ensures Kept(rooted, a + b) == Kept(rooted, a) + b
    decreases |b|
  {
    if b == [] {
      assert a + b == a;
    } else {
      var n := |b| - 1;
      KeptAppends(rooted, a, b[..n]);
      assert (a + b)[..|a + b| - 1] == a + b[..n];
      assert b == b[..n] + [b[n]];
    }
  }

  lemma NormalBelow(root: seq<string>, cs: seq<string>)
    requires Normal(true, root) && Normal(true, cs)
    ensures Normal(true, root + cs)
  {
  }

  lemma {:induction false} JoinOfSum(a: seq<string>, b: seq<string>)
    requires a != [] && b != []
    ensures Join(a + b) == Join(a) + "/" + Join(b)
    decreases |b|
  {
    var n := |b| - 1;
    assert (a + b)[..|a + b| - 1] == a + b[..n];
    if n == 0 {
      assert a + b[..n] == a;
    } else {
      JoinOfSum(a, b[..n]);
    }
  }

  lemma NotDotDot(cs: seq<string>)
    requires cs != [] && Proper(cs[0])
    ensures Join(cs) == ".." || StartsWith(Join(cs), "../") <==> cs[0] == ".."
    ensures StartsWith(Join(cs), "..") ==> StartsWith(cs[0], "..")
  {
    JoinStarts(cs);
    var s, c := Join(cs), cs[0];
    assert |c| == 1 ==> c[0] != '.' by {
      assert |c| == 1 && c[0] == '.' ==> c == ".";
    }
    assert |c| == 2 && c[0] == '.' && c[1] == '.' ==> c == "..";
    assert forall i | 0 <= i < |c| :: c[i] != '/';
    if c == ".." {
      assert |s| == 2 ==> s == "..";
      assert |s| > 2 ==> s[..3] == "../";
    }
    assert |c| >= 2 && c[0] == '.' && c[1] == '.' ==> c[..2] == "..";
    assert StartsWith(s, "../") ==> s[0] == '.' && s[1] == '.' && s[2] == '/';
    assert s == ".." || StartsWith(s, "../") ==> s[0] == '.' && s[1] == '.' && (|s| == 2 || s[2] == '/');
  }

  lemma NormalizeRelative(root: string, cs: seq<string>)
    requires cs != [] && Normal(true, cs)
    ensures Normalize(root, Join(cs)) == Join(cs)
  {
    WrittenParts(false, cs);
    JoinStarts(cs);
    assert Proper(cs[0]);
    hide Parts, Join, Normal, Below;
  }

  lemma BelowRoot(root: string, cs: seq<string>)
    requires cs != [] && Normal(true, cs) && IsAbs(root)
    ensures var full := Written(true, Parts(root) + cs);
            IsAbs(full) && Below(root, full) == Some(Join(cs))
  {
    var all := Parts(root) + cs;
    PartsAreNormal(root);
    NormalBelow(Parts(root), cs);
    WrittenParts(true, all);
    CleanIsCanonical(root, Written(true, all));
    assert all[|Parts(root)|..] == cs && |all| > |Parts(root)|;
    hide Clean, Parts, Join, Normal, Written;
  }

  /** A clean relative path whose first component does not start with ".." is found under its own name and
      under its full path below the root. */
  lemma NormalizeFinds(root: string, cs: seq<string>)
    requires cs != [] && Normal(true, cs) && !StartsWith(cs[0], "..")
    requires IsAbs(root)
    ensures Normalize(root, Join(cs)) == Join(cs)
    ensures Normalize(root, Written(true, Parts(root) + cs)) == Join(cs)
  {
    NormalizeRelative(root, cs);
    BelowRoot(root, cs);
    assert Proper(cs[0]);
    NotDotDot(cs);
    hide Clean, Parts, Join, Normal, Written, Below;
  }

  /** Paths that clean alike are looked up alike, except absolute ones that do not lie below the root. */
  lemma NormalizeCleans(root: string, p: string, q: string)
    requires p != "" && q != "" && Clean(p) == Clean(q)
    ensures IsAbs(p) == IsAbs(q)
    ensures !IsAbs(p) ==> Normalize(root, p) == Normalize(root, q) == Clean(p)
    ensures Normalize(root, p) == Normalize(root, q) || (Normalize(root, p) == p && Normalize(root, q) == q)
  {
    CleanIsCanonical(p, q);
    hide Clean, Parts, Join;
  }

  /** A path that is found below a root and by its own name is found in every spelling. */
  lemma AnySpelling(root: string, rel: string, p: string)
    requires rel != "" && !IsAbs(rel) && Normalize(root, rel) == Normalize(root, Clean(root + "/" + rel)) == rel
    requires IsAbs(root) && p != "" && (Clean(p) == rel || Clean(p) == Clean(root + "/" + rel))
    ensures Normalize(root, p) == rel
  {
    var full := Clean(root + "/" + rel);
    CleanIsCanonical(root + "/" + rel, full);
    assert Clean(rel) == rel && Clean(full) == full;
    PartsAreNormal(root + "/" + rel);
    WrittenParts(true, Parts(root + "/" + rel));
    assert (root + "/" + rel)[0] == root[0];
    hide Clean, Parts, Join, Below;
    if Clean(p) == rel {
      NormalizeCleans(root, p, rel);
    } else {
      NormalizeCleans(root, p, full);
    }
  }

  lemma DigitsInFront(digits: string, rest: string)
    requires AllDigits(digits) && digits != "" && NoSlash(rest)
    ensures Proper(digits + rest) && !StartsWith(digits + rest, "..") && digits + rest != ".."
  {
    var s := digits + rest;
    assert s[0] == digits[0] && IsDigit(s[0]);
    assert forall i | 0 <= i < |digits| :: IsDigit(digits[i]);
  }

  // ---- joining below a root -----------------------------------------------------------------

  /** Where a relative path goes below a root directory; None for a path that is empty, absolute, or leads out. */
  function SafeJoin(root: string, rel: string): Option<string> {
    if rel == "" || IsAbs(rel) then None
    else
      var clean := Clean(rel);
      if clean == ".." || StartsWith(clean, "../") then None
      else
        var out := Clean(root + "/" + clean);
        if out != root && !StartsWith(out, root + "/") then None else Some(out)
  }

  /** A relative path that stays in its directory. */
  predicate StaysInside(rel: string) {
    rel != "" && !IsAbs(rel) && (Parts(rel) == [] || Parts(rel)[0] != "..")
  }

  /** How many levels the components go down, ".." going up. */
  function Depth(cs: seq<string>): int {
    if cs == [] then 0
    else
      var c := cs[|cs| - 1];
      Depth(cs[..|cs| - 1]) + if c == ".." then -1 else if c == "" || c == "." then 0 else 1
  }

  /** How far up the components ever get. */
  function Lowest(cs: seq<string>): int {
    if cs == [] then 0 else Min(Lowest(cs[..|cs| - 1]), Depth(cs))
  }

  /** Cleaning leaves as many ".." in front as the path goes up, and then the levels it goes down from there. */
  lemma {:induction false} KeptCounts(cs: seq<string>)
    ensures Lowest(cs) <= 0 && Lowest(cs) <= Depth(cs)
    ensures |Kept(false, cs)| == Depth(cs) - 2 * Lowest(cs)
    ensures forall i | 0 <= i < |Kept(false, cs)| :: Kept(false, cs)[i] == ".." <==> i < -Lowest(cs)
  {
    if cs != [] {
      KeptCounts(cs[..|cs| - 1]);
    }
  }

  lemma {:induction false} LowestIsLeast(cs: seq<string>)
    ensures Lowest(cs) < 0 <==> exists n: nat :: n <= |cs| && Depth(cs[..n]) < 0
  {
    if cs != [] {
      var init := cs[..|cs| - 1];
      LowestIsLeast(init);
      assert cs[..|cs|] == cs;
      if n: nat :| n <= |init| && Depth(init[..n]) < 0 {
        assert cs[..n] == init[..n];
      }
      if n: nat :| n <= |cs| && Depth(cs[..n]) < 0 {
        if n < |cs| { assert cs[..n] == init[..n]; }
      }
    }
  }

  /** A relative path stays in its directory exactly when it never goes further up than it has gone down. */
  lemma StaysInsideExactly(rel: string)
    ensures StaysInside(rel) <==>
              rel != "" && !IsAbs(rel) && forall n: nat | n <= |Split(rel)| :: Depth(Split(rel)[..n]) >= 0
  {
    KeptCounts(Split(rel));
    LowestIsLeast(Split(rel));
    hide Kept, Split, Depth, Lowest;
    var kept := Kept(false, Split(rel));
    assert kept != [] ==> (kept[0] == ".." <==> 0 < -Lowest(Split(rel)));
  }

  lemma KeptDownAndUp(rooted: bool, cs: seq<string>, c: string)
    requires c != "" && c != "." && c != ".."
    ensures Kept(rooted, cs + [c] + [".."]) == Kept(rooted, cs)
  {
    var kept, down := Kept(rooted, cs), cs + [c];
    assert down[..|cs|] == cs && (down + [".."])[..|down|] == down;
    assert Kept(rooted, down) == kept + [c];
    assert (kept + [c])[..|kept|] == kept;
  }

  /** Going down into a directory and up again leads nowhere. */
  lemma DownAndUp(a: string, c: string)
    requires a != "" && NoSlash(c) && c != "" && c != "." && c != ".."
    ensures Clean(a + "/" + c + "/" + "..") == Clean(a)
  {
    SplitLast(a, c);
    SplitLast(a + "/" + c, "..");
    KeptDownAndUp(IsAbs(a), Split(a), c);
    hide Kept, Split, Written;
    assert (a + "/" + c + "/" + "..")[0] == a[0];
  }

  lemma InsideIsNormal(cs: seq<string>)
    requires Normal(false, cs) && (cs == [] || cs[0] != "..")
    ensures Normal(true, cs)
  {
  }

  /** Cleaning a clean path below a clean root directory. */
  lemma CleanBelow(root: string, cs: seq<string>)
    requires IsAbs(root) && Normal(true, cs)
    ensures Clean(root + "/" + Written(false, cs)) == Written(true, Parts(root) + cs)
  {
    var clean := Written(false, cs);
    SplitOfSum(root, clean);
    if cs == [] {
      assert Split(clean) == ["."];
      var all := Split(root) + ["."];
      assert all[..|all| - 1] == Split(root);
      assert Parts(root) + cs == Parts(root);
    } else {
      SplitInvertsJoin(cs);
      KeptAppends(true, Split(root), cs);
    }
  }

  /** What is below a directory starts with its path and a slash, except for the root directory itself. */
  lemma BelowStarts(r: seq<string>, cs: seq<string>)
    requires Normal(true, r) && Normal(true, cs)
    ensures var root, out := Written(true, r), Written(true, r + cs);
            if cs == [] then out == root else out != root && (StartsWith(out, root + "/") <==> r != [])
  {
    var root, out := Written(true, r), Written(true, r + cs);
    if cs == [] {
      assert r + cs == r;
    } else {
      JoinStarts(cs);
      assert Proper(cs[0]);
      if r == [] {
        assert r + cs == cs;
        assert out[1] == cs[0][0] != '/';
      } else {
        JoinOfSum(r, cs);
        assert out == root + "/" + Join(cs);
        assert out[..|root| + 1] == root + "/";
      }
    }
  }

  /** A join succeeds exactly for relative paths that stay inside (below the root directory "/" only for the
      directory itself), and then gives the path below the root with exactly their components. */
  lemma SafeJoinExactly(root: string, rel: string)
    requires IsAbs(root) && Clean(root) == root
    ensures SafeJoin(root, rel).Some? <==> StaysInside(rel) && (Parts(root) == [] ==> Parts(rel) == [])
    ensures SafeJoin(root, rel).Some? ==> SafeJoin(root, rel).value == Written(true, Parts(root) + Parts(rel))
  {
    if rel != "" && !IsAbs(rel) {
      var cs, r := Parts(rel), Parts(root);
      PartsAreNormal(rel);
      PartsAreNormal(root);
      if cs != [] { NotDotDot(cs); }
      if cs == [] || cs[0] != ".." {
        InsideIsNormal(cs);
        CleanBelow(root, cs);
        BelowStarts(r, cs);
      }
      hide Parts, Normal, StartsWith, Join;
    }
  }

  /** Paths go to one place exactly when they clean alike. */
  lemma SafeJoinInjective(root: string, a: string, b: string)
    requires IsAbs(root) && Clean(root) == root && SafeJoin(root, a).Some? && SafeJoin(root, b).Some?
    ensures SafeJoin(root, a) == SafeJoin(root, b) <==> Clean(a) == Clean(b)
  {
    SafeJoinExactly(root, a);
    SafeJoinExactly(root, b);
    PartsAreNormal(root);
    PartsAreNormal(a);
    PartsAreNormal(b);
    InsideIsNormal(Parts(a));
    InsideIsNormal(Parts(b));
    NormalBelow(Parts(root), Parts(a));
    NormalBelow(Parts(root), Parts(b));
    WrittenParts(true, Parts(root) + Parts(a));
    WrittenParts(true, Parts(root) + Parts(b));
    assert (Parts(root) + Parts(a))[|Parts(root)|..] == Parts(a);
    assert (Parts(root) + Parts(b))[|Parts(root)|..] == Parts(b);
    CleanIsCanonical(a, b);
  }
}
