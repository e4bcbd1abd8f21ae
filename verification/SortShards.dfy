/** The order in which build-data places the shards of a dataset: by key columns, then number, then path. */
module SortShards {
  import opened Bytes
  import opened Paths

  /** A shard with the key strings its file name gave. */
  datatype Keyed = Keyed(number: int, path: string, keys: seq<string>)

  const MIN_INT64 := -0x8000_0000_0000_0000

  /** The 64-bit decimal number a string is, with an optional sign. */
  function ParseInt(s: string): Option<int> {
    var signed := s != "" && (s[0] == '-' || s[0] == '+');
    var digits := if signed then s[1..] else s;
    if digits == "" || !AllDigits(digits) then None
    else
      var v: int := if signed && s[0] == '-' then 0 - Value(digits) else Value(digits);
      if MIN_INT64 <= v <= MAX_INT64 then Some(v) else None
  }

  function CompareStrings(a: string, b: string): (c: int)
    ensures -1 <= c <= 1
  {
    if a == "" || b == "" then (if a == "" then 0 else 1) - (if b == "" then 0 else 1)
    else if a[0] != b[0] then (if a[0] < b[0] then -1 else 1)
    else CompareStrings(a[1..], b[1..])
  }

  /** Numbers compare as numbers, anything else as strings. */
  function CompareKeys(a: string, b: string): int {
    var x, y := ParseInt(a), ParseInt(b);
    if x.Some? && y.Some? then
      if x.value < y.value then -1 else if x.value > y.value then 1 else 0
    else CompareStrings(a, b)
  }

  function CompareKeyLists(a: seq<string>, b: seq<string>): int {
    if a == [] || b == [] then 0
    else
      var c := CompareKeys(a[0], b[0]);
      if c != 0 then c else CompareKeyLists(a[1..], b[1..])
  }

  predicate Less(a: Keyed, b: Keyed) {
    var c := CompareKeyLists(a.keys, b.keys);
    if c != 0 then c < 0
    else if a.number != b.number then a.number < b.number
    else CompareStrings(a.path, b.path) < 0
  }

  // ---- strings ------------------------------------------------------------------------------

  lemma {:induction false} StringsAntisymmetric(a: string, b: string)
    ensures CompareStrings(a, b) == -CompareStrings(b, a)
    ensures CompareStrings(a, b) == 0 <==> a == b
  {
    if a != "" && b != "" && a[0] == b[0] {
      StringsAntisymmetric(a[1..], b[1..]);
      assert a == [a[0]] + a[1..] && b == [b[0]] + b[1..];
    }
  }

  lemma {:induction false} StringsTransitive(a: string, b: string, c: string)
    ensures CompareStrings(a, b) <= 0 && CompareStrings(b, c) <= 0 ==> CompareStrings(a, c) <= 0
    ensures CompareStrings(a, b) < 0 && CompareStrings(b, c) <= 0 ==> CompareStrings(a, c) < 0
    ensures CompareStrings(a, b) <= 0 && CompareStrings(b, c) < 0 ==> CompareStrings(a, c) < 0
  {
    if a != "" && b != "" && c != "" && a[0] == b[0] == c[0] {
      StringsTransitive(a[1..], b[1..], c[1..]);
    }
  }

  // ---- one key column -----------------------------------------------------------------------

  ghost predicate KeysTransitive(keys: set<string>) {
    forall a, b, c | a in keys && b in keys && c in keys && CompareKeys(a, b) < 0 && CompareKeys(b, c) < 0 ::
      CompareKeys(a, c) < 0
  }

  /** No key that is not a number lies, as a string, between two numbers that are in the opposite order. */
  ghost predicate NoInterleaving(keys: set<string>) {
    forall x, y, z | x in keys && y in keys && z in keys && Between(y, z, x) ::
      ParseInt(y).value < ParseInt(x).value
  }

  predicate Between(y: string, z: string, x: string) {
    && ParseInt(x).Some? && ParseInt(y).Some? && ParseInt(z).None?
    && CompareStrings(y, z) < 0 && CompareStrings(z, x) < 0
  }

  /** All keys are numbers, or none is. */
  ghost predicate Homogeneous(keys: set<string>) {
    (forall k | k in keys :: ParseInt(k).Some?) || (forall k | k in keys :: ParseInt(k).None?)
  }

  lemma HomogeneousNeverInterleaves(keys: set<string>)
    requires Homogeneous(keys)
    ensures NoInterleaving(keys)
  {
  }

  /** Comparing a number, a non-number and a number: strings decide twice, numbers once. */
  lemma ThreeKeys(keys: set<string>, a: string, b: string, c: string)
    requires NoInterleaving(keys) && a in keys && b in keys && c in keys
    requires CompareKeys(a, b) <= 0 && CompareKeys(b, c) <= 0
    ensures CompareKeys(a, c) <= 0
    ensures CompareKeys(a, b) < 0 || CompareKeys(b, c) < 0 ==> CompareKeys(a, c) < 0
  {
    StringsTransitive(a, b, c);
    StringsTransitive(b, c, a);
    StringsTransitive(c, a, b);
    StringsAntisymmetric(a, b);
    StringsAntisymmetric(b, c);
    StringsAntisymmetric(a, c);
    if ParseInt(a).Some? && ParseInt(b).Some? && ParseInt(c).None? {
      assert CompareStrings(b, c) < 0;
      assert CompareStrings(c, a) < 0 ==> Between(b, c, a);
    } else if ParseInt(a).Some? && ParseInt(b).None? && ParseInt(c).Some? {
      assert Between(a, b, c);
    } else if ParseInt(a).None? && ParseInt(b).Some? && ParseInt(c).Some? {
      assert CompareStrings(c, a) < 0 ==> Between(c, a, b);
    }
  }

  /** The comparison of a column is transitive exactly when no non-number interleaves with its numbers. */
  lemma TransitiveExactly(keys: set<string>)
    ensures KeysTransitive(keys) <==> NoInterleaving(keys)
  {
    if NoInterleaving(keys) {
      forall a, b, c | a in keys && b in keys && c in keys && CompareKeys(a, b) < 0 && CompareKeys(b, c) < 0
        ensures CompareKeys(a, c) < 0
      {
        ThreeKeys(keys, a, b, c);
      }
    }
    if KeysTransitive(keys) {
      forall x, y, z | x in keys && y in keys && z in keys && Between(y, z, x)
        ensures ParseInt(y).value < ParseInt(x).value
      {
        assert CompareKeys(y, z) < 0 && CompareKeys(z, x) < 0;
      }
    }
  }

  /** Mixed columns can be cyclic: 2 before 10, 10 before 1a, 1a before 2. */
  lemma MixedKeysCycle()
    ensures CompareKeys("2", "10") < 0 && CompareKeys("10", "1a") < 0 && CompareKeys("1a", "2") < 0
  {
    assert Value("2") == 2 by {
      assert Value("") == 0 && "2"[..0] == "";
    }
    assert Value("10") == 10 by {
      assert Value("1") == 1 by { assert "1"[..0] == ""; }
      assert "10"[..1] == "1";
    }
    assert !IsDigit("1a"[1]);
    assert "10"[1..] == "0" && "1a"[1..] == "a" && CompareStrings("0", "a") < 0;
  }

  // ---- the order of shards ------------------------------------------------------------------

  /** Every shard gave as many keys as there are columns, and no column interleaves. */
  ghost predicate Columns(items: set<Keyed>, n: nat) {
    && (forall a | a in items :: |a.keys| == n)
    && forall i | 0 <= i < n :: NoInterleaving(Column(items, i))
  }

  function Column(items: set<Keyed>, i: int): set<string> {
    set a | a in items && 0 <= i < |a.keys| :: a.keys[i]
  }

  ghost predicate NumbersDiffer(items: set<Keyed>) {
    forall a, b | a in items && b in items && a.number == b.number :: a == b
  }

  lemma KeysAntisymmetric(a: string, b: string)
    ensures CompareKeys(a, b) == -CompareKeys(b, a)
  {
    StringsAntisymmetric(a, b);
  }

  lemma {:induction false} KeyListsAntisymmetric(a: seq<string>, b: seq<string>)
    ensures CompareKeyLists(a, b) == -CompareKeyLists(b, a)
  {
    if a != [] && b != [] {
      KeysAntisymmetric(a[0], b[0]);
      KeyListsAntisymmetric(a[1..], b[1..]);
    }
  }

  lemma {:induction false} KeyListsTransitive(items: set<Keyed>, n: nat, i: nat, a: Keyed, b: Keyed, c: Keyed)
    requires Columns(items, n) && a in items && b in items && c in items && i <= n
    requires CompareKeyLists(a.keys[i..], b.keys[i..]) <= 0 && CompareKeyLists(b.keys[i..], c.keys[i..]) <= 0
    ensures CompareKeyLists(a.keys[i..], c.keys[i..]) <= 0
    ensures CompareKeyLists(a.keys[i..], b.keys[i..]) < 0 || CompareKeyLists(b.keys[i..], c.keys[i..]) < 0 ==>
              CompareKeyLists(a.keys[i..], c.keys[i..]) < 0
    decreases n - i
  {
    if i < n {
      var column := Column(items, i);
      assert a.keys[i] in column && b.keys[i] in column && c.keys[i] in column;
      assert NoInterleaving(column);
      ThreeKeys(column, a.keys[i], b.keys[i], c.keys[i]);
      assert a.keys[i..][1..] == a.keys[i + 1..] && b.keys[i..][1..] == b.keys[i + 1..]
          && c.keys[i..][1..] == c.keys[i + 1..];
      hide CompareKeys;
      if CompareKeys(a.keys[i], b.keys[i]) == 0 && CompareKeys(b.keys[i], c.keys[i]) == 0 {
        ThreeKeysEqual(column, a.keys[i], b.keys[i], c.keys[i]);
        KeyListsTransitive(items, n, i + 1, a, b, c);
      }
    }
  }

  lemma ThreeKeysEqual(keys: set<string>, a: string, b: string, c: string)
    requires NoInterleaving(keys) && a in keys && b in keys && c in keys
    requires CompareKeys(a, b) == 0 && CompareKeys(b, c) == 0
    ensures CompareKeys(a, c) == 0
  {
    KeysAntisymmetric(a, b);
    KeysAntisymmetric(b, c);
    KeysAntisymmetric(a, c);
    ThreeKeys(keys, a, b, c);
    ThreeKeys(keys, c, b, a);
  }

  /** With distinct numbers and no interleaving column the comparator is a strict total order. */
  ghost predicate StrictTotal(items: set<Keyed>) {
    && (forall a, b | a in items && b in items && a != b :: Less(a, b) || Less(b, a))
    && (forall a, b | a in items && b in items && Less(a, b) :: !Less(b, a))
    && (forall a, b, c | a in items && b in items && c in items && Less(a, b) && Less(b, c) :: Less(a, c))
  }

  lemma ComparatorIsTotal(items: set<Keyed>, n: nat)
    requires Columns(items, n) && NumbersDiffer(items)
    ensures StrictTotal(items)
  {
    forall a, b | a in items && b in items
      ensures a != b ==> Less(a, b) || Less(b, a)
      ensures Less(a, b) ==> !Less(b, a)
    {
      KeyListsAntisymmetric(a.keys, b.keys);
      StringsAntisymmetric(a.path, b.path);
    }
    forall a, b, c | a in items && b in items && c in items && Less(a, b) && Less(b, c) ensures Less(a, c) {
      assert a.keys[0..] == a.keys && b.keys[0..] == b.keys && c.keys[0..] == c.keys;
      KeyListsTransitive(items, n, 0, a, b, c);
      StringsTransitive(a.path, b.path, c.path);
      StringsAntisymmetric(a.path, b.path);
      StringsAntisymmetric(b.path, c.path);
    }
  }

  // ---- sorting ------------------------------------------------------------------------------

  ghost predicate Ordered(s: seq<Keyed>) {
    forall i, j | 0 <= i < j < |s| :: Less(s[i], s[j])
  }

  /** Stable insertion: after everything that is not greater. */
  function Insert(x: Keyed, s: seq<Keyed>): (r: seq<Keyed>)
    ensures multiset(r) == multiset(s) + multiset{x}
  {
    if s == [] then [x]
    else
      var last := s[|s| - 1];
      assert s == s[..|s| - 1] + [last];
      if Less(x, last) then Insert(x, s[..|s| - 1]) + [last] else s + [x]
  }

  function Sort(s: seq<Keyed>): (r: seq<Keyed>)
    ensures multiset(r) == multiset(s)
  {
    if s == [] then []
    else
      assert s == s[..|s| - 1] + [s[|s| - 1]];
      Insert(s[|s| - 1], Sort(s[..|s| - 1]))
  }

  function Elements(s: seq<Keyed>): set<Keyed> { set x | x in s }

  lemma SameElements(a: seq<Keyed>, b: seq<Keyed>)
    requires multiset(a) == multiset(b)
    ensures Elements(a) == Elements(b)
  {
    forall x ensures x in a <==> x in b {
      assert x in a <==> x in multiset(a);
      assert x in b <==> x in multiset(b);
    }
  }

  lemma AppendOrdered(s: seq<Keyed>, x: Keyed)
    requires Ordered(s) && forall y | y in s :: Less(y, x)
    ensures Ordered(s + [x])
  {
    hide Less;
  }

  lemma OrderedPrefix(s: seq<Keyed>, init: seq<Keyed>, last: Keyed)
    requires s == init + [last] && Ordered(s)
    ensures Ordered(init) && forall y | y in init :: Less(y, last)
  {
    hide Less;
    assert forall i | 0 <= i < |init| :: s[i] == init[i];
    assert s[|init|] == last;
  }

  lemma TotalFacts(all: set<Keyed>, a: Keyed, b: Keyed, c: Keyed)
    requires StrictTotal(all) && a in all && b in all && c in all
    ensures a != b && !Less(a, b) ==> Less(b, a)
    ensures Less(a, b) ==> !Less(b, a)
    ensures Less(a, b) && Less(b, c) ==> Less(a, c)
  {
  }

  lemma {:induction false} InsertOrdered(x: Keyed, s: seq<Keyed>, all: set<Keyed>)
    requires StrictTotal(all) && x in all && Elements(s) <= all && x !in s && Ordered(s)
    ensures Ordered(Insert(x, s))
  {
    if s != [] {
      var init, last := s[..|s| - 1], s[|s| - 1];
      assert s == init + [last];
      OrderedPrefix(s, init, last);
      assert forall y | y in init :: y in s;
      assert forall y | y in s :: y in all by {
        assert forall y | y in s :: y in Elements(s);
      }
      assert last in s;
      hide StrictTotal, Less, Ordered;
      if Less(x, last) {
        InsertOrdered(x, init, all);
        InsertMembers(x, init);
        AppendOrdered(Insert(x, init), last);
      } else {
        forall y | y in s ensures Less(y, x) {
          TotalFacts(all, x, last, y);
          TotalFacts(all, y, last, x);
          assert y == last || y in init;
        }
        AppendOrdered(s, x);
      }
    } else {
      AppendOrdered([], x);
    }
  }

  lemma InsertMembers(x: Keyed, s: seq<Keyed>)
    ensures forall y :: y in Insert(x, s) <==> y == x || y in s
  {
    forall y ensures y in Insert(x, s) <==> y == x || y in s {
      assert y in Insert(x, s) <==> y in multiset(Insert(x, s));
      assert y in s <==> y in multiset(s);
    }
  }

  ghost predicate AllDiffer(s: seq<Keyed>) {
    forall i, j | 0 <= i < j < |s| :: s[i] != s[j]
  }

  lemma {:induction false} SortOrdered(s: seq<Keyed>, all: set<Keyed>)
    requires StrictTotal(all) && Elements(s) <= all && AllDiffer(s)
    ensures Ordered(Sort(s))
  {
    if s != [] {
      var init, last := s[..|s| - 1], s[|s| - 1];
      assert forall y | y in init :: y in s;
      SortOrdered(init, all);
      SameElements(init, Sort(init));
      assert last !in init;
      assert last !in Sort(init) by {
        assert last in Sort(init) ==> last in Elements(Sort(init));
      }
      assert last in Elements(s);
      InsertOrdered(last, Sort(init), all);
    }
  }

  lemma SameLast(a: seq<Keyed>, b: seq<Keyed>, all: set<Keyed>)
    requires StrictTotal(all) && Elements(a) <= all && Ordered(a) && Ordered(b)
    requires Elements(a) == Elements(b) && a != [] && b != []
    ensures a[|a| - 1] == b[|b| - 1]
  {
    var x, y := a[|a| - 1], b[|b| - 1];
    assert x in Elements(a) && y in Elements(b);
    if x != y {
      LastIsGreatest(a, y);
      LastIsGreatest(b, x);
      TotalFacts(all, x, y, x);
      assert false;
    }
  }

  lemma WithoutLast(s: seq<Keyed>, init: seq<Keyed>, last: Keyed)
    requires s == init + [last]
    ensures multiset(init) == multiset(s) - multiset{last} && Elements(init) <= Elements(s)
  {
  }

  lemma {:induction false} OrderedUnique(a: seq<Keyed>, b: seq<Keyed>, all: set<Keyed>)
    requires StrictTotal(all) && Elements(a) <= all && Ordered(a) && Ordered(b) && multiset(a) == multiset(b)
    ensures a == b
    decreases |a|
  {
    hide Less, StrictTotal, Ordered, Elements;
    assert |a| == |multiset(a)| && |b| == |multiset(b)|;
    if a != [] {
      SameElements(a, b);
      SameLast(a, b, all);
      var x, y, last := a[..|a| - 1], b[..|b| - 1], a[|a| - 1];
      assert a == x + [last] && b == y + [last];
      WithoutLast(a, x, last);
      WithoutLast(b, y, last);
      OrderedPrefix(a, x, last);
      OrderedPrefix(b, y, last);
      OrderedUnique(x, y, all);
    }
  }

  lemma LastIsGreatest(s: seq<Keyed>, y: Keyed)
    requires s != [] && Ordered(s) && y in s && y != s[|s| - 1]
    ensures Less(y, s[|s| - 1])
  {
    var i :| 0 <= i < |s| && s[i] == y;
  }

  // ---- the shards of a dataset --------------------------------------------------------------

  /** A shard as the dataset lists it. */
  datatype ShardFile = ShardFile(number: int, path: string)

  /** How the dataset wants its shards sorted: by number, or by submatches of their base names. The pattern and the
      list of submatch indexes are None when they do not parse. */
  datatype Rule =
    | ByNumber
    | BySubmatch(pattern: Option<string -> Option<seq<string>>>, indexes: Option<seq<int>>)

  predicate InRange(indexes: seq<int>, m: seq<string>) {
    forall i | 0 <= i < |indexes| :: 0 <= indexes[i] < |m|
  }

  /** The shard with its keys; None when its name does not match or an index is out of range. */
  function KeyedOf(rule: Rule, sh: ShardFile): Option<Keyed> {
    match rule
    case ByNumber => Some(Keyed(sh.number, sh.path, []))
    case BySubmatch(Some(re), Some(indexes)) =>
      var m := re(AfterSlash(sh.path));
      if m.None? || !InRange(indexes, m.value) then None
      else
        Some(Keyed(sh.number, sh.path,
                   seq(|indexes|, i requires 0 <= i < |indexes| && InRange(indexes, m.value) => m.value[indexes[i]])))
    case _ => None
  }

  predicate GoodRule(rule: Rule) { rule.BySubmatch? ==> rule.pattern.Some? && rule.indexes.Some? }

  predicate Sortable(rule: Rule, shards: seq<ShardFile>) {
    GoodRule(rule) && forall sh | sh in shards :: KeyedOf(rule, sh).Some?
  }

  function AllKeyed(rule: Rule, shards: seq<ShardFile>): (items: seq<Keyed>)
    requires Sortable(rule, shards)
    ensures |items| == |shards|
  {
    seq(|shards|, i requires 0 <= i < |shards| => KeyedOf(rule, shards[i]).value)
  }

  function FilesOf(items: seq<Keyed>): (shards: seq<ShardFile>)
    ensures |shards| == |items|
  {
    seq(|items|, i requires 0 <= i < |items| => ShardFile(items[i].number, items[i].path))
  }

  /** Sorts the shards; fails on a rule that does not parse and on a shard without keys. */
  method SortShards(rule: Rule, shards: seq<ShardFile>) returns (r: Result<seq<ShardFile>>)
    ensures r.Success? <==> Sortable(rule, shards)
    ensures r.Success? ==> r.value == FilesOf(Sort(AllKeyed(rule, shards)))
    ensures r.Success? && Numbered(shards) && NoColumnInterleaves(rule, shards) ==> SortedBy(rule, r.value, shards)
  {
    if !GoodRule(rule) { return Failure("invalid shard_sort_regex or shard_sort_index"); }
    var items: seq<Keyed> := [];
    for i := 0 to |shards|
      invariant Sortable(rule, shards[..i]) && items == AllKeyed(rule, shards[..i])
    {
      assert shards[..i + 1] == shards[..i] + [shards[i]];
      var keyed := KeyedOf(rule, shards[i]);
      if keyed.None? {
        assert shards[i] in shards;
        return Failure("shard does not match shard_sort_regex");
      }
      items := items + [keyed.value];
    }
    assert shards[..|shards|] == shards;
    if Numbered(shards) && NoColumnInterleaves(rule, shards) {
      SortedAsAsked(rule, shards);
    }
    return Success(FilesOf(Sort(items)));
  }

  /** No two shards of the list have one number. */
  ghost predicate Numbered(shards: seq<ShardFile>) {
    forall i, j | 0 <= i < j < |shards| :: shards[i].number != shards[j].number
  }

  /** No key column interleaves numbers and other strings. */
  ghost predicate NoColumnInterleaves(rule: Rule, shards: seq<ShardFile>)
    requires Sortable(rule, shards)
  {
    var items := Elements(AllKeyed(rule, shards));
    rule.BySubmatch? ==> forall i | 0 <= i < |rule.indexes.value| :: NoInterleaving(Column(items, i))
  }

  lemma {:induction false} CountOfDistinct(s: seq<Keyed>, x: Keyed)
    requires AllDiffer(s)
    ensures multiset(s)[x] == if x in s then 1 else 0
  {
    if s != [] {
      var n := |s| - 1;
      assert s == s[..n] + [s[n]];
      CountOfDistinct(s[..n], x);
    }
  }

  lemma KeyedFacts(rule: Rule, shards: seq<ShardFile>)
    requires Sortable(rule, shards) && Numbered(shards)
    ensures var items := AllKeyed(rule, shards);
            && AllDiffer(items) && NumbersDiffer(Elements(items))
            && forall k :: k in items <==> exists sh :: sh in shards && KeyedOf(rule, sh) == Some(k)
    ensures forall sh | sh in shards ::
              KeyedOf(rule, sh).value.number == sh.number && KeyedOf(rule, sh).value.path == sh.path
  {
    var items := AllKeyed(rule, shards);
    forall i | 0 <= i < |items| ensures items[i].number == shards[i].number {
      assert shards[i] in shards;
    }
    forall k ensures k in items <==> exists sh :: sh in shards && KeyedOf(rule, sh) == Some(k) {
      if k in items {
        var i :| 0 <= i < |items| && items[i] == k;
        assert shards[i] in shards && KeyedOf(rule, shards[i]) == Some(k);
      }
      if sh :| sh in shards && KeyedOf(rule, sh) == Some(k) {
        var i :| 0 <= i < |shards| && shards[i] == sh;
        assert items[i] == k;
      }
    }
    hide KeyedOf;
  }

  lemma SameKeyed(rule: Rule, a: seq<ShardFile>, b: seq<ShardFile>)
    requires Sortable(rule, a) && Numbered(a) && Numbered(b) && forall sh :: sh in a <==> sh in b
    ensures Sortable(rule, b)
    ensures multiset(AllKeyed(rule, a)) == multiset(AllKeyed(rule, b))
  {
    KeyedFacts(rule, a);
    KeyedFacts(rule, b);
    var x, y := AllKeyed(rule, a), AllKeyed(rule, b);
    hide KeyedOf, AllKeyed;
    forall k ensures multiset(x)[k] == multiset(y)[k] {
      CountOfDistinct(x, k);
      CountOfDistinct(y, k);
    }
  }

  /** The shards end up in the one order the comparator allows, whatever order they were listed in; sorting one
      listing fails exactly when sorting the other does. */
  lemma SortIsCanonical(rule: Rule, a: seq<ShardFile>, b: seq<ShardFile>)
    requires Numbered(a) && Numbered(b) && forall sh :: sh in a <==> sh in b
    ensures Sortable(rule, a) <==> Sortable(rule, b)
    ensures Sortable(rule, a) && NoColumnInterleaves(rule, a) ==>
              var sorted := Sort(AllKeyed(rule, a));
              && Ordered(sorted) && FilesOf(sorted) == FilesOf(Sort(AllKeyed(rule, b)))
              && forall sh :: sh in FilesOf(sorted) <==> sh in a
  {
    if Sortable(rule, a) && NoColumnInterleaves(rule, a) {
      var x, y := AllKeyed(rule, a), AllKeyed(rule, b);
      KeyedFacts(rule, a);
      KeyedFacts(rule, b);
      SameKeyed(rule, a, b);
      var n := if rule.ByNumber? then 0 else |rule.indexes.value|;
      assert Columns(Elements(x), n);
      SortedAlike(x, y, n);
      SameElements(x, Sort(x));
      SortKeepsFiles(rule, a);
    }
    assert Sortable(rule, b) ==> Sortable(rule, a);
  }

  lemma SortKeepsFiles(rule: Rule, shards: seq<ShardFile>)
    requires Sortable(rule, shards) && Numbered(shards)
    ensures forall sh :: sh in FilesOf(Sort(AllKeyed(rule, shards))) <==> sh in shards
  {
    var items := AllKeyed(rule, shards);
    var sorted := Sort(items);
    KeyedFacts(rule, shards);
    SameElements(items, sorted);
    hide KeyedOf;
    forall sh ensures sh in FilesOf(sorted) <==> sh in shards {
      if sh in FilesOf(sorted) {
        var i :| 0 <= i < |sorted| && FilesOf(sorted)[i] == sh;
        assert sorted[i] in Elements(sorted);
        assert sorted[i] in items;
      }
      if sh in shards {
        var k := KeyedOf(rule, sh).value;
        assert k in Elements(items) && k in sorted;
        var i :| 0 <= i < |sorted| && sorted[i] == k;
        assert FilesOf(sorted)[i] == sh;
      }
    }
  }

  lemma SortedAlike(a: seq<Keyed>, b: seq<Keyed>, n: nat)
    requires Columns(Elements(a), n) && NumbersDiffer(Elements(a)) && AllDiffer(a)
    requires multiset(a) == multiset(b) && AllDiffer(b)
    ensures Ordered(Sort(a)) && multiset(Sort(a)) == multiset(a)
    ensures Sort(a) == Sort(b)
  {
    ComparatorIsTotal(Elements(a), n);
    SameElements(a, b);
    SortOrdered(a, Elements(a));
    SortOrdered(b, Elements(a));
    SameElements(a, Sort(a));
    OrderedUnique(Sort(a), Sort(b), Elements(a));
  }

  // ---- what the order is --------------------------------------------------------------------

  /** At the first position where they differ the one has the smaller character, or it ends there. */
  ghost predicate StringBefore(a: string, b: string) {
    exists p: nat :: p <= |a| && p < |b| && a[..p] == b[..p] && (p == |a| || a[p] < b[p])
  }

  lemma {:induction false} StringsAreLexicographic(a: string, b: string)
    ensures CompareStrings(a, b) < 0 <==> StringBefore(a, b)
  {
    if CompareStrings(a, b) < 0 {
      if a == "" || a[0] != b[0] {
        assert a[..0] == b[..0];
      } else {
        StringsAreLexicographic(a[1..], b[1..]);
        var p: nat :| p <= |a[1..]| && p < |b[1..]| && a[1..][..p] == b[1..][..p]
                      && (p == |a[1..]| || a[1..][p] < b[1..][p]);
        assert a[..p + 1] == [a[0]] + a[1..][..p] && b[..p + 1] == [b[0]] + b[1..][..p];
      }
    }
    if p: nat :| p <= |a| && p < |b| && a[..p] == b[..p] && (p == |a| || a[p] < b[p]) {
      if p > 0 {
        assert a[0] == a[..p][0] == b[..p][0] == b[0];
        assert a[1..][..p - 1] == a[..p][1..] && b[1..][..p - 1] == b[..p][1..];
        StringsAreLexicographic(a[1..], b[1..]);
      }
    }
  }

  /** The decimal numbers of 64 bits, with leading zeros or without, are taken for numbers. */
  lemma ParsesDecimals(n: nat, width: nat)
    ensures var d := Padded(width, n);
            && ParseInt(d) == ParseInt("+" + d) == (if n < 0x8000_0000_0000_0000 then Some(n) else None)
            && ParseInt("-" + d) == (if n <= 0x8000_0000_0000_0000 then Some(0 - n) else None)
  {
    hide Padded, Value;
    PaddedParses(width, n);
    var d := Padded(width, n);
    assert IsDigit(d[0]) && d[0] != '-' && d[0] != '+';
    assert ("+" + d)[1..] == d && ("-" + d)[1..] == d;
  }

  /** Two keys are worth the same: equal numbers, or the same string. */
  predicate SameKey(a: string, b: string) {
    if ParseInt(a).Some? && ParseInt(b).Some? then ParseInt(a).value == ParseInt(b).value else a == b
  }

  /** The smaller number, and otherwise the smaller string. */
  ghost predicate KeyBefore(a: string, b: string) {
    if ParseInt(a).Some? && ParseInt(b).Some? then ParseInt(a).value < ParseInt(b).value else StringBefore(a, b)
  }

  lemma KeysCompare(a: string, b: string)
    ensures CompareKeys(a, b) == 0 <==> SameKey(a, b)
    ensures CompareKeys(a, b) < 0 <==> KeyBefore(a, b)
  {
    StringsAntisymmetric(a, b);
    StringsAreLexicographic(a, b);
  }

  /** The shard has a key for every column. */
  ghost predicate GivesKeys(rule: Rule, sh: ShardFile) {
    rule.BySubmatch? ==>
      && rule.pattern.Some? && rule.indexes.Some?
      && var m := rule.pattern.value(AfterSlash(sh.path));
      m.Some? && forall x | 0 <= x < |rule.indexes.value| :: 0 <= rule.indexes.value[x] < |m.value|
  }

  function ColumnsOf(rule: Rule): nat
    requires rule.BySubmatch? ==> rule.indexes.Some?
  {
    if rule.ByNumber? then 0 else |rule.indexes.value|
  }

  /** A shard's key: the submatch of its base name that the rule asks for. */
  ghost function KeyIn(rule: Rule, sh: ShardFile, x: nat): string
    requires rule.BySubmatch? && GivesKeys(rule, sh) && x < |rule.indexes.value|
  {
    rule.pattern.value(AfterSlash(sh.path)).value[rule.indexes.value[x]]
  }

  lemma SortableExactly(rule: Rule, shards: seq<ShardFile>)
    ensures Sortable(rule, shards) <==>
              && (rule.BySubmatch? ==> rule.pattern.Some? && rule.indexes.Some?)
              && forall sh | sh in shards :: GivesKeys(rule, sh)
  {
    forall sh | GoodRule(rule) ensures KeyedOf(rule, sh).Some? <==> GivesKeys(rule, sh) {
    }
  }

  ghost predicate AgreeBefore(rule: Rule, a: ShardFile, b: ShardFile, x: nat)
    requires GivesKeys(rule, a) && GivesKeys(rule, b) && x <= ColumnsOf(rule)
  {
    forall y: nat | y < x :: SameKey(KeyIn(rule, a, y), KeyIn(rule, b, y))
  }

  ghost predicate DecidesAt(rule: Rule, a: ShardFile, b: ShardFile, x: nat)
    requires GivesKeys(rule, a) && GivesKeys(rule, b) && x < ColumnsOf(rule)
  {
    AgreeBefore(rule, a, b, x) && KeyBefore(KeyIn(rule, a, x), KeyIn(rule, b, x))
  }

  /** The first column in which the keys differ decides; after all columns the number does, then the path. */
  ghost predicate ComesBefore(rule: Rule, a: ShardFile, b: ShardFile)
    requires GivesKeys(rule, a) && GivesKeys(rule, b)
  {
    || (exists x: nat :: x < ColumnsOf(rule) && DecidesAt(rule, a, b, x))
    || (AgreeBefore(rule, a, b, ColumnsOf(rule))
        && (a.number < b.number || (a.number == b.number && StringBefore(a.path, b.path))))
  }

  /** The comparison of two key lists from column i on. */
  lemma {:induction false} ListsCompare(rule: Rule, a: ShardFile, b: ShardFile, i: nat)
    requires rule.BySubmatch? && GivesKeys(rule, a) && GivesKeys(rule, b) && i <= ColumnsOf(rule)
    requires AgreeBefore(rule, a, b, i)
    ensures KeyedOf(rule, a).Some? && KeyedOf(rule, b).Some?
    ensures var c := CompareKeyLists(KeyedOf(rule, a).value.keys[i..], KeyedOf(rule, b).value.keys[i..]);
            && (c == 0 <==> AgreeBefore(rule, a, b, ColumnsOf(rule)))
            && (c < 0 <==> exists x: nat :: x < ColumnsOf(rule) && DecidesAt(rule, a, b, x))
    decreases ColumnsOf(rule) - i
  {
    var x, y := KeyedOf(rule, a).value.keys, KeyedOf(rule, b).value.keys;
    if i < ColumnsOf(rule) {
      var k, l := KeyIn(rule, a, i), KeyIn(rule, b, i);
      assert x[i] == k && y[i] == l;
      assert x[i..][1..] == x[i + 1..] && y[i..][1..] == y[i + 1..];
      KeysCompare(k, l);
      KeysAntisymmetric(k, l);
      KeysCompare(l, k);
      hide CompareKeys, SameKey, KeyBefore, KeyedOf;
      if SameKey(k, l) {
        ListsCompare(rule, a, b, i + 1);
      } else if KeyBefore(k, l) {
        assert DecidesAt(rule, a, b, i);
      } else {
        NotDecided(rule, a, b, i);
      }
    } else {
      forall x: nat | x < ColumnsOf(rule) ensures !DecidesAt(rule, a, b, x) {
        KeysCompare(KeyIn(rule, a, x), KeyIn(rule, b, x));
      }
    }
  }

  lemma NotDecided(rule: Rule, a: ShardFile, b: ShardFile, i: nat)
    requires rule.BySubmatch? && GivesKeys(rule, a) && GivesKeys(rule, b) && i < ColumnsOf(rule)
    requires AgreeBefore(rule, a, b, i)
    requires !SameKey(KeyIn(rule, a, i), KeyIn(rule, b, i)) && !KeyBefore(KeyIn(rule, a, i), KeyIn(rule, b, i))
    ensures forall x: nat | x < ColumnsOf(rule) :: !DecidesAt(rule, a, b, x)
  {
    forall x: nat | x < ColumnsOf(rule) ensures !DecidesAt(rule, a, b, x) {
      KeysCompare(KeyIn(rule, a, x), KeyIn(rule, b, x));
      hide KeyBefore;
      if x > i { AgreedEarlier(rule, a, b, i, x); }
    }
  }

  lemma AgreedEarlier(rule: Rule, a: ShardFile, b: ShardFile, i: nat, x: nat)
    requires rule.BySubmatch? && GivesKeys(rule, a) && GivesKeys(rule, b) && i < x < ColumnsOf(rule)
    ensures AgreeBefore(rule, a, b, x) ==> SameKey(KeyIn(rule, a, i), KeyIn(rule, b, i))
  {
  }

  /** The comparator of two shards is that order. */
  lemma ComparatorMeans(rule: Rule, a: ShardFile, b: ShardFile)
    requires GivesKeys(rule, a) && GivesKeys(rule, b)
    ensures KeyedOf(rule, a).Some? && KeyedOf(rule, b).Some?
    ensures Less(KeyedOf(rule, a).value, KeyedOf(rule, b).value) <==> ComesBefore(rule, a, b)
  {
    StringsAreLexicographic(a.path, b.path);
    if rule.BySubmatch? {
      var x, y := KeyedOf(rule, a).value, KeyedOf(rule, b).value;
      assert x.keys[0..] == x.keys && y.keys[0..] == y.keys;
      ListsCompare(rule, a, b, 0);
      hide DecidesAt, AgreeBefore, CompareKeyLists, StringBefore;
    }
  }

  /** The list has the shards of the other one in the order the rule asks for. */
  ghost predicate SortedBy(rule: Rule, r: seq<ShardFile>, shards: seq<ShardFile>) {
    && |r| == |shards| && (forall sh :: sh in r <==> sh in shards)
    && (forall sh | sh in r :: GivesKeys(rule, sh))
    && forall i, j | 0 <= i < j < |r| :: ComesBefore(rule, r[i], r[j])
  }

  lemma SortedAsAsked(rule: Rule, shards: seq<ShardFile>)
    requires Sortable(rule, shards) && Numbered(shards) && NoColumnInterleaves(rule, shards)
    ensures SortedBy(rule, FilesOf(Sort(AllKeyed(rule, shards))), shards)
  {
    hide KeyedOf, ComesBefore, GivesKeys, Less, AllKeyed, Sort, Sortable, Numbered, NoColumnInterleaves;
    var sorted := Sort(AllKeyed(rule, shards));
    var r := FilesOf(sorted);
    SortIsCanonical(rule, shards, shards);
    SortKeepsLength(AllKeyed(rule, shards));
    SortedAreKeyed(rule, shards);
    AllGiveKeys(rule, shards);
    forall i, j | 0 <= i < j < |r| ensures ComesBefore(rule, r[i], r[j]) {
      assert r[i] in r && r[j] in r;
      ComparatorMeans(rule, r[i], r[j]);
    }
  }

  lemma SortKeepsLength(s: seq<Keyed>)
    ensures |Sort(s)| == |s|
  {
    assert |Sort(s)| == |multiset(Sort(s))| && |s| == |multiset(s)|;
  }

  lemma AllGiveKeys(rule: Rule, shards: seq<ShardFile>)
    requires Sortable(rule, shards)
    ensures forall sh | sh in shards :: GivesKeys(rule, sh)
  {
    SortableExactly(rule, shards);
  }

  lemma SortedAreKeyed(rule: Rule, shards: seq<ShardFile>)
    requires Sortable(rule, shards) && Numbered(shards)
    ensures var sorted := Sort(AllKeyed(rule, shards));
            forall i | 0 <= i < |sorted| :: KeyedOf(rule, FilesOf(sorted)[i]) == Some(sorted[i])
  {
    var items := AllKeyed(rule, shards);
    var sorted := Sort(items);
    KeyedFacts(rule, shards);
    SameElements(items, sorted);
    hide KeyedOf, AllKeyed, Sort;
    forall i | 0 <= i < |sorted| ensures KeyedOf(rule, FilesOf(sorted)[i]) == Some(sorted[i]) {
      assert sorted[i] in Elements(sorted);
      assert sorted[i] in items;
      var sh :| sh in shards && KeyedOf(rule, sh) == Some(sorted[i]);
      assert FilesOf(sorted)[i] == sh;
    }
  }

  /** Without a rule of its own a dataset is placed by ascending numbers. */
  lemma NumbersAscend(shards: seq<ShardFile>, r: seq<ShardFile>)
    requires SortedBy(ByNumber, r, shards) && Numbered(shards)
    ensures forall i, j | 0 <= i < j < |r| :: r[i].number < r[j].number
  {
    forall i, j | 0 <= i < j < |r| ensures r[i].number < r[j].number {
      assert ComesBefore(ByNumber, r[i], r[j]);
      assert r[i] in r && r[j] in r;
      if r[i].number == r[j].number {
        var x :| 0 <= x < |shards| && shards[x] == r[i];
        var y :| 0 <= y < |shards| && shards[y] == r[j];
        SamePathNotBefore(r[i].path);
      }
    }
  }

  lemma SamePathNotBefore(a: string)
    ensures !StringBefore(a, a)
  {
  }
}
