/** The in-memory placement cache over the shard table: loading it, choosing a slot, and keeping it
    equal to what loading would rebuild while rows are changed in place. */
module Placement {
  import opened Bytes
  import opened Paths
  import opened Disk
  import opened Layout
  import opened ShardTable
  import opened SlotChoice
  import opened MoveFile

  /** A DATA shard of a dataset waiting to be placed. */
  datatype Item = Item(source: Source, datasetKey: PlainName, size: nat, sum: string, src: Path)

  /** The recorded size, or the size on disk when none was recorded. */
  function ItemSize(files: Files, item: Item): nat {
    if item.size == 0 && item.src in files then |files[item.src]| else item.size
  }

  /** Where the shard goes: its dataset's key and its own base name, behind the stripe prefix. */
  function Target(cfg: Config, key: Key, item: Item): Path
    requires cfg.Ok()
  {
    Data(PartitionOf(cfg, key), key.stripe, item.datasetKey + "-" + BaseName(cfg.naming, item.src))
  }

  /** A shard is never moved onto itself: its target's base name is longer than its own. */
  lemma TargetDiffers(cfg: Config, key: Key, item: Item)
    requires cfg.Ok()
    ensures |BaseName(cfg.naming, Target(cfg, key, item))| > |BaseName(cfg.naming, item.src)|
    ensures Target(cfg, key, item) != item.src
  {
  }

  function DataRow(cfg: Config, key: Key, item: Item, size: nat): Row
    requires cfg.Ok()
  {
    Row(DATA, PartitionOf(cfg, key), Target(cfg, key, item), size, Some(item.source), Some(item.sum), 0, 0)
  }

  /** A row object. The cache's maps and lists share these objects, so changing one changes it in all. */
  class ShardRow {
    var key: Key
    var row: Row
    var stored: bool

    constructor (key: Key, row: Row, stored: bool)
      ensures this.key == key && this.row == row && this.stored == stored
    {
      this.key, this.row, this.stored := key, row, stored;
    }
  }

  function Lookup<V>(m: map<nat, V>, key: nat, zero: V): V {
    if key in m then m[key] else zero
  }

  /** A list of row objects holding every row of the table once, in whatever order. */
  ghost predicate Lists(list: seq<ShardRow>, t: Table)
    reads list
  {
    && (forall i | 0 <= i < |list| :: list[i].key in t && list[i].row == t[list[i].key] && list[i].stored)
    && (forall i, j | 0 <= i < j < |list| :: list[i].key != list[j].key)
    && (forall k | k in t :: exists i :: 0 <= i < |list| && list[i].key == k)
  }

  ghost predicate CountsSpace(used: map<nat, int>, t: Table) {
    forall p: nat :: Lookup(used, p, 0) == UsedBy(t, p)
  }

  ghost predicate CountsStripes(nextSeq: map<nat, nat>, t: Table) {
    forall g: nat, s: nat :: s < Lookup(nextSeq, g, 0) <==> Started(t, g, s)
  }

  predicate HasRow(t: Table, k: Key, d: Source) {
    k in t && t[k].kind.DATA? && t[k].source == Some(d)
  }

  ghost predicate IndexesData(index: map<Source, Key>, t: Table) {
    && (forall d | d in index :: HasRow(t, index[d], d))
    && (forall k, d | HasRow(t, k, d) :: d in index)
  }

  predicate IsPad(cfg: Config, t: Table, k: Key) {
    k in t && t[k].kind.PAD? && k.pos < cfg.k
  }

  ghost predicate ListsPads(cfg: Config, pads: seq<Key>, t: Table) {
    forall k :: k in pads <==> IsPad(cfg, t, k)
  }

  ghost predicate Distinct(keys: seq<Key>) {
    forall i, j | 0 <= i < j < |keys| :: keys[i] != keys[j]
  }

  predicate Ascending(keys: seq<Key>) {
    forall i, j | 0 <= i < j < |keys| :: Less(keys[i], keys[j])
  }

  /** What the cache holds, as values: rows, space per partition, next stripe per group, the index of
      DATA rows and the sorted list of PADs. */
  ghost predicate Rebuilt(cfg: Config, t: Table, used: map<nat, int>, nextSeq: map<nat, nat>,
                          index: map<Source, Key>, pads: seq<Key>)
  {
    && CountsSpace(used, t) && CountsStripes(nextSeq, t) && IndexesData(index, t)
    && ListsPads(cfg, pads, t) && Ascending(pads)
  }

  /** No two DATA rows have the same source. */
  ghost predicate SourcesUnique(t: Table) {
    forall k, k', d | HasRow(t, k, d) && HasRow(t, k', d) :: k == k'
  }

  lemma {:induction false} AscendingUnique(a: seq<Key>, b: seq<Key>)
    requires Ascending(a) && Ascending(b) && forall k :: k in a <==> k in b
    ensures a == b
    decreases |a|
  {
    assert a == [] || a[0] in b;
    assert b == [] || b[0] in a;
    if a != [] && b != [] {
      assert a[0] == b[0];
      forall k ensures k in a[1..] <==> k in b[1..] {
        assert k in a <==> k == a[0] || k in a[1..];
        assert k in b <==> k == b[0] || k in b[1..];
        assert a[0] !in a[1..] && b[0] !in b[1..];
      }
      AscendingUnique(a[1..], b[1..]);
    }
  }

  /** The table determines the cache: two caches over one table agree on every query. */
  lemma RebuiltUnique(cfg: Config, t: Table, used: map<nat, int>, nextSeq: map<nat, nat>, index: map<Source, Key>,
                      pads: seq<Key>, used': map<nat, int>, nextSeq': map<nat, nat>, index': map<Source, Key>,
                      pads': seq<Key>)
    requires SourcesUnique(t)
    requires Rebuilt(cfg, t, used, nextSeq, index, pads) && Rebuilt(cfg, t, used', nextSeq', index', pads')
    ensures forall p: nat :: Lookup(used, p, 0) == Lookup(used', p, 0)
    ensures forall g: nat :: Lookup(nextSeq, g, 0) == Lookup(nextSeq', g, 0)
    ensures index == index' && pads == pads'
  {
    AscendingUnique(pads, pads');
    forall g: nat ensures Lookup(nextSeq, g, 0) == Lookup(nextSeq', g, 0) {
      var n, n' := Lookup(nextSeq, g, 0), Lookup(nextSeq', g, 0);
      assert n < n' <==> Started(t, g, n);
      assert n' < n <==> Started(t, g, n');
    }
    forall d ensures d in index <==> d in index' {
      if d in index { assert HasRow(t, index[d], d); }
      if d in index' { assert HasRow(t, index'[d], d); }
    }
    forall d | d in index ensures index[d] == index'[d] {
      assert HasRow(t, index[d], d) && HasRow(t, index'[d], d);
    }
  }

  // ---- one row more ------------------------------------------------------------------------

  function SpaceWith(used: map<nat, int>, row: Row): map<nat, int> {
    used[row.partition := Lookup(used, row.partition, 0) + row.size]
  }

  function StripesWith(nextSeq: map<nat, nat>, key: Key): map<nat, nat> {
    if key.stripe >= Lookup(nextSeq, key.group, 0) then nextSeq[key.group := key.stripe + 1] else nextSeq
  }

  lemma CountsSpaceWith(used: map<nat, int>, t: Table, key: Key, row: Row)
    requires CountsSpace(used, t)
    requires key in t ==> t[key].size == 0
    ensures CountsSpace(SpaceWith(used, row), t[key := row])
  {
    forall p: nat ensures Lookup(SpaceWith(used, row), p, 0) == UsedBy(t[key := row], p) {
      if key in t {
        UsedReplaced(t, key, row, p);
      } else {
        UsedWith(t, key, row, p);
      }
    }
  }

  lemma CountsStripesWith(nextSeq: map<nat, nat>, t: Table, t': Table, key: Key)
    requires CountsStripes(nextSeq, t) && key in t'
    requires forall k | k in t' :: k in t || k == key
    requires forall k | k in t && k !in t' :: InStripe(k, key.group, key.stripe)
    ensures CountsStripes(StripesWith(nextSeq, key), t')
  {
    forall g: nat, s: nat
      ensures Started(t', g, s) <==> Started(t, g, s) || (g == key.group && s <= key.stripe)
    {
      if Started(t, g, s) {
        var k :| k in t && k.group == g && k.stripe >= s;
        assert k in t' || key in t';
      }
      if g == key.group && s <= key.stripe {
        assert key in t';
      }
      if Started(t', g, s) {
        var k :| k in t' && k.group == g && k.stripe >= s;
      }
    }
    StartedDown(t, key.group);
  }

  lemma ListsPadsWith(cfg: Config, pads: seq<Key>, t: Table, key: Key, row: Row)
    requires ListsPads(cfg, pads, t) && key !in t
    ensures ListsPads(cfg, if row.kind.PAD? && key.pos < cfg.k then pads + [key] else pads, t[key := row])
  {
  }

  lemma IndexesDataWith(index: map<Source, Key>, t: Table, key: Key, row: Row)
    requires IndexesData(index, t) && !IsData(t, key)
    ensures IndexesData(if row.kind.DATA? && row.source.Some? then index[row.source.value := key] else index,
                        t[key := row])
  {
    var t' := t[key := row];
    forall k, d | HasRow(t', k, d) ensures d in index || (row.kind.DATA? && row.source == Some(d)) {
      assert k == key || HasRow(t, k, d);
    }
    forall d | d in index ensures HasRow(t', index[d], d) {
      assert HasRow(t, index[d], d);
    }
  }

  lemma CountsSpaceWithout(used: map<nat, int>, t: Table, key: Key)
    requires CountsSpace(used, t) && key in t
    ensures var part := t[key].partition;
            CountsSpace(used[part := Lookup(used, part, 0) - t[key].size], t - {key})
  {
    forall p: nat ensures UsedBy(t, p) == Weight(t[key], p) + UsedBy(t - {key}, p) {
      UsedWithout(t, key, p);
    }
  }

  predicate IsData(t: Table, key: Key) {
    key in t && t[key].kind.DATA?
  }

  method SortPads(list: seq<ShardRow>) returns (sorted: seq<ShardRow>)
    requires forall i, j | 0 <= i < j < |list| :: list[i].key != list[j].key
    ensures forall i, j | 0 <= i < j < |sorted| :: Less(sorted[i].key, sorted[j].key)
    ensures forall o :: o in sorted <==> o in list
  {
    sorted := [];
    for i := 0 to |list|
      invariant forall i, j | 0 <= i < j < |sorted| :: Less(sorted[i].key, sorted[j].key)
      invariant forall o :: o in sorted <==> o in list[..i]
    {
      var x := list[i];
      assert list[..i + 1] == list[..i] + [x];
      var at := 0;
      while at < |sorted| && Less(sorted[at].key, x.key)
        invariant 0 <= at <= |sorted|
        invariant forall j | 0 <= j < at :: Less(sorted[j].key, x.key)
      {
        at := at + 1;
      }
      if at < |sorted| {
        assert sorted[at] in list[..i];
        var j :| 0 <= j < i && list[j] == sorted[at];
        assert Less(x.key, sorted[at].key);
      }
      var longer := sorted[..at] + [x] + sorted[at..];
      assert forall o :: o in longer <==> o in sorted || o == x by {
        assert sorted == sorted[..at] + sorted[at..];
      }
      sorted := longer;
    }
    assert list[..|list|] == list;
  }

  /** The table part holds exactly the first n listed rows of t. */
  ghost predicate Prefix(list: seq<ShardRow>, n: nat, part: Table, t: Table)
    reads list
    requires n <= |list|
  {
    && (forall i | 0 <= i < n :: list[i].key in part)
    && (forall i | n <= i < |list| :: list[i].key !in part)
    && (forall k | k in part :: k in t && part[k] == t[k])
  }

  lemma PrefixMore(list: seq<ShardRow>, n: nat, part: Table, t: Table)
    requires Lists(list, t) && n < |list| && Prefix(list, n, part, t)
    ensures Prefix(list, n + 1, part[list[n].key := list[n].row], t)
    ensures list[n].key !in part && list[n].stored && list[n] !in list[..n]
  {
  }

  lemma PrefixWhole(list: seq<ShardRow>, part: Table, t: Table)
    requires Lists(list, t) && Prefix(list, |list|, part, t)
    ensures part == t
  {
  }

  ghost predicate LinkedData(rows: map<Key, ShardRow>, dataRows: map<Source, ShardRow>, index: map<Source, Key>) {
    dataRows.Keys == index.Keys && forall d | d in index :: index[d] in rows && dataRows[d] == rows[index[d]]
  }

  ghost predicate LinkedPads(rows: map<Key, ShardRow>, padRows: seq<ShardRow>, pads: seq<Key>) {
    |padRows| == |pads| && forall i | 0 <= i < |pads| :: pads[i] in rows && padRows[i] == rows[pads[i]]
  }

  /** Between choosing a slot and storing the row: the stripe's EC rows are gone from the cache, the
      PAD taken is off the list, and the object o already holds the new row. */
  ghost predicate PendingIndexes(cfg: Config, t: Table, stripes: Table, key: Key, used: map<nat, int>,
                                 nextSeq: map<nat, nat>, index: map<Source, Key>, pads: seq<Key>)
  {
    && CountsSpace(used, t) && CountsStripes(nextSeq, stripes) && IndexesData(index, t)
    && Ascending(pads) && (forall k :: k in pads <==> IsPad(cfg, t, k) && k != key)
    && (key in t ==> t[key].kind.PAD? && t[key].size == 0)
    && (forall k | k in t :: k in stripes)
    && (forall k | k in stripes && k !in t :: InStripe(k, key.group, key.stripe))
  }

  /** Storing the row completes the indexes. */
  lemma CommitRebuilds(cfg: Config, t: Table, stripes: Table, key: Key, row: Row, used: map<nat, int>,
                       nextSeq: map<nat, nat>, index: map<Source, Key>, pads: seq<Key>)
    requires PendingIndexes(cfg, t, stripes, key, used, nextSeq, index, pads)
    requires row.kind.DATA? && row.source.Some?
    ensures Rebuilt(cfg, t[key := row], SpaceWith(used, row), StripesWith(nextSeq, key),
                    index[row.source.value := key], pads)
  {
    CountsSpaceWith(used, t, key, row);
    CountsStripesWith(nextSeq, stripes, t[key := row], key);
    IndexesDataWith(index, t, key, row);
  }

  /** PAD rows have size 0, so a PAD's space can be counted again as its shard's. */
  ghost predicate PadsEmpty(t: Table) {
    forall k | k in t && t[k].kind.PAD? :: t[k].size == 0
  }

  /** What a placement does to the files and to the chosen row. */
  ghost predicate Placed(cfg: Config, t: Table, before: Files, after: Files, item: Item, mover: Mover, o: ShardRow,
                         invalidated: bool)
    reads o
  {
    var size := ItemSize(before, item);
    && cfg.Ok()
    && Choice(cfg, t, size).Some?
    && o.key == Choice(cfg, t, size).value.key
    && o.row == DataRow(cfg, o.key, item, size)
    && (o.stored <==> o.key in t)
    && Moved(mover, before, item.src, Target(cfg, o.key, item), item.sum) == Some(after)
    && (invalidated <==> HasEC(t, o.key.group, o.key.stripe))
  }

  /** A placement fails exactly when no slot is found or the file cannot be moved to it. */
  ghost predicate Unplaceable(cfg: Config, t: Table, files: Files, item: Item, mover: Mover)
    requires cfg.Ok()
  {
    var c := Choice(cfg, t, ItemSize(files, item));
    c.None? || Moved(mover, files, item.src, Target(cfg, c.value.key, item), item.sum).None?
  }

  class PlacementState {
    const cfg: Config
    var used: map<nat, int>
    var rows: map<Key, ShardRow>
    var nextSeq: map<nat, nat>
    var dataRows: map<Source, ShardRow>
    var padRows: seq<ShardRow>
    var parityDegraded: bool

    // the same content without sharing
    ghost var table: Table
    ghost var index: map<Source, Key>
    ghost var pads: seq<Key>
    ghost var objs: set<ShardRow>

    /** The maps and the list share the row objects, and the objects know their place. */
    ghost predicate Linked()
      reads this, objs
    {
      && cfg.Ok()
      && rows.Keys == table.Keys
      && (forall k | k in rows :: rows[k] in objs && rows[k].key == k)
      && LinkedData(rows, dataRows, index)
      && LinkedPads(rows, padRows, pads)
    }

    /** Every object other than the given one holds its stored row. */
    ghost predicate UpToDate(except: ShardRow?)
      reads this, objs
      requires Linked()
    {
      forall k | k in rows && rows[k] != except :: rows[k].row == table[k] && rows[k].stored
    }

    /** The cache is what loading the table rebuilds. */
    ghost predicate Mirrors(t: Table)
      reads this, objs
    {
      Linked() && UpToDate(null) && table == t && Rebuilt(cfg, t, used, nextSeq, index, pads)
    }

    constructor (cfg: Config)
      requires cfg.Ok()
      ensures this.cfg == cfg && Mirrors(map[]) && objs == {} && !parityDegraded
    {
      this.cfg := cfg;
      used, rows, nextSeq, dataRows, padRows, parityDegraded := map[], map[], map[], map[], [], false;
      table, index, pads, objs := map[], map[], [], {};
    }

    /** The cache over the rows loaded so far, before the PAD list is sorted. */
    ghost predicate Loaded(t: Table)
      reads this, objs
    {
      && Linked() && UpToDate(null) && table == t
      && CountsSpace(used, t) && CountsStripes(nextSeq, t) && IndexesData(index, t) && ListsPads(cfg, pads, t)
      && Distinct(pads)
    }

    lemma StartEmpty()
      requires Mirrors(map[])
      ensures Loaded(map[]) && table == map[]
    {
    }

    method Load(list: seq<ShardRow>, ghost t: Table)
      requires Mirrors(map[]) && objs == {} && Lists(list, t)
      modifies this
      ensures Mirrors(t)
      ensures forall o | o in objs :: o in list
      ensures parityDegraded == old(parityDegraded)
    {
      hide Loaded, Mirrors, Lists;
      StartEmpty();
      for i := 0 to |list|
        invariant parityDegraded == old(parityDegraded)
        invariant Prefix(list, i, table, t)
        invariant forall o | o in objs :: o in list[..i]
        invariant Loaded(table)
      {
        PrefixMore(list, i, table, t);
        assert list[..i + 1] == list[..i] + [list[i]];
        hide Prefix;
        LoadRow(list[i]);
      }
      PrefixWhole(list, table, t);
      SortPadRows();
    }

    method LoadRow(o: ShardRow)
      requires Loaded(table) && o.key !in table && o.stored && o !in objs
      modifies this
      ensures Loaded(table)
      ensures table == old(table)[o.key := o.row] && objs == old(objs) + {o}
      ensures parityDegraded == old(parityDegraded)
    {
      ListsPadsWith(cfg, pads, table, o.key, o.row);
      IndexesDataWith(index, table, o.key, o.row);
      assert Distinct(pads + [o.key]) by {
        assert o.key !in pads;
      }
      hide Distinct, CountsSpace, CountsStripes, ListsPads, IndexesData;
      AddRow(o);
      if o.row.kind.PAD? && o.key.pos < cfg.k {
        AddPad(o);
      }
      if o.row.kind.DATA? && o.row.source.Some? {
        AddData(o);
      }
    }

    method AddRow(o: ShardRow)
      requires Linked() && UpToDate(null) && CountsSpace(used, table) && CountsStripes(nextSeq, table)
      requires o.key !in table && o.stored && o !in objs
      modifies `rows, `table, `used, `nextSeq, `objs
      ensures Linked() && UpToDate(null) && CountsSpace(used, table) && CountsStripes(nextSeq, table)
      ensures table == old(table)[o.key := o.row] && rows == old(rows)[o.key := o] && objs == old(objs) + {o}
    {
      CountsSpaceWith(used, table, o.key, o.row);
      CountsStripesWith(nextSeq, table, table[o.key := o.row], o.key);
      hide CountsSpace, CountsStripes, SpaceWith, StripesWith;
      used := SpaceWith(used, o.row);
      nextSeq := StripesWith(nextSeq, o.key);
      CommitRow(o);
    }

    method AddPad(o: ShardRow)
      requires Linked() && UpToDate(null) && o.key in rows && rows[o.key] == o
      modifies `padRows, `pads
      ensures Linked() && UpToDate(null) && pads == old(pads) + [o.key]
    {
      padRows, pads := padRows + [o], pads + [o.key];
    }

    method AddData(o: ShardRow)
      requires Linked() && UpToDate(null) && o.key in rows && rows[o.key] == o
      requires o.row.source.Some?
      modifies `dataRows, `index
      ensures Linked() && UpToDate(null) && index == old(index)[o.row.source.value := o.key]
    {
      dataRows := dataRows[o.row.source.value := o];
      index := index[o.row.source.value := o.key];
    }

    method SortPadRows()
      requires Loaded(table)
      modifies this
      ensures Mirrors(table)
      ensures table == old(table) && objs == old(objs) && parityDegraded == old(parityDegraded)
    {
      ghost var unsorted, keys := padRows, pads;
      var sorted := SortPads(padRows);
      padRows := sorted;
      pads := seq(|sorted|, i requires 0 <= i < |sorted| reads sorted => sorted[i].key);
      forall i | 0 <= i < |pads| ensures pads[i] in keys && padRows[i] == rows[pads[i]] {
        assert padRows[i] in unsorted;
      }
      forall j | 0 <= j < |keys| ensures keys[j] in pads {
        assert unsorted[j] in padRows;
        var i :| 0 <= i < |padRows| && padRows[i] == unsorted[j];
        assert pads[i] == keys[j];
      }
    }

    method HasData(source: Source, ghost t: Table) returns (has: bool)
      requires Mirrors(t)
      ensures has <==> HasSource(t, source)
    {
      has := source in dataRows;
      if has {
        assert HasRow(t, index[source], source);
      }
      if k :| k in t && t[k].kind.DATA? && t[k].source == Some(source) {
        assert HasRow(t, k, source);
      }
    }

    predicate Room(part: nat, size: nat)
      reads this
    {
      cfg.capacity - Lookup(used, part, 0) >= size
    }

    lemma RoomIsFit(t: Table, size: nat, key: Key)
      requires cfg.Ok() && CountsSpace(used, t)
      ensures Room(PartitionOf(cfg, key), size) <==> Fits(cfg, t, size, key)
    {
      assert Lookup(used, PartitionOf(cfg, key), 0) == UsedBy(t, PartitionOf(cfg, key));
    }

    /** The first hole of a started stripe with room for the shard. */
    method FindHole(size: nat, ghost t: Table) returns (c: Option<Key>)
      requires Mirrors(t)
      ensures c.Some? ==> FirstHole(cfg, t, size, c.value)
      ensures c.None? ==> forall k :: !HoleFits(cfg, t, size, k)
    {
      for g := 0 to cfg.groups
        invariant forall k | Less(k, Key(g, 0, 0)) :: !HoleFits(cfg, t, size, k)
      {
        var next := Lookup(nextSeq, g, 0);
        for s := 0 to next
          invariant forall k | Less(k, Key(g, s, 0)) :: !HoleFits(cfg, t, size, k)
        {
          for p := 0 to cfg.k
            invariant forall k | Less(k, Key(g, s, p)) :: !HoleFits(cfg, t, size, k)
          {
            var key := Key(g, s, p);
            RoomIsFit(t, size, key);
            if key !in rows && Room(PartitionOf(cfg, key), size) {
              return Some(key);
            }
            assert !HoleFits(cfg, t, size, key);
            assert forall k | Less(k, Key(g, s, p + 1)) :: Less(k, key) || k == key;
          }
          assert forall k | Less(k, Key(g, s + 1, 0)) :: Less(k, Key(g, s, cfg.k)) || k.pos >= cfg.k;
        }
        assert !Started(t, g, next);
        StartedDown(t, g);
        assert forall k | Less(k, Key(g + 1, 0, 0)) :: Less(k, Key(g, next, 0)) || (k.group == g && k.stripe >= next);
      }
      return None;
    }

    /** Position 0 of the next stripe in the first group whose k data partitions all have room. */
    method FindStripe(size: nat, ghost t: Table) returns (c: Option<Key>)
      requires Mirrors(t)
      ensures c.Some? ==> FirstOpen(cfg, t, size, c.value)
      ensures c.None? ==> forall k :: !Opens(cfg, t, size, k)
    {
      for g := 0 to cfg.groups
        invariant forall k: Key | k.group < g :: !Opens(cfg, t, size, k)
      {
        var s := Lookup(nextSeq, g, 0);
        assert Next(t, g, s);
        var p := 0;
        while p < cfg.k
          invariant p <= cfg.k
          invariant forall q: nat | q < p :: Fits(cfg, t, size, Key(g, s, q))
          invariant p < cfg.k
        {
          RoomIsFit(t, size, Key(g, s, p));
          if !Room(PartitionOf(cfg, Key(g, s, p)), size) {
            break;
          }
          if p == cfg.k - 1 {
            return Some(Key(g, s, 0));
          }
          p := p + 1;
        }
        forall k: Key | k.group == g ensures !Opens(cfg, t, size, k) {
          if Opens(cfg, t, size, k) {
            NextUnique(t, g, s, k.stripe);
          }
        }
      }
      return None;
    }

    method FindNewSlot(size: nat, ghost t: Table) returns (c: Option<Key>)
      requires Mirrors(t)
      ensures ChoosesNew(cfg, t, size, c)
    {
      c := FindHole(size, t);
      if c.None? {
        c := FindStripe(size, t);
      }
    }

    /** The first PAD of the sorted list whose partition has room. */
    method FindPad(size: nat, ghost t: Table) returns (c: Option<nat>)
      requires Mirrors(t)
      ensures c.Some? ==> c.value < |padRows| && FirstPad(cfg, t, size, pads[c.value])
      ensures c.None? ==> forall k :: !PadFits(cfg, t, size, k)
    {
      if cfg.m > 0 {
        for i := 0 to |padRows|
          invariant forall j | 0 <= j < i :: !Fits(cfg, t, size, pads[j])
        {
          var key := padRows[i].key;
          assert key == pads[i] && pads[i] in pads;
          RoomIsFit(t, size, key);
          if key.pos < cfg.k && Room(PartitionOf(cfg, key), size) {
            forall k | k in pads && Less(k, key) ensures !Fits(cfg, t, size, k) {
              var j :| 0 <= j < |pads| && pads[j] == k;
              assert j < i;
            }
            assert forall k | PadFits(cfg, t, size, k) :: IsPad(cfg, t, k);
            return Some(i);
          }
        }
        assert forall k | PadFits(cfg, t, size, k) :: IsPad(cfg, t, k);
        assert forall k | k in pads :: !Fits(cfg, t, size, k);
      }
      return None;
    }

    /** Removes the EC rows of a stripe from the cache. */
    method DropEC(group: nat, stripe: nat) returns (dropped: bool)
      requires Linked() && UpToDate(null) && CountsSpace(used, table)
      requires IndexesData(index, table) && forall k | k in pads :: IsPad(cfg, table, k)
      modifies `rows, `table, `used
      ensures Linked() && UpToDate(null) && CountsSpace(used, table)
      ensures table == WithoutEC(old(table), group, stripe)
      ensures forall k | k in rows :: k in old(rows) && rows[k] == old(rows)[k]
      ensures dropped <==> HasEC(old(table), group, stripe)
    {
      dropped := false;
      var todo := rows.Keys;
      while todo != {}
        invariant Linked() && UpToDate(null) && CountsSpace(used, table)
        invariant todo <= rows.Keys
        invariant forall k | k in table :: k in old(table) && table[k] == old(table)[k]
        invariant forall k | k in old(table) :: k in table || (old(table)[k].kind.EC? && InStripe(k, group, stripe))
        invariant forall k | k in table && k !in todo :: !(table[k].kind.EC? && InStripe(k, group, stripe))
        invariant forall k | k in rows :: k in old(rows) && rows[k] == old(rows)[k]
        invariant dropped <==> exists k :: k in old(table) && k !in table
      {
        var key :| key in todo;
        todo := todo - {key};
        if rows[key].row.kind.EC? && InStripe(key, group, stripe) {
          DropRow(key);
          dropped := true;
        }
      }
      assert table == WithoutEC(old(table), group, stripe);
    }

    method DropRow(key: Key)
      requires Linked() && UpToDate(null) && CountsSpace(used, table)
      requires key in rows && (forall d | d in index :: index[d] != key) && key !in pads
      modifies `rows, `table, `used
      ensures Linked() && UpToDate(null) && CountsSpace(used, table)
      ensures table == old(table) - {key} && rows == old(rows) - {key}
    {
      CountsSpaceWithout(used, table, key);
      hide CountsSpace;
      var row := rows[key].row;
      used := used[row.partition := Lookup(used, row.partition, 0) - row.size];
      rows, table := rows - {key}, table - {key};
    }

    /** A slot has been picked: its PAD, if it was one, is off the list. */
    ghost predicate Picked(t: Table, stripes: Table, key: Key)
      reads this, objs
    {
      && Linked() && UpToDate(null) && table == t
      && PendingIndexes(cfg, t, stripes, key, used, nextSeq, index, pads)
    }

    /** The picked object holds its new row, which is not stored yet. */
    ghost predicate Pending(t: Table, stripes: Table, o: ShardRow)
      reads this, objs, o
    {
      && Linked() && UpToDate(o) && table == t
      && PendingIndexes(cfg, t, stripes, o.key, used, nextSeq, index, pads)
      && (if o.key in rows then rows[o.key] == o else o !in objs)
    }

    method TakePad(i: nat) returns (o: ShardRow)
      requires Mirrors(table) && PadsEmpty(table) && i < |padRows|
      modifies `padRows, `pads
      ensures o.key == old(pads[i]) && o.key in rows && rows[o.key] == o
      ensures Picked(table, table, o.key)
    {
      o := padRows[i];
      ghost var key, all := pads[i], pads;
      assert key in pads;
      padRows, pads := padRows[..i] + padRows[i + 1..], pads[..i] + pads[i + 1..];
      assert Ascending(pads);
      forall k ensures k in pads <==> k in all && k != key {
        if k in all && k != key {
          var j :| 0 <= j < |all| && all[j] == k;
          assert pads[if j < i then j else j - 1] == k;
        }
      }
    }

    lemma NewKeyPicked(t: Table, key: Key)
      requires Mirrors(t) && key !in t
      ensures Picked(t, t, key)
    {
    }

    /** Filling a PAD or a hole of a started stripe makes its parity stale: drop its EC rows. */
    method Invalidate(key: Key, usePad: bool, ghost t: Table) returns (invalidated: bool)
      requires Picked(t, t, key) && (usePad ==> key in t)
      modifies `rows, `table, `used, `parityDegraded
      ensures Picked(WithoutEC(t, key.group, key.stripe), t, key)
      ensures invalidated <==> HasEC(t, key.group, key.stripe)
      ensures rows.Keys <= t.Keys && (key in t ==> key in rows)
      ensures forall k | k in rows :: k in old(rows) && rows[k] == old(rows)[k]
      ensures parityDegraded <==> old(parityDegraded) || invalidated
    {
      invalidated := false;
      if usePad || key.stripe < Lookup(nextSeq, key.group, 0) {
        invalidated := DropEC(key.group, key.stripe);
        IndexesSurvive(t, key);
        if invalidated {
          parityDegraded := true;
        }
      } else {
        assert !Started(t, key.group, key.stripe);
        assert WithoutEC(t, key.group, key.stripe) == t;
      }
    }

    lemma IndexesSurvive(t: Table, key: Key)
      requires IndexesData(index, t) && (forall k :: k in pads <==> IsPad(cfg, t, k) && k != key)
      ensures var t' := WithoutEC(t, key.group, key.stripe);
              IndexesData(index, t') && forall k :: k in pads <==> IsPad(cfg, t', k) && k != key
    {
      var t' := WithoutEC(t, key.group, key.stripe);
      forall d | d in index ensures HasRow(t', index[d], d) {
        assert HasRow(t, index[d], d);
      }
      forall k, d | HasRow(t', k, d) ensures d in index {
        assert HasRow(t, k, d);
      }
      forall k ensures IsPad(cfg, t', k) <==> IsPad(cfg, t, k) {
      }
    }

    /** The row object for the chosen slot: the PAD's own object, or a new one. */
    method PickSlot(size: nat, ghost t: Table) returns (o: ShardRow?)
      requires Mirrors(t) && PadsEmpty(t)
      modifies `padRows, `pads
      ensures o == null <==> Choice(cfg, t, size).None?
      ensures o != null ==>
                && o.key == Choice(cfg, t, size).value.key
                && Picked(t, t, o.key)
                && (o.stored <==> o.key in t)
                && (if o.key in t then o.key in rows && rows[o.key] == o && o in objs else fresh(o) && o !in objs)
    {
      var pad := FindPad(size, t);
      if pad.Some? {
        ChoiceUnique(cfg, t, size, Choice(cfg, t, size), Some(Slot(pads[pad.value], true)));
        o := TakePad(pad.value);
      } else {
        var c := FindNewSlot(size, t);
        ChoiceUnique(cfg, t, size, Choice(cfg, t, size), if c.Some? then Some(Slot(c.value, false)) else None);
        if c.None? { return null; }
        ChosenFits(cfg, t, size);
        NewKeyPicked(t, c.value);
        o := new ShardRow(c.value, Row(DATA, 0, Outside(""), 0, None, None, 0, 0), false);
      }
    }

    method FillIn(o: ShardRow, row: Row, ghost t: Table, ghost stripes: Table)
      requires Picked(t, stripes, o.key)
      requires if o.key in rows then rows[o.key] == o else o !in objs
      modifies o`row
      ensures o.row == row && Pending(t, stripes, o)
    {
      hide PendingIndexes, LinkedData, LinkedPads;
      o.row := row;
    }

    /** Chooses a slot, drops the parity rows this makes stale, moves the file and fills in the row. */
    method Place(item: Item, disk: Disk, mover: Mover, ghost t: Table) returns (r: Result<(ShardRow, bool)>)
      requires Mirrors(t) && PadsEmpty(t)
      modifies this, disk, objs
      ensures r.Failure? <==> Unplaceable(cfg, t, old(disk.files), item, mover)
      ensures r.Failure? ==> disk.files == old(disk.files)
      ensures r.Success? ==>
                && Placed(cfg, t, old(disk.files), disk.files, item, mover, r.value.0, r.value.1)
                && Pending(WithoutEC(t, r.value.0.key.group, r.value.0.key.stripe), t, r.value.0)
                && (r.value.0 in objs || fresh(r.value.0))
      ensures objs == old(objs)
      ensures r.Success? ==> (parityDegraded <==> old(parityDegraded) || r.value.1)
    {
      var size := item.size;
      if size == 0 && item.src in disk.files {
        size := |disk.files[item.src]|;
      }
      assert cfg.Ok();
      var o := PickSlot(size, t);
      hide Mirrors, Picked, Pending, Moved, WithoutEC, HasEC, Choice, Target, DataRow;
      if o == null { return Failure("no capacity for shard"); }
      r := PlaceAt(o, size, item, disk, mover, t);
    }

    /** The file and row steps of a placement, once the slot is picked. */
    method PlaceAt(o: ShardRow, size: nat, item: Item, disk: Disk, mover: Mover, ghost t: Table)
      returns (r: Result<(ShardRow, bool)>)
      requires Picked(t, t, o.key) && (o.stored <==> o.key in t)
      requires if o.key in t then o.key in rows && rows[o.key] == o else o !in objs
      modifies `rows, `table, `used, `parityDegraded, disk, o`row
      ensures var moved := Moved(mover, old(disk.files), item.src, Target(cfg, o.key, item), item.sum);
              && (r.Failure? <==> moved.None?)
              && disk.files == if moved.Some? then moved.value else old(disk.files)
      ensures r.Success? ==>
                && r.value == (o, HasEC(t, o.key.group, o.key.stripe))
                && o.row == DataRow(cfg, o.key, item, size)
                && Pending(WithoutEC(t, o.key.group, o.key.stripe), t, o)
                && (parityDegraded <==> old(parityDegraded) || r.value.1)
    {
      assert cfg.Ok();
      hide Mirrors, Picked, Pending, Moved, WithoutEC, HasEC, Choice, Target, DataRow;
      var invalidated := Invalidate(o.key, o.stored, t);
      var ok := Move(mover, disk, item.src, Target(cfg, o.key, item), item.sum);
      if !ok { return Failure("move shard"); }
      FillIn(o, DataRow(cfg, o.key, item, size), WithoutEC(t, o.key.group, o.key.stripe), t);
      return Success((o, invalidated));
    }

    /** An inserted row has an id from now on. */
    method MarkStored(o: ShardRow, ghost t: Table, ghost stripes: Table)
      requires Pending(t, stripes, o)
      modifies o`stored
      ensures o.stored && Pending(t, stripes, o)
    {
      hide PendingIndexes, LinkedData, LinkedPads;
      o.stored := true;
    }

    /** Once the row is stored, the cache takes it in. */
    method Commit(o: ShardRow, ghost t: Table, ghost stripes: Table)
      requires Pending(t, stripes, o) && o.stored && o.row.kind.DATA? && o.row.source.Some?
      modifies this
      ensures Mirrors(t[o.key := o.row])
      ensures objs == old(objs) + {o} && parityDegraded == old(parityDegraded)
    {
      CommitRebuilds(cfg, t, stripes, o.key, o.row, used, nextSeq, index, pads);
      hide Rebuilt, PendingIndexes, SpaceWith, StripesWith;
      nextSeq := StripesWith(nextSeq, o.key);
      used := SpaceWith(used, o.row);
      CommitRow(o);
      AddData(o);
    }

    method CommitRow(o: ShardRow)
      requires Linked() && UpToDate(o) && o.stored
      requires if o.key in rows then rows[o.key] == o else o !in objs
      modifies `rows, `table, `objs
      ensures Linked() && UpToDate(null) && rows == old(rows)[o.key := o]
      ensures table == old(table)[o.key := o.row] && objs == old(objs) + {o}
    {
      rows, table, objs := rows[o.key := o], table[o.key := o.row], objs + {o};
    }
  }
}
