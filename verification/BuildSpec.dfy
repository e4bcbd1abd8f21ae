/** What build-data computes: the table and the files after placing a list of shards, and what every
    placement keeps. */
module BuildSpec {
  import opened Disk
  import opened Layout
  import opened ShardTable
  import opened SlotChoice
  import opened MoveFile
  import opened Placement

  datatype World = World(t: Table, fs: Files)

  datatype Outcome = Outcome(w: World, ok: bool)

  /** A row is where its key says, with the file name of its kind. */
  predicate RowPlaced(cfg: Config, key: Key, row: Row)
    requires cfg.Ok()
  {
    && key.pos < cfg.Total()
    && row.partition == PartitionOf(cfg, key)
    && (row.kind.EC? <==> key.pos >= cfg.k)
    && (row.kind.PAD? ==> row.size == 0 && cfg.m > 0)
    && !row.path.Outside? && row.path.part == row.partition && row.path.stripe == key.stripe
    && match row.kind
       case DATA => row.path.Data? && row.source.Some?
       case EC => row.path.Parity? && row.source.None?
       case PAD => row.path.Pad? && row.source.None?
  }

  /** Every row is in its place and sources are unique. A stripe in the table has its first shard, and
      every stripe but the last of a group is full of DATA. */
  ghost predicate WellPlaced(cfg: Config, t: Table)
    requires cfg.Ok()
  {
    && (forall k | k in t :: RowPlaced(cfg, k, t[k]))
    && SourcesUnique(t)
    && (forall k | k in t :: IsData(t, Key(k.group, k.stripe, 0)))
    && (forall k, key: Key | k in t && Before(key, k) && key.pos < cfg.k :: IsData(t, key))
  }

  /** Same group, earlier stripe. */
  predicate Before(key: Key, k: Key) {
    key.group == k.group && key.stripe < k.stripe
  }

  /** Rows in their places never clash on path, on (partition, stripe), or on (group, stripe, pos). */
  lemma PlacedRowsDiffer(cfg: Config, k: Key, r: Row, key: Key, row: Row)
    requires cfg.Ok() && RowPlaced(cfg, k, r) && RowPlaced(cfg, key, row) && k != key
    ensures r.path != row.path
    ensures !(r.partition == row.partition && k.stripe == key.stripe)
  {
    if k.stripe == key.stripe && r.partition == row.partition {
      PartitionInjective(cfg, k.group, k.pos, key.group, key.pos, k.stripe);
    }
  }

  /** The table after placing a shard in a slot: stale parity rows out, the DATA row in. */
  function Filled(cfg: Config, t: Table, key: Key, item: Item, size: nat): Table
    requires cfg.Ok()
  {
    WithoutEC(t, key.group, key.stripe)[key := DataRow(cfg, key, item, size)]
  }

  /** One iteration of the dataset loop. A shard that is already placed is skipped. */
  ghost function Step(cfg: Config, mover: Mover, w: World, item: Item): Outcome
    requires cfg.Ok()
  {
    if HasSource(w.t, item.source) then Outcome(w, true)
    else
      var size := ItemSize(w.fs, item);
      var c := Choice(cfg, w.t, size);
      if c.None? then Outcome(w, false)
      else
        var key := c.value.key;
        var moved := Moved(mover, w.fs, item.src, Target(cfg, key, item), item.sum);
        if moved.None? then Outcome(w, false)
        else Outcome(World(Filled(cfg, w.t, key, item, size), moved.value), true)
  }

  /** The loop over a list of shards stops at the first failure. */
  ghost function Build(cfg: Config, mover: Mover, w: World, items: seq<Item>): Outcome
    requires cfg.Ok()
  {
    if items == [] then Outcome(w, true)
    else
      var before := Build(cfg, mover, w, items[..|items| - 1]);
      if before.ok then Step(cfg, mover, before.w, items[|items| - 1]) else before
  }

  /** The first shard that cannot be placed ends the run; those before it have been placed. */
  lemma {:induction false} StopsAtFailure(cfg: Config, mover: Mover, w: World, items: seq<Item>) returns (n: nat)
    requires cfg.Ok() && !Build(cfg, mover, w, items).ok
    ensures n < |items|
    ensures var out := Build(cfg, mover, w, items);
            Build(cfg, mover, w, items[..n]) == Outcome(out.w, true) && !Step(cfg, mover, out.w, items[n]).ok
  {
    hide Step;
    var last := |items| - 1;
    if Build(cfg, mover, w, items[..last]).ok {
      n := last;
      FailureChangesNothing(cfg, mover, Build(cfg, mover, w, items[..last]).w, items[n]);
    } else {
      n := StopsAtFailure(cfg, mover, w, items[..last]);
      assert items[..last][..n] == items[..n];
    }
  }

  lemma FailureChangesNothing(cfg: Config, mover: Mover, w: World, item: Item)
    requires cfg.Ok()
    ensures !Step(cfg, mover, w, item).ok ==> Step(cfg, mover, w, item).w == w
  {
  }

  /** Placing the shard makes parity rows of its stripe stale. */
  ghost predicate Invalidates(cfg: Config, mover: Mover, w: World, item: Item)
    requires cfg.Ok()
  {
    && !HasSource(w.t, item.source) && Step(cfg, mover, w, item).ok
    && var key := Choice(cfg, w.t, ItemSize(w.fs, item)).value.key; HasEC(w.t, key.group, key.stripe)
  }

  /** Some placement of the run makes parity stale. */
  ghost predicate Degrades(cfg: Config, mover: Mover, w: World, items: seq<Item>)
    requires cfg.Ok()
  {
    items != [] &&
    var init := items[..|items| - 1];
    var before := Build(cfg, mover, w, init);
    Degrades(cfg, mover, w, init) || (before.ok && Invalidates(cfg, mover, before.w, items[|items| - 1]))
  }

  /** How many shards of the list are placed. */
  ghost function Placements(cfg: Config, mover: Mover, w: World, items: seq<Item>): nat
    requires cfg.Ok()
  {
    if items == [] then 0
    else
      var init, last := items[..|items| - 1], items[|items| - 1];
      var before := Build(cfg, mover, w, init);
      Placements(cfg, mover, w, init)
      + if before.ok && !HasSource(before.w.t, last.source) && Step(cfg, mover, before.w, last).ok then 1 else 0
  }

  function DataKeys(t: Table): set<Key> {
    set k | k in t && t[k].kind.DATA?
  }

  lemma StepAddsRow(cfg: Config, mover: Mover, w: World, item: Item)
    requires cfg.Ok()
    ensures var out := Step(cfg, mover, w, item);
            && |DataKeys(out.w.t)| == |DataKeys(w.t)| + (if !HasSource(w.t, item.source) && out.ok then 1 else 0)
            && forall k | k in DataKeys(w.t) :: k in out.w.t && out.w.t[k] == w.t[k]
  {
    var out := Step(cfg, mover, w, item);
    if !HasSource(w.t, item.source) && out.ok {
      ChosenFits(cfg, w.t, ItemSize(w.fs, item));
      var key := Choice(cfg, w.t, ItemSize(w.fs, item)).value.key;
      assert DataKeys(out.w.t) == DataKeys(w.t) + {key};
    }
  }

  /** Every placement adds one DATA row; no DATA row is changed or lost. */
  lemma {:induction false} PlacementsAddRows(cfg: Config, mover: Mover, w: World, items: seq<Item>)
    requires cfg.Ok()
    ensures var t' := Build(cfg, mover, w, items).w.t;
            && |DataKeys(t')| == |DataKeys(w.t)| + Placements(cfg, mover, w, items)
            && forall k | k in DataKeys(w.t) :: k in t' && t'[k] == w.t[k]
  {
    if items != [] {
      var n := |items| - 1;
      PlacementsAddRows(cfg, mover, w, items[..n]);
      StepAddsRow(cfg, mover, Build(cfg, mover, w, items[..n]).w, items[n]);
      hide Step, HasSource;
    }
  }

  /** Parity rows of t that are not in t'. */
  ghost predicate LosesParity(t: Table, t': Table) {
    exists k :: k in t && t[k].kind.EC? && k !in t'
  }

  lemma StepParity(cfg: Config, mover: Mover, w: World, item: Item)
    requires cfg.Ok() && WellPlaced(cfg, w.t)
    ensures var t' := Step(cfg, mover, w, item).w.t;
            && (Invalidates(cfg, mover, w, item) <==> LosesParity(w.t, t'))
            && (forall k | k in t' && k.pos >= cfg.k :: k in w.t && t'[k] == w.t[k])
  {
    var t' := Step(cfg, mover, w, item).w.t;
    if !HasSource(w.t, item.source) && Step(cfg, mover, w, item).ok {
      ChosenFits(cfg, w.t, ItemSize(w.fs, item));
      var key := Choice(cfg, w.t, ItemSize(w.fs, item)).value.key;
      if HasEC(w.t, key.group, key.stripe) {
        var k :| k in w.t && w.t[k].kind.EC? && InStripe(k, key.group, key.stripe);
        assert RowPlaced(cfg, k, w.t[k]);
        assert k !in t';
      }
    }
  }

  /** The run makes parity stale exactly when parity rows are gone afterwards; none is ever added. */
  lemma {:induction false} DegradesIsLoss(cfg: Config, mover: Mover, w: World, items: seq<Item>)
    requires cfg.Ok() && WellPlaced(cfg, w.t)
    ensures var t' := Build(cfg, mover, w, items).w.t;
            && (Degrades(cfg, mover, w, items) <==> LosesParity(w.t, t'))
            && (forall k | k in t' && k.pos >= cfg.k :: k in w.t && t'[k] == w.t[k])
  {
    if items != [] {
      var n := |items| - 1;
      DegradesIsLoss(cfg, mover, w, items[..n]);
      BuildWellPlaced(cfg, mover, w, items[..n]);
      var before := Build(cfg, mover, w, items[..n]);
      var t' := Build(cfg, mover, w, items).w.t;
      if before.ok {
        StepParity(cfg, mover, before.w, items[n]);
        hide Step, Invalidates;
        LossChains(cfg, w.t, before.w.t, t');
      }
    }
  }

  lemma LossChains(cfg: Config, a: Table, b: Table, c: Table)
    requires cfg.Ok() && WellPlaced(cfg, a)
    requires forall k | k in b && k.pos >= cfg.k :: k in a && b[k] == a[k]
    requires forall k | k in c && k.pos >= cfg.k :: k in b && c[k] == b[k]
    requires WellPlaced(cfg, b)
    ensures LosesParity(a, c) <==> LosesParity(a, b) || LosesParity(b, c)
  {
    assert forall k | k in a && a[k].kind.EC? :: k.pos >= cfg.k by {
      assert forall k | k in a :: RowPlaced(cfg, k, a[k]);
    }
    assert forall k | k in b && b[k].kind.EC? :: k.pos >= cfg.k by {
      assert forall k | k in b :: RowPlaced(cfg, k, b[k]);
    }
    if LosesParity(b, c) {
      var k :| k in b && b[k].kind.EC? && k !in c;
      assert k in a && a[k].kind.EC?;
    }
  }

  /** A new stripe is opened only when the stripes before it are full: a free position of the last
      stripe shares its partition with a position of the new one, and so would have had room. */
  lemma OpensAfterFull(cfg: Config, t: Table, size: nat, key: Key, k: Key)
    requires cfg.Ok() && WellPlaced(cfg, t)
    requires Opens(cfg, t, size, key) && (forall f :: !PadFits(cfg, t, size, f) && !HoleFits(cfg, t, size, f))
    requires Before(k, key) && k.pos < cfg.k
    ensures IsData(t, k)
  {
    var r :| r in t && r.group == key.group && r.stripe >= key.stripe - 1;
    assert r.stripe == key.stripe - 1 by {
      assert !Started(t, key.group, key.stripe);
    }
    if k.stripe == r.stripe && k.pos > 0 {
      var q := NextStripeShares(cfg, k.group, k.pos, k.stripe);
      assert Fits(cfg, t, size, Key(key.group, key.stripe, q));
      assert Fits(cfg, t, size, k);
      assert !PadFits(cfg, t, size, k) && !HoleFits(cfg, t, size, k);
      assert Started(t, k.group, k.stripe);
      if k in t { assert RowPlaced(cfg, k, t[k]); }
    }
  }

  /** The chosen slot is in the last stripe of its group, or opens the next one. */
  lemma SlotIsLast(cfg: Config, t: Table, size: nat, k: Key)
    requires cfg.Ok() && WellPlaced(cfg, t) && Choice(cfg, t, size).Some?
    ensures var key := Choice(cfg, t, size).value.key;
            && (k in t ==> !Before(key, k))
            && (Before(k, key) && k.pos < cfg.k ==> IsData(t, k))
            && (key.pos > 0 ==> IsData(t, Key(key.group, key.stripe, 0)))
  {
    ChosenFits(cfg, t, size);
    var slot := Choice(cfg, t, size).value;
    var key := slot.key;
    assert k in t && Before(key, k) ==> IsData(t, key);
    if slot.usePad || HoleFits(cfg, t, size, key) {
      assert Started(t, key.group, key.stripe) by {
        assert slot.usePad ==> key in t;
      }
      var r :| r in t && r.group == key.group && r.stripe >= key.stripe;
      assert !Before(key, r);
      if Before(k, key) && k.pos < cfg.k {
        assert Before(k, r);
      }
      assert Key(r.group, r.stripe, 0) == Key(key.group, key.stripe, 0);
    } else if Before(k, key) && k.pos < cfg.k {
      OpensAfterFull(cfg, t, size, key, k);
    }
  }

  lemma FilledSources(cfg: Config, t: Table, key: Key, item: Item, size: nat)
    requires cfg.Ok() && SourcesUnique(t) && !HasSource(t, item.source)
    ensures SourcesUnique(Filled(cfg, t, key, item, size))
  {
    var t' := Filled(cfg, t, key, item, size);
    forall k, k', d | HasRow(t', k, d) && HasRow(t', k', d) ensures k == k' {
      assert k == key || HasRow(t, k, d);
      assert k' == key || HasRow(t, k', d);
    }
  }

  /** Filling a slot keeps the table well placed. */
  lemma FilledWellPlaced(cfg: Config, t: Table, item: Item, size: nat)
    requires cfg.Ok() && WellPlaced(cfg, t) && !HasSource(t, item.source)
    requires Choice(cfg, t, size).Some?
    ensures var key := Choice(cfg, t, size).value.key;
            WellPlaced(cfg, Filled(cfg, t, key, item, size))
  {
    ChosenFits(cfg, t, size);
    var key := Choice(cfg, t, size).value.key;
    var t' := Filled(cfg, t, key, item, size);
    FilledSources(cfg, t, key, item, size);
    FilledKeepsData(cfg, t, key, item, size);
    SlotIsLast(cfg, t, size, key);
    forall k, f: Key | k in t' && Before(f, k) && f.pos < cfg.k ensures IsData(t', f) {
      SlotIsLast(cfg, t, size, f);
    }
  }

  lemma FilledKeepsData(cfg: Config, t: Table, key: Key, item: Item, size: nat)
    requires cfg.Ok()
    ensures var t' := Filled(cfg, t, key, item, size);
            IsData(t', key) && forall k | IsData(t, k) :: IsData(t', k)
  {
  }

  /** The unique indexes never reject the row of a placement. */
  lemma FilledNeverConflicts(cfg: Config, t: Table, key: Key, item: Item, size: nat)
    requires cfg.Ok() && WellPlaced(cfg, t) && !HasSource(t, item.source) && key.pos < cfg.k
    ensures !Conflicts(WithoutEC(t, key.group, key.stripe) - {key}, key, DataRow(cfg, key, item, size))
  {
    var t', row := WithoutEC(t, key.group, key.stripe) - {key}, DataRow(cfg, key, item, size);
    forall k | k in t' ensures !RowsClash(k, t'[k], key, row) {
      PlacedRowsDiffer(cfg, k, t[k], key, row);
    }
  }

  /** A placement ends within capacity, and no other partition's usage grows. */
  lemma FilledWithinCapacity(cfg: Config, t: Table, item: Item, size: nat, part: nat)
    requires cfg.Ok() && WellPlaced(cfg, t)
    requires Choice(cfg, t, size).Some?
    ensures var key := Choice(cfg, t, size).value.key;
            var t' := Filled(cfg, t, key, item, size);
            if part == PartitionOf(cfg, key) then UsedBy(t', part) <= cfg.capacity
            else UsedBy(t', part) <= UsedBy(t, part)
  {
    ChosenFits(cfg, t, size);
    var key := Choice(cfg, t, size).value.key;
    var t' := WithoutEC(t, key.group, key.stripe);
    var row := DataRow(cfg, key, item, size);
    UsedFewer(t, t', part);
    if key in t' {
      UsedReplaced(t', key, row, part);
    } else {
      UsedWith(t', key, row, part);
    }
  }

  lemma StepWellPlaced(cfg: Config, mover: Mover, w: World, item: Item)
    requires cfg.Ok() && WellPlaced(cfg, w.t)
    ensures WellPlaced(cfg, Step(cfg, mover, w, item).w.t)
    ensures Step(cfg, mover, w, item).ok ==> HasSource(Step(cfg, mover, w, item).w.t, item.source)
  {
    if !HasSource(w.t, item.source) && Step(cfg, mover, w, item).ok {
      var size := ItemSize(w.fs, item);
      FilledWellPlaced(cfg, w.t, item, size);
      var key := Choice(cfg, w.t, size).value.key;
      assert HasRow(Filled(cfg, w.t, key, item, size), key, item.source);
    }
  }

  lemma {:induction false} BuildWellPlaced(cfg: Config, mover: Mover, w: World, items: seq<Item>)
    requires cfg.Ok() && WellPlaced(cfg, w.t)
    ensures WellPlaced(cfg, Build(cfg, mover, w, items).w.t)
  {
    if items != [] {
      BuildWellPlaced(cfg, mover, w, items[..|items| - 1]);
      var before := Build(cfg, mover, w, items[..|items| - 1]);
      StepWellPlaced(cfg, mover, before.w, items[|items| - 1]);
    }
  }
}
