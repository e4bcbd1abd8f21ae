/** Stopping build-data between any two of its steps and running it again. */
module BuildRetry {
  import opened Bytes
  import opened Paths
  import opened Disk
  import opened Layout
  import opened ShardTable
  import opened SlotChoice
  import opened MoveFile
  import opened Placement
  import opened BuildSpec

  /** Where the placement of a shard can be interrupted: after the copy of a cross-device move (its
      source still there), after the move, after the deletion of stale parity rows, after the row. */
  datatype Stop = AfterCopy | AfterMove | AfterDrop | AfterStore

  /** A placement that goes through, with its slot and file steps. */
  ghost predicate Places(cfg: Config, mover: Mover, w: World, item: Item)
    requires cfg.Ok()
  {
    !HasSource(w.t, item.source) && Step(cfg, mover, w, item).ok
  }

  ghost function SlotKey(cfg: Config, w: World, item: Item): Key
    requires cfg.Ok() && Choice(cfg, w.t, ItemSize(w.fs, item)).Some?
  {
    Choice(cfg, w.t, ItemSize(w.fs, item)).value.key
  }

  ghost function Dst(cfg: Config, w: World, item: Item): Path
    requires cfg.Ok() && Choice(cfg, w.t, ItemSize(w.fs, item)).Some?
  {
    Target(cfg, SlotKey(cfg, w, item), item)
  }

  ghost function MovedFiles(cfg: Config, mover: Mover, w: World, item: Item): Files
    requires cfg.Ok() && Places(cfg, mover, w, item)
  {
    Moved(mover, w.fs, item.src, Dst(cfg, w, item), item.sum).value
  }

  /** What an interrupted placement leaves behind. */
  ghost function Stopped(cfg: Config, mover: Mover, w: World, item: Item, stop: Stop): World
    requires cfg.Ok() && Places(cfg, mover, w, item)
  {
    var key := SlotKey(cfg, w, item);
    match stop
    case AfterCopy =>
      if item.src in w.fs && Dst(cfg, w, item) !in w.fs then World(w.t, Copied(w.fs, item.src, Dst(cfg, w, item)))
      else w
    case AfterMove => World(w.t, MovedFiles(cfg, mover, w, item))
    case AfterDrop => World(WithoutEC(w.t, key.group, key.stripe), MovedFiles(cfg, mover, w, item))
    case AfterStore => Step(cfg, mover, w, item).w
  }

  /** The bytes that end up at the target. */
  ghost function Content(cfg: Config, w: World, item: Item): Bytes
    requires cfg.Ok() && Choice(cfg, w.t, ItemSize(w.fs, item)).Some?
    requires Dst(cfg, w, item) in w.fs || item.src in w.fs
  {
    if Dst(cfg, w, item) in w.fs then w.fs[Dst(cfg, w, item)] else w.fs[item.src]
  }

  /** The recorded size is set, or there is nothing to lose. */
  predicate SizeRecorded(w: World, item: Item) {
    item.size > 0 || ItemSize(w.fs, item) == 0
  }

  lemma MoveFacts(cfg: Config, mover: Mover, w: World, item: Item)
    requires cfg.Ok() && Places(cfg, mover, w, item) && item.src.Outside?
    ensures var dst := Dst(cfg, w, item);
            && (dst in w.fs || item.src in w.fs)
            && item.src !in MovedFiles(cfg, mover, w, item)
            && dst in MovedFiles(cfg, mover, w, item)
            && MovedFiles(cfg, mover, w, item)[dst] == Content(cfg, w, item)
  {
  }

  /** One source, one row: tables that hold the shard at different slots or sizes differ. */
  lemma RowShowsSlot(cfg: Config, w: World, item: Item, key: Key, size: nat, key': Key, size': nat)
    requires cfg.Ok() && !HasSource(w.t, item.source)
    requires Filled(cfg, w.t, key, item, size) == Filled(cfg, w.t, key', item, size')
    ensures key == key' && size == size'
  {
    var a, b := Filled(cfg, w.t, key, item, size), Filled(cfg, w.t, key', item, size');
    assert a[key].source == Some(item.source) && key in b;
    assert key == key' || HasRow(w.t, key, item.source);
  }

  /** Retrying after the file has moved finds the same slot and leaves the same table and files exactly
      when the size was recorded (or is 0) and the bytes at the target have the recorded checksum. */
  lemma RetryAfterMove(cfg: Config, mover: Mover, w: World, item: Item)
    requires cfg.Ok() && Places(cfg, mover, w, item) && item.src.Outside?
    ensures Step(cfg, mover, Stopped(cfg, mover, w, item, AfterMove), item) == Step(cfg, mover, w, item)
       <==> SizeRecorded(w, item) && mover.Matches(Content(cfg, w, item), item.sum)
  {
    MoveFacts(cfg, mover, w, item);
    var c := Stopped(cfg, mover, w, item, AfterMove);
    var size, size' := ItemSize(w.fs, item), ItemSize(c.fs, item);
    assert c.fs - {item.src} == c.fs;
    if SizeRecorded(w, item) {
      assert size' == size;
    } else if Step(cfg, mover, c, item).ok {
      var key := Choice(cfg, c.t, size').value.key;
      if Filled(cfg, w.t, key, item, size') == Filled(cfg, w.t, SlotKey(cfg, w, item), item, size) {
        RowShowsSlot(cfg, w, item, key, size', SlotKey(cfg, w, item), size);
      }
    }
  }

  lemma RetryAfterCopy(cfg: Config, mover: Mover, w: World, item: Item)
    requires cfg.Ok() && Places(cfg, mover, w, item) && item.src.Outside?
    requires item.src in w.fs ==> mover.Matches(w.fs[item.src], item.sum)
    ensures Step(cfg, mover, Stopped(cfg, mover, w, item, AfterCopy), item) == Step(cfg, mover, w, item)
  {
    var c := Stopped(cfg, mover, w, item, AfterCopy);
    if c != w {
      MoveAgain(mover, w.fs, item.src, Dst(cfg, w, item), item.sum);
    }
  }

  lemma DropKeepsWellPlaced(cfg: Config, t: Table, g: nat, s: nat)
    requires cfg.Ok() && WellPlaced(cfg, t)
    ensures WellPlaced(cfg, WithoutEC(t, g, s))
    ensures forall k: Key | k.pos < cfg.k :: k in WithoutEC(t, g, s) <==> k in t
    ensures forall g': nat, s': nat :: Started(WithoutEC(t, g, s), g', s') <==> Started(t, g', s')
  {
    var t' := WithoutEC(t, g, s);
    assert forall k, d | HasRow(t', k, d) :: HasRow(t, k, d);
    assert forall k | IsData(t, k) :: IsData(t', k);
    forall k: Key | k.pos < cfg.k && k in t ensures k in t' {
      assert RowPlaced(cfg, k, t[k]);
    }
    forall g': nat, s': nat ensures Started(t', g', s') <==> Started(t, g', s') {
      if Started(t, g', s') {
        var k :| k in t && k.group == g' && k.stripe >= s';
        assert Key(k.group, k.stripe, 0) in t';
      }
    }
  }

  /** The parity rows of a stripe share no partition with a free position: only the last stripe of a
      group has free positions, and within a stripe the partitions differ. */
  lemma FreePositionsKeepRoom(cfg: Config, t: Table, key: Key, k: Key)
    requires cfg.Ok() && WellPlaced(cfg, t) && key.pos < cfg.k && k.pos < cfg.k
    requires !IsData(t, key) && !IsData(t, k) && Started(t, k.group, k.stripe)
    ensures UsedBy(WithoutEC(t, key.group, key.stripe), PartitionOf(cfg, k)) == UsedBy(t, PartitionOf(cfg, k))
  {
    var t' := WithoutEC(t, key.group, key.stripe);
    var part := PartitionOf(cfg, k);
    var r :| r in t && r.group == k.group && r.stripe >= k.stripe;
    forall e | e in t && e !in t' ensures Weight(t[e], part) == 0 {
      assert RowPlaced(cfg, e, t[e]);
      if k.group == key.group {
        assert !Before(k, e) && !Before(key, r);
        assert k.stripe == key.stripe;
      }
      if PartitionOf(cfg, e) == part {
        PartitionRoundTrip(cfg, e.group, e.pos, e.stripe);
        PartitionRoundTrip(cfg, k.group, k.pos, k.stripe);
      }
    }
    UsedSame(t, t', part);
  }

  /** Deleting the parity rows that a placement makes stale does not change its slot. */
  lemma ChoiceAfterDrop(cfg: Config, t: Table, size: nat)
    requires cfg.Ok() && WellPlaced(cfg, t) && Choice(cfg, t, size).Some?
    ensures var slot := Choice(cfg, t, size).value;
            Choice(cfg, WithoutEC(t, slot.key.group, slot.key.stripe), size) == Some(slot)
  {
    ChosenFits(cfg, t, size);
    var slot := Choice(cfg, t, size).value;
    var key := slot.key;
    var t' := WithoutEC(t, key.group, key.stripe);
    if !Started(t, key.group, key.stripe) {
      assert t' == t;
    } else {
      DropKeepsWellPlaced(cfg, t, key.group, key.stripe);
      assert !IsData(t, key);
      forall k ensures PadFits(cfg, t', size, k) <==> PadFits(cfg, t, size, k)
               ensures HoleFits(cfg, t', size, k) <==> HoleFits(cfg, t, size, k)
      {
        if k.pos < cfg.k && !IsData(t, k) && Started(t, k.group, k.stripe) {
          FreePositionsKeepRoom(cfg, t, key, k);
        }
        assert k in t ==> Started(t, k.group, k.stripe);
      }
      assert slot.usePad || HoleFits(cfg, t, size, key);
      assert Chooses(cfg, t', size, Some(slot));
      ChoiceUnique(cfg, t', size, Choice(cfg, t', size), Some(slot));
    }
  }

  lemma RetryAfterDrop(cfg: Config, mover: Mover, w: World, item: Item)
    requires cfg.Ok() && Places(cfg, mover, w, item) && item.src.Outside? && WellPlaced(cfg, w.t)
    ensures Step(cfg, mover, Stopped(cfg, mover, w, item, AfterDrop), item) == Step(cfg, mover, w, item)
       <==> SizeRecorded(w, item) && mover.Matches(Content(cfg, w, item), item.sum)
  {
    MoveFacts(cfg, mover, w, item);
    var c := Stopped(cfg, mover, w, item, AfterDrop);
    var size, size' := ItemSize(w.fs, item), ItemSize(c.fs, item);
    var key := SlotKey(cfg, w, item);
    assert c.fs - {item.src} == c.fs;
    ChoiceAfterDrop(cfg, w.t, size);
    DropHasNoSource(w.t, key.group, key.stripe, item.source);
    assert WithoutEC(c.t, key.group, key.stripe) == c.t;
    if SizeRecorded(w, item) {
      assert size' == size;
    } else if Step(cfg, mover, c, item).ok {
      var key' := Choice(cfg, c.t, size').value.key;
      if Filled(cfg, c.t, key', item, size') == Filled(cfg, c.t, key, item, size) {
        RowShowsSlot(cfg, c, item, key', size', key, size);
      }
    }
  }

  lemma DropHasNoSource(t: Table, g: nat, s: nat, source: Source)
    ensures HasSource(WithoutEC(t, g, s), source) <==> HasSource(t, source)
  {
    if HasSource(t, source) {
      var k :| k in t && t[k].kind.DATA? && t[k].source == Some(source);
      assert k in WithoutEC(t, g, s);
    }
  }

  // ---- whole runs --------------------------------------------------------------------------

  /** Recorded sizes are set, and checksums are those of the files waiting to be moved. */
  predicate Truthful(mover: Mover, fs: Files, items: seq<Item>) {
    forall item | item in items ::
      item.size > 0 && item.src.Outside? && (item.src in fs ==> mover.Matches(fs[item.src], item.sum))
  }

  /** The waiting files of fs' are among those of fs. */
  predicate SourcesFrom(fs: Files, fs': Files) {
    forall p: Path | p.Outside? && p in fs' :: p in fs && fs[p] == fs'[p]
  }

  lemma StepKeepsSources(cfg: Config, mover: Mover, w: World, item: Item)
    requires cfg.Ok()
    ensures SourcesFrom(w.fs, Step(cfg, mover, w, item).w.fs)
    ensures forall d | HasSource(w.t, d) :: HasSource(Step(cfg, mover, w, item).w.t, d)
    ensures Step(cfg, mover, w, item).ok ==> HasSource(Step(cfg, mover, w, item).w.t, item.source)
  {
    var w' := Step(cfg, mover, w, item).w;
    if Places(cfg, mover, w, item) {
      ChosenFits(cfg, w.t, ItemSize(w.fs, item));
      var key := SlotKey(cfg, w, item);
      assert HasRow(w'.t, key, item.source);
      forall d | HasSource(w.t, d) ensures HasSource(w'.t, d) {
        var k :| k in w.t && w.t[k].kind.DATA? && w.t[k].source == Some(d);
        assert k in w'.t && w'.t[k] == w.t[k];
      }
    }
  }

  lemma {:induction false} BuildKeepsSources(cfg: Config, mover: Mover, w: World, items: seq<Item>)
    requires cfg.Ok()
    ensures SourcesFrom(w.fs, Build(cfg, mover, w, items).w.fs)
    ensures Build(cfg, mover, w, items).ok ==>
              forall item | item in items :: HasSource(Build(cfg, mover, w, items).w.t, item.source)
  {
    if items != [] {
      var n := |items| - 1;
      BuildKeepsSources(cfg, mover, w, items[..n]);
      var before := Build(cfg, mover, w, items[..n]);
      StepKeepsSources(cfg, mover, before.w, items[n]);
      assert items == items[..n] + [items[n]];
    }
  }

  lemma {:induction false} PlacedAreSkipped(cfg: Config, mover: Mover, w: World, items: seq<Item>)
    requires cfg.Ok() && forall item | item in items :: HasSource(w.t, item.source)
    ensures Build(cfg, mover, w, items) == Outcome(w, true)
  {
    if items != [] {
      PlacedAreSkipped(cfg, mover, w, items[..|items| - 1]);
    }
  }

  lemma {:induction false} SameSuffix(cfg: Config, mover: Mover, a: World, b: World, items: seq<Item>, n: nat)
    requires cfg.Ok() && n <= |items|
    requires Build(cfg, mover, a, items[..n]) == Build(cfg, mover, b, items[..n])
    ensures Build(cfg, mover, a, items) == Build(cfg, mover, b, items)
    decreases |items|
  {
    if n < |items| {
      var init := items[..|items| - 1];
      assert init[..n] == items[..n];
      SameSuffix(cfg, mover, a, b, init, n);
    } else {
      assert items[..n] == items;
    }
  }

  lemma RetryStep(cfg: Config, mover: Mover, w: World, item: Item, stop: Stop)
    requires cfg.Ok() && WellPlaced(cfg, w.t) && Places(cfg, mover, w, item)
    requires Truthful(mover, w.fs, [item])
    ensures Step(cfg, mover, Stopped(cfg, mover, w, item, stop), item) == Step(cfg, mover, w, item)
  {
    assert item in [item];
    MoveFacts(cfg, mover, w, item);
    match stop
    case AfterCopy => RetryAfterCopy(cfg, mover, w, item);
    case AfterMove => RetryAfterMove(cfg, mover, w, item);
    case AfterDrop => RetryAfterDrop(cfg, mover, w, item);
    case AfterStore => StepKeepsSources(cfg, mover, w, item);
  }

  lemma StoppedKeeps(cfg: Config, mover: Mover, w: World, item: Item, stop: Stop)
    requires cfg.Ok() && WellPlaced(cfg, w.t) && Places(cfg, mover, w, item) && item.src.Outside?
    ensures var c := Stopped(cfg, mover, w, item, stop);
            && WellPlaced(cfg, c.t)
            && SourcesFrom(w.fs, c.fs)
            && forall d | HasSource(w.t, d) :: HasSource(c.t, d)
  {
    var c := Stopped(cfg, mover, w, item, stop);
    StepKeepsSources(cfg, mover, w, item);
    StepWellPlaced(cfg, mover, w, item);
    var key := SlotKey(cfg, w, item);
    if stop.AfterDrop? {
      forall d ensures HasSource(c.t, d) <==> HasSource(w.t, d) {
        DropHasNoSource(w.t, key.group, key.stripe, d);
      }
      DropKeepsWellPlaced(cfg, w.t, key.group, key.stripe);
    }
  }

  /** Interrupting a run at any step of any shard and running it again ends like an uninterrupted run:
      the same rows, the same files, and the same failure if there is one. */
  lemma RetryConverges(cfg: Config, mover: Mover, w: World, items: seq<Item>, i: nat, stop: Stop)
    requires cfg.Ok() && WellPlaced(cfg, w.t) && Truthful(mover, w.fs, items)
    requires i < |items| && Build(cfg, mover, w, items[..i]).ok
    requires Places(cfg, mover, Build(cfg, mover, w, items[..i]).w, items[i])
    ensures Build(cfg, mover, Stopped(cfg, mover, Build(cfg, mover, w, items[..i]).w, items[i], stop), items)
         == Build(cfg, mover, w, items)
  {
    var b := Build(cfg, mover, w, items[..i]).w;
    BuildKeepsSources(cfg, mover, w, items[..i]);
    BuildWellPlaced(cfg, mover, w, items[..i]);
    assert Truthful(mover, b.fs, [items[i]]);
    RetryStep(cfg, mover, b, items[i], stop);
    StoppedKeeps(cfg, mover, b, items[i], stop);
    var c := Stopped(cfg, mover, b, items[i], stop);
    PlacedAreSkipped(cfg, mover, c, items[..i]);
    assert items[..i + 1][..i] == items[..i];
    SameSuffix(cfg, mover, c, w, items, i + 1);
  }

  /** A run that is interrupted and restarted any number of times. */
  ghost predicate Interrupted(cfg: Config, mover: Mover, w: World, items: seq<Item>, stops: seq<(nat, Stop)>,
                              last: World)
    requires cfg.Ok()
    decreases |stops|
  {
    if stops == [] then last == w
    else
      var (i, stop) := stops[0];
      && i < |items|
      && var b := Build(cfg, mover, w, items[..i]);
      && b.ok && Places(cfg, mover, b.w, items[i])
      && Interrupted(cfg, mover, Stopped(cfg, mover, b.w, items[i], stop), items, stops[1..], last)
  }

  /** However often a run is interrupted, the run that finishes ends like an uninterrupted one. */
  lemma {:induction false} RetriesConverge(cfg: Config, mover: Mover, w: World, items: seq<Item>,
                                           stops: seq<(nat, Stop)>, last: World)
    requires cfg.Ok() && WellPlaced(cfg, w.t) && Truthful(mover, w.fs, items)
    requires Interrupted(cfg, mover, w, items, stops, last)
    ensures Build(cfg, mover, last, items) == Build(cfg, mover, w, items)
    decreases |stops|
  {
    if stops != [] {
      var (i, stop) := stops[0];
      var b := Build(cfg, mover, w, items[..i]).w;
      RetryConverges(cfg, mover, w, items, i, stop);
      BuildKeepsSources(cfg, mover, w, items[..i]);
      BuildWellPlaced(cfg, mover, w, items[..i]);
      StoppedKeeps(cfg, mover, b, items[i], stop);
      var c := Stopped(cfg, mover, b, items[i], stop);
      assert SourcesFrom(w.fs, c.fs);
      RetriesConverge(cfg, mover, c, items, stops[1..], last);
    }
  }
}
