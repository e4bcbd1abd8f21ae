/** build-data: the dataset loop over the placement cache, the shard table and the file tree. */
module BuildData {
  import opened Disk
  import opened Layout
  import opened ShardTable
  import opened SlotChoice
  import opened MoveFile
  import opened Placement
  import opened BuildSpec

  /** ListShards: fresh row objects for the whole table, in some order. */
  method ListShards(store: Store) returns (list: seq<ShardRow>)
    ensures Lists(list, store.rows) && fresh(list)
  {
    list := [];
    var todo := store.rows.Keys;
    while todo != {}
      invariant todo <= store.rows.Keys
      invariant fresh(list)
      invariant forall i | 0 <= i < |list| ::
                  list[i].key in store.rows && list[i].row == store.rows[list[i].key] && list[i].stored
      invariant forall i, j | 0 <= i < j < |list| :: list[i].key != list[j].key
      invariant forall i | 0 <= i < |list| :: list[i].key !in todo
      invariant forall k | k in store.rows && k !in todo :: exists i :: 0 <= i < |list| && list[i].key == k
    {
      var k :| k in todo;
      var o := new ShardRow(k, store.rows[k], true);
      ghost var before, left := list, todo;
      list, todo := list + [o], todo - {k};
      forall k' | k' in store.rows && k' !in todo ensures exists i :: 0 <= i < |list| && list[i].key == k' {
        if k' == k {
          assert list[|before|].key == k;
        } else {
          var i :| 0 <= i < |before| && before[i].key == k';
          assert list[i].key == k';
        }
      }
    }
  }

  /** Stores a placed row: deletes the parity rows it made stale, then inserts or updates. */
  method StoreRow(store: Store, o: ShardRow, invalidated: bool)
    requires !Conflicts(WithoutEC(store.rows, o.key.group, o.key.stripe) - {o.key}, o.key, o.row)
    requires invalidated <==> HasEC(store.rows, o.key.group, o.key.stripe)
    requires o.stored <==> o.key in WithoutEC(store.rows, o.key.group, o.key.stripe)
    modifies store
    ensures store.rows == WithoutEC(old(store.rows), o.key.group, o.key.stripe)[o.key := o.row]
  {
    ghost var t := WithoutEC(store.rows, o.key.group, o.key.stripe);
    if invalidated {
      store.DeleteECShards(o.key.group, o.key.stripe);
    }
    assert store.rows == t;
    var ok;
    if !o.stored {
      assert t - {o.key} == t;
      ok := store.InsertShard(o.key, o.row);
    } else {
      ok := store.UpdateShardData(o.key, o.row);
    }
    assert ok;
  }

  /** Places one shard and keeps the cache equal to the table. */
  method PlaceOne(state: PlacementState, store: Store, disk: Disk, mover: Mover, item: Item) returns (ok: bool)
    requires state.Mirrors(store.rows) && WellPlaced(state.cfg, store.rows)
    requires !HasSource(store.rows, item.source)
    modifies state, store, disk, state.objs
    ensures Outcome(World(store.rows, disk.files), ok)
         == Step(state.cfg, mover, World(old(store.rows), old(disk.files)), item)
    ensures ok ==> state.Mirrors(store.rows)
    ensures ok ==> (state.parityDegraded <==>
                    || old(state.parityDegraded)
                    || Invalidates(state.cfg, mover, World(old(store.rows), old(disk.files)), item))
    ensures fresh(state.objs - old(state.objs))
  {
    ghost var t, files, cfg := store.rows, disk.files, state.cfg;
    assert cfg.Ok() && PadsEmpty(t);
    hide WellPlaced, Conflicts, WithoutEC, HasEC, Placed, Unplaceable, Step, Invalidates;
    var placed := state.Place(item, disk, mover, t);
    if placed.Failure? {
      StepFails(cfg, t, files, item, mover);
      return false;
    }
    var (o, invalidated) := placed.value;
    SlotIsFree(cfg, t, files, disk.files, item, mover, o, invalidated);
    TakeIn(state, store, o, invalidated);
    return true;
  }

  /** Stores a placed row and commits it to the cache. */
  method TakeIn(state: PlacementState, store: Store, o: ShardRow, invalidated: bool)
    requires state.Pending(WithoutEC(store.rows, o.key.group, o.key.stripe), store.rows, o)
    requires !Conflicts(WithoutEC(store.rows, o.key.group, o.key.stripe) - {o.key}, o.key, o.row)
    requires invalidated <==> HasEC(store.rows, o.key.group, o.key.stripe)
    requires o.stored <==> o.key in WithoutEC(store.rows, o.key.group, o.key.stripe)
    requires o.row.kind.DATA? && o.row.source.Some?
    modifies state, store, o`stored
    ensures store.rows == WithoutEC(old(store.rows), o.key.group, o.key.stripe)[o.key := o.row]
    ensures state.Mirrors(store.rows)
    ensures state.objs == old(state.objs) + {o} && state.parityDegraded == old(state.parityDegraded)
  {
    ghost var t := store.rows;
    ghost var t' := WithoutEC(t, o.key.group, o.key.stripe);
    hide Conflicts, WithoutEC, HasEC;
    StoreRow(store, o, invalidated);
    if !o.stored {
      state.MarkStored(o, t', t);
    }
    state.Commit(o, t', t);
  }

  lemma StepFails(cfg: Config, t: Table, files: Files, item: Item, mover: Mover)
    requires cfg.Ok() && !HasSource(t, item.source) && Unplaceable(cfg, t, files, item, mover)
    ensures Step(cfg, mover, World(t, files), item) == Outcome(World(t, files), false)
  {
  }

  /** What the store needs to know of a placement. */
  lemma SlotIsFree(cfg: Config, t: Table, before: Files, after: Files, item: Item, mover: Mover, o: ShardRow,
                   invalidated: bool)
    requires cfg.Ok() && WellPlaced(cfg, t) && !HasSource(t, item.source)
    requires Placed(cfg, t, before, after, item, mover, o, invalidated)
    ensures var t' := WithoutEC(t, o.key.group, o.key.stripe);
            && !Conflicts(t' - {o.key}, o.key, o.row)
            && (o.stored <==> o.key in t')
            && (invalidated <==> HasEC(t, o.key.group, o.key.stripe))
            && o.row.kind.DATA? && o.row.source.Some?
            && Step(cfg, mover, World(t, before), item) == Outcome(World(t'[o.key := o.row], after), true)
            && (invalidated <==> Invalidates(cfg, mover, World(t, before), item))
  {
    var size := ItemSize(before, item);
    ChosenFits(cfg, t, size);
    FilledNeverConflicts(cfg, t, o.key, item, size);
  }

  /** The dataset loop: the table and the files become what Build says, and the cache does not drift. */
  method BuildDataset(state: PlacementState, store: Store, disk: Disk, mover: Mover, items: seq<Item>)
    returns (placed: nat, ok: bool)
    requires state.Mirrors(store.rows) && WellPlaced(state.cfg, store.rows)
    modifies state, store, disk, state.objs
    ensures Outcome(World(store.rows, disk.files), ok)
         == Build(state.cfg, mover, World(old(store.rows), old(disk.files)), items)
    ensures ok ==> state.Mirrors(store.rows)
    ensures ok ==> (state.parityDegraded <==>
                    || old(state.parityDegraded)
                    || Degrades(state.cfg, mover, World(old(store.rows), old(disk.files)), items))
    ensures ok ==> placed == Placements(state.cfg, mover, World(old(store.rows), old(disk.files)), items)
    ensures WellPlaced(state.cfg, store.rows)
    ensures fresh(state.objs - old(state.objs))
  {
    ghost var cfg := state.cfg;
    ghost var w := World(store.rows, disk.files);
    ghost var before := state.parityDegraded;
    placed := 0;
    assert items[..0] == [];
    for i := 0 to |items|
      invariant state.Mirrors(store.rows) && WellPlaced(cfg, store.rows) && state.cfg == cfg
      invariant Reached(cfg, mover, w, items[..i], World(store.rows, disk.files), placed, before, state.parityDegraded)
      invariant fresh(state.objs - old(state.objs))
    {
      assert cfg.Ok();
      ghost var now := World(store.rows, disk.files);
      ReachedNext(cfg, mover, w, items, i, now, placed, before, state.parityDegraded);
      StepWellPlaced(cfg, mover, now, items[i]);
      hide Reached, WellPlaced, Step, Invalidates;
      var has := state.HasData(items[i].source, store.rows);
      if !has {
        var ok' := PlaceOne(state, store, disk, mover, items[i]);
        if !ok' { return placed, false; }
        placed := placed + 1;
      }
    }
    assert items[..|items|] == items;
    return placed, true;
  }

  /** Where the loop stands after a prefix of the shards: the world, how many were placed, and whether parity
      has become stale since the start. */
  ghost predicate Reached(cfg: Config, mover: Mover, w: World, items: seq<Item>, now: World, placed: nat,
                          before: bool, degraded: bool)
    requires cfg.Ok()
  {
    && Build(cfg, mover, w, items) == Outcome(now, true)
    && placed == Placements(cfg, mover, w, items)
    && (degraded <==> before || Degrades(cfg, mover, w, items))
  }

  lemma ReachedNext(cfg: Config, mover: Mover, w: World, items: seq<Item>, i: nat, now: World, placed: nat,
                    before: bool, degraded: bool)
    requires cfg.Ok() && i < |items| && Reached(cfg, mover, w, items[..i], now, placed, before, degraded)
    ensures var item := items[i];
            var out := Step(cfg, mover, now, item);
            if HasSource(now.t, item.source) then
              out == Outcome(now, true) && Reached(cfg, mover, w, items[..i + 1], now, placed, before, degraded)
            else if out.ok then
              Reached(cfg, mover, w, items[..i + 1], out.w, placed + 1, before,
                      degraded || Invalidates(cfg, mover, now, item))
            else out.w == now && Build(cfg, mover, w, items) == out
  {
    assert items[..i + 1][..i] == items[..i];
    BuildPrefix(cfg, mover, w, items, i + 1);
    assert !HasSource(now.t, items[i].source) && !Step(cfg, mover, now, items[i]).ok ==>
             Step(cfg, mover, now, items[i]).w == now;
    hide Step;
  }

  /** A failure in a prefix is the outcome of the whole list. */
  lemma {:induction false} BuildPrefix(cfg: Config, mover: Mover, w: World, items: seq<Item>, n: nat)
    requires cfg.Ok() && n <= |items|
    ensures !Build(cfg, mover, w, items[..n]).ok ==>
              Build(cfg, mover, w, items) == Build(cfg, mover, w, items[..n])
    decreases |items|
  {
    if n < |items| {
      var init := items[..|items| - 1];
      BuildPrefix(cfg, mover, w, init, n);
      assert init[..n] == items[..n];
    } else {
      assert items[..n] == items;
    }
  }
}
