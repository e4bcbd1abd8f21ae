/** The build-data command: the datasets of an arcset in append order, or one of them. */
module BuildCommand {
  import opened Bytes
  import opened Paths
  import opened Disk
  import opened Layout
  import opened ShardTable
  import SlotChoice
  import opened MoveFile
  import opened Placement
  import opened BuildSpec
  import opened BuildRetry
  import opened BuildData
  import opened Arcset

  /** A shard as a dataset's own database lists it: number, recorded size and checksum, and where its file is. */
  datatype Listed = Listed(number: int, size: nat, sum: string, src: Path)

  /** The sorted shards of each dataset that can be opened. */
  type Catalog = map<int, seq<Listed>>

  predicate Wanted(filter: Option<int>, r: Relation) {
    filter.None? || filter.value == r.dataset
  }

  /** The shards of a registered dataset, waiting to be placed under the key it is registered under. */
  function ItemsOf(r: PlainRelation, shards: seq<Listed>): (items: seq<Item>)
    ensures |items| == |shards|
  {
    seq(|shards|, i requires 0 <= i < |shards| =>
      Item(Source(r.dataset, shards[i].number), r.key, shards[i].size, shards[i].sum, shards[i].src))
  }

  /** The datasets in order, stopping at the first failure. */
  ghost function BuildAll(cfg: Config, mover: Mover, catalog: Catalog, filter: Option<int>, w: World,
                          rels: PlainRelations): Outcome
    requires cfg.Ok()
  {
    if rels == [] then Outcome(w, true)
    else
      var before := BuildAll(cfg, mover, catalog, filter, w, rels[..|rels| - 1]);
      var r := rels[|rels| - 1];
      if !before.ok || !Wanted(filter, r) then before
      else if r.dataset !in catalog then Outcome(before.w, false)
      else Build(cfg, mover, before.w, ItemsOf(r, catalog[r.dataset]))
  }

  lemma {:induction false} BuildAppend(cfg: Config, mover: Mover, w: World, a: seq<Item>, b: seq<Item>)
    requires cfg.Ok()
    ensures var first := Build(cfg, mover, w, a);
            Build(cfg, mover, w, a + b) == if first.ok then Build(cfg, mover, first.w, b) else first
    decreases |b|
  {
    if b == [] {
      assert a + b == a;
    } else {
      var n := |b| - 1;
      BuildAppend(cfg, mover, w, a, b[..n]);
      assert (a + b)[..|a + b| - 1] == a + b[..n];
    }
  }

  predicate CanOpen(catalog: Catalog, filter: Option<int>, r: Relation) {
    Wanted(filter, r) ==> r.dataset in catalog
  }

  /** Every wanted dataset can be opened. */
  predicate AllOpen(catalog: Catalog, filter: Option<int>, rels: Relations) {
    forall i | 0 <= i < |rels| :: CanOpen(catalog, filter, rels[i])
  }

  /** All shards of the wanted datasets, up to the first dataset that cannot be opened. */
  function AllItems(catalog: Catalog, filter: Option<int>, rels: PlainRelations): seq<Item> {
    if rels == [] then []
    else
      var init, r := rels[..|rels| - 1], rels[|rels| - 1];
      AllItems(catalog, filter, init)
      + if AllOpen(catalog, filter, init) && Wanted(filter, r) && r.dataset in catalog then
          ItemsOf(r, catalog[r.dataset])
        else []
  }

  /** Building dataset by dataset is building one list. After it the run fails exactly when a wanted dataset cannot be
      opened. */
  lemma {:induction false} BuildAllIsBuild(cfg: Config, mover: Mover, catalog: Catalog, filter: Option<int>, w: World,
                                           rels: PlainRelations)
    requires cfg.Ok()
    ensures var b := Build(cfg, mover, w, AllItems(catalog, filter, rels));
            BuildAll(cfg, mover, catalog, filter, w, rels)
              == Outcome(b.w, b.ok && AllOpen(catalog, filter, rels))
  {
    if rels == [] {
      assert Build(cfg, mover, w, []) == Outcome(w, true);
    } else {
      var n := |rels| - 1;
      var r := rels[n];
      BuildAllIsBuild(cfg, mover, catalog, filter, w, rels[..n]);
      var some, all := AllItems(catalog, filter, rels[..n]), AllItems(catalog, filter, rels);
      hide Build, CanOpen;
      AllOpenSplits(catalog, filter, rels);
      if AllOpen(catalog, filter, rels[..n]) && Wanted(filter, r) && r.dataset in catalog {
        BuildAppend(cfg, mover, w, some, ItemsOf(r, catalog[r.dataset]));
      } else {
        assert all == some;
      }
    }
  }

  lemma AllOpenSplits(catalog: Catalog, filter: Option<int>, rels: Relations)
    requires rels != []
    ensures var n := |rels| - 1;
            && (AllOpen(catalog, filter, rels) <==>
                  AllOpen(catalog, filter, rels[..n]) && CanOpen(catalog, filter, rels[n]))
            && (CanOpen(catalog, filter, rels[n]) <==> !Wanted(filter, rels[n]) || rels[n].dataset in catalog)
  {
    var n := |rels| - 1;
    assert forall i | 0 <= i < n :: rels[..n][i] == rels[i];
  }

  /** Every shard of the list is one of a wanted dataset, under its key. */
  predicate FromCatalog(catalog: Catalog, filter: Option<int>, rels: PlainRelations, item: Item) {
    exists i, j | 0 <= i < |rels| && Wanted(filter, rels[i]) && rels[i].dataset in catalog
                  && 0 <= j < |catalog[rels[i].dataset]| ::
      item == ItemsOf(rels[i], catalog[rels[i].dataset])[j]
  }

  lemma {:induction false} ItemsFromCatalog(catalog: Catalog, filter: Option<int>, rels: PlainRelations, item: Item)
    requires item in AllItems(catalog, filter, rels)
    ensures FromCatalog(catalog, filter, rels, item)
  {
    var n := |rels| - 1;
    var r := rels[n];
    if item in AllItems(catalog, filter, rels[..n]) {
      ItemsFromCatalog(catalog, filter, rels[..n], item);
      var i, j :| 0 <= i < n && Wanted(filter, rels[..n][i]) && rels[..n][i].dataset in catalog
                  && 0 <= j < |catalog[rels[..n][i].dataset]|
                  && item == ItemsOf(rels[..n][i], catalog[rels[..n][i].dataset])[j];
      assert item == ItemsOf(rels[i], catalog[rels[i].dataset])[j];
    } else {
      var items := ItemsOf(r, catalog[r.dataset]);
      var j :| 0 <= j < |items| && items[j] == item;
    }
  }

  /** When all wanted datasets can be opened, none of their shards is missing from the list. */
  lemma {:induction false} AllItemsHas(catalog: Catalog, filter: Option<int>, rels: PlainRelations, i: nat, j: nat)
    requires AllOpen(catalog, filter, rels) && i < |rels| && Wanted(filter, rels[i])
    ensures rels[i].dataset in catalog
    ensures j < |catalog[rels[i].dataset]| ==>
              ItemsOf(rels[i], catalog[rels[i].dataset])[j] in AllItems(catalog, filter, rels)
  {
    assert CanOpen(catalog, filter, rels[i]);
    AllOpenSplits(catalog, filter, rels);
    if i < |rels| - 1 {
      AllItemsHas(catalog, filter, rels[..|rels| - 1], i, j);
      assert rels[..|rels| - 1][i] == rels[i];
    }
    hide ItemsOf, AllOpen;
  }

  lemma NextDataset(cfg: Config, mover: Mover, catalog: Catalog, filter: Option<int>, w: World, rels: PlainRelations,
                    i: nat)
    requires cfg.Ok() && i < |rels|
    requires BuildAll(cfg, mover, catalog, filter, w, rels[..i]).ok
    ensures var before := BuildAll(cfg, mover, catalog, filter, w, rels[..i]);
            BuildAll(cfg, mover, catalog, filter, w, rels[..i + 1]) ==
              if !Wanted(filter, rels[i]) then before
              else if rels[i].dataset !in catalog then Outcome(before.w, false)
              else Build(cfg, mover, before.w, ItemsOf(rels[i], catalog[rels[i].dataset]))
  {
    assert rels[..i + 1][..i] == rels[..i];
  }

  lemma {:induction false} StopsEarly(cfg: Config, mover: Mover, catalog: Catalog, filter: Option<int>, w: World,
                                      rels: PlainRelations, n: nat)
    requires cfg.Ok() && n <= |rels| && !BuildAll(cfg, mover, catalog, filter, w, rels[..n]).ok
    ensures BuildAll(cfg, mover, catalog, filter, w, rels) == BuildAll(cfg, mover, catalog, filter, w, rels[..n])
    decreases |rels|
  {
    if n < |rels| {
      var init := rels[..|rels| - 1];
      assert init[..n] == rels[..n];
      StopsEarly(cfg, mover, catalog, filter, w, init, n);
    } else {
      assert rels[..n] == rels;
    }
  }

  predicate Buildable(a: Arcset) {
    a.status.Building? && a.phase.DataPhase? && a.health.Healthy?
  }

  /** No parity row has been added or changed. */
  ghost predicate ParityFrom(cfg: Config, t: Table, t': Table) {
    forall k | k in t' && k.pos >= cfg.k :: k in t && t'[k] == t[k]
  }

  /** From one table to the next n DATA rows have been added, none lost, no parity row added or changed, and
      parity rows are gone exactly if it is so marked. */
  ghost predicate Tracks(cfg: Config, a: Table, b: Table, n: nat, degraded: bool)
    requires cfg.Ok()
  {
    && |DataKeys(b)| == |DataKeys(a)| + n
    && (degraded <==> LosesParity(a, b))
    && ParityFrom(cfg, a, b)
    && WellPlaced(cfg, a) && WellPlaced(cfg, b)
  }

  lemma TracksCompose(cfg: Config, a: Table, b: Table, c: Table, n: nat, d: bool, m: nat, e: bool)
    requires cfg.Ok() && Tracks(cfg, a, b, n, d) && Tracks(cfg, b, c, m, e)
    ensures Tracks(cfg, a, c, n + m, d || e)
  {
    LossChains(cfg, a, b, c);
    hide WellPlaced, DataKeys, LosesParity;
  }

  lemma BuildTracks(cfg: Config, mover: Mover, w: World, items: seq<Item>)
    requires cfg.Ok() && WellPlaced(cfg, w.t)
    ensures Tracks(cfg, w.t, Build(cfg, mover, w, items).w.t, Placements(cfg, mover, w, items),
                   Degrades(cfg, mover, w, items))
  {
    PlacementsAddRows(cfg, mover, w, items);
    DegradesIsLoss(cfg, mover, w, items);
    BuildWellPlaced(cfg, mover, w, items);
    hide Build, WellPlaced, DataKeys, LosesParity, Degrades, Placements;
  }

  /** Building one more dataset: the tables. */
  lemma TracksMore(cfg: Config, mover: Mover, t: Table, now: World, items: seq<Item>, built: nat, degraded: bool)
    requires cfg.Ok() && Tracks(cfg, t, now.t, built, degraded)
    ensures WellPlaced(cfg, now.t)
    ensures Tracks(cfg, t, Build(cfg, mover, now, items).w.t, built + Placements(cfg, mover, now, items),
                   degraded || Degrades(cfg, mover, now, items))
  {
    hide Build, Placements, Degrades, DataKeys, LosesParity, ParityFrom;
    BuildTracks(cfg, mover, now, items);
    TracksCompose(cfg, t, now.t, Build(cfg, mover, now, items).w.t, built, degraded,
                  Placements(cfg, mover, now, items), Degrades(cfg, mover, now, items));
  }

  /** Building one more dataset: the outcome. A dataset that fails or cannot be opened ends the run. */
  lemma OneMoreDataset(cfg: Config, mover: Mover, catalog: Catalog, filter: Option<int>, w: World, rels: PlainRelations,
                       i: nat, now: World)
    requires cfg.Ok() && i < |rels| && BuildAll(cfg, mover, catalog, filter, w, rels[..i]) == Outcome(now, true)
    ensures var out := if !Wanted(filter, rels[i]) then Outcome(now, true)
                       else if rels[i].dataset !in catalog then Outcome(now, false)
                       else Build(cfg, mover, now, ItemsOf(rels[i], catalog[rels[i].dataset]));
            && BuildAll(cfg, mover, catalog, filter, w, rels[..i + 1]) == out
            && (!out.ok ==> BuildAll(cfg, mover, catalog, filter, w, rels) == out)
  {
    NextDataset(cfg, mover, catalog, filter, w, rels, i);
    hide BuildAll, Build;
    if !BuildAll(cfg, mover, catalog, filter, w, rels[..i + 1]).ok {
      StopsEarly(cfg, mover, catalog, filter, w, rels, i + 1);
    }
  }

  /** The loop over the datasets. */
  method BuildDatasets(state: PlacementState, store: Store, disk: Disk, mover: Mover, catalog: Catalog,
                       filter: Option<int>, rels: PlainRelations) returns (built: nat, ok: bool)
    requires state.Mirrors(store.rows) && state.cfg.Ok() && WellPlaced(state.cfg, store.rows) && !state.parityDegraded
    modifies state, store, disk, state.objs
    ensures Outcome(World(store.rows, disk.files), ok)
         == BuildAll(state.cfg, mover, catalog, filter, World(old(store.rows), old(disk.files)), rels)
    ensures Advanced(state.cfg, old(store.rows), store.rows, built, state.parityDegraded, ok)
  {
    ghost var cfg := state.cfg;
    ghost var w := World(store.rows, disk.files);
    built := 0;
    NothingDone(cfg, mover, catalog, filter, w, rels);
    hide BuildAll, Build, Tracks, WellPlaced, Advanced;
    for i := 0 to |rels|
      invariant state.Mirrors(store.rows) && state.cfg == cfg
      invariant BuildAll(cfg, mover, catalog, filter, w, rels[..i]) == Outcome(World(store.rows, disk.files), true)
      invariant Tracks(cfg, w.t, store.rows, built, state.parityDegraded)
      invariant fresh(state.objs - old(state.objs))
    {
      OneMoreDataset(cfg, mover, catalog, filter, w, rels, i, World(store.rows, disk.files));
      if Wanted(filter, rels[i]) {
        if rels[i].dataset !in catalog {
          GaveUp(cfg, w.t, store.rows, built, state.parityDegraded, built, state.parityDegraded, false);
          return built, false;
        }
        built, ok := BuildOneDataset(state, store, disk, mover, ItemsOf(rels[i], catalog[rels[i].dataset]), built,
                                     w.t);
        if !ok { return built, false; }
      }
    }
    assert rels[..|rels|] == rels;
    GaveUp(cfg, w.t, store.rows, built, state.parityDegraded, built, state.parityDegraded, true);
    return built, true;
  }

  lemma GaveUp(cfg: Config, t: Table, t': Table, n: nat, d: bool, built: nat, degraded: bool, ok: bool)
    requires cfg.Ok() && Tracks(cfg, t, t', n, d) && (ok ==> built == n && degraded == d)
    ensures Advanced(cfg, t, t', built, degraded, ok)
  {
  }

  method BuildOneDataset(state: PlacementState, store: Store, disk: Disk, mover: Mover, items: seq<Item>, built: nat,
                         ghost t: Table) returns (built': nat, ok: bool)
    requires state.Mirrors(store.rows) && state.cfg.Ok()
    requires Tracks(state.cfg, t, store.rows, built, state.parityDegraded)
    modifies state, store, disk, state.objs
    ensures Outcome(World(store.rows, disk.files), ok)
         == Build(state.cfg, mover, World(old(store.rows), old(disk.files)), items)
    ensures ok ==> state.Mirrors(store.rows)
    ensures ok ==> Tracks(state.cfg, t, store.rows, built', state.parityDegraded)
    ensures Advanced(state.cfg, t, store.rows, built', state.parityDegraded, ok)
    ensures fresh(state.objs - old(state.objs))
  {
    ghost var cfg, w, before := state.cfg, World(store.rows, disk.files), state.parityDegraded;
    assert WellPlaced(cfg, w.t);
    hide Build, Degrades, Placements, Tracks, WellPlaced, Advanced;
    var n;
    n, ok := BuildDataset(state, store, disk, mover, items);
    built' := built + n;
    OneDatasetTracks(cfg, mover, t, w, items, built, before, World(store.rows, disk.files), ok, n,
                     state.parityDegraded);
  }

  /** What a built dataset means for the tables and counts. */
  lemma OneDatasetTracks(cfg: Config, mover: Mover, t: Table, w: World, items: seq<Item>, built: nat, before: bool,
                         w': World, ok: bool, n: nat, degraded: bool)
    requires cfg.Ok() && Tracks(cfg, t, w.t, built, before)
    requires Outcome(w', ok) == Build(cfg, mover, w, items)
    requires ok ==> n == Placements(cfg, mover, w, items) && (degraded <==> before || Degrades(cfg, mover, w, items))
    ensures ok ==> Tracks(cfg, t, w'.t, built + n, degraded)
    ensures Advanced(cfg, t, w'.t, built + n, degraded, ok)
  {
    hide Build, Degrades, Placements, Tracks, Advanced, WellPlaced;
    TracksMore(cfg, mover, t, w, items, built, before);
    GaveUp(cfg, t, w'.t, built + Placements(cfg, mover, w, items), before || Degrades(cfg, mover, w, items), built + n,
           degraded, ok);
  }

  lemma NothingDone(cfg: Config, mover: Mover, catalog: Catalog, filter: Option<int>, w: World, rels: PlainRelations)
    requires cfg.Ok() && WellPlaced(cfg, w.t)
    ensures BuildAll(cfg, mover, catalog, filter, w, rels[..0]) == Outcome(w, true) && Tracks(cfg, w.t, w.t, 0, false)
  {
  }

  /** Tables and counts after the loop, whether it went through or not. */
  ghost predicate Advanced(cfg: Config, t: Table, t': Table, built: nat, degraded: bool, ok: bool)
    requires cfg.Ok()
  {
    if ok then Tracks(cfg, t, t', built, degraded) else exists n, d :: Tracks(cfg, t, t', n, d)
  }

  /** What the command does to the world and the arcset. Choosing one dataset fails when nothing was placed,
      even when the dataset is registered and all its shards have been placed before. */
  ghost predicate BuildsData(a: Arcset, mover: Mover, catalog: Catalog, filter: Option<int>, own: PlainRelations,
                             w: World, a': Arcset, out: Outcome)
    requires a.cfg.Ok()
  {
    if !Buildable(a) then a' == a && out == Outcome(w, false)
    else
      var all := BuildAll(a.cfg, mover, catalog, filter, w, own);
      && out.w == all.w
      && (out.ok <==> all.ok && (filter.Some? ==> |DataKeys(out.w.t)| > |DataKeys(w.t)|))
      && a' == if out.ok && LosesParity(w.t, out.w.t) then a.(parityDegraded := true) else a
  }

  /** Some shard of the list is not in the table. */
  ghost predicate Unplaced(t: Table, items: seq<Item>) {
    exists item :: item in items && !HasSource(t, item.source)
  }

  /** A run that goes through adds DATA rows exactly when some shard was not placed before. */
  lemma GrowsExactly(cfg: Config, mover: Mover, w: World, items: seq<Item>)
    requires cfg.Ok() && Build(cfg, mover, w, items).ok
    ensures |DataKeys(Build(cfg, mover, w, items).w.t)| > |DataKeys(w.t)| <==> Unplaced(w.t, items)
  {
    var t' := Build(cfg, mover, w, items).w.t;
    PlacementsAddRows(cfg, mover, w, items);
    if item :| item in items && !HasSource(w.t, item.source) {
      BuildKeepsSources(cfg, mover, w, items);
      hide Build;
      var k :| k in t' && t'[k].kind.DATA? && t'[k].source == Some(item.source);
      assert k in DataKeys(t') && k !in DataKeys(w.t);
      MoreKeys(DataKeys(w.t), DataKeys(t'), k);
    } else {
      PlacedAreSkipped(cfg, mover, w, items);
    }
  }

  /** When the command succeeds, and what it leaves. With one dataset chosen it takes a shard that has not been placed
      before: a registered dataset that is fully placed is refused. */
  lemma SucceedsExactly(a: Arcset, mover: Mover, catalog: Catalog, filter: Option<int>, own: PlainRelations, w: World,
                        a': Arcset, out: Outcome)
    requires a.cfg.Ok() && BuildsData(a, mover, catalog, filter, own, w, a', out)
    ensures var items := AllItems(catalog, filter, own);
            if !(a.status.Building? && a.phase.DataPhase? && a.health.Healthy?)
            then !out.ok && out.w == w && a' == a
            else
              && out.w == Build(a.cfg, mover, w, items).w
              && (out.ok <==> Build(a.cfg, mover, w, items).ok && AllOpen(catalog, filter, own)
                              && (filter.Some? ==> Unplaced(w.t, items)))
              && a' == if out.ok && LosesParity(w.t, out.w.t) then a.(parityDegraded := true) else a
  {
    var items := AllItems(catalog, filter, own);
    BuildAllIsBuild(a.cfg, mover, catalog, filter, w, own);
    hide BuildAll, AllItems, Unplaced, DataKeys;
    if Build(a.cfg, mover, w, items).ok {
      GrowsExactly(a.cfg, mover, w, items);
    }
    hide Build, LosesParity;
  }

  /** A DATA row that a run brings is that of a shard of the list. */
  ghost predicate RowFrom(cfg: Config, row: Row, item: Item) {
    && row.kind.DATA? && row.source == Some(item.source) && row.sum == Some(item.sum)
    && (item.size > 0 ==> row.size == item.size)
    && row.path.Data? && row.path.shard == item.datasetKey + "-" + BaseName(cfg.naming, item.src)
  }

  lemma StepRowFrom(cfg: Config, mover: Mover, w: World, item: Item, k: Key)
    requires cfg.Ok()
    ensures var t' := Step(cfg, mover, w, item).w.t;
            IsData(t', k) ==> (IsData(w.t, k) && t'[k] == w.t[k]) || RowFrom(cfg, t'[k], item)
  {
    hide SlotChoice.Choice;
  }

  lemma {:induction false} BuildRowsFrom(cfg: Config, mover: Mover, w: World, items: seq<Item>, k: Key)
    requires cfg.Ok()
    ensures var t' := Build(cfg, mover, w, items).w.t;
            IsData(t', k) ==>
              (IsData(w.t, k) && t'[k] == w.t[k]) || exists item :: item in items && RowFrom(cfg, t'[k], item)
  {
    if items != [] {
      var n := |items| - 1;
      BuildRowsFrom(cfg, mover, w, items[..n], k);
      StepRowFrom(cfg, mover, Build(cfg, mover, w, items[..n]).w, items[n], k);
      assert forall item | item in items[..n] :: item in items;
      assert items[n] in items;
      hide Step, RowFrom;
    }
  }

  /** The shard of a registered dataset that a row is of, the one that was chosen if one was. */
  ghost predicate ChosenRow(cfg: Config, catalog: Catalog, filter: Option<int>, own: PlainRelations, row: Row) {
    exists i, j | 0 <= i < |own| && own[i].dataset in catalog && 0 <= j < |catalog[own[i].dataset]| ::
      && (filter.Some? ==> own[i].dataset == filter.value)
      && var sh := catalog[own[i].dataset][j];
      && row.source == Some(Source(own[i].dataset, sh.number)) && row.sum == Some(sh.sum)
      && (sh.size > 0 ==> row.size == sh.size)
      && row.path.Data? && row.path.shard == own[i].key + "-" + BaseName(cfg.naming, sh.src)
  }

  /** The table has the dataset's shard of this number. */
  ghost predicate IsPlaced(t: Table, dataset: int, number: int) {
    exists k ::
      IsData(t, k) && t[k].source.Some? && t[k].source.value.dataset == dataset && t[k].source.value.number == number
  }

  /** Only shards of the chosen datasets are placed, under the keys of their datasets, and when the command succeeds all
      of them are. */
  lemma PlacesChosen(a: Arcset, mover: Mover, catalog: Catalog, filter: Option<int>, own: PlainRelations, w: World,
                     a': Arcset, out: Outcome)
    requires a.cfg.Ok() && BuildsData(a, mover, catalog, filter, own, w, a', out)
    ensures forall k | IsData(out.w.t, k) ::
              (IsData(w.t, k) && out.w.t[k] == w.t[k]) || ChosenRow(a.cfg, catalog, filter, own, out.w.t[k])
    ensures out.ok ==>
              forall i | 0 <= i < |own| && (filter.None? || own[i].dataset == filter.value) ::
                && own[i].dataset in catalog
                && forall j | 0 <= j < |catalog[own[i].dataset]| ::
                     IsPlaced(out.w.t, own[i].dataset, catalog[own[i].dataset][j].number)
  {
    var items := AllItems(catalog, filter, own);
    SucceedsExactly(a, mover, catalog, filter, own, w, a', out);
    BuildKeepsSources(a.cfg, mover, w, items);
    hide BuildsData, AllItems, Build, HasSource, Unplaced;
    forall k | IsData(out.w.t, k)
      ensures (IsData(w.t, k) && out.w.t[k] == w.t[k]) || ChosenRow(a.cfg, catalog, filter, own, out.w.t[k])
    {
      BuildRowsFrom(a.cfg, mover, w, items, k);
      if item :| item in items && RowFrom(a.cfg, out.w.t[k], item) {
        ItemsFromCatalog(catalog, filter, own, item);
        RowOfItem(a.cfg, catalog, filter, own, out.w.t[k], item);
      }
    }
    if out.ok {
      forall i, j: nat | 0 <= i < |own| && (filter.None? || own[i].dataset == filter.value)
        ensures own[i].dataset in catalog
        ensures j < |catalog[own[i].dataset]| ==>
                  IsPlaced(out.w.t, own[i].dataset, catalog[own[i].dataset][j].number)
      {
        AllItemsHas(catalog, filter, own, i, j);
        hide IsPlaced;
        if j < |catalog[own[i].dataset]| {
          PlacedHasRow(out.w.t, own[i].dataset, catalog[own[i].dataset][j].number);
        }
      }
    }
  }

  lemma PlacedHasRow(t: Table, dataset: int, number: int)
    requires HasSource(t, Source(dataset, number))
    ensures IsPlaced(t, dataset, number)
  {
    var k :| k in t && t[k].kind.DATA? && t[k].source == Some(Source(dataset, number));
    assert IsData(t, k);
  }

  lemma RowOfItem(cfg: Config, catalog: Catalog, filter: Option<int>, own: PlainRelations, row: Row, item: Item)
    requires FromCatalog(catalog, filter, own, item) && RowFrom(cfg, row, item)
    ensures ChosenRow(cfg, catalog, filter, own, row)
  {
    var i, j :| 0 <= i < |own| && Wanted(filter, own[i]) && own[i].dataset in catalog
                && 0 <= j < |catalog[own[i].dataset]| && item == ItemsOf(own[i], catalog[own[i].dataset])[j];
    assert item.source == Source(own[i].dataset, catalog[own[i].dataset][j].number);
  }

  /** Choosing a dataset whose shards are all placed changes nothing and fails. */
  lemma PlacedDatasetFails(a: Arcset, mover: Mover, catalog: Catalog, dataset: int, own: PlainRelations, w: World,
                           a': Arcset, out: Outcome)
    requires a.cfg.Ok() && BuildsData(a, mover, catalog, Some(dataset), own, w, a', out)
    requires dataset in catalog ==>
               forall i | 0 <= i < |catalog[dataset]| :: HasSource(w.t, Source(dataset, catalog[dataset][i].number))
    ensures !out.ok && out.w == w && a' == a
  {
    if Buildable(a) {
      var items := AllItems(catalog, Some(dataset), own);
      forall item | item in items ensures HasSource(w.t, item.source) {
        ItemsFromCatalog(catalog, Some(dataset), own, item);
      }
      PlacedAreSkipped(a.cfg, mover, w, items);
      hide AllItems, Build, BuildAll;
      SucceedsExactly(a, mover, catalog, Some(dataset), own, w, a', out);
    }
  }

  lemma MoreKeys(a: set<Key>, b: set<Key>, k: Key)
    requires a <= b && k in b && k !in a
    ensures |a| < |b|
  {
    assert b == a + (b - a);
    assert k in b - a;
  }

  method Run(registry: Registry, arcset: nat, store: Store, disk: Disk, mover: Mover, catalog: Catalog,
             filter: Option<int>) returns (built: nat, ok: bool)
    requires arcset in registry.arcsets ==>
               registry.arcsets[arcset].cfg.Ok() && WellPlaced(registry.arcsets[arcset].cfg, store.rows)
    requires PlainKeys(registry.relations)
    modifies registry`arcsets, store, disk
    ensures arcset !in old(registry.arcsets) ==>
              !ok && store.rows == old(store.rows) && disk.files == old(disk.files)
              && registry.arcsets == old(registry.arcsets)
    ensures arcset in old(registry.arcsets) ==>
              && arcset in registry.arcsets
              && registry.arcsets == old(registry.arcsets)[arcset := registry.arcsets[arcset]]
              && BuildsData(old(registry.arcsets)[arcset], mover, catalog, filter,
                            RelationsOf(registry.relations, arcset),
                            World(old(store.rows), old(disk.files)), registry.arcsets[arcset],
                            Outcome(World(store.rows, disk.files), ok))
    ensures ok ==> built == |DataKeys(store.rows)| - |DataKeys(old(store.rows))|
  {
    if arcset !in registry.arcsets { return 0, false; }
    var a := registry.arcsets[arcset];
    if !Buildable(a) { return 0, false; }
    hide BuildAll, LosesParity, DataKeys, WellPlaced, Lists;
    var degraded;
    var own := RelationsOf(registry.relations, arcset);
    built, ok, degraded := LoadAndBuild(a.cfg, store, disk, mover, catalog, filter, own);
    if !ok { return; }
    if filter.Some? && built == 0 { return 0, false; }
    if degraded { registry.SetParityDegraded(arcset, true); }
  }

  method LoadAndBuild(cfg: Config, store: Store, disk: Disk, mover: Mover, catalog: Catalog, filter: Option<int>,
                      rels: PlainRelations) returns (built: nat, ok: bool, degraded: bool)
    requires cfg.Ok() && WellPlaced(cfg, store.rows)
    modifies store, disk
    ensures Outcome(World(store.rows, disk.files), ok)
         == BuildAll(cfg, mover, catalog, filter, World(old(store.rows), old(disk.files)), rels)
    ensures Advanced(cfg, old(store.rows), store.rows, built, degraded, ok)
  {
    hide BuildAll, WellPlaced, Lists, Advanced;
    var state := new PlacementState(cfg);
    var list := ListShards(store);
    state.Load(list, store.rows);
    built, ok := BuildDatasets(state, store, disk, mover, catalog, filter, rels);
    degraded := state.parityDegraded;
  }
}
