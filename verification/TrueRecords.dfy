/** What honest catalogs give: in every state of every life recorded sizes and checksums are those of the files. */
module TrueRecords {
  import opened Bytes
  import opened Paths
  import opened Disk
  import opened Layout
  import opened ShardTable
  import SlotChoice
  import opened MoveFile
  import opened Placement
  import opened BuildSpec
  import opened BuildRetry
  import opened BuildCommand
  import opened StripeTask
  import opened LossTolerance
  import opened CompleteStripes
  import opened Freshness
  import opened Arcset
  import opened Lifecycle

  /** A shard of a dataset whose checksum is recorded, is that of its file when the arcset's life begins, and is shared
      only by contents of the recorded size. */
  ghost predicate Honest(mover: Mover, fs: Files, src: Path, size: nat, sum: string) {
    && src.Outside? && sum != ""
    && (src in fs ==> mover.hash(fs[src]) == sum)
    && forall b: Bytes | mover.hash(b) == sum :: |b| == size
  }

  ghost predicate HonestCatalog(mover: Mover, fs: Files, catalog: Catalog) {
    forall d | d in catalog :: forall sh | sh in catalog[d] :: Honest(mover, fs, sh.src, sh.size, sh.sum)
  }

  ghost predicate HonestItem(mover: Mover, fs: Files, item: Item) {
    Honest(mover, fs, item.src, item.size, item.sum)
  }

  /** Every build-data of the life, finished or killed, reads an honest catalog. */
  ghost predicate HonestLife(mover: Mover, fs: Files, cmds: seq<Command>) {
    forall cmd | cmd in cmds && (cmd.BuildData? || cmd.BuildKilled?) :: HonestCatalog(mover, fs, cmd.catalog)
  }

  /** Recorded sizes and checksums are those of the files; every DATA row has a checksum. */
  ghost predicate RecordsTrue(hash: Bytes -> string, w: World) {
    forall k | IsData(w.t, k) :: RowTrue(hash, w.fs, w.t[k])
  }

  ghost predicate RowTrue(hash: Bytes -> string, fs: Files, row: Row) {
    row.path in fs && |fs[row.path]| == row.size && row.sum == Some(hash(fs[row.path]))
  }

  ghost predicate AllSummed(t: Table) {
    forall k | IsData(t, k) :: t[k].sum.Some?
  }

  lemma TrueFacts(env: Env, w: World)
    requires RecordsTrue(env.hash, w)
    ensures SizesTrue(w) && SumsTrue(env, w) && AllSummed(w.t)
  {
    forall k | k in w.t && w.t[k].kind.DATA? ensures RowTrue(env.hash, w.fs, w.t[k]) {
      assert IsData(w.t, k);
    }
  }

  // ---- a placement --------------------------------------------------------------------------

  /** The bytes that arrive are those the catalog speaks of. */
  lemma ContentIsHonest(cfg: Config, mover: Mover, fs0: Files, w: World, item: Item)
    requires cfg.Ok() && Places(cfg, mover, w, item) && HonestItem(mover, fs0, item) && SourcesFrom(fs0, w.fs)
    ensures Dst(cfg, w, item) in w.fs || item.src in w.fs
    ensures var b := Content(cfg, w, item);
            mover.hash(b) == item.sum && |b| == item.size == ItemSize(w.fs, item)
  {
    MoveFacts(cfg, mover, w, item);
    var b := Content(cfg, w, item);
    assert item.src in w.fs ==> mover.hash(w.fs[item.src]) == item.sum;
    assert mover.hash(b) == item.sum;
    assert item.src in w.fs ==> |w.fs[item.src]| == item.size;
  }

  /** The rows of an interrupted placement: those before, and at the end the new one. */
  lemma StoppedData(cfg: Config, mover: Mover, w: World, item: Item, stop: Stop, k: Key)
    requires cfg.Ok() && Places(cfg, mover, w, item) && IsData(Stopped(cfg, mover, w, item, stop).t, k)
    ensures var c := Stopped(cfg, mover, w, item, stop);
            || (IsData(w.t, k) && c.t[k] == w.t[k])
            || (stop.AfterStore? && c.fs == MovedFiles(cfg, mover, w, item)
                && c.t[k] == DataRow(cfg, SlotKey(cfg, w, item), item, ItemSize(w.fs, item)))
  {
  }

  lemma PlacementStaysTrue(cfg: Config, mover: Mover, fs0: Files, w: World, item: Item, stop: Stop)
    requires cfg.Ok() && Settled(cfg, w) && Places(cfg, mover, w, item) && HonestItem(mover, fs0, item)
    requires RecordsTrue(mover.hash, w) && SourcesFrom(fs0, w.fs)
    ensures var c := Stopped(cfg, mover, w, item, stop);
            RecordsTrue(mover.hash, c) && SourcesFrom(fs0, c.fs)
  {
    var c := Stopped(cfg, mover, w, item, stop);
    StoppedKeeps(cfg, mover, w, item, stop);
    PlacementKeepsFiles(cfg, mover, w, item, stop);
    ContentIsHonest(cfg, mover, fs0, w, item);
    MoveFacts(cfg, mover, w, item);
    hide Stopped, Settled, HonestItem, Content, MovedFiles, SlotChoice.Choice;
    forall k | IsData(c.t, k) ensures RowTrue(mover.hash, c.fs, c.t[k]) {
      StoppedData(cfg, mover, w, item, stop, k);
      if IsData(w.t, k) && c.t[k] == w.t[k] {
        assert ShardKept(w, c, k);
        assert RowTrue(mover.hash, w.fs, w.t[k]);
      }
    }
  }

  lemma {:induction false} BuildStaysTrue(cfg: Config, mover: Mover, fs0: Files, w: World, items: seq<Item>)
    requires cfg.Ok() && Settled(cfg, w) && RecordsTrue(mover.hash, w) && SourcesFrom(fs0, w.fs)
    requires forall item | item in items :: HonestItem(mover, fs0, item)
    ensures var w' := Build(cfg, mover, w, items).w;
            RecordsTrue(mover.hash, w') && SourcesFrom(fs0, w'.fs)
  {
    if items != [] {
      var n := |items| - 1;
      assert forall item | item in items[..n] :: item in items;
      assert items[n] in items;
      BuildStaysTrue(cfg, mover, fs0, w, items[..n]);
      BuildKeeps(cfg, mover, w, items[..n]);
      var before := Build(cfg, mover, w, items[..n]);
      var places := before.ok && Places(cfg, mover, before.w, items[n]);
      assert Build(cfg, mover, w, items).w
          == if places then Stopped(cfg, mover, before.w, items[n], AfterStore) else before.w;
      hide Settled, RecordsTrue, Build, Step, Stopped, HonestItem;
      if places {
        PlacementStaysTrue(cfg, mover, fs0, before.w, items[n], AfterStore);
      }
    }
  }

  lemma ItemsHonest(mover: Mover, fs0: Files, catalog: Catalog, filter: Option<int>, rels: PlainRelations)
    requires HonestCatalog(mover, fs0, catalog)
    ensures forall item | item in AllItems(catalog, filter, rels) :: HonestItem(mover, fs0, item)
  {
    hide Honest;
    forall item | item in AllItems(catalog, filter, rels) ensures HonestItem(mover, fs0, item) {
      ItemsFromCatalog(catalog, filter, rels, item);
    }
  }

  // ---- whole lives --------------------------------------------------------------------------

  /** The system's records are true, and no new files have come outside the tree. */
  ghost predicate Truth(setup: Setup, fs0: Files, s: System) {
    RecordsTrue(setup.mover.hash, s.w) && SourcesFrom(fs0, s.w.fs)
  }

  lemma BuildDataStaysTrue(setup: Setup, fs0: Files, s: System, catalog: Catalog, filter: Option<int>, s': System)
    requires Inv(setup, s) && Next(setup, s, BuildData(catalog, filter), s')
    requires HonestCatalog(setup.mover, fs0, catalog) && Truth(setup, fs0, s)
    ensures Truth(setup, fs0, s')
  {
    var cfg := s.a.cfg;
    if Buildable(s.a) {
      ItemsHonest(setup.mover, fs0, catalog, filter, s.own);
      BuildAllIsBuild(cfg, setup.mover, catalog, filter, s.w, s.own);
      BuildStaysTrue(cfg, setup.mover, fs0, s.w, AllItems(catalog, filter, s.own));
    }
    hide Settled, Fresh, AllSolid, RecordsTrue, SourcesFrom, BuildAll, HonestItem;
  }

  lemma BuildKilledStaysTrue(setup: Setup, fs0: Files, s: System, catalog: Catalog, filter: Option<int>, i: nat,
                             stop: Stop,
                             s': System)
    requires Inv(setup, s) && Next(setup, s, BuildKilled(catalog, filter, i, stop), s')
    requires HonestCatalog(setup.mover, fs0, catalog) && Truth(setup, fs0, s)
    ensures Truth(setup, fs0, s')
  {
    var cfg, mover := s.a.cfg, setup.mover;
    var items := AllItems(catalog, filter, s.own);
    ItemsHonest(mover, fs0, catalog, filter, s.own);
    assert forall item | item in items[..i] :: item in items;
    assert items[i] in items;
    hide HonestItem, RecordsTrue, SourcesFrom, Fresh, AllSolid;
    BuildStaysTrue(cfg, mover, fs0, s.w, items[..i]);
    BuildKeeps(cfg, mover, s.w, items[..i]);
    PlacementStaysTrue(cfg, mover, fs0, Build(cfg, mover, s.w, items[..i]).w, items[i], stop);
  }

  /** Commands that bring no DATA rows keep the records true. */
  lemma OthersStayTrue(setup: Setup, fs0: Files, s: System, s': System)
    requires Truth(setup, fs0, s) && KeepsData(s.w, s'.w) && AddsNothing(s.w, s'.w)
    ensures Truth(setup, fs0, s')
  {
    var hash := setup.mover.hash;
    forall k | IsData(s'.w.t, k) ensures RowTrue(hash, s'.w.fs, s'.w.t[k]) {
      assert IsData(s.w.t, k);
      assert ShardKept(s.w, s'.w, k);
      assert RowTrue(hash, s.w.fs, s.w.t[k]);
    }
  }

  lemma NextStaysTrue(setup: Setup, fs0: Files, s: System, cmd: Command, s': System)
    requires Inv(setup, s) && Next(setup, s, cmd, s') && Truth(setup, fs0, s)
    requires cmd.BuildData? || cmd.BuildKilled? ==> HonestCatalog(setup.mover, fs0, cmd.catalog)
    ensures Truth(setup, fs0, s')
  {
    NextKeeps(setup, s, cmd, s');
    hide Inv, Next, Truth, HonestCatalog, KeepsData, AddsNothing;
    match cmd
    case BuildData(catalog, filter) => BuildDataStaysTrue(setup, fs0, s, catalog, filter, s');
    case BuildKilled(catalog, filter, i, stop) => BuildKilledStaysTrue(setup, fs0, s, catalog, filter, i, stop, s');
    case _ => OthersStayTrue(setup, fs0, s, s');
  }

  lemma OneCommandStaysTrue(setup: Setup, cfg: Config, fs: Files, cmds: seq<Command>, states: seq<System>, i: nat)
    requires Suits(setup, cfg) && HonestLife(setup.mover, fs, cmds)
    requires Lives(setup, cfg, fs, cmds, states) && i < |cmds| && Truth(setup, fs, states[i])
    ensures Truth(setup, fs, states[i + 1])
  {
    EveryStateIsSound(setup, cfg, fs, cmds, states, i);
    assert cmds[i] in cmds;
    hide Inv, Next, Truth, HonestCatalog;
    NextStaysTrue(setup, fs, states[i], cmds[i], states[i + 1]);
  }

  lemma TruthStarts(setup: Setup, cfg: Config, fs: Files, cmds: seq<Command>, states: seq<System>)
    requires Suits(setup, cfg) && Lives(setup, cfg, fs, cmds, states)
    ensures Truth(setup, fs, states[0])
  {
    hide Next;
  }

  lemma TruthStays(setup: Setup, cfg: Config, fs: Files, cmds: seq<Command>, states: seq<System>, i: nat)
    requires Suits(setup, cfg) && HonestLife(setup.mover, fs, cmds)
    requires Lives(setup, cfg, fs, cmds, states) && i <= |cmds|
    ensures Truth(setup, fs, states[i])
  {
    hide Truth, HonestLife, Next;
    TruthStarts(setup, cfg, fs, cmds, states);
    for n := 0 to i
      invariant Truth(setup, fs, states[n])
    {
      OneCommandStaysTrue(setup, cfg, fs, cmds, states, n);
    }
  }

  /** Over every life with honest catalogs, finished or killed anywhere: in every state every DATA row has its file, of
      the recorded size and checksum. */
  lemma RecordsStayTrue(setup: Setup, cfg: Config, fs: Files, cmds: seq<Command>, states: seq<System>, i: nat)
    requires Suits(setup, cfg) && HonestLife(setup.mover, fs, cmds)
    requires Lives(setup, cfg, fs, cmds, states) && i <= |cmds|
    ensures var env, w := EnvOf(setup, states[i].a), states[i].w;
            SizesTrue(w) && SumsTrue(env, w) && AllSummed(w.t)
  {
    TruthStays(setup, cfg, fs, cmds, states, i);
    hide Lives, HonestLife, RecordsTrue;
    TrueFacts(EnvOf(setup, states[i].a), states[i].w);
  }

  // ---- lives without empty shards -----------------------------------------------------------

  /** No shard of any catalog is empty. */
  ghost predicate NoEmptyShards(cmds: seq<Command>) {
    forall cmd | cmd in cmds && (cmd.BuildData? || cmd.BuildKilled?) :: FilledCatalog(cmd.catalog)
  }

  ghost predicate FilledCatalog(catalog: Catalog) {
    forall d | d in catalog :: forall sh | sh in catalog[d] :: sh.size > 0
  }

  ghost predicate SizesPositive(t: Table) {
    forall k | IsData(t, k) :: t[k].size > 0
  }

  lemma ItemsFilled(catalog: Catalog, filter: Option<int>, rels: PlainRelations)
    requires FilledCatalog(catalog)
    ensures forall item | item in AllItems(catalog, filter, rels) :: item.size > 0
  {
    forall item | item in AllItems(catalog, filter, rels) ensures item.size > 0 {
      ItemsFromCatalog(catalog, filter, rels, item);
    }
  }

  lemma PlacementStaysPositive(cfg: Config, mover: Mover, w: World, item: Item, stop: Stop)
    requires cfg.Ok() && Places(cfg, mover, w, item) && item.size > 0 && SizesPositive(w.t)
    ensures SizesPositive(Stopped(cfg, mover, w, item, stop).t)
  {
    var c := Stopped(cfg, mover, w, item, stop);
    hide Stopped, SlotChoice.Choice;
    forall k | IsData(c.t, k) ensures c.t[k].size > 0 {
      StoppedData(cfg, mover, w, item, stop, k);
    }
  }

  lemma {:induction false} BuildStaysPositive(cfg: Config, mover: Mover, w: World, items: seq<Item>)
    requires cfg.Ok() && SizesPositive(w.t) && forall item | item in items :: item.size > 0
    ensures SizesPositive(Build(cfg, mover, w, items).w.t)
  {
    if items != [] {
      var n := |items| - 1;
      assert forall item | item in items[..n] :: item in items;
      assert items[n] in items;
      BuildStaysPositive(cfg, mover, w, items[..n]);
      var before := Build(cfg, mover, w, items[..n]);
      hide SizesPositive;
      if before.ok && Places(cfg, mover, before.w, items[n]) {
        PlacementStaysPositive(cfg, mover, before.w, items[n], AfterStore);
      }
    }
  }

  lemma NextStaysPositive(setup: Setup, s: System, cmd: Command, s': System)
    requires Inv(setup, s) && Next(setup, s, cmd, s') && SizesPositive(s.w.t)
    requires cmd.BuildData? || cmd.BuildKilled? ==> FilledCatalog(cmd.catalog)
    ensures SizesPositive(s'.w.t)
  {
    NextKeeps(setup, s, cmd, s');
    var cfg, mover := s.a.cfg, setup.mover;
    if cmd.BuildData? {
      ItemsFilled(cmd.catalog, cmd.filter, s.own);
      if Buildable(s.a) {
        BuildAllIsBuild(cfg, mover, cmd.catalog, cmd.filter, s.w, s.own);
        BuildStaysPositive(cfg, mover, s.w, AllItems(cmd.catalog, cmd.filter, s.own));
      }
    } else if cmd.BuildKilled? {
      var items := AllItems(cmd.catalog, cmd.filter, s.own);
      ItemsFilled(cmd.catalog, cmd.filter, s.own);
      BuildStaysPositive(cfg, mover, s.w, items[..cmd.i]);
      PlacementStaysPositive(cfg, mover, Build(cfg, mover, s.w, items[..cmd.i]).w, items[cmd.i], cmd.stop);
    } else {
      hide Inv, Next;
      forall k | IsData(s'.w.t, k) ensures s'.w.t[k].size > 0 {
        assert IsData(s.w.t, k);
        assert ShardKept(s.w, s'.w, k);
      }
    }
  }

  lemma OneCommandStaysPositive(setup: Setup, cfg: Config, fs: Files, cmds: seq<Command>, states: seq<System>, i: nat)
    requires Suits(setup, cfg) && NoEmptyShards(cmds)
    requires Lives(setup, cfg, fs, cmds, states) && i < |cmds| && SizesPositive(states[i].w.t)
    ensures SizesPositive(states[i + 1].w.t)
  {
    EveryStateIsSound(setup, cfg, fs, cmds, states, i);
    assert cmds[i] in cmds;
    hide Inv, Next;
    NextStaysPositive(setup, states[i], cmds[i], states[i + 1]);
  }

  /** In lives without empty shards every DATA row has a positive size. */
  lemma SizesStayPositive(setup: Setup, cfg: Config, fs: Files, cmds: seq<Command>, states: seq<System>, i: nat)
    requires Suits(setup, cfg) && NoEmptyShards(cmds)
    requires Lives(setup, cfg, fs, cmds, states) && i <= |cmds|
    ensures SizesPositive(states[i].w.t)
  {
    hide SizesPositive, NoEmptyShards;
    assert SizesPositive(states[0].w.t) by { NothingPlaced(); }
    for n := 0 to i
      invariant SizesPositive(states[n].w.t)
    {
      OneCommandStaysPositive(setup, cfg, fs, cmds, states, n);
    }
  }

  lemma NothingPlaced()
    ensures SizesPositive(map[])
  {
  }
}
