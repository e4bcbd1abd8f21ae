/** The life of an arcset: every run of commands, whole or cut short, keeps the promises of its state. */
module Lifecycle {
  import opened Bytes
  import opened Paths
  import opened Disk
  import opened Layout
  import opened ShardTable
  import opened ColumnCode
  import opened StripeBytes
  import opened Stream
  import opened MoveFile
  import opened Placement
  import opened BuildSpec
  import opened BuildRetry
  import opened BuildCommand
  import opened StripeTask
  import opened StripeRun
  import opened StripeView
  import opened Schedule
  import opened BuildStripes
  import opened Freshness
  import opened LossTolerance
  import opened PartitionLoss
  import opened MakeEcRun
  import opened MakeEcKeeps
  import opened CompleteStripes
  import opened Recover
  import opened Validate
  import opened Arcset

  /** What never changes: the erasure code, and the way files are moved with the checksum of all commands. */
  datatype Setup = Setup(code: Code, mover: Mover)

  datatype System = System(a: Arcset, own: PlainRelations, w: World)

  function EnvOf(setup: Setup, a: Arcset): Env { Env(a.cfg, setup.code, setup.mover.hash) }

  /** The code has the shape of the configuration; an arcset without parity needs none. */
  ghost predicate Suits(setup: Setup, cfg: Config) {
    cfg.Ok() && (cfg.m > 0 ==> Env(cfg, setup.code, setup.mover.hash).Ok())
  }

  datatype Command =
    | Append(dataset: int, key: PlainName, shards: nat)
    | BuildData(catalog: Catalog, filter: Option<int>)
    | BuildKilled(catalog: Catalog, filter: Option<int>, i: nat, stop: Stop)
    | MakeEc(group: Option<nat>, stripe: Option<nat>)
    | MakeEcParallel(group: Option<nat>, stripe: Option<nat>, schedule: seq<StripeKey>)
    | Validate(stage: string)
    | Expand(groups: nat)
    | Recover(shard: Key, target: string)
    | RecoverKilled(shard: Key, target: string, upTo: nat)
    | LoseAndRecover(parts: set<nat>, keys: seq<Key>)

  /** Datasets keep their shards outside the tree of the arcset. */
  ghost predicate FromOutside(catalog: Catalog) {
    forall d | d in catalog :: forall sh | sh in catalog[d] :: sh.src.Outside?
  }

  /** Appending a dataset. It is refused, too, when the dataset is in another arcset. */
  ghost predicate Appends(s: System, dataset: int, key: PlainName, shards: nat, s': System) {
    || s' == s
    || (&& !Registered(s.own, dataset) && key != "" && s.a.health.Healthy?
        && !(s.a.status.Building? && s.a.phase.ECPhase?)
        && (forall r | r in s.own :: r.key != key)
        && exists rel: PlainRelation ::
             && rel.dataset == dataset && rel.key == key && rel.shards == shards
             && (forall r | r in s.own :: r.order < rel.order)
             && s' == System(s.a.(status := Building, phase := DataPhase), s.own + [rel], s.w))
  }

  /** What a registration does to an arcset and its relations is the append of a life. */
  lemma RegistrationAppends(a: Arcset, rels: Relations, w: World, id: nat, rel: PlainRelation, a': Arcset)
    requires RelationsUnique(rels) && PlainKeys(rels) && rel.arcset == id && rel.key != ""
    requires a.health.Healthy? && !(a.status.Building? && a.phase.ECPhase?)
    requires !Registered(rels, rel.dataset) && !KeyTaken(rels, id, rel.key) && IsNextOrder(rels, id, rel.order)
    requires a' == a.(status := Building, phase := DataPhase)
    ensures Appends(System(a, RelationsOf(rels, id), w), rel.dataset, rel.key, rel.shards,
                    System(a', RelationsOf(rels + [rel], id), w))
  {
    AppendKeepsUnique(rels, rel);
    ListedInOrder(rels, id);
    var own: PlainRelations := RelationsOf(rels, id);
    forall r | r in own ensures r.key != rel.key && r.order < rel.order && r.dataset != rel.dataset {
      assert r in rels && r.arcset == id;
      var i :| 0 <= i < |rels| && rels[i] == r;
    }
    assert forall i | 0 <= i < |own| :: own[i] in own;
  }

  /** Worker steps of the selected stripes, finished or cut short. Completion needs all stripes of all groups
      finished without a failure. */
  ghost predicate MakesEcParallel(env: Env, s: System, group: Option<nat>, stripe: Option<nat>,
                                  schedule: seq<StripeKey>, s': System)
    requires env.Ok() && RowsPlaced(env.cfg, s.w.t)
  {
    if !Startable(s.a) || DataStripes(env.cfg, s.w.t) == {} then s' == s
    else
      var started := s.a.(status := Building, phase := ECPhase);
      var plans := SelectedPlans(env.cfg, s.w.t, group, stripe);
      SelectedReady(env, s.w, group, stripe);
      var m := Runs(env, plans, Machine(s.w, Start(plans)), schedule);
      && s'.own == s.own && s'.w == m.w
      && (s'.a == started ||
          (s'.a == Completion(started) && group.None? && stripe.None? && plans.Keys != {}
           && Complete(env.cfg, plans, schedule) && forall id | id in plans :: !m.tasks[id].failed))
  }

  /** Losing up to m partitions of every group, and then recovering shards of all stripes. */
  ghost predicate LosesAndRecovers(env: Env, s: System, parts: set<nat>, keys: seq<Key>, s': System)
    requires env.Ok()
  {
    && env.code.Lawful() && Recoverable(env, s.w) && TolerableLoss(env.cfg, parts) && Covers(s.w.t, keys)
    && s'.own == s.own && s'.w == World(s.w.t, RecoverEach(env, s.w.t, Without(env.cfg.naming, s.w.fs, parts), keys).0)
    && s'.a == if keys == [] then s.a else s.a.(health := Healthy, parityDegraded := false)
  }

  /** One command takes the system from s to s'. */
  ghost predicate Next(setup: Setup, s: System, cmd: Command, s': System)
    requires Suits(setup, s.a.cfg) && RowsPlaced(s.a.cfg, s.w.t)
  {
    var env := EnvOf(setup, s.a);
    match cmd
    case Append(dataset, key, shards) => Appends(s, dataset, key, shards, s')
    case BuildData(catalog, filter) =>
      && FromOutside(catalog) && s'.own == s.own
      && exists ok :: BuildsData(s.a, setup.mover, catalog, filter, s.own, s.w, s'.a, Outcome(s'.w, ok))
    case BuildKilled(catalog, filter, i, stop) =>
      var items := AllItems(catalog, filter, s.own);
      && FromOutside(catalog) && s'.own == s.own && s'.a == s.a && Buildable(s.a) && i < |items|
      && var b := Build(s.a.cfg, setup.mover, s.w, items[..i]);
      && b.ok && Places(s.a.cfg, setup.mover, b.w, items[i])
      && s'.w == Stopped(s.a.cfg, setup.mover, b.w, items[i], stop)
    case MakeEc(group, stripe) =>
      s'.own == s.own && exists ok :: Makes(env, s.a, s.w, group, stripe, s'.a, Outcome(s'.w, ok))
    case MakeEcParallel(group, stripe, schedule) =>
      if env.cfg.m > 0 then MakesEcParallel(env, s, group, stripe, schedule, s')
      else s'.own == s.own && exists ok :: Makes(env, s.a, s.w, group, stripe, s'.a, Outcome(s'.w, ok))
    case Validate(stage) =>
      && s'.own == s.own && s'.w == s.w
      && exists ok :: Validates(env, s.a, s.w, s.own, stage, s'.a, ok)
    case Expand(groups) => s' == s || s' == s.(a := Expanded(s.a, groups))
    case Recover(shard, target) =>
      if env.cfg.m == 0 || shard !in s.w.t then s' == s
      else
        && s'.own == s.own && s'.w.t == s.w.t
        && exists ok ::
             && Does(env, s.w.t, s.w.fs, shard, target, s'.w.fs, ok)
             && s'.a == if ok then s.a.(health := Healthy, parityDegraded := target == "data") else s.a
    case RecoverKilled(shard, target, upTo) =>
      if env.cfg.m == 0 || shard !in s.w.t then s' == s
      else
        && s'.own == s.own && s'.a == s.a && s'.w.t == s.w.t
        && upTo <= env.cfg.Total() && s'.w.fs == PartlyRepaired(env, s.w.t, s.w.fs, IdOf(shard), target, upTo)
    case LoseAndRecover(parts, keys) => env.cfg.m > 0 && LosesAndRecovers(env, s, parts, keys, s')
  }

  /** The first files of a repair are in place. */
  ghost function PartlyRepaired(env: Env, t: Table, fs: Files, id: StripeKey, target: string, upTo: nat): Files
    requires env.Ok() && upTo <= env.cfg.Total()
  {
    Recovered(env.code, fs, Somes(FilesAt(env.cfg, t, id)), Originals(env.cfg, t, id), PaddedSize(t, id), target, upTo)
  }

  // ---- the invariant ------------------------------------------------------------------------

  ghost predicate FilesThere(w: World) {
    forall k | k in w.t :: w.t[k].path in w.fs
  }

  ghost predicate PadsEmptyOnDisk(w: World) {
    forall k :: PadEmpty(w, k)
  }

  /** Rows are in their places and have their files, and PADs are empty. */
  ghost predicate Settled(cfg: Config, w: World)
    requires cfg.Ok()
  {
    WellPlaced(cfg, w.t) && RowsPlaced(cfg, w.t) && FilesThere(w) && PadsEmptyOnDisk(w)
  }

  /** So it is, and parity is fresh. */
  ghost predicate Sound(env: Env, w: World)
    requires env.Ok()
  {
    Settled(env.cfg, w) && Fresh(env, w)
  }

  /** The world is settled; with parity it is sound, and a completed arcset has only whole stripes of codewords. */
  ghost predicate Inv(setup: Setup, s: System) {
    && Suits(setup, s.a.cfg) && Settled(s.a.cfg, s.w)
    && (s.a.cfg.m > 0 ==> SoundParity(EnvOf(setup, s.a), s.a.status, s.w))
  }

  ghost predicate SoundParity(env: Env, status: Status, w: World)
    requires env.Ok()
  {
    Fresh(env, w) && (status.Completed? ==> AllSolid(env, w))
  }

  /** Every DATA shard is still there, in the same place, with the same bytes. */
  ghost predicate KeepsData(w: World, w': World) {
    forall k | IsData(w.t, k) :: ShardKept(w, w', k)
  }

  ghost predicate ShardKept(w: World, w': World, k: Key)
    requires IsData(w.t, k)
  {
    && IsData(w'.t, k) && SameShard(w'.t[k], w.t[k])
    && (w.t[k].path in w.fs ==> Same(w.fs, w'.fs, w.t[k].path))
  }

  /** No DATA row and no file outside the tree has come. */
  ghost predicate AddsNothing(w: World, w': World) {
    (forall k | IsData(w'.t, k) :: IsData(w.t, k)) && SourcesFrom(w.fs, w'.fs)
  }

  lemma KeepsDataChains(a: World, b: World, c: World)
    requires KeepsData(a, b) && KeepsData(b, c) && FilesThere(a)
    ensures KeepsData(a, c)
  {
    forall k | IsData(a.t, k) ensures ShardKept(a, c, k) {
      assert ShardKept(a, b, k);
      assert ShardKept(b, c, k);
    }
  }

  // ---- build-data ---------------------------------------------------------------------------

  lemma PlacementKeepsFiles(cfg: Config, mover: Mover, w: World, item: Item, stop: Stop)
    requires cfg.Ok() && WellPlaced(cfg, w.t) && FilesThere(w) && item.src.Outside?
    requires Places(cfg, mover, w, item)
    ensures var w' := Stopped(cfg, mover, w, item, stop);
            FilesThere(w') && KeepsData(w, w') && (PadsEmptyOnDisk(w) ==> PadsEmptyOnDisk(w'))
  {
    var w' := Stopped(cfg, mover, w, item, stop);
    var key := SlotKey(cfg, w, item);
    MoveFacts(cfg, mover, w, item);
    ChosenFitsKey(cfg, w, item);
    forall k | k in w.t ensures !w.t[k].path.Outside? {
      assert RowPlaced(cfg, k, w.t[k]);
    }
    assert TreeKept(w.fs, w'.fs);
    hide WellPlaced, RowPlaced;
    forall k | IsData(w.t, k) ensures ShardKept(w, w', k) {
    }
    forall k | PadsEmptyOnDisk(w) ensures PadEmpty(w', k) {
      assert PadEmpty(w, k);
    }
  }

  lemma ChosenFitsKey(cfg: Config, w: World, item: Item)
    requires cfg.Ok() && SlotChoice.Choice(cfg, w.t, ItemSize(w.fs, item)).Some?
    ensures !IsData(w.t, SlotKey(cfg, w, item))
  {
    SlotChoice.ChosenFits(cfg, w.t, ItemSize(w.fs, item));
  }

  lemma PlacementKeeps(cfg: Config, mover: Mover, w: World, item: Item, stop: Stop)
    requires cfg.Ok() && Settled(cfg, w) && item.src.Outside? && Places(cfg, mover, w, item)
    ensures var w' := Stopped(cfg, mover, w, item, stop); Settled(cfg, w') && KeepsData(w, w')
  {
    PlacementKeepsFiles(cfg, mover, w, item, stop);
    StoppedKeeps(cfg, mover, w, item, stop);
    hide Stopped, KeepsData;
  }

  lemma NothingHappens(cfg: Config, w: World)
    requires cfg.Ok() && Settled(cfg, w)
    ensures KeepsData(w, w) && AddsNothing(w, w)
  {
  }

  lemma {:induction false} BuildKeeps(cfg: Config, mover: Mover, w: World, items: seq<Item>)
    requires cfg.Ok() && Settled(cfg, w) && forall item | item in items :: item.src.Outside?
    ensures var w' := Build(cfg, mover, w, items).w; Settled(cfg, w') && KeepsData(w, w')
  {
    if items == [] {
      NothingHappens(cfg, w);
    } else {
      var n := |items| - 1;
      BuildKeeps(cfg, mover, w, items[..n]);
      var before := Build(cfg, mover, w, items[..n]);
      var places := before.ok && Places(cfg, mover, before.w, items[n]);
      assert Build(cfg, mover, w, items).w
          == if places then Stopped(cfg, mover, before.w, items[n], AfterStore) else before.w;
      assert FilesThere(w);
      hide Settled, KeepsData, Build, Step, Stopped, FilesThere;
      if places {
        PlacementKeeps(cfg, mover, before.w, items[n], AfterStore);
        KeepsDataChains(w, before.w, Stopped(cfg, mover, before.w, items[n], AfterStore));
      }
    }
  }

  lemma ItemsFromOutside(catalog: Catalog, filter: Option<int>, rels: PlainRelations)
    requires FromOutside(catalog)
    ensures forall item | item in AllItems(catalog, filter, rels) :: item.src.Outside?
  {
    forall item | item in AllItems(catalog, filter, rels) ensures item.src.Outside? {
      ItemsFromCatalog(catalog, filter, rels, item);
    }
  }

  lemma BuildDataKeeps(setup: Setup, s: System, catalog: Catalog, filter: Option<int>, s': System)
    requires Inv(setup, s) && Next(setup, s, BuildData(catalog, filter), s')
    ensures Inv(setup, s') && KeepsData(s.w, s'.w)
  {
    var cfg := s.a.cfg;
    ItemsFromOutside(catalog, filter, s.own);
    if Buildable(s.a) {
      BuildAllIsBuild(cfg, setup.mover, catalog, filter, s.w, s.own);
      var items := AllItems(catalog, filter, s.own);
      BuildKeeps(cfg, setup.mover, s.w, items);
      if cfg.m > 0 {
        BuildKeepsFresh(EnvOf(setup, s.a), setup.mover, s.w, items);
      }
    } else {
      NothingHappens(cfg, s.w);
    }
    hide Settled, Fresh, AllSolid, KeepsData, BuildAll, LosesParity;
  }

  lemma BuildKilledKeeps(setup: Setup, s: System, catalog: Catalog, filter: Option<int>, i: nat, stop: Stop, s': System)
    requires Inv(setup, s) && Next(setup, s, BuildKilled(catalog, filter, i, stop), s')
    ensures Inv(setup, s') && KeepsData(s.w, s'.w)
  {
    var cfg, env := s.a.cfg, EnvOf(setup, s.a);
    var items := AllItems(catalog, filter, s.own);
    ItemsFromOutside(catalog, filter, s.own);
    assert forall item | item in items[..i] :: item in items;
    BuildKeeps(cfg, setup.mover, s.w, items[..i]);
    var b := Build(cfg, setup.mover, s.w, items[..i]);
    assert items[i] in items;
    PlacementKeeps(cfg, setup.mover, b.w, items[i], stop);
    KeepsDataChains(s.w, b.w, s'.w);
    if cfg.m > 0 {
      BuildKeepsFresh(env, setup.mover, s.w, items[..i]);
      PlacementKeepsFresh(env, setup.mover, b.w, items[i], stop);
    }
  }

  // ---- make-ec ------------------------------------------------------------------------------

  lemma RunsKeep(setup: Setup, s: System, group: Option<nat>, stripe: Option<nat>, schedule: seq<StripeKey>)
    requires Inv(setup, s) && s.a.cfg.m > 0
    requires PlansReady(EnvOf(setup, s.a), SelectedPlans(s.a.cfg, s.w.t, group, stripe), s.w)
    ensures var env := EnvOf(setup, s.a);
            var plans := SelectedPlans(s.a.cfg, s.w.t, group, stripe);
            var w' := Runs(env, plans, Machine(s.w, Start(plans)), schedule).w;
            Sound(env, w') && KeepsData(s.w, w') && AddsNothing(s.w, w')
  {
    var env := EnvOf(setup, s.a);
    var plans := SelectedPlans(s.a.cfg, s.w.t, group, stripe);
    var w' := Runs(env, plans, Machine(s.w, Start(plans)), schedule).w;
    MakeEcKeepsPlaces(env, s.w, group, stripe, schedule);
    MakeEcKeepsFresh(env, plans, s.w, schedule);
    forall k ensures RowKept(s.w, w', k) {
      RunsKeepRow(env, plans, s.w, schedule, k);
    }
    forall p ensures FileKept(s.w.fs, w'.fs, p) {
      RunsKeepFile(env, plans, s.w, schedule, p);
    }
    hide Runs, WellPlaced, Fresh, SelectedPlans;
    RowsAndFilesKept(s.a.cfg, s.w, w');
  }

  lemma RowsAndFilesKept(cfg: Config, w: World, w': World)
    requires cfg.Ok() && RowsPlaced(cfg, w.t) && FilesThere(w)
    requires (forall k :: RowKept(w, w', k)) && forall p :: FileKept(w.fs, w'.fs, p)
    ensures FilesThere(w') && KeepsData(w, w') && (PadsEmptyOnDisk(w) ==> PadsEmptyOnDisk(w'))
    ensures AddsNothing(w, w')
  {
    forall k | PadsEmptyOnDisk(w) ensures PadEmpty(w', k) {
      assert RowKept(w, w', k) && PadEmpty(w, k);
    }
    forall k | IsData(w'.t, k) ensures IsData(w.t, k) {
      assert RowKept(w, w', k);
    }
    forall p: Path | p.Outside? && p in w'.fs ensures p in w.fs && w.fs[p] == w'.fs[p] {
      assert FileKept(w.fs, w'.fs, p);
    }
    forall k | k in w'.t ensures w'.t[k].path in w'.fs {
      assert RowKept(w, w', k);
    }
    forall k | IsData(w.t, k) ensures ShardKept(w, w', k) {
      assert RowKept(w, w', k);
      assert RowPlaced(cfg, k, w.t[k]);
      assert FileKept(w.fs, w'.fs, w.t[k].path);
    }
  }

  lemma SequentialKeeps(setup: Setup, s: System, group: Option<nat>, stripe: Option<nat>, s': System)
    requires Inv(setup, s) && s.a.cfg.m > 0 && Next(setup, s, MakeEc(group, stripe), s')
    ensures Inv(setup, s') && KeepsData(s.w, s'.w) && AddsNothing(s.w, s'.w)
  {
    hide Builds, Fresh, AllSolid, KeepsData, AddsNothing, SelectedPlans, DataStripes;
    var env := EnvOf(setup, s.a);
    var ok :| Makes(env, s.a, s.w, group, stripe, s'.a, Outcome(s'.w, ok));
    var out := Outcome(s'.w, ok);
    if Builds(env, s.w, group, stripe, out) {
      BuildsKeep(setup, s, group, stripe, out);
      if ok && group.None? && stripe.None? {
        CompletedIsSolid(env, s.w, out);
      }
    } else {
      NothingHappens(env.cfg, s.w);
    }
    hide Settled;
  }

  /** Without parity make-ec only reads. */
  lemma WithoutParityKeeps(setup: Setup, s: System, cmd: Command, s': System)
    requires Inv(setup, s) && s.a.cfg.m == 0 && (cmd.MakeEc? || cmd.MakeEcParallel?) && Next(setup, s, cmd, s')
    ensures Inv(setup, s') && KeepsData(s.w, s'.w) && AddsNothing(s.w, s'.w)
  {
    NothingHappens(s.a.cfg, s.w);
    hide Settled, KeepsData, AddsNothing;
  }

  lemma BuildsKeep(setup: Setup, s: System, group: Option<nat>, stripe: Option<nat>, out: Outcome)
    requires Inv(setup, s) && s.a.cfg.m > 0 && Builds(EnvOf(setup, s.a), s.w, group, stripe, out)
    ensures var env := EnvOf(setup, s.a);
            Sound(env, out.w) && KeepsData(s.w, out.w) && AddsNothing(s.w, out.w)
  {
    var schedule := BuildsByTurns(EnvOf(setup, s.a), s.w, group, stripe, out);
    hide Inv;
    RunsKeep(setup, s, group, stripe, schedule);
  }

  /** A parallel run that completes has done what the sequential run does. */
  lemma ParallelBuilds(env: Env, w: World, schedule: seq<StripeKey>)
    requires env.Ok() && RowsPlaced(env.cfg, w.t)
    requires var plans := SelectedPlans(env.cfg, w.t, None, None);
             && PlansReady(env, plans, w) && plans.Keys != {} && Complete(env.cfg, plans, schedule)
             && forall id | id in plans :: !Runs(env, plans, Machine(w, Start(plans)), schedule).tasks[id].failed
    ensures var plans := SelectedPlans(env.cfg, w.t, None, None);
            Builds(env, w, None, None, Outcome(Runs(env, plans, Machine(w, Start(plans)), schedule).w, true))
  {
    var plans := SelectedPlans(env.cfg, w.t, None, None);
    var keys := SortedKeys(plans.Keys);
    OrderedApart(keys);
    ParallelIsSequential(env, plans, keys, w, schedule);
    hide Runs, SelectedPlans, Complete, InOrder;
    OrderedBuilds(env, w, keys);
  }

  lemma OrderedBuilds(env: Env, w: World, keys: seq<StripeKey>)
    requires env.Ok() && RowsPlaced(env.cfg, w.t) && InKeyOrder(keys)
    requires var plans := SelectedPlans(env.cfg, w.t, None, None);
             PlansReady(env, plans, w) && plans.Keys != {} && forall id :: id in keys <==> id in plans
    ensures Builds(env, w, None, None, InOrder(env, SelectedPlans(env.cfg, w.t, None, None), keys, w))
  {
  }

  lemma ParallelKeeps(setup: Setup, s: System, group: Option<nat>, stripe: Option<nat>, schedule: seq<StripeKey>,
                      s': System)
    requires Inv(setup, s) && s.a.cfg.m > 0 && Next(setup, s, MakeEcParallel(group, stripe, schedule), s')
    ensures Inv(setup, s') && KeepsData(s.w, s'.w) && AddsNothing(s.w, s'.w)
  {
    var env := EnvOf(setup, s.a);
    var plans := SelectedPlans(env.cfg, s.w.t, group, stripe);
    NothingHappens(env.cfg, s.w);
    SelectedReady(env, s.w, group, stripe);
    RunsKeep(setup, s, group, stripe, schedule);
    if s' != s && s'.a.status.Completed? {
      ParallelBuilds(env, s.w, schedule);
      CompletedIsSolid(env, s.w, Outcome(s'.w, true));
    }
    hide Runs, SelectedPlans, Settled, Fresh, Complete, AllSolid, KeepsData, AddsNothing, Builds;
  }

  // ---- validate, append, expand, recover ----------------------------------------------------

  lemma ValidateKeeps(setup: Setup, s: System, stage: string, s': System)
    requires Inv(setup, s) && Next(setup, s, Validate(stage), s')
    ensures Inv(setup, s') && KeepsData(s.w, s'.w) && AddsNothing(s.w, s'.w)
  {
    NothingHappens(s.a.cfg, s.w);
    if s.a.cfg.m > 0 {
      ValidIsSolid(EnvOf(setup, s.a), s.w);
    }
    hide Settled, Fresh, AllSolid, ParityValid, DataValid, CountsValid, KeepsData, AddsNothing;
  }

  lemma AppendKeeps(setup: Setup, s: System, dataset: int, key: PlainName, shards: nat, s': System)
    requires Inv(setup, s) && Next(setup, s, Append(dataset, key, shards), s')
    ensures Inv(setup, s') && KeepsData(s.w, s'.w) && AddsNothing(s.w, s'.w)
  {
    NothingHappens(s.a.cfg, s.w);
    hide Settled, Fresh, AllSolid, KeepsData, AddsNothing;
  }

  /** The number of groups plays no part in where rows are. */
  lemma GroupsDoNotMatter(cfg: Config, cfg': Config, t: Table)
    requires cfg.Ok() && cfg' == cfg.(groups := cfg'.groups) && cfg'.groups > 0
    ensures forall key :: PartitionOf(cfg', key) == PartitionOf(cfg, key)
    ensures forall key, row :: RowPlaced(cfg', key, row) <==> RowPlaced(cfg, key, row)
    ensures forall id :: PlanFor(cfg', t, id) == PlanFor(cfg, t, id)
    ensures forall id :: FilesAt(cfg', t, id) == FilesAt(cfg, t, id)
  {
    forall id ensures FilesAt(cfg', t, id) == FilesAt(cfg, t, id) {
    }
    forall id ensures PlanFor(cfg', t, id) == PlanFor(cfg, t, id) {
    }
  }

  lemma ExpandKeeps(setup: Setup, s: System, groups: nat, s': System)
    requires Inv(setup, s) && Next(setup, s, Expand(groups), s')
    ensures Inv(setup, s') && KeepsData(s.w, s'.w) && AddsNothing(s.w, s'.w)
  {
    NothingHappens(s.a.cfg, s.w);
    SettledAfterExpand(s.a.cfg, s'.a.cfg, s.w);
    if s.a.cfg.m > 0 {
      SoundAfterExpand(EnvOf(setup, s.a), EnvOf(setup, s'.a), s.w);
    }
    hide Settled, Fresh, AllSolid, KeepsData, AddsNothing;
  }

  lemma SettledAfterExpand(cfg: Config, cfg': Config, w: World)
    requires cfg.Ok() && cfg' == cfg.(groups := cfg'.groups) && cfg'.groups > 0 && Settled(cfg, w)
    ensures Settled(cfg', w)
  {
    GroupsDoNotMatter(cfg, cfg', w.t);
    hide PlanFor, FilesAt, RowPlaced, PartitionOf;
  }

  lemma SoundAfterExpand(env: Env, env': Env, w: World)
    requires env.Ok() && env' == env.(cfg := env.cfg.(groups := env'.cfg.groups)) && env'.cfg.groups > 0
    requires Fresh(env, w)
    ensures env'.Ok() && Fresh(env', w) && (AllSolid(env, w) ==> AllSolid(env', w))
  {
    GroupsDoNotMatter(env.cfg, env'.cfg, w.t);
    forall key ensures FreshRow(env', w, key) {
      assert FreshRow(env, w, key);
    }
    hide PlanFor, FilesAt;
    forall k | k in w.t && AllSolid(env, w) ensures Solid(env', w, IdOf(k)) {
      assert Solid(env, w, IdOf(k));
    }
  }

  /** Writing missing files changes nothing that is there. */
  lemma RepairKeeps(env: Env, w: World, fs: Files)
    requires env.Ok() && Sound(env, w) && forall p | p in w.fs :: p in fs && fs[p] == w.fs[p]
    ensures Sound(env, World(w.t, fs)) && KeepsData(w, World(w.t, fs))
    ensures AllSolid(env, w) ==> AllSolid(env, World(w.t, fs))
  {
    forall key ensures FreshRow(env, World(w.t, fs), key) {
      MoreFilesStayFresh(env, w, fs, key);
    }
    forall key ensures PadEmpty(World(w.t, fs), key) {
      assert PadEmpty(w, key);
    }
    forall k | k in w.t && AllSolid(env, w) ensures Solid(env, World(w.t, fs), IdOf(k)) {
      assert Solid(env, w, IdOf(k));
      var paths := FilesAt(env.cfg, w.t, IdOf(k));
      assert Contents(fs, paths) == Contents(w.fs, paths);
    }
    hide WellPlaced, RowsPlaced, Fresh, Solid, PadEmpty;
  }

  lemma PartlyRepairedKeeps(env: Env, w: World, id: StripeKey, target: string, upTo: nat)
    requires env.Ok() && RowsPlaced(env.cfg, w.t) && upTo <= env.cfg.Total()
    ensures var fs := PartlyRepaired(env, w.t, w.fs, id, target, upTo);
            (forall p | p in w.fs :: p in fs && fs[p] == w.fs[p]) && SourcesFrom(w.fs, fs)
  {
    var fs := PartlyRepaired(env, w.t, w.fs, id, target, upTo);
    PathsPlaced(env.cfg, w.t, id);
    forall p | p in w.fs || p.Outside? ensures if p in w.fs then p in fs && fs[p] == w.fs[p] else p !in fs {
      RecoveredKeeps(env.code, w.fs, FilesAt(env.cfg, w.t, id), Originals(env.cfg, w.t, id), PaddedSize(w.t, id),
                     target, upTo, p);
      assert forall i: nat | i < upTo :: !FilesAt(env.cfg, w.t, id)[i].Outside? by {
        assert forall i: nat | i < upTo :: FilesAt(env.cfg, w.t, id)[i] == FileAt(env.cfg, w.t, id, i);
      }
    }
  }

  lemma RecoverKeeps(setup: Setup, s: System, cmd: Command, s': System)
    requires Inv(setup, s) && (cmd.Recover? || cmd.RecoverKilled?) && Next(setup, s, cmd, s')
    ensures Inv(setup, s') && KeepsData(s.w, s'.w) && AddsNothing(s.w, s'.w)
  {
    NothingHappens(s.a.cfg, s.w);
    if s.a.cfg.m > 0 && cmd.shard in s.w.t {
      RepairStepKeeps(setup, s, cmd, s');
    }
    hide Settled, Fresh, AllSolid, KeepsData, AddsNothing, PartlyRepaired;
  }

  lemma RepairStepKeeps(setup: Setup, s: System, cmd: Command, s': System)
    requires Inv(setup, s) && s.a.cfg.m > 0 && (cmd.Recover? || cmd.RecoverKilled?) && Next(setup, s, cmd, s')
    requires cmd.shard in s.w.t
    ensures Inv(setup, s') && KeepsData(s.w, s'.w) && AddsNothing(s.w, s'.w)
  {
    var env := EnvOf(setup, s.a);
    NothingHappens(env.cfg, s.w);
    if cmd.Recover? {
      PartlyRepairedKeeps(env, s.w, IdOf(cmd.shard), cmd.target, env.cfg.Total());
      assert Repaired(env, s.w.t, s.w.fs, IdOf(cmd.shard), cmd.target)
          == PartlyRepaired(env, s.w.t, s.w.fs, IdOf(cmd.shard), cmd.target, env.cfg.Total());
    } else {
      PartlyRepairedKeeps(env, s.w, IdOf(cmd.shard), cmd.target, cmd.upTo);
    }
    hide PartlyRepaired, Repaired, Settled, Fresh, KeepsData, AllSolid, Accepted, Begins;
    RepairKeeps(env, s.w, s'.w.fs);
    assert s'.w == World(s.w.t, s'.w.fs);
  }

  // ---- losing partitions and recovering them ------------------------------------------------

  lemma RowFilesStayFresh(env: Env, w: World, fs: Files, key: Key)
    requires env.Ok() && AllRowsBack(w.t, w.fs, fs) && FreshRow(env, w, key)
    ensures FreshRow(env, World(w.t, fs), key)
  {
    if key in w.t && w.t[key].kind.EC? && key.pos >= env.cfg.k {
      var plan := PlanFor(env.cfg, w.t, IdOf(key));
      forall p: nat | p < env.cfg.k && plan.paths[p].Some? ensures Same(w.fs, fs, plan.paths[p].value) {
        assert IsData(w.t, plan.KeyAt(p));
      }
      assert DataBytes(fs, plan.paths, plan.sizes) == DataBytes(w.fs, plan.paths, plan.sizes);
      assert ParityContent(env, plan, fs, key.pos - env.cfg.k) == ParityContent(env, plan, w.fs, key.pos - env.cfg.k);
      assert Same(w.fs, fs, w.t[key].path);
    }
  }

  lemma RowFilesStaySolid(env: Env, w: World, fs: Files, id: StripeKey)
    requires env.Ok() && AllRowsBack(w.t, w.fs, fs) && Solid(env, w, id)
    ensures Solid(env, World(w.t, fs), id)
  {
    var paths := FilesAt(env.cfg, w.t, id);
    forall p: nat | p < env.cfg.Total() ensures Same(w.fs, fs, paths[p]) {
      assert paths[p] == w.t[KeyIn(id, p)].path;
    }
    assert Contents(fs, paths) == Contents(w.fs, paths);
    hide Consistent;
  }

  /** Everything promised is promised of the files of rows. */
  lemma RowFilesDecide(env: Env, w: World, fs: Files)
    requires env.Ok() && Sound(env, w) && AllRowsBack(w.t, w.fs, fs)
    ensures Sound(env, World(w.t, fs)) && KeepsData(w, World(w.t, fs))
    ensures AllSolid(env, w) ==> AllSolid(env, World(w.t, fs))
  {
    forall key ensures FreshRow(env, World(w.t, fs), key) {
      assert FreshRow(env, w, key);
      RowFilesStayFresh(env, w, fs, key);
    }
    forall key ensures PadEmpty(World(w.t, fs), key) {
      assert PadEmpty(w, key);
    }
    forall k | k in w.t && AllSolid(env, w) ensures Solid(env, World(w.t, fs), IdOf(k)) {
      RowFilesStaySolid(env, w, fs, IdOf(k));
    }
    hide WellPlaced, RowsPlaced, FreshRow, Solid;
  }

  lemma LossKeeps(setup: Setup, s: System, parts: set<nat>, keys: seq<Key>, s': System)
    requires Inv(setup, s) && Next(setup, s, LoseAndRecover(parts, keys), s')
    ensures Inv(setup, s') && KeepsData(s.w, s'.w) && AddsNothing(s.w, s'.w)
  {
    var env := EnvOf(setup, s.a);
    assert Sound(env, s.w);
    hide Settled, Fresh, AllSolid, Recoverable, Without, RecoverEach, TolerableLoss, KeepsData, AllRowsBack;
    LossWritesOwn(env, s.w, parts, keys);
    LossIsTolerated(env, s.w, parts, keys);
    RowFilesDecide(env, s.w, s'.w.fs);
    assert s'.w == World(s.w.t, s'.w.fs);
  }

  lemma LossWritesOwn(env: Env, w: World, parts: set<nat>, keys: seq<Key>)
    requires env.Ok() && env.code.Lawful() && Recoverable(env, w) && TolerableLoss(env.cfg, parts) && Covers(w.t, keys)
    ensures SourcesFrom(w.fs, RecoverEach(env, w.t, Without(env.cfg.naming, w.fs, parts), keys).0)
  {
    assert forall k | k in keys :: Tolerable(env.cfg, parts, k.group);
    hide Recoverable, RecoverEach, Tolerable, Without;
    EachComesBack(env, w, parts, keys);
  }

  // ---- whole lives --------------------------------------------------------------------------

  /** Every command keeps the invariant and every DATA shard, and only build-data brings new ones. */
  lemma NextKeeps(setup: Setup, s: System, cmd: Command, s': System)
    requires Inv(setup, s) && Next(setup, s, cmd, s')
    ensures Inv(setup, s') && KeepsData(s.w, s'.w)
    ensures cmd.BuildData? || cmd.BuildKilled? || AddsNothing(s.w, s'.w)
  {
    match cmd
    case Append(dataset, key, shards) => AppendKeeps(setup, s, dataset, key, shards, s');
    case BuildData(catalog, filter) => BuildDataKeeps(setup, s, catalog, filter, s');
    case BuildKilled(catalog, filter, i, stop) => BuildKilledKeeps(setup, s, catalog, filter, i, stop, s');
    case MakeEc(group, stripe) =>
      if s.a.cfg.m > 0 {
        SequentialKeeps(setup, s, group, stripe, s');
      } else {
        WithoutParityKeeps(setup, s, cmd, s');
      }
    case MakeEcParallel(group, stripe, schedule) =>
      if s.a.cfg.m > 0 {
        ParallelKeeps(setup, s, group, stripe, schedule, s');
      } else {
        WithoutParityKeeps(setup, s, cmd, s');
      }
    case Validate(stage) => ValidateKeeps(setup, s, stage, s');
    case Expand(groups) => ExpandKeeps(setup, s, groups, s');
    case Recover(_, _) => RecoverKeeps(setup, s, cmd, s');
    case RecoverKilled(_, _, _) => RecoverKeeps(setup, s, cmd, s');
    case LoseAndRecover(parts, keys) => LossKeeps(setup, s, parts, keys, s');
  }

  /** A run of commands from a newly created arcset over any file tree. */
  ghost predicate Lives(setup: Setup, cfg: Config, fs: Files, cmds: seq<Command>, states: seq<System>)
    requires Suits(setup, cfg)
  {
    && |states| == |cmds| + 1
    && states[0] == System(Created(cfg), [], World(map[], fs))
    && forall i | 0 <= i < |cmds| ::
         && Suits(setup, states[i].a.cfg) && RowsPlaced(states[i].a.cfg, states[i].w.t)
         && Next(setup, states[i], cmds[i], states[i + 1])
  }

  lemma NewIsSound(setup: Setup, cfg: Config, fs: Files)
    requires Suits(setup, cfg)
    ensures Inv(setup, System(Created(cfg), [], World(map[], fs)))
  {
  }

  /** Over every life: rows stay in their places with their files, parity stays fresh, and whenever the status is
      completed every stripe in the table has exactly positions 0..k+m-1 and codewords in every column. */
  lemma {:induction false} EveryStateIsSound(setup: Setup, cfg: Config, fs: Files, cmds: seq<Command>,
                                             states: seq<System>, i: nat)
    requires Suits(setup, cfg) && Lives(setup, cfg, fs, cmds, states) && i <= |cmds|
    ensures Inv(setup, states[i])
  {
    if i == 0 {
      NewIsSound(setup, cfg, fs);
    } else {
      EveryStateIsSound(setup, cfg, fs, cmds, states, i - 1);
      NextKeeps(setup, states[i - 1], cmds[i - 1], states[i]);
    }
  }

  lemma SoundHasFiles(setup: Setup, s: System)
    requires Inv(setup, s)
    ensures FilesThere(s.w) && KeepsData(s.w, s.w)
  {
    NothingHappens(s.a.cfg, s.w);
  }

  lemma StateKeepsData(setup: Setup, cfg: Config, fs: Files, cmds: seq<Command>, states: seq<System>, i: nat)
    requires Suits(setup, cfg) && Lives(setup, cfg, fs, cmds, states) && i <= |cmds|
    ensures FilesThere(states[i].w) && KeepsData(states[i].w, states[i].w)
  {
    hide Inv, KeepsData, FilesThere;
    EveryStateIsSound(setup, cfg, fs, cmds, states, i);
    SoundHasFiles(setup, states[i]);
  }

  lemma OneCommand(setup: Setup, cfg: Config, fs: Files, cmds: seq<Command>, states: seq<System>, i: nat)
    requires Suits(setup, cfg) && Lives(setup, cfg, fs, cmds, states) && i < |cmds|
    ensures KeepsData(states[i].w, states[i + 1].w)
  {
    EveryStateIsSound(setup, cfg, fs, cmds, states, i);
    hide Inv, KeepsData, Settled;
    NextKeeps(setup, states[i], cmds[i], states[i + 1]);
  }

  lemma OneMoreCommand(setup: Setup, cfg: Config, fs: Files, cmds: seq<Command>, states: seq<System>, i: nat, j: nat)
    requires Suits(setup, cfg) && Lives(setup, cfg, fs, cmds, states) && i <= j < |cmds|
    requires KeepsData(states[i].w, states[j].w)
    ensures KeepsData(states[i].w, states[j + 1].w)
  {
    StateKeepsData(setup, cfg, fs, cmds, states, i);
    hide KeepsData, FilesThere, Suits;
    OneCommand(setup, cfg, fs, cmds, states, j);
    KeepsDataChains(states[i].w, states[j].w, states[j + 1].w);
  }

  /** What is placed stays: a DATA shard of any state is in every later state, with its file. */
  lemma PlacedDataStays(setup: Setup, cfg: Config, fs: Files, cmds: seq<Command>,
                                           states: seq<System>, i: nat, j: nat)
    requires Suits(setup, cfg) && Lives(setup, cfg, fs, cmds, states) && i <= j <= |cmds|
    ensures KeepsData(states[i].w, states[j].w)
  {
    hide KeepsData, Inv, Settled;
    StateKeepsData(setup, cfg, fs, cmds, states, i);
    for n := i to j
      invariant KeepsData(states[i].w, states[n].w)
    {
      OneMoreCommand(setup, cfg, fs, cmds, states, i, n);
    }
  }

  /** A life goes on with any command that can be next. */
  lemma OneMore(setup: Setup, cfg: Config, fs: Files, cmds: seq<Command>, states: seq<System>, cmd: Command,
                s': System)
    requires Suits(setup, cfg) && Lives(setup, cfg, fs, cmds, states)
    requires var s := states[|cmds|]; Inv(setup, s) ==> Next(setup, s, cmd, s')
    ensures Lives(setup, cfg, fs, cmds + [cmd], states + [s'])
  {
    hide Next, Inv, Suits, RowsPlaced;
    EveryStateIsSound(setup, cfg, fs, cmds, states, |cmds|);
    SoundIsPlaced(setup, states[|cmds|]);
  }

  lemma SoundIsPlaced(setup: Setup, s: System)
    requires Inv(setup, s)
    ensures Suits(setup, s.a.cfg) && RowsPlaced(s.a.cfg, s.w.t)
  {
  }

  /** A completed arcset, whichever way it was completed, is one of solid stripes. */
  lemma CompletedMeansSolid(setup: Setup, cfg: Config, fs: Files, cmds: seq<Command>, states: seq<System>, i: nat)
    requires Suits(setup, cfg) && Lives(setup, cfg, fs, cmds, states) && i <= |cmds|
    requires states[i].a.status.Completed? && states[i].a.cfg.m > 0
    ensures EnvOf(setup, states[i].a).Ok() && AllSolid(EnvOf(setup, states[i].a), states[i].w)
  {
    EveryStateIsSound(setup, cfg, fs, cmds, states, i);
  }
}
