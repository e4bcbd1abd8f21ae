/** Space and uniqueness over whole lives. */
module Capacity {
  import opened Bytes
  import opened Disk
  import opened Layout
  import opened ShardTable
  import opened MoveFile
  import opened Placement
  import opened BuildSpec
  import opened StoredPaths
  import opened BuildRetry
  import opened BuildCommand
  import opened StripeTask
  import opened StripeRun
  import opened Schedule
  import opened MakeEcRun
  import opened MakeEcKeeps
  import opened Lifecycle
  import opened Recover
  import opened PartitionLoss
  import opened Validate
  import opened Freshness
  import opened CompleteStripes

  lemma PlacedIsUnique(cfg: Config, t: Table)
    requires cfg.Ok() && WellPlaced(cfg, t)
    ensures UniqueIndexes(t)
  {
    forall k, k' | k in t && k' in t && k != k' ensures !RowsClash(k, t[k], k', t[k']) {
      assert RowPlaced(cfg, k, t[k]) && RowPlaced(cfg, k', t[k']);
      PlacedRowsDiffer(cfg, k, t[k], k', t[k']);
      if t[k].kind.DATA? && t[k'].kind.DATA? && t[k].source == t[k'].source {
        assert HasRow(t, k, t[k].source.value) && HasRow(t, k', t[k].source.value);
      }
    }
  }

  /** In every state of every life the unique indexes hold: no two rows share a file, the path stored for it, a
      partition at one stripe number, or a dataset's shard. */
  lemma RowsStayUnique(setup: Setup, cfg: Config, fs: Files, cmds: seq<Command>, states: seq<System>, i: nat)
    requires Suits(setup, cfg) && Lives(setup, cfg, fs, cmds, states) && i <= |cmds|
    ensures UniqueIndexes(states[i].w.t) && PlacesDiffer(states[i].a.cfg.naming, states[i].w.t)
  {
    EveryStateIsSound(setup, cfg, fs, cmds, states, i);
    hide Lives, UniqueIndexes, PlacesDiffer;
    PlacedIsUnique(states[i].a.cfg, states[i].w.t);
    PlacedRowsApart(states[i].a.cfg, states[i].w.t);
  }

  // ---- data partitions under the fixed layout -----------------------------------------------

  /** A partition that holds data positions. */
  predicate DataPartition(cfg: Config, part: nat)
    requires cfg.Ok()
  {
    part % cfg.Total() < cfg.k
  }

  /** Parity is never on a partition with data: the fixed layout, or no parity at all. */
  predicate ParityApart(cfg: Config) { cfg.rotation.Raid3? || cfg.m == 0 }

  ghost predicate WithinCapacity(cfg: Config, t: Table)
    requires cfg.Ok()
  {
    forall part: nat | DataPartition(cfg, part) :: UsedBy(t, part) <= cfg.capacity
  }

  function WeightAt(t: Table, k: Key, part: nat): nat {
    if k in t then Weight(t[k], part) else 0
  }

  ghost predicate SameWeights(t: Table, t': Table, part: nat) {
    forall k :: WeightAt(t, k, part) == WeightAt(t', k, part)
  }

  /** Taking one key out of both tables: what it weighed, and that the rest weighs the same. */
  lemma TakeOut(t: Table, t': Table, k: Key, part: nat)
    requires SameWeights(t, t', part)
    ensures WeightAt(t, k, part) == WeightAt(t', k, part)
    ensures SameWeights(t - {k}, t' - {k}, part)
    ensures UsedBy(t, part) == WeightAt(t, k, part) + UsedBy(t - {k}, part)
    ensures UsedBy(t', part) == WeightAt(t', k, part) + UsedBy(t' - {k}, part)
  {
    Unfold(t, k, part);
    Unfold(t', k, part);
    hide UsedBy;
    forall j ensures WeightAt(t - {k}, j, part) == WeightAt(t' - {k}, j, part) {
      assert WeightAt(t, j, part) == WeightAt(t', j, part);
    }
  }

  lemma Unfold(t: Table, k: Key, part: nat)
    ensures UsedBy(t, part) == WeightAt(t, k, part) + UsedBy(t - {k}, part)
  {
    if k in t {
      UsedWithout(t, k, part);
    } else {
      assert t - {k} == t;
    }
  }

  /** Usage depends only on which row takes how much. */
  lemma {:induction false} UsedByWeights(t: Table, t': Table, part: nat)
    requires SameWeights(t, t', part)
    ensures UsedBy(t, part) == UsedBy(t', part)
    decreases |t| + |t'|
  {
    if k :| k in t || k in t' {
      TakeOut(t, t', k, part);
      hide SameWeights, UsedBy, WeightAt;
      assert |t - {k}| + |t' - {k}| < |t| + |t'| by { Fewer(t, t', k); }
      UsedByWeights(t - {k}, t' - {k}, part);
    } else {
      assert t == map[] && t' == map[];
    }
  }

  lemma Fewer(t: Table, t': Table, k: Key)
    requires k in t || k in t'
    ensures |t - {k}| + |t' - {k}| < |t| + |t'|
  {
    assert k !in t ==> t - {k} == t;
    assert k !in t' ==> t' - {k} == t';
  }

  /** Under the fixed layout only DATA rows take space in a data partition. */
  lemma OnlyDataWeighs(cfg: Config, t: Table, k: Key, part: nat)
    requires cfg.Ok() && cfg.rotation.Raid3? && RowsPlaced(cfg, t) && DataPartition(cfg, part)
    ensures !IsData(t, k) ==> WeightAt(t, k, part) == 0
  {
    if k in t && !t[k].kind.DATA? {
      assert RowPlaced(cfg, k, t[k]);
      if t[k].kind.EC? {
        DivModUnique(PartitionOf(cfg, k), cfg.Total(), k.group, k.pos);
      }
    }
  }

  /** Tables with the same DATA shards fill data partitions alike. */
  lemma SameDataSameSpace(cfg: Config, t: Table, t': Table, part: nat)
    requires cfg.Ok() && cfg.rotation.Raid3? && RowsPlaced(cfg, t) && RowsPlaced(cfg, t') && DataPartition(cfg, part)
    requires forall k :: (IsData(t', k) <==> IsData(t, k)) && (IsData(t, k) ==> SameShard(t'[k], t[k]))
    ensures UsedBy(t', part) == UsedBy(t, part)
  {
    forall k ensures WeightAt(t', k, part) == WeightAt(t, k, part) {
      OnlyDataWeighs(cfg, t, k, part);
      OnlyDataWeighs(cfg, t', k, part);
    }
    UsedByWeights(t', t, part);
  }

  lemma StepWithinCapacity(cfg: Config, mover: Mover, w: World, item: Item)
    requires cfg.Ok() && WellPlaced(cfg, w.t) && WithinCapacity(cfg, w.t)
    ensures WithinCapacity(cfg, Step(cfg, mover, w, item).w.t)
  {
    if Places(cfg, mover, w, item) {
      forall part: nat | DataPartition(cfg, part) ensures UsedBy(Step(cfg, mover, w, item).w.t, part) <= cfg.capacity {
        FilledWithinCapacity(cfg, w.t, item, ItemSize(w.fs, item), part);
      }
    }
  }

  lemma {:induction false} BuildWithinCapacity(cfg: Config, mover: Mover, w: World, items: seq<Item>)
    requires cfg.Ok() && WellPlaced(cfg, w.t) && WithinCapacity(cfg, w.t)
    ensures WithinCapacity(cfg, Build(cfg, mover, w, items).w.t)
  {
    if items != [] {
      var n := |items| - 1;
      BuildWithinCapacity(cfg, mover, w, items[..n]);
      BuildWellPlaced(cfg, mover, w, items[..n]);
      StepWithinCapacity(cfg, mover, Build(cfg, mover, w, items[..n]).w, items[n]);
    }
  }

  lemma StoppedWithinCapacity(cfg: Config, mover: Mover, w: World, item: Item, stop: Stop)
    requires cfg.Ok() && WellPlaced(cfg, w.t) && WithinCapacity(cfg, w.t) && Places(cfg, mover, w, item)
    ensures WithinCapacity(cfg, Stopped(cfg, mover, w, item, stop).t)
  {
    StepWithinCapacity(cfg, mover, w, item);
    if stop.AfterDrop? {
      var key := SlotKey(cfg, w, item);
      forall part: nat | DataPartition(cfg, part)
        ensures UsedBy(WithoutEC(w.t, key.group, key.stripe), part) <= cfg.capacity
      {
        UsedFewer(w.t, WithoutEC(w.t, key.group, key.stripe), part);
      }
    }
  }

  lemma RunsWithinCapacity(env: Env, plans: Plans, w: World, schedule: seq<StripeKey>)
    requires env.Ok() && env.cfg.rotation.Raid3? && PlansReady(env, plans, w) && RowsPlaced(env.cfg, w.t)
    requires WithinCapacity(env.cfg, w.t)
    ensures WithinCapacity(env.cfg, Runs(env, plans, Machine(w, Start(plans)), schedule).w.t)
  {
    var t' := Runs(env, plans, Machine(w, Start(plans)), schedule).w.t;
    RunsPlaced(env, plans, w, schedule);
    forall k ensures (IsData(t', k) <==> IsData(w.t, k)) && (IsData(w.t, k) ==> SameShard(t'[k], w.t[k])) {
      RunsKeepRow(env, plans, w, schedule, k);
    }
    forall part: nat | DataPartition(env.cfg, part) ensures UsedBy(t', part) <= env.cfg.capacity {
      SameDataSameSpace(env.cfg, w.t, t', part);
    }
  }

  lemma BuildDataCapacity(setup: Setup, s: System, catalog: Catalog, filter: Option<int>, s': System)
    requires Inv(setup, s) && Next(setup, s, BuildData(catalog, filter), s') && WithinCapacity(s.a.cfg, s.w.t)
    ensures s'.a.cfg == s.a.cfg && WithinCapacity(s.a.cfg, s'.w.t)
  {
    if Buildable(s.a) {
      BuildAllIsBuild(s.a.cfg, setup.mover, catalog, filter, s.w, s.own);
      BuildWithinCapacity(s.a.cfg, setup.mover, s.w, AllItems(catalog, filter, s.own));
    }
    hide WithinCapacity, BuildAll, Build, AllItems, Settled, Fresh, LosesParity;
  }

  lemma BuildKilledCapacity(setup: Setup, s: System, catalog: Catalog, filter: Option<int>, i: nat, stop: Stop,
                            s': System)
    requires Inv(setup, s) && Next(setup, s, BuildKilled(catalog, filter, i, stop), s')
    requires WithinCapacity(s.a.cfg, s.w.t)
    ensures s'.a.cfg == s.a.cfg && WithinCapacity(s.a.cfg, s'.w.t)
  {
    var items := AllItems(catalog, filter, s.own);
    BuildWellPlaced(s.a.cfg, setup.mover, s.w, items[..i]);
    BuildWithinCapacity(s.a.cfg, setup.mover, s.w, items[..i]);
    StoppedWithinCapacity(s.a.cfg, setup.mover, Build(s.a.cfg, setup.mover, s.w, items[..i]).w, items[i], stop);
  }

  lemma SequentialCapacity(setup: Setup, s: System, group: Option<nat>, stripe: Option<nat>, s': System)
    requires Inv(setup, s) && s.a.cfg.m > 0 && Next(setup, s, MakeEc(group, stripe), s')
    requires s.a.cfg.rotation.Raid3? && WithinCapacity(s.a.cfg, s.w.t)
    ensures s'.a.cfg == s.a.cfg && WithinCapacity(s.a.cfg, s'.w.t)
  {
    var env := EnvOf(setup, s.a);
    var ok :| Makes(env, s.a, s.w, group, stripe, s'.a, Outcome(s'.w, ok));
    hide WithinCapacity, WellPlaced, RowsPlaced, Fresh, FilesThere, PadsEmptyOnDisk, AllSolid;
    if Builds(env, s.w, group, stripe, Outcome(s'.w, ok)) {
      var schedule := BuildsByTurns(env, s.w, group, stripe, Outcome(s'.w, ok));
      RunsWithinCapacity(env, SelectedPlans(env.cfg, s.w.t, group, stripe), s.w, schedule);
    }
    hide Builds, SelectedPlans, DataStripes, Runs, PlansReady;
  }

  lemma ParallelCapacity(setup: Setup, s: System, group: Option<nat>, stripe: Option<nat>, schedule: seq<StripeKey>,
                         s': System)
    requires Inv(setup, s) && s.a.cfg.m > 0 && Next(setup, s, MakeEcParallel(group, stripe, schedule), s')
    requires s.a.cfg.rotation.Raid3? && WithinCapacity(s.a.cfg, s.w.t)
    ensures s'.a.cfg == s.a.cfg && WithinCapacity(s.a.cfg, s'.w.t)
  {
    var env := EnvOf(setup, s.a);
    SelectedReady(env, s.w, group, stripe);
    RunsWithinCapacity(env, SelectedPlans(env.cfg, s.w.t, group, stripe), s.w, schedule);
    hide WithinCapacity, SelectedPlans, DataStripes, Runs, PlansReady, WellPlaced, RowsPlaced, Fresh, Complete;
  }

  /** The other commands place nothing. */
  lemma OthersKeepTable(setup: Setup, s: System, cmd: Command, s': System)
    requires Inv(setup, s) && Next(setup, s, cmd, s')
    requires cmd.Append? || cmd.Validate? || cmd.Expand? || cmd.Recover? || cmd.RecoverKilled? || cmd.LoseAndRecover?
             || ((cmd.MakeEc? || cmd.MakeEcParallel?) && s.a.cfg.m == 0)
    ensures s'.w.t == s.w.t && s'.a.cfg == s.a.cfg.(groups := s'.a.cfg.groups)
    ensures s'.a.cfg.Ok() && (WithinCapacity(s.a.cfg, s.w.t) ==> WithinCapacity(s'.a.cfg, s'.w.t))
  {
    hide Settled, Fresh, Does, ParityValid, DataValid, CountsValid, Recoverable, RecoverEach;
  }

  lemma NextWithinCapacity(setup: Setup, s: System, cmd: Command, s': System)
    requires Inv(setup, s) && Next(setup, s, cmd, s') && ParityApart(s.a.cfg) && WithinCapacity(s.a.cfg, s.w.t)
    requires Inv(setup, s')
    ensures s'.a.cfg.Ok() && ParityApart(s'.a.cfg) && WithinCapacity(s'.a.cfg, s'.w.t)
  {
    assert s.a.cfg.Ok() && s'.a.cfg.Ok();
    hide Next, Inv, WithinCapacity;
    match cmd
    case BuildData(catalog, filter) => BuildDataCapacity(setup, s, catalog, filter, s');
    case BuildKilled(catalog, filter, i, stop) => BuildKilledCapacity(setup, s, catalog, filter, i, stop, s');
    case MakeEc(group, stripe) =>
      if s.a.cfg.m > 0 { SequentialCapacity(setup, s, group, stripe, s'); } else { OthersKeepTable(setup, s, cmd, s'); }
    case MakeEcParallel(group, stripe, schedule) =>
      if s.a.cfg.m > 0 {
        ParallelCapacity(setup, s, group, stripe, schedule, s');
      } else {
        OthersKeepTable(setup, s, cmd, s');
      }
    case _ => OthersKeepTable(setup, s, cmd, s');
  }

  ghost predicate CapacityHolds(s: System) {
    s.a.cfg.Ok() && ParityApart(s.a.cfg) && WithinCapacity(s.a.cfg, s.w.t)
  }

  lemma OneCommandWithinCapacity(setup: Setup, cfg: Config, fs: Files, cmds: seq<Command>, states: seq<System>, i: nat)
    requires Suits(setup, cfg) && Lives(setup, cfg, fs, cmds, states) && i < |cmds| && CapacityHolds(states[i])
    ensures CapacityHolds(states[i + 1])
  {
    EveryStateIsSound(setup, cfg, fs, cmds, states, i);
    EveryStateIsSound(setup, cfg, fs, cmds, states, i + 1);
    hide Inv, Next, WithinCapacity;
    NextWithinCapacity(setup, states[i], cmds[i], states[i + 1]);
  }

  /** Under the fixed layout, and in either layout without parity, no data partition is ever filled beyond its
      capacity. */
  lemma NeverBeyondCapacity(setup: Setup, cfg: Config, fs: Files, cmds: seq<Command>, states: seq<System>, i: nat)
    requires Suits(setup, cfg) && ParityApart(cfg)
    requires Lives(setup, cfg, fs, cmds, states) && i <= |cmds|
    ensures CapacityHolds(states[i])
  {
    assert forall part: nat :: UsedBy(map[], part) == 0;
    assert CapacityHolds(states[0]);
    hide CapacityHolds;
    for n := 0 to i
      invariant CapacityHolds(states[n])
    {
      OneCommandWithinCapacity(setup, cfg, fs, cmds, states, n);
    }
  }
}
