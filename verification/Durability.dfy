/** Durability over whole lives: a completed arcset survives the loss of m partitions per group. */
module Durability {
  import opened Bytes
  import opened Disk
  import opened Layout
  import opened ShardTable
  import opened StripeBytes
  import opened Stream
  import opened Placement
  import opened BuildSpec
  import opened StripeTask
  import opened StripeRun
  import opened StripeView
  import opened Resume
  import opened Freshness
  import opened LossTolerance
  import opened MakeEcKeeps
  import opened CompleteStripes
  import opened PartitionLoss
  import opened Lifecycle
  import opened Locality
  import opened Schedule
  import opened BuildStripes
  import opened MakeEcRun
  import opened Arcset
  import opened Recover
  import Validate
  import opened TrueRecords

  /** The rows of a stripe with fresh parity speak for the padded size of its DATA rows. */
  lemma FreshPadded(env: Env, w: World, id: StripeKey, key: Key)
    requires env.Ok() && RowsPlaced(env.cfg, w.t) && FreshRow(env, w, key)
    requires key in w.t && key.pos >= env.cfg.k && IdOf(key) == id
    ensures var plan := PlanFor(env.cfg, w.t, id);
            && PaddedSize(w.t, id) == plan.Padded()
            && StripeStamped(w.t, id, plan.Padded())
            && w.t[key].path in w.fs && |w.fs[w.t[key].path]| == plan.Padded()
  {
    assert RowPlaced(env.cfg, key, w.t[key]);
    var plan := PlanFor(env.cfg, w.t, id);
    hide ParityContent;
    assert IsPaddedSize(w.t, id, plan.Padded()) by {
      assert Claimed(w.t[key]) == plan.Padded();
    }
    PaddedSizeUnique(w.t, id, plan.Padded(), PaddedSize(w.t, id));
    ParityLength(env, plan, w.fs, key.pos - env.cfg.k);
  }

  lemma ParityLength(env: Env, plan: Plan, fs: Files, i: nat)
    requires |plan.paths| == |plan.sizes|
    ensures |ParityContent(env, plan, fs, i)| == plan.Padded()
  {
  }

  /** In a sound world with true sizes a solid stripe is whole. */
  lemma SolidIsWhole(env: Env, w: World, id: StripeKey)
    requires env.Ok() && Sound(env, w) && SizesTrue(w) && Solid(env, w, id)
    ensures Whole(env, w, id) && PaddedSize(w.t, id) == PlanFor(env.cfg, w.t, id).Padded()
  {
    var plan, paths := PlanFor(env.cfg, w.t, id), FilesAt(env.cfg, w.t, id);
    var first := KeyIn(id, env.cfg.k);
    assert FreshRow(env, w, first);
    FreshPadded(env, w, id, first);
    hide Consistent, Fresh, FilesThere, WellPlaced;
    forall p: nat | env.cfg.k <= p < env.cfg.Total() ensures paths[p] in w.fs && |w.fs[paths[p]]| == plan.Padded() {
      assert FreshRow(env, w, KeyIn(id, p)) by { FreshAt(env, w, KeyIn(id, p)); }
      FreshPadded(env, w, id, KeyIn(id, p));
    }
    forall p: nat | p < env.cfg.k
      ensures paths[p] in w.fs && |w.fs[paths[p]]| == OriginalAt(w.t, id, p) <= plan.Padded()
    {
      DataLength(env, w, id, p);
    }
  }

  lemma FreshAt(env: Env, w: World, key: Key)
    requires env.Ok() && Sound(env, w)
    ensures FreshRow(env, w, key)
  {
  }

  lemma DataLength(env: Env, w: World, id: StripeKey, p: nat)
    requires env.Ok() && Sound(env, w) && SizesTrue(w) && p < env.cfg.k && KeyIn(id, p) in w.t
    requires StripeStamped(w.t, id, PlanFor(env.cfg, w.t, id).Padded())
    ensures var path := FileAt(env.cfg, w.t, id, p);
            path in w.fs && |w.fs[path]| == OriginalAt(w.t, id, p) <= PlanFor(env.cfg, w.t, id).Padded()
  {
    var key, plan := KeyIn(id, p), PlanFor(env.cfg, w.t, id);
    assert RowPlaced(env.cfg, key, w.t[key]);
    assert PadEmpty(w, key);
    assert IdOf(key) == id;
    MaxOfIsMaximum(plan.sizes);
    if IsData(w.t, key) {
      assert plan.sizes[p] == w.t[key].size;
    }
    hide WellPlaced, Fresh, FreshRow, RowsPlaced;
  }

  lemma SoundIsRecoverable(env: Env, w: World)
    requires env.Ok() && Sound(env, w) && AllSolid(env, w) && SizesTrue(w) && SumsTrue(env, w) && SomeDataEach(w.t)
    ensures Recoverable(env, w)
  {
    forall k | k in w.t ensures Whole(env, w, IdOf(k)) && PaddedSize(w.t, IdOf(k)) > 0 {
      assert Solid(env, w, IdOf(k));
      assert SomeDataIn(w.t, IdOf(k));
      assert WellPlaced(env.cfg, w.t);
      hide Sound, Solid, AllSolid, SizesTrue, WellPlaced, Whole;
      SolidIsWhole(env, w, IdOf(k));
      var j :| j in w.t && IdOf(j) == IdOf(k) && w.t[j].kind.DATA? && w.t[j].size > 0;
      DataGivesSize(env.cfg, w.t, j);
    }
  }

  /** In every state of every life every parity row has its file, of the recorded size and checksum. */
  lemma ParityRecordsStayTrue(setup: Setup, cfg: Config, fs: Files, cmds: seq<Command>, states: seq<System>, i: nat,
                              key: Key)
    requires Suits(setup, cfg) && Lives(setup, cfg, fs, cmds, states) && i <= |cmds|
    requires key in states[i].w.t && states[i].w.t[key].kind.EC? && states[i].a.cfg.m > 0
    ensures var w, row := states[i].w, states[i].w.t[key];
            row.path in w.fs && |w.fs[row.path]| == row.size && row.sum == Some(setup.mover.hash(w.fs[row.path]))
  {
    EveryStateIsSound(setup, cfg, fs, cmds, states, i);
    hide Lives;
    var env := EnvOf(setup, states[i].a);
    assert RowPlaced(env.cfg, key, states[i].w.t[key]);
    FreshAt(env, states[i].w, key);
    hide FreshRow;
    FreshIsRecorded(env, states[i].w, key);
  }

  // ---- what can be recovered at all ---------------------------------------------------------

  /** A stripe speaks for a padded size exactly when one of its DATA shards is not empty. */
  lemma PaddedExactly(env: Env, w: World, id: StripeKey)
    requires env.Ok() && Sound(env, w) && Solid(env, w, id)
    ensures PaddedSize(w.t, id) > 0 <==> SomeDataIn(w.t, id)
  {
    var first := KeyIn(id, env.cfg.k);
    assert IdOf(first) == id && first in w.t;
    assert FreshRow(env, w, first);
    FreshPadded(env, w, id, first);
    if SomeDataIn(w.t, id) {
      var j :| j in w.t && IdOf(j) == id && w.t[j].kind.DATA? && w.t[j].size > 0;
      DataGivesSize(env.cfg, w.t, j);
    }
    if PlanFor(env.cfg, w.t, id).Padded() > 0 {
      SomeSizeIsData(env, w, id);
    }
  }

  /** On a solid stripe with at least k files left, recover begins exactly when the stripe has a DATA shard that is
      not empty: a stripe of empty shards is never recovered. */
  lemma RecoverBeginsExactly(env: Env, w: World, key: Key, fs: Files)
    requires env.Ok() && Sound(env, w) && Solid(env, w, IdOf(key)) && key in w.t
    requires Available(Shards(fs, Somes(FilesAt(env.cfg, w.t, IdOf(key))))) >= env.cfg.k
    ensures Begins(env, w.t, fs, key, "all") <==> SomeDataIn(w.t, IdOf(key))
  {
    PaddedExactly(env, w, IdOf(key));
    hide Sound, Solid, Available;
  }

  lemma {:induction false} RecoveredHavePadding(env: Env, t: Table, fs: Files, keys: seq<Key>, k: Key)
    requires env.Ok() && (forall k | k in keys :: k in t) && k in keys && RecoverEach(env, t, fs, keys).1
    ensures PaddedSize(t, IdOf(k)) > 0
    decreases |keys|
  {
    var n := |keys| - 1;
    assert keys == keys[..n] + [keys[n]];
    hide Repaired, Accepted, PaddedSize;
    if k in keys[..n] {
      RecoveredHavePadding(env, t, fs, keys[..n], k);
    }
  }

  /** Recovering a shard of every stripe can only succeed when every stripe has some data. */
  lemma RecoveryNeedsData(env: Env, w: World, fs: Files, keys: seq<Key>)
    requires env.Ok() && Sound(env, w) && AllSolid(env, w) && Covers(w.t, keys)
    requires RecoverEach(env, w.t, fs, keys).1
    ensures SomeDataEach(w.t)
  {
    hide Sound, RecoverEach;
    forall k | k in w.t ensures SomeDataIn(w.t, IdOf(k)) {
      assert CoveredBy(keys, IdOf(k));
      var j :| j in keys && IdOf(j) == IdOf(k);
      RecoveredHavePadding(env, w.t, fs, keys, j);
      PaddedExactly(env, w, IdOf(k));
    }
  }

  /** The world survives a loss: recovering a shard of every stripe succeeds exactly when every stripe has some data,
      and then the file of every row is back. */
  lemma LossSurvived(env: Env, w: World, parts: set<nat>, keys: seq<Key>)
    requires env.Ok() && env.code.Lawful() && Sound(env, w) && AllSolid(env, w) && SizesTrue(w) && SumsTrue(env, w)
    requires TolerableLoss(env.cfg, parts) && Covers(w.t, keys)
    ensures var (fs', ok) := RecoverEach(env, w.t, Without(env.cfg.naming, w.fs, parts), keys);
            (ok <==> SomeDataEach(w.t)) && (ok ==> AllRowsBack(w.t, w.fs, fs'))
  {
    if SomeDataEach(w.t) {
      SoundIsRecoverable(env, w);
      hide Recoverable, Sound, AllSolid, SizesTrue, RecoverEach;
      LossIsTolerated(env, w, parts, keys);
    } else if RecoverEach(env, w.t, Without(env.cfg.naming, w.fs, parts), keys).1 {
      RecoveryNeedsData(env, w, Without(env.cfg.naming, w.fs, parts), keys);
    }
  }

  /** In every life of an arcset with parity over honest catalogs, at every state where it is completed: after losing
      up to m partitions of every group, recovering one shard of every stripe succeeds exactly when every stripe has
      a DATA shard that is not empty, and then brings back the file of every row. */
  lemma CompletedSurvives(setup: Setup, cfg: Config, fs: Files, cmds: seq<Command>, states: seq<System>, i: nat,
                          parts: set<nat>, keys: seq<Key>)
    requires Suits(setup, cfg) && setup.code.Lawful() && HonestLife(setup.mover, fs, cmds)
    requires Lives(setup, cfg, fs, cmds, states) && i <= |cmds|
    requires states[i].a.status.Completed? && states[i].a.cfg.m > 0
    requires states[i].a.cfg.Ok() && TolerableLoss(states[i].a.cfg, parts) && Covers(states[i].w.t, keys)
    ensures EnvOf(setup, states[i].a).Ok()
    ensures var env, w := EnvOf(setup, states[i].a), states[i].w;
            var (fs', ok) := RecoverEach(env, w.t, Without(env.cfg.naming, w.fs, parts), keys);
            (ok <==> SomeDataEach(w.t)) && (ok ==> AllRowsBack(w.t, w.fs, fs'))
  {
    EveryStateIsSound(setup, cfg, fs, cmds, states, i);
    RecordsStayTrue(setup, cfg, fs, cmds, states, i);
    hide Lives, HonestLife;
    LossSurvived(EnvOf(setup, states[i].a), states[i].w, parts, keys);
  }

  /** When no shard of the catalogs is empty, every completed state survives without further conditions. */
  lemma NonEmptySurvives(setup: Setup, cfg: Config, fs: Files, cmds: seq<Command>, states: seq<System>, i: nat,
                         parts: set<nat>, keys: seq<Key>)
    requires Suits(setup, cfg) && setup.code.Lawful() && HonestLife(setup.mover, fs, cmds) && NoEmptyShards(cmds)
    requires Lives(setup, cfg, fs, cmds, states) && i <= |cmds|
    requires states[i].a.status.Completed? && states[i].a.cfg.m > 0
    requires states[i].a.cfg.Ok() && TolerableLoss(states[i].a.cfg, parts) && Covers(states[i].w.t, keys)
    ensures EnvOf(setup, states[i].a).Ok()
    ensures var env, w := EnvOf(setup, states[i].a), states[i].w;
            var (fs', ok) := RecoverEach(env, w.t, Without(env.cfg.naming, w.fs, parts), keys);
            ok && AllRowsBack(w.t, w.fs, fs')
  {
    CompletedSurvives(setup, cfg, fs, cmds, states, i, parts, keys);
    SizesStayPositive(setup, cfg, fs, cmds, states, i);
    EveryStateIsSound(setup, cfg, fs, cmds, states, i);
    hide Lives, HonestLife, RecoverEach;
    var t := states[i].w.t;
    forall k | k in t ensures SomeDataIn(t, IdOf(k)) {
      var first := Key(k.group, k.stripe, 0);
      assert IsData(t, first) && IdOf(first) == IdOf(k);
    }
  }

  /** So at such a state the loss and the recoveries are a step of the life, after which all promises hold again. */
  lemma CompletedMayLose(setup: Setup, cfg: Config, fs: Files, cmds: seq<Command>, states: seq<System>, i: nat,
                         parts: set<nat>, keys: seq<Key>) returns (s': System)
    requires Suits(setup, cfg) && setup.code.Lawful() && HonestLife(setup.mover, fs, cmds)
    requires Lives(setup, cfg, fs, cmds, states) && i <= |cmds|
    requires states[i].a.status.Completed? && states[i].a.cfg.m > 0 && SomeDataEach(states[i].w.t)
    requires states[i].a.cfg.Ok() && TolerableLoss(states[i].a.cfg, parts) && Covers(states[i].w.t, keys)
    ensures Inv(setup, states[i]) && Next(setup, states[i], LoseAndRecover(parts, keys), s') && Inv(setup, s')
  {
    var s := states[i];
    EveryStateIsSound(setup, cfg, fs, cmds, states, i);
    RecordsStayTrue(setup, cfg, fs, cmds, states, i);
    hide Lives, HonestLife;
    var env := EnvOf(setup, s.a);
    SoundIsRecoverable(env, s.w);
    s' := System(if keys == [] then s.a else s.a.(health := Healthy, parityDegraded := false), s.own,
                 World(s.w.t, RecoverEach(env, s.w.t, Without(env.cfg.naming, s.w.fs, parts), keys).0));
    hide Recoverable, SizesTrue, SumsTrue, AllSolid, Fresh, Settled, RecoverEach, Without;
    NextKeeps(setup, s, LoseAndRecover(parts, keys), s');
  }

  lemma SomeSizeIsData(env: Env, w: World, id: StripeKey)
    requires env.Ok() && RowsPlaced(env.cfg, w.t) && PlanFor(env.cfg, w.t, id).Padded() > 0
    ensures SomeDataIn(w.t, id)
  {
    var plan := PlanFor(env.cfg, w.t, id);
    MaxOfIsMaximum(plan.sizes);
    var p :| 0 <= p < |plan.sizes| && plan.sizes[p] == plan.Padded();
    assert IsData(w.t, KeyIn(id, p));
    assert IdOf(KeyIn(id, p)) == id;
  }

  /** Validation accepts the parity of a sound arcset of solid stripes exactly when every stripe has a DATA shard
      that is not empty: a stripe of empty shards is built without complaint but never validates. */
  lemma ValidatesExactly(env: Env, w: World)
    requires env.Ok() && Sound(env, w) && AllSolid(env, w)
    ensures Validate.ParityValid(env, w) <==> SomeDataEach(w.t)
  {
    Validate.ValidIsSolid(env, w);
    forall k | k in w.t ensures PaddedSize(w.t, IdOf(k)) > 0 <==> SomeDataIn(w.t, IdOf(k)) {
      PaddedExactly(env, w, IdOf(k));
    }
    hide Validate.ParityValid, AllSolid, Sound;
  }

  /** In every life over honest catalogs the data stage of validation succeeds at every state. */
  lemma DataValidates(setup: Setup, cfg: Config, fs: Files, cmds: seq<Command>, states: seq<System>, i: nat,
                      a': Arcset, ok: bool)
    requires Suits(setup, cfg) && HonestLife(setup.mover, fs, cmds)
    requires Lives(setup, cfg, fs, cmds, states) && i <= |cmds|
    requires Suits(setup, states[i].a.cfg)
    requires Validate.Validates(EnvOf(setup, states[i].a), states[i].a, states[i].w, states[i].own, "data", a', ok)
    ensures ok && a' == states[i].a.(health := Healthy)
  {
    var s := states[i];
    RecordsStayTrue(setup, cfg, fs, cmds, states, i);
    hide Lives, HonestLife;
    Validate.PassesExactly(EnvOf(setup, s.a), s.a, s.w, s.own, "data", a', ok);
    hide Validate.Validates, Validate.ParityValid, Suits;
    forall k | k in s.w.t && s.w.t[k].kind.DATA? ensures IsData(s.w.t, k) {
    }
  }

  /** With a checksum that tells contents apart it notices every change of a file of recorded checksum. */
  lemma DamageIsNoticed(env: Env, a: Arcset, w: World, fs: Files, own: Relations, stage: string, k: Key, a': Arcset,
                        ok: bool)
    requires (a.cfg.m > 0 ==> env.Ok()) && SumsTrue(env, w) && IsData(w.t, k)
    requires w.t[k].sum.Some? && w.t[k].sum.value != "" && !Same(w.fs, fs, w.t[k].path)
    requires forall b: Bytes, c: Bytes | env.hash(b) == env.hash(c) :: b == c
    requires Validate.Validates(env, a, World(w.t, fs), own, stage, a', ok) && stage != "ec"
    ensures !ok && a' == a
  {
    Validate.PassesExactly(env, a, World(w.t, fs), own, stage, a', ok);
    hide Validate.Validates, Validate.ParityValid;
  }

  // ---- make-ec gets there -------------------------------------------------------------------

  /** With true sizes every selected stripe builds on its own. */
  lemma StripeBuilds(env: Env, w: World, group: Option<nat>, stripe: Option<nat>, id: StripeKey)
    requires env.Ok() && RowsPlaced(env.cfg, w.t) && SizesTrue(w)
    requires id in SelectedPlans(env.cfg, w.t, group, stripe)
    requires PlansReady(env, SelectedPlans(env.cfg, w.t, group, stripe), w)
    ensures OnItsOwn(env, SelectedPlans(env.cfg, w.t, group, stripe), id, w).ok
  {
    var plan, l := PlanFor(env.cfg, w.t, id), Part(env.cfg, id, w);
    PlanIsReady(env, w, id);
    PlanPathsAreOwn(env, plan, w);
    PartReady(env, plan, w);
    forall p: nat | p < env.cfg.k && plan.paths[p].Some?
      ensures plan.paths[p].value in l.fs && |l.fs[plan.paths[p].value]| == plan.sizes[p]
    {
      assert IsData(w.t, plan.KeyAt(p));
    }
    hide RowsPlaced, Part, PlanFor, Ready, BuildOne;
    TruthfulBuilds(env, plan, l);
  }

  /** On sound worlds with true sizes and some DATA, an unfiltered make-ec succeeds. */
  lemma MakeEcSucceeds(env: Env, w: World) returns (out: Outcome)
    requires env.Ok() && RowsPlaced(env.cfg, w.t) && SizesTrue(w) && DataStripes(env.cfg, w.t) != {}
    ensures Builds(env, w, None, None, out) && out.ok
  {
    var plans := SelectedPlans(env.cfg, w.t, None, None);
    SelectedReady(env, w, None, None);
    assert plans.Keys == DataStripes(env.cfg, w.t);
    var keys := SortedKeys(plans.Keys);
    OrderedApart(keys);
    InOrderLocal(env, plans, keys, w);
    forall id | id in keys ensures OnItsOwn(env, plans, id, w).ok {
      StripeBuilds(env, w, None, None, id);
    }
    out := InOrder(env, plans, keys, w);
    OrderedBuilds(env, w, keys);
  }

  lemma BuildsCompletes(env: Env, a: Arcset, w: World, out: Outcome)
    requires env.Ok() && RowsPlaced(env.cfg, w.t) && Startable(a) && Builds(env, w, None, None, out) && out.ok
    ensures MakesEc(env, a, w, None, None, Completion(a.(status := Building, phase := ECPhase)), out)
  {
    var plans := SelectedPlans(env.cfg, w.t, None, None);
    assert plans.Keys != {};
    var id :| id in plans;
    assert id in DataStripes(env.cfg, w.t);
  }

  /** Without parity, true checksums are all that is asked. */
  lemma DataMatches(env: Env, w: World)
    requires env.cfg.Ok() && Settled(env.cfg, w) && SumsTrue(env, w) && AllSummed(w.t)
    ensures forall k | k in w.t :: RowMatches(env.hash, w.fs, w.t[k])
  {
  }

  /** In every life over honest catalogs, at every state in which make-ec may start, it completes the arcset: with
      parity if there is some DATA, without parity always. */
  lemma MakeEcCompletes(setup: Setup, cfg: Config, fs: Files, cmds: seq<Command>, states: seq<System>, i: nat)
    returns (s': System)
    requires Suits(setup, cfg) && HonestLife(setup.mover, fs, cmds)
    requires Lives(setup, cfg, fs, cmds, states) && i <= |cmds| && Startable(states[i].a)
    requires states[i].a.cfg.m > 0 ==> DataStripes(states[i].a.cfg, states[i].w.t) != {}
    ensures Inv(setup, states[i])
    ensures Next(setup, states[i], MakeEc(None, None), s') && s'.a.status.Completed?
    ensures Inv(setup, s')
  {
    var s := states[i];
    var env := EnvOf(setup, s.a);
    EveryStateIsSound(setup, cfg, fs, cmds, states, i);
    RecordsStayTrue(setup, cfg, fs, cmds, states, i);
    hide Lives, HonestLife;
    if s.a.cfg.m > 0 {
      var out := MakeEcSucceeds(env, s.w);
      s' := System(Completion(s.a.(status := Building, phase := ECPhase)), s.own, out.w);
      BuildsCompletes(env, s.a, s.w, out);
      assert Makes(env, s.a, s.w, None, None, s'.a, Outcome(s'.w, true));
    } else {
      s' := s.(a := Completion(s.a));
      DataMatches(env, s.w);
      assert Makes(env, s.a, s.w, None, None, s'.a, Outcome(s'.w, true));
    }
    hide Inv, Makes;
    NextKeeps(setup, s, MakeEc(None, None), s');
  }
}
