/** The end-to-end promise: after make-ec, losing up to m partitions of every group loses nothing. */
module PartitionLoss {
  import opened Bytes
  import opened Paths
  import opened TreePaths
  import opened Disk
  import opened Layout
  import opened ShardTable
  import opened StripeBytes
  import opened Stream
  import opened Placement
  import opened BuildSpec
  import opened StripeTask
  import opened StripeRun
  import opened StripeView
  import opened Recover
  import opened LossTolerance
  import opened MakeEcRun
  import opened CompleteStripes

  /** Every file is one of the tree's, with its bytes. */
  ghost predicate PartOf(fs: Files, whole: Files) {
    forall p | p in fs :: p in whole && fs[p] == whole[p]
  }

  /** Recovering shards one after another with target "all": the files, and whether all succeeded. */
  ghost function RecoverEach(env: Env, t: Table, fs: Files, keys: seq<Key>): (Files, bool)
    requires env.Ok() && forall k | k in keys :: k in t
  {
    if keys == [] then (fs, true)
    else
      var n := |keys| - 1;
      var (mid, ok) := RecoverEach(env, t, fs, keys[..n]);
      if !Begins(env, t, mid, keys[n], "all") then (mid, false)
      else
        var out := Repaired(env, t, mid, IdOf(keys[n]), "all");
        (out, ok && Accepted(env, t, out, keys[n], "all"))
  }

  /** A world in which recovery has everything it needs. */
  ghost predicate Recoverable(env: Env, w: World)
    requires env.Ok()
  {
    && RowsPlaced(env.cfg, w.t) && SumsTrue(env, w)
    && forall k | k in w.t :: Whole(env, w, IdOf(k)) && PaddedSize(w.t, IdOf(k)) > 0
  }

  lemma MoreFilesMoreShards(fs: Files, fs': Files, paths: seq<Path>)
    requires forall p | p in fs :: p in fs'
    ensures Available(Shards(fs, Somes(paths))) <= Available(Shards(fs', Somes(paths)))
  {
    var gone := set i: nat | i < |paths| && paths[i] !in fs;
    var gone' := set i: nat | i < |paths| && paths[i] !in fs';
    AvailableCounts(fs, paths, gone);
    AvailableCounts(fs', paths, gone');
    SubsetCardinality(gone', gone);
  }

  /** One recovery among survivors: it succeeds, restores its stripe and writes nothing foreign. */
  lemma OneRecovery(env: Env, w: World, parts: set<nat>, key: Key, fs: Files)
    requires env.Ok() && env.code.Lawful() && Recoverable(env, w) && key in w.t
    requires Tolerable(env.cfg, parts, key.group)
    requires PartOf(Without(env.cfg.naming, w.fs, parts), fs) && PartOf(fs, w.fs)
    ensures Begins(env, w.t, fs, key, "all")
    ensures var out := Repaired(env, w.t, fs, IdOf(key), "all");
            && Accepted(env, w.t, out, key, "all")
            && PartOf(fs, out) && PartOf(out, w.fs)
            && forall p | p in FilesAt(env.cfg, w.t, IdOf(key)) :: p in out
  {
    hide Without, Repaired, Whole, FilesAt, Available, TolerableLoss;
    var id := IdOf(key);
    var paths := FilesAt(env.cfg, w.t, id);
    assert Whole(env, w, id) && PaddedSize(w.t, id) > 0;
    LossLeavesEnough(env, w, parts, id);
    MoreFilesMoreShards(Without(env.cfg.naming, w.fs, parts), fs, paths);
    assert Left(w.fs, fs, paths);
    RepairRestores(env, w, id, fs, "all");
    var out := Repaired(env, w.t, fs, id, "all");
    hide Recoverable;
    RecoverSucceeds(env, w, key, fs, "all", out, Accepted(env, w.t, out, key, "all"));
    hide Accepted;
    forall p | p in out ensures p in w.fs && out[p] == w.fs[p] {
      if p !in fs {
        var i: nat :| i < env.cfg.Total() && paths[i] == p;
      }
    }
    AllBack(w.fs, out, paths);
  }

  /** Recovering any shards after a tolerable loss succeeds, restores all files of their stripes byte for
      byte, and writes no other bytes. */
  lemma {:induction false} EachComesBack(env: Env, w: World, parts: set<nat>, keys: seq<Key>)
    requires env.Ok() && env.code.Lawful() && Recoverable(env, w) && forall k | k in keys :: k in w.t
    requires forall k | k in keys :: Tolerable(env.cfg, parts, k.group)
    ensures var (fs, ok) := RecoverEach(env, w.t, Without(env.cfg.naming, w.fs, parts), keys);
            && ok && PartOf(Without(env.cfg.naming, w.fs, parts), fs) && PartOf(fs, w.fs)
            && forall k, p | k in keys && p in FilesAt(env.cfg, w.t, IdOf(k)) :: p in fs
  {
    hide LiesIn, InDirectories;
    if keys != [] {
      var n := |keys| - 1;
      assert keys == keys[..n] + [keys[n]];
      EachComesBack(env, w, parts, keys[..n]);
      var (mid, _) := RecoverEach(env, w.t, Without(env.cfg.naming, w.fs, parts), keys[..n]);
      OneRecovery(env, w, parts, keys[n], mid);
      hide Begins, Repaired, Accepted, FilesAt, Recoverable, Tolerable;
    }
  }

  /** Shards of the table, at least one from every stripe. */
  ghost predicate Covers(t: Table, keys: seq<Key>) {
    (forall k | k in keys :: k in t) && forall k | k in t :: CoveredBy(keys, IdOf(k))
  }

  ghost predicate CoveredBy(keys: seq<Key>, id: StripeKey) {
    exists j :: j in keys && IdOf(j) == id
  }

  /** At most m partitions are lost in each group. */
  ghost predicate TolerableLoss(cfg: Config, parts: set<nat>)
    requires cfg.Ok()
  {
    forall g: nat :: Tolerable(cfg, parts, g)
  }

  /** The file of every row is in both trees with the same bytes. */
  ghost predicate AllRowsBack(t: Table, whole: Files, fs: Files) {
    forall k | k in t :: Same(whole, fs, t[k].path)
  }

  /** Losing up to m partitions of each group and then recovering one shard of every stripe brings back the
      file of every row, for raid3 and raid5. */
  lemma LossIsTolerated(env: Env, w: World, parts: set<nat>, keys: seq<Key>)
    requires env.Ok() && env.code.Lawful() && Recoverable(env, w) && Covers(w.t, keys)
    requires TolerableLoss(env.cfg, parts)
    ensures var (fs, ok) := RecoverEach(env, w.t, Without(env.cfg.naming, w.fs, parts), keys);
            ok && AllRowsBack(w.t, w.fs, fs)
  {
    EachComesBack(env, w, parts, keys);
    var (fs, _) := RecoverEach(env, w.t, Without(env.cfg.naming, w.fs, parts), keys);
    hide RecoverEach, TolerableLoss, Without;
    forall k | k in w.t ensures Same(w.fs, fs, w.t[k].path) {
      assert CoveredBy(keys, IdOf(k));
      RowFileIsListed(env.cfg, w.t, k);
      assert Whole(env, w, IdOf(k));
    }
  }

  lemma RowFileIsListed(cfg: Config, t: Table, k: Key)
    requires cfg.Ok() && RowsPlaced(cfg, t) && k in t
    ensures t[k].path in FilesAt(cfg, t, IdOf(k))
  {
    assert RowPlaced(cfg, k, t[k]);
    assert k == KeyIn(IdOf(k), k.pos);
    assert FilesAt(cfg, t, IdOf(k))[k.pos] == t[k].path;
  }

  /** Every stripe has a DATA shard that is not empty. */
  ghost predicate SomeDataEach(t: Table) {
    forall k | k in t :: SomeDataIn(t, IdOf(k))
  }

  ghost predicate SomeDataIn(t: Table, id: StripeKey) {
    exists j :: j in t && IdOf(j) == id && t[j].kind.DATA? && t[j].size > 0
  }

  /** After a successful unfiltered make-ec over a table with true sizes and checksums and some data in every
      stripe, any loss of up to m partitions per group is repaired by recover. */
  lemma MakeEcTolerates(env: Env, w0: World, out: Outcome, parts: set<nat>, keys: seq<Key>)
    requires env.Ok() && env.code.Lawful() && WellPlaced(env.cfg, w0.t) && SizesTrue(w0) && SumsTrue(env, w0)
    requires Builds(env, w0, None, None, out) && out.ok && SomeDataEach(w0.t)
    requires TolerableLoss(env.cfg, parts) && Covers(out.w.t, keys)
    ensures var (fs, ok) := RecoverEach(env, out.w.t, Without(env.cfg.naming, out.w.fs, parts), keys);
            ok && AllRowsBack(out.w.t, out.w.fs, fs)
  {
    MakeEcRecoverable(env, w0, out);
    LossIsTolerated(env, out.w, parts, keys);
  }

  lemma MakeEcRecoverable(env: Env, w0: World, out: Outcome)
    requires env.Ok() && WellPlaced(env.cfg, w0.t) && SizesTrue(w0) && SumsTrue(env, w0)
    requires Builds(env, w0, None, None, out) && out.ok && SomeDataEach(w0.t)
    ensures Recoverable(env, out.w)
  {
    CompletedKeepsSums(env, w0, out);
    CompletedIsSolid(env, w0, out);
    hide Builds, WellPlaced, SizesTrue, Whole, AllSolid, RowsPlaced, SomeDataEach;
    forall k | k in out.w.t ensures Whole(env, out.w, IdOf(k)) && PaddedSize(out.w.t, IdOf(k)) > 0 {
      CompletedIsWhole(env, w0, out, k);
      SomeData(env, w0, out, k);
    }
  }

  lemma SomeData(env: Env, w0: World, out: Outcome, k: Key)
    requires env.Ok() && WellPlaced(env.cfg, w0.t) && Builds(env, w0, None, None, out) && out.ok && k in out.w.t
    requires SomeDataEach(w0.t)
    ensures PlanFor(env.cfg, w0.t, IdOf(k)).Padded() > 0
  {
    StripeIsBuilt(env, w0, out, k);
    var i :| i in w0.t && IsData(w0.t, i) && i.pos < env.cfg.k && IdOf(k) == IdOf(i);
    hide Builds;
    assert SomeDataIn(w0.t, IdOf(i));
    var j :| j in w0.t && IdOf(j) == IdOf(i) && w0.t[j].kind.DATA? && w0.t[j].size > 0;
    DataGivesSize(env.cfg, w0.t, j);
  }

  lemma DataGivesSize(cfg: Config, t: Table, j: Key)
    requires cfg.Ok() && WellPlaced(cfg, t) && j in t && t[j].kind.DATA? && t[j].size > 0
    ensures PlanFor(cfg, t, IdOf(j)).Padded() > 0
  {
    assert RowPlaced(cfg, j, t[j]);
    var plan := PlanFor(cfg, t, IdOf(j));
    assert j == Key(j.group, j.stripe, j.pos);
    assert plan.sizes[j.pos] == t[j].size;
    MaxOfIsMaximum(plan.sizes);
  }

  /** The length a lost file is rebuilt to: the original size for data, the padded size for parity, and never more
      than the padded size. */
  ghost function RebuiltLength(env: Env, t: Table, id: StripeKey, i: nat): nat {
    if i < env.cfg.k then Min(OriginalAt(t, id, i), PaddedSize(t, id)) else PaddedSize(t, id)
  }

  /** On a solid stripe with at least k files left, a lost file that is wanted is written back, byte for byte exactly
      when the file that was lost had the length its rows speak for. */
  lemma RestoredExactly(env: Env, w: World, id: StripeKey, fs: Files, target: string, i: nat)
    requires env.Ok() && env.code.Lawful() && RowsPlaced(env.cfg, w.t) && Solid(env, w, id)
    requires Left(w.fs, fs, FilesAt(env.cfg, w.t, id))
    requires Available(Shards(fs, Somes(FilesAt(env.cfg, w.t, id)))) >= env.cfg.k
    requires i < env.cfg.Total() && FilesAt(env.cfg, w.t, id)[i] !in fs && (i < env.cfg.k || target == "all")
    ensures var path, out := FilesAt(env.cfg, w.t, id)[i], Repaired(env, w.t, fs, id, target);
            && path in out && path in w.fs
            && (out[path] == w.fs[path] <==> |w.fs[path]| == RebuiltLength(env, w.t, id, i))
  {
    var paths, padded := FilesAt(env.cfg, w.t, id), PaddedSize(w.t, id);
    var files, shards := Contents(w.fs, paths), Shards(fs, Somes(paths));
    assert paths[i] in paths;
    PathsPlaced(env.cfg, w.t, id);
    assert forall i, j | 0 <= i < j < |paths| :: paths[i] != paths[j];
    assert Survivors(shards, files) by {
      forall j | 0 <= j < |files| && shards[j].Some? ensures shards[j].value == files[j] {
        assert paths[j] in paths;
      }
    }
    RebuildRestores(env.code, shards, files, padded, i);
    RecoveredAt(env.code, fs, paths, Originals(env.cfg, w.t, id), padded, target, env.cfg.Total(), i);
    ClippedExactly(files[i], if i < env.cfg.k then OriginalAt(w.t, id, i) else padded, padded);
    hide FilesAt, Consistent, RowsPlaced, Survivors, Available, RebuiltFile;
  }

  /** Target "data" writes no parity file, of a whole stripe or not. */
  lemma DataSparesParity(env: Env, t: Table, fs: Files, id: StripeKey, p: Path)
    requires env.Ok() && RowsPlaced(env.cfg, t) && p.Parity?
    ensures var out := Repaired(env, t, fs, id, "data");
            (p in out <==> p in fs) && (p in fs ==> out[p] == fs[p])
  {
    var paths := FilesAt(env.cfg, t, id);
    RecoveredKeeps(env.code, fs, paths, Originals(env.cfg, t, id), PaddedSize(t, id), "data", env.cfg.Total(), p);
    forall i: nat | i < env.cfg.k ensures !paths[i].Parity? {
      if KeyIn(id, i) in t {
        assert RowPlaced(env.cfg, KeyIn(id, i), t[KeyIn(id, i)]);
      }
    }
  }
}
