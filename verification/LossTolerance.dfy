/** Losing whole partitions: what recover brings back. */
module LossTolerance {
  import opened Bytes
  import opened Paths
  import opened TreePaths
  import opened Disk
  import opened Layout
  import opened ShardTable
  import opened ColumnCode
  import opened StripeBytes
  import opened Stream
  import opened BuildSpec
  import opened StripeTask
  import opened StripeRun
  import opened StripeView
  import opened Recover

  /** A stripe with all its rows and files, whose columns are codewords and whose recorded sizes are true. */
  ghost predicate Whole(env: Env, w: World, id: StripeKey)
    requires env.Ok()
  {
    var paths, padded := FilesAt(env.cfg, w.t, id), PaddedSize(w.t, id);
    && (forall p: nat | p < env.cfg.Total() :: KeyIn(id, p) in w.t)
    && (forall p | p in paths :: p in w.fs)
    && Consistent(env.code, Contents(w.fs, paths), padded)
    && (forall p: nat | p < env.cfg.k :: |w.fs[paths[p]]| == OriginalAt(w.t, id, p) <= padded)
    && (forall p: nat | env.cfg.k <= p < env.cfg.Total() :: |w.fs[paths[p]]| == padded)
  }

  // ---- which files survive ------------------------------------------------------------------

  /** The file is in the directory of one of the partitions, or below it. */
  predicate InDirectories(naming: Naming, p: Path, parts: set<nat>)
    requires !p.Outside?
  {
    exists part | part in parts :: LiesIn(naming, Located(naming, p), part)
  }

  /** The files left when the directories of the given partitions are lost. */
  function Without(naming: Naming, fs: Files, parts: set<nat>): Files {
    map p | p in fs && (p.Outside? || !InDirectories(naming, p, parts)) :: fs[p]
  }

  /** With the directories go exactly the files of the partitions. */
  lemma LostByPartition(naming: Naming, fs: Files, parts: set<nat>)
    ensures forall p :: p in Without(naming, fs, parts) <==> p in fs && (p.Outside? || p.part !in parts)
    ensures forall p | p in Without(naming, fs, parts) :: Without(naming, fs, parts)[p] == fs[p]
  {
    hide LiesIn, Located;
    forall p: Path | !p.Outside? ensures InDirectories(naming, p, parts) <==> p.part in parts {
      if InDirectories(naming, p, parts) {
        var part :| part in parts && LiesIn(naming, Located(naming, p), part);
        LiesInOwn(naming, p, part);
      }
      LiesInOwn(naming, p, p.part);
    }
  }

  /** At most m partitions of a group are lost. */
  ghost predicate Tolerable(cfg: Config, parts: set<nat>, group: nat)
    requires cfg.Ok()
  {
    |set q | q in parts && GroupOf(cfg, q) == group| <= cfg.m
  }

  lemma {:induction false} ImageCardinality(cfg: Config, id: StripeKey, ps: set<nat>)
    requires cfg.Ok() && forall p | p in ps :: p < cfg.Total()
    ensures |ps| == |set p | p in ps :: PartitionOf(cfg, KeyIn(id, p))|
    decreases |ps|
  {
    if p :| p in ps {
      var rest := ps - {p};
      ImageCardinality(cfg, id, rest);
      var image := set q | q in ps :: PartitionOf(cfg, KeyIn(id, q));
      var rest' := set q | q in rest :: PartitionOf(cfg, KeyIn(id, q));
      forall q | q in rest ensures PartitionOf(cfg, KeyIn(id, q)) != PartitionOf(cfg, KeyIn(id, p)) {
        if PartitionOf(cfg, KeyIn(id, q)) == PartitionOf(cfg, KeyIn(id, p)) {
          PartitionInjective(cfg, id.group, q, id.group, p, id.stripe);
        }
      }
      assert image == rest' + {PartitionOf(cfg, KeyIn(id, p))};
    } else {
      assert ps == {};
    }
  }

  /** Distinct positions are in distinct partitions, so at most m positions of a stripe are lost. */
  lemma FewPositionsLost(cfg: Config, parts: set<nat>, id: StripeKey)
    requires cfg.Ok() && Tolerable(cfg, parts, id.group)
    ensures |set p: nat | p < cfg.Total() && PartitionOf(cfg, KeyIn(id, p)) in parts| <= cfg.m
  {
    var lost := set p: nat | p < cfg.Total() && PartitionOf(cfg, KeyIn(id, p)) in parts;
    var image := set p | p in lost :: PartitionOf(cfg, KeyIn(id, p));
    var own := set q | q in parts && GroupOf(cfg, q) == id.group;
    ImageCardinality(cfg, id, lost);
    forall q | q in image ensures q in own {
      var p :| p in lost && q == PartitionOf(cfg, KeyIn(id, p));
      PartitionRoundTrip(cfg, id.group, p, id.stripe);
    }
    SubsetCardinality(image, own);
  }

  lemma SubsetCardinality(a: set<nat>, b: set<nat>)
    requires a <= b
    ensures |a| <= |b|
  {
    assert b == a + (b - a);
  }

  lemma AvailableCounts(fs: Files, paths: seq<Path>, lost: set<nat>)
    requires forall p: nat :: p in lost <==> p < |paths| && paths[p] !in fs
    ensures Available(Shards(fs, Somes(paths))) + |lost| == |paths|
  {
    var shards := Shards(fs, Somes(paths));
    var flags := seq(|shards|, i requires 0 <= i < |shards| => shards[i].Some?);
    var gone := seq(|shards|, i requires 0 <= i < |shards| => shards[i].None?);
    CountComplement(flags, gone);
    CountIsCardinality(gone);
    assert lost == set i | 0 <= i < |gone| && gone[i];
  }

  lemma PathsPlaced(cfg: Config, t: Table, id: StripeKey)
    requires cfg.Ok() && RowsPlaced(cfg, t)
    ensures forall p: nat | p < cfg.Total() ::
              var path := FileAt(cfg, t, id, p);
              !path.Outside? && path.part == PartitionOf(cfg, KeyIn(id, p)) && path.stripe == id.stripe
    ensures forall p: nat, q: nat
              | p < cfg.Total() && q < cfg.Total() && FileAt(cfg, t, id, p) == FileAt(cfg, t, id, q) :: p == q
  {
    forall p: nat | p < cfg.Total()
      ensures var path := FileAt(cfg, t, id, p);
              !path.Outside? && path.part == PartitionOf(cfg, KeyIn(id, p)) && path.stripe == id.stripe
    {
      if KeyIn(id, p) in t {
        assert RowPlaced(cfg, KeyIn(id, p), t[KeyIn(id, p)]);
      }
    }
    forall p: nat, q: nat | p < cfg.Total() && q < cfg.Total() && FileAt(cfg, t, id, p) == FileAt(cfg, t, id, q)
      ensures p == q
    {
      PartitionInjective(cfg, id.group, p, id.group, q, id.stripe);
    }
  }

  /** After a tolerable loss at least k files of every whole stripe are there. */
  lemma LossLeavesEnough(env: Env, w: World, parts: set<nat>, id: StripeKey)
    requires env.Ok() && RowsPlaced(env.cfg, w.t) && Whole(env, w, id) && Tolerable(env.cfg, parts, id.group)
    ensures Available(Shards(Without(env.cfg.naming, w.fs, parts), Somes(FilesAt(env.cfg, w.t, id)))) >= env.cfg.k
  {
    var paths := FilesAt(env.cfg, w.t, id);
    var lost := set p: nat | p < env.cfg.Total() && PartitionOf(env.cfg, KeyIn(id, p)) in parts;
    LostByPartition(env.cfg.naming, w.fs, parts);
    hide Without;
    PathsPlaced(env.cfg, w.t, id);
    FewPositionsLost(env.cfg, parts, id);
    forall p: nat | p < env.cfg.Total() ensures p in lost <==> paths[p] !in Without(env.cfg.naming, w.fs, parts) {
      assert paths[p] in paths;
      assert paths[p] == FileAt(env.cfg, w.t, id, p);
    }
    AvailableCounts(Without(env.cfg.naming, w.fs, parts), paths, lost);
  }

  // ---- what the reconstruction writes -------------------------------------------------------

  /** Files that are there stay; a new file is that of a wanted position. */
  lemma {:induction false} RecoveredKeeps(code: Code, fs: Files, paths: seq<Path>, sizes: seq<nat>, padded: nat,
                                          target: string, upTo: nat, p: Path)
    requires |sizes| == code.k && upTo <= |paths|
    ensures var out := Recovered(code, fs, Somes(paths), sizes, padded, target, upTo);
            if p in fs then p in out && out[p] == fs[p]
            else p in out ==> exists i: nat :: i < upTo && paths[i] == p && Wanted(fs, Somes(paths), code.k, target, i)
  {
    hide RecoveredFile;
    if upTo > 0 {
      RecoveredKeeps(code, fs, paths, sizes, padded, target, upTo - 1, p);
    }
  }

  /** With distinct paths every wanted position gets its own file. */
  lemma {:induction false} RecoveredAt(code: Code, fs: Files, paths: seq<Path>, sizes: seq<nat>, padded: nat,
                                       target: string, upTo: nat, i: nat)
    requires |sizes| == code.k && i < upTo <= |paths|
    requires forall i, j | 0 <= i < j < |paths| :: paths[i] != paths[j]
    requires Wanted(fs, Somes(paths), code.k, target, i)
    ensures var out := Recovered(code, fs, Somes(paths), sizes, padded, target, upTo);
            paths[i] in out && out[paths[i]] == RecoveredFile(code, Shards(fs, Somes(paths)), sizes, padded, i)
  {
    hide RecoveredFile, Shards;
    if i < upTo - 1 {
      RecoveredAt(code, fs, paths, sizes, padded, target, upTo - 1, i);
    }
  }

  /** Padding a file and cutting it again gives it back exactly when its length is what is left. */
  lemma ClippedExactly(b: Bytes, size: nat, padded: nat)
    ensures Clip(Window(b, 0, padded), size) == b <==> |b| == Min(size, padded)
  {
    var c := Clip(Window(b, 0, padded), size);
    if |b| == Min(size, padded) {
      forall x | 0 <= x < |b| ensures c[x] == b[x] {
        assert Window(b, 0, padded)[x] == At(b, x);
      }
    }
  }

  /** The files of a stripe that are there are the stripe's own. */
  ghost predicate Left(fs: Files, fs': Files, paths: seq<Path>) {
    forall p | p in paths && p in fs' :: p in fs && fs'[p] == fs[p]
  }

  /** What reconstruction computes for a missing position of a whole stripe. */
  lemma MissingComesBack(env: Env, w: World, id: StripeKey, fs: Files, i: nat)
    requires env.Ok() && env.code.Lawful() && Whole(env, w, id) && i < env.cfg.Total()
    requires Left(w.fs, fs, FilesAt(env.cfg, w.t, id))
    requires Available(Shards(fs, Somes(FilesAt(env.cfg, w.t, id)))) >= env.cfg.k
    ensures var paths := FilesAt(env.cfg, w.t, id);
            paths[i] in w.fs &&
            RecoveredFile(env.code, Shards(fs, Somes(paths)), Originals(env.cfg, w.t, id), PaddedSize(w.t, id), i)
              == w.fs[paths[i]]
  {
    var paths, padded := FilesAt(env.cfg, w.t, id), PaddedSize(w.t, id);
    var files := Contents(w.fs, paths);
    var shards := Shards(fs, Somes(paths));
    assert paths[i] in paths;
    assert Survivors(shards, files) by {
      forall j | 0 <= j < |files| && shards[j].Some? ensures shards[j].value == files[j] {
        assert paths[j] in paths;
      }
    }
    RebuildRestores(env.code, shards, files, padded, i);
    ClipRestores(files[i], padded);
  }

  /** A file after a repair: there before with the same bytes, or the file of a wanted position. */
  ghost predicate KeptOrWanted(env: Env, t: Table, id: StripeKey, fs: Files, target: string, p: Path)
    requires env.Ok()
  {
    var out, paths := Repaired(env, t, fs, id, target), FilesAt(env.cfg, t, id);
    if p in fs then p in out && out[p] == fs[p]
    else p in out ==>
      exists i: nat :: i < env.cfg.Total() && paths[i] == p && Wanted(fs, Somes(paths), env.cfg.k, target, i)
  }

  /** Target "all" brings back every file of the stripe, target "data" every data file; every file that is
      there stays as it is, and nothing else is written. */
  lemma RepairRestores(env: Env, w: World, id: StripeKey, fs: Files, target: string)
    requires env.Ok() && env.code.Lawful() && RowsPlaced(env.cfg, w.t) && Whole(env, w, id)
    requires Left(w.fs, fs, FilesAt(env.cfg, w.t, id))
    requires Available(Shards(fs, Somes(FilesAt(env.cfg, w.t, id)))) >= env.cfg.k
    ensures var out, paths := Repaired(env, w.t, fs, id, target), FilesAt(env.cfg, w.t, id);
            && (forall i: nat | i < env.cfg.Total() && (i < env.cfg.k || target == "all") ::
                  paths[i] in out && paths[i] in w.fs && out[paths[i]] == w.fs[paths[i]])
            && (forall p | p in fs :: p in out && out[p] == fs[p])
            && (forall p | p in out && p !in fs ::
                  exists i: nat :: i < env.cfg.Total() && paths[i] == p && (i < env.cfg.k || target == "all"))
  {
    var paths := FilesAt(env.cfg, w.t, id);
    PathsPlaced(env.cfg, w.t, id);
    assert forall i, j | 0 <= i < j < |paths| :: paths[i] != paths[j];
    var sizes, padded := Originals(env.cfg, w.t, id), PaddedSize(w.t, id);
    forall p ensures KeptOrWanted(env, w.t, id, fs, target, p) {
      RecoveredKeeps(env.code, fs, paths, sizes, padded, target, env.cfg.Total(), p);
    }
    forall i: nat | i < env.cfg.Total() && (i < env.cfg.k || target == "all")
      ensures var out := Repaired(env, w.t, fs, id, target);
              paths[i] in out && paths[i] in w.fs && out[paths[i]] == w.fs[paths[i]]
    {
      MissingComesBack(env, w, id, fs, i);
      assert paths[i] in paths;
      if paths[i] !in fs {
        RecoveredAt(env.code, fs, paths, sizes, padded, target, env.cfg.Total(), i);
      } else {
        assert KeptOrWanted(env, w.t, id, fs, target, paths[i]);
      }
    }
    hide Recovered, RecoveredFile, FilesAt, Whole, RowsPlaced, Repaired;
    forall p ensures p in fs ==> p in Repaired(env, w.t, fs, id, target)
                                 && Repaired(env, w.t, fs, id, target)[p] == fs[p]
             ensures p in Repaired(env, w.t, fs, id, target) && p !in fs ==>
                       exists i: nat :: i < env.cfg.Total() && paths[i] == p && (i < env.cfg.k || target == "all")
    {
      assert KeptOrWanted(env, w.t, id, fs, target, p);
    }
  }

  /** The file is in both trees with the same bytes. */
  ghost predicate Same(fs: Files, fs': Files, p: Path) {
    p in fs && p in fs' && fs'[p] == fs[p]
  }

  /** Recorded checksums are those of the files. */
  ghost predicate SumsTrue(env: Env, w: World) {
    forall k | k in w.t && w.t[k].kind.DATA? && w.t[k].sum.Some? ::
      w.t[k].path in w.fs && env.hash(w.fs[w.t[k].path]) == w.t[k].sum.value
  }

  /** Recovering any lost shard of a whole stripe succeeds, and passes its own checks. */
  lemma RecoverSucceeds(env: Env, w: World, key: Key, fs: Files, target: string, fs': Files, ok: bool)
    requires env.Ok() && env.code.Lawful() && RowsPlaced(env.cfg, w.t) && SumsTrue(env, w)
    requires key in w.t && Whole(env, w, IdOf(key)) && PaddedSize(w.t, IdOf(key)) > 0
    requires target == "all" || (target == "data" && w.t[key].kind.DATA?)
    requires Left(w.fs, fs, FilesAt(env.cfg, w.t, IdOf(key)))
    requires Available(Shards(fs, Somes(FilesAt(env.cfg, w.t, IdOf(key))))) >= env.cfg.k
    requires Does(env, w.t, fs, key, target, fs', ok)
    ensures ok && Same(w.fs, fs', w.t[key].path)
  {
    var id := IdOf(key);
    var paths := FilesAt(env.cfg, w.t, id);
    RepairRestores(env, w, id, fs, target);
    assert RowPlaced(env.cfg, key, w.t[key]);
    assert key == KeyIn(id, key.pos) && paths[key.pos] == w.t[key].path;
    hide Repaired, FilesAt, Consistent, Available, RowPlaced, RowsPlaced;
    if target == "all" {
      AllBack(w.fs, fs', paths);
    }
  }

  lemma AllBack(fs: Files, fs': Files, paths: seq<Path>)
    requires forall i: nat | i < |paths| :: paths[i] in fs' && paths[i] in fs && fs'[paths[i]] == fs[paths[i]]
    ensures forall p | p in paths :: p in fs' && p in fs && fs'[p] == fs[p]
    ensures Contents(fs', paths) == Contents(fs, paths)
  {
    forall p | p in paths ensures p in fs' && p in fs && fs'[p] == fs[p] {
      var i :| 0 <= i < |paths| && paths[i] == p;
    }
  }
}
