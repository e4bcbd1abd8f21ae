/** recover: one lost shard brings its whole stripe back. */
module Recover {
  import opened Bytes
  import opened Paths
  import opened CleanPath
  import opened TreePaths
  import opened Disk
  import opened Layout
  import opened ShardTable
  import opened StripeBytes
  import opened Stream
  import opened Placement
  import opened BuildSpec
  import opened BuildData
  import opened StripeTask
  import opened StripeRun
  import opened StripeView
  import opened Arcset

  /** The stripe can be reconstructed from the files there are. */
  ghost predicate Enough(env: Env, t: Table, fs: Files, id: StripeKey)
    requires env.Ok()
  {
    PaddedSize(t, id) > 0 && Available(Shards(fs, Somes(FilesAt(env.cfg, t, id)))) >= env.cfg.k
  }

  /** The files after the reconstruction of a stripe. */
  ghost function Repaired(env: Env, t: Table, fs: Files, id: StripeKey, target: string): Files
    requires env.Ok()
  {
    Recovered(env.code, fs, Somes(FilesAt(env.cfg, t, id)), Originals(env.cfg, t, id), PaddedSize(t, id), target,
              env.cfg.Total())
  }

  /** The checks after the reconstruction: the shard's checksum, and with target "all" the stripe. */
  ghost predicate Accepted(env: Env, t: Table, fs: Files, key: Key, target: string)
    requires env.Ok() && key in t
  {
    var paths := FilesAt(env.cfg, t, IdOf(key));
    && (t[key].kind.DATA? && t[key].sum.Some? ==> t[key].path in fs && env.hash(fs[t[key].path]) == t[key].sum.value)
    && (target == "all" ==>
          (forall p | p in paths :: p in fs) && Consistent(env.code, Contents(fs, paths), PaddedSize(t, IdOf(key))))
  }

  /** The rows of one stripe by position, and its padded size. */
  method StripeRows(list: seq<ShardRow>, ghost t: Table, id: StripeKey) returns (rows: map<nat, Row>, padded: nat)
    requires Lists(list, t)
    ensures forall p: nat :: p in rows <==> KeyIn(id, p) in t
    ensures forall p: nat | p in rows :: rows[p] == t[KeyIn(id, p)]
    ensures IsPaddedSize(t, id, padded)
  {
    rows, padded := map[], 0;
    for i := 0 to |list|
      invariant forall p | p in rows :: KeyIn(id, p) in t && rows[p] == t[KeyIn(id, p)]
      invariant forall j | 0 <= j < i && IdOf(list[j].key) == id ::
                  list[j].key.pos in rows && Claimed(list[j].row) <= padded
      invariant padded == 0 || exists k :: k in t && IdOf(k) == id && Claimed(t[k]) == padded
    {
      var o := list[i];
      if IdOf(o.key) == id {
        assert o.key == KeyIn(id, o.key.pos);
        rows := rows[o.key.pos := o.row];
        if o.row.padded > padded { padded := o.row.padded; }
        if o.row.kind.EC? && o.row.size > padded { padded := o.row.size; }
      }
    }
    forall p: nat | KeyIn(id, p) in t ensures p in rows {
      var i :| 0 <= i < |list| && list[i].key == KeyIn(id, p);
    }
  }

  /** The files of the stripe and the sizes its data files are cut to. */
  method StripeFiles(cfg: Config, rows: map<nat, Row>, ghost t: Table, id: StripeKey)
    returns (paths: seq<Path>, sizes: seq<nat>)
    requires cfg.Ok()
    requires forall p: nat :: p in rows <==> KeyIn(id, p) in t
    requires forall p: nat | p in rows :: rows[p] == t[KeyIn(id, p)]
    ensures paths == FilesAt(cfg, t, id) && sizes == Originals(cfg, t, id)
    ensures |paths| == cfg.Total() && forall p | 0 <= p < cfg.Total() ::
              var key := Key(id.group, id.stripe, p);
              paths[p] == if key in t then t[key].path
                          else if p < cfg.k then Pad(PartitionOf(cfg, key), id.stripe)
                          else Parity(PartitionOf(cfg, key), id.stripe)
    ensures |sizes| == cfg.k && forall p | 0 <= p < cfg.k ::
              var key := Key(id.group, id.stripe, p);
              sizes[p] == if key !in t || t[key].kind.PAD? then 0
                          else if t[key].kind.DATA? && t[key].original > 0 then t[key].original
                          else t[key].size
  {
    paths, sizes := [], [];
    for pos := 0 to cfg.Total()
      invariant |paths| == pos && |sizes| == Min(pos, cfg.k)
      invariant forall p | 0 <= p < pos :: paths[p] == FileAt(cfg, t, id, p)
      invariant forall p | 0 <= p < Min(pos, cfg.k) :: sizes[p] == OriginalAt(t, id, p)
    {
      var path;
      var size := 0;
      if pos in rows {
        path := rows[pos].path;
        match rows[pos].kind
        case DATA =>
          size := rows[pos].original;
          if size == 0 { size := rows[pos].size; }
        case EC => size := rows[pos].size;
        case PAD =>
      } else if pos < cfg.k {
        path := Pad(PartitionOf(cfg, KeyIn(id, pos)), id.stripe);
      } else {
        path := Parity(PartitionOf(cfg, KeyIn(id, pos)), id.stripe);
      }
      if pos < cfg.k { sizes := sizes + [size]; }
      paths := paths + [path];
    }
  }

  method CheckRecovered(env: Env, disk: Disk, ghost t: Table, key: Key, row: Row, paths: seq<Path>, padded: nat,
                        chunk: int, target: string) returns (ok: bool)
    requires env.Ok() && ValidChunk(chunk) && key in t && t[key] == row
    requires paths == FilesAt(env.cfg, t, IdOf(key)) && padded == PaddedSize(t, IdOf(key))
    ensures ok <==> Accepted(env, t, disk.files, key, target)
  {
    if row.kind.DATA? && row.sum.Some? {
      if row.path !in disk.files { return false; }
      if env.hash(disk.files[row.path]) != row.sum.value { return false; }
    }
    if target == "all" {
      var verified := VerifyStripeStreaming(env.code, disk, paths, padded, chunk);
      return verified.Success? && verified.value;
    }
    return true;
  }

  /** What has to hold before anything is written. */
  ghost predicate Begins(env: Env, t: Table, fs: Files, key: Key, target: string)
    requires env.Ok() && key in t
  {
    (target == "data" ==> t[key].kind.DATA?) && Enough(env, t, fs, IdOf(key))
  }

  lemma AllNamed(fs: Files, paths: seq<Path>, k: nat, target: string)
    ensures forall i | 0 <= i < |paths| && Wanted(fs, Somes(paths), k, target, i) :: Somes(paths)[i].Some?
  {
  }

  /** What recovering a shard does: nothing when it cannot begin; otherwise the stripe is repaired, and the
      checks decide about success. */
  ghost predicate Does(env: Env, t: Table, fs: Files, key: Key, target: string, fs': Files, ok: bool)
    requires env.Ok() && key in t
  {
    if !Begins(env, t, fs, key, target) then !ok && fs' == fs
    else fs' == Repaired(env, t, fs, IdOf(key), target) && (ok <==> Accepted(env, t, fs', key, target))
  }

  /** Exactly when a recovery succeeds, and so what success means: the shard has its recorded checksum, and with target
      "all" every file of the stripe is there and every column is a codeword. */
  lemma RecoversExactly(env: Env, t: Table, fs: Files, key: Key, target: string, fs': Files, ok: bool)
    requires env.Ok() && key in t && Does(env, t, fs, key, target, fs', ok)
    ensures var row, paths, padded := t[key], FilesAt(env.cfg, t, IdOf(key)), PaddedSize(t, IdOf(key));
            ok <==>
              && (target == "data" ==> row.kind.DATA?)
              && padded > 0 && Available(Shards(fs, Somes(paths))) >= env.cfg.k
              && (row.kind.DATA? && row.sum.Some? ==> row.path in fs' && env.hash(fs'[row.path]) == row.sum.value)
              && (target == "all" ==>
                    && (forall p | p in paths :: p in fs')
                    && forall x | 0 <= x < padded :: env.code.Codeword(Column(Contents(fs', paths), x)))
  {
    hide Repaired, PaddedSize, FilesAt, Available;
  }

  /** When only one content has the recorded checksum, a recovery that succeeds has brought that content back, whatever
      has become of the files it was rebuilt from. */
  lemma SuccessIsOriginal(env: Env, t: Table, fs: Files, key: Key, target: string, fs': Files, ok: bool, b: Bytes)
    requires env.Ok() && key in t && Does(env, t, fs, key, target, fs', ok)
    requires t[key].kind.DATA? && t[key].sum == Some(env.hash(b))
    requires forall c: Bytes | env.hash(c) == env.hash(b) :: c == b
    ensures ok ==> t[key].path in fs' && fs'[t[key].path] == b
  {
    RecoversExactly(env, t, fs, key, target, fs', ok);
    hide Does, PaddedSize, FilesAt, Available;
  }

  /** Reconstructs the stripe of one shard and runs the checks. */
  method RecoverStripe(env: Env, disk: Disk, store: Store, key: Key, target: string, chunk: int) returns (ok: bool)
    requires env.Ok() && ValidChunk(chunk) && key in store.rows && (target == "data" || target == "all")
    modifies disk
    ensures Does(env, store.rows, old(disk.files), key, target, disk.files, ok)
  {
    if target == "data" && !store.rows[key].kind.DATA? { return false; }
    var paths, sizes, padded := ReadStripe(env.cfg, store, IdOf(key));
    if padded <= 0 { return false; }
    hide Accepted, Repaired, PaddedSize, FilesAt, Originals;
    ok := RepairFiles(env, disk, store.rows, IdOf(key), paths, sizes, padded, chunk, target);
    if ok {
      ok := CheckRecovered(env, disk, store.rows, key, store.rows[key], paths, padded, chunk, target);
    }
  }

  /** Lists the rows and assembles the stripe. */
  method ReadStripe(cfg: Config, store: Store, id: StripeKey) returns (paths: seq<Path>, sizes: seq<nat>, padded: nat)
    requires cfg.Ok()
    ensures paths == FilesAt(cfg, store.rows, id) && sizes == Originals(cfg, store.rows, id)
    ensures padded == PaddedSize(store.rows, id)
  {
    var list := ListShards(store);
    var rows;
    hide Lists, IsPaddedSize, FilesAt, Originals;
    rows, padded := StripeRows(list, store.rows, id);
    PaddedSizeUnique(store.rows, id, padded, PaddedSize(store.rows, id));
    paths, sizes := StripeFiles(cfg, rows, store.rows, id);
  }

  method RepairFiles(env: Env, disk: Disk, ghost t: Table, id: StripeKey, paths: seq<Path>, sizes: seq<nat>,
                     padded: nat, chunk: int, target: string) returns (ok: bool)
    requires env.Ok() && ValidChunk(chunk) && (target == "data" || target == "all")
    requires paths == FilesAt(env.cfg, t, id) && sizes == Originals(env.cfg, t, id)
    requires padded == PaddedSize(t, id) && padded > 0
    modifies disk
    ensures ok <==> Enough(env, t, old(disk.files), id)
    ensures disk.files == if ok then Repaired(env, t, old(disk.files), id, target) else old(disk.files)
  {
    AllNamed(disk.files, paths, env.cfg.k, target);
    hide Recovered, Available, IsPaddedSize;
    var r := ReconstructStripeStreaming(env.code, disk, Somes(paths), sizes, padded, chunk, target);
    ok := r.Success?;
  }

  /** The row of the shard with this path below the root. */
  predicate Named(naming: Naming, t: Table, name: string, key: Key) {
    key in t && !t[key].path.Outside? && Located(naming, t[key].path) == name
  }

  /** The unique index on paths leaves at most one row to a path. */
  lemma NamedUnique(naming: Naming, t: Table, name: string, a: Key, b: Key)
    requires UniqueIndexes(t) && Named(naming, t, name, a) && Named(naming, t, name, b)
    ensures a == b
  {
    LocatedInjective(naming, t[a].path, t[b].path);
    assert RowsClash(a, t[a], b, t[b]);
  }

  /** A shard is found by its path relative to the arcset's root, and by that path below the root, however they are
      spelled. */
  lemma ShardIsFound(cfg: Config, t: Table, root: string, key: Key)
    requires cfg.Ok() && RowsPlaced(cfg, t) && key in t
    requires IsAbs(root) && Clean(root) == root
    ensures !t[key].path.Outside?
    ensures var name := Located(cfg.naming, t[key].path);
            forall p | p != "" && (Clean(p) == name || Clean(p) == Clean(root + "/" + name)) ::
              Named(cfg.naming, t, Normalize(root, p), key)
  {
    assert RowPlaced(cfg, key, t[key]);
    hide Located, Normalize, Clean;
    LocatedIsFound(root, cfg.naming, t[key].path);
    var name := Located(cfg.naming, t[key].path);
    forall p | p != "" && (Clean(p) == name || Clean(p) == Clean(root + "/" + name))
      ensures Normalize(root, p) == name
    {
      AnySpelling(root, name, p);
    }
  }

  /** A DATA shard's file has the recorded checksum. */
  predicate SumKept(hash: Bytes -> string, fs: Files, row: Row) {
    row.kind.DATA? && row.sum.Some? ==> row.path in fs && hash(fs[row.path]) == row.sum.value
  }

  method FindShardByPath(naming: Naming, store: Store, name: string) returns (found: Option<Key>)
    requires UniqueIndexes(store.rows)
    ensures found.Some? ==> Named(naming, store.rows, name, found.value)
    ensures forall key | Named(naming, store.rows, name, key) :: found == Some(key)
  {
    if key :| key in store.rows && Named(naming, store.rows, name, key) {
      forall other | Named(naming, store.rows, name, other) ensures other == key {
        NamedUnique(naming, store.rows, name, other, key);
      }
      return Some(key);
    }
    return None;
  }

  /** The command: finds the shard by the path it is given, repairs its stripe, and on success records health. */
  method Recover(env: Env, registry: Registry, arcset: nat, root: string, disk: Disk, store: Store,
                 shardFile: string, opt: string, size: int) returns (ok: bool)
    requires arcset in registry.arcsets && registry.arcsets[arcset].cfg.m > 0 ==>
               env.Ok() && registry.arcsets[arcset].cfg == env.cfg
    requires UniqueIndexes(store.rows)
    modifies disk, registry`arcsets
    ensures var target, name := if opt == "" then "all" else opt, Normalize(root, shardFile);
            if (target == "data" || target == "all") && (size == 0 || ValidChunk(size))
               && arcset in old(registry.arcsets) && old(registry.arcsets)[arcset].cfg.m > 0
               && exists key :: Named(env.cfg.naming, store.rows, name, key)
            then forall key | Named(env.cfg.naming, store.rows, name, key) ::
                   Does(env, store.rows, old(disk.files), key, target, disk.files, ok)
            else !ok && disk.files == old(disk.files)
    ensures ok ==> forall key | Named(env.cfg.naming, store.rows, Normalize(root, shardFile), key) ::
                     SumKept(env.hash, disk.files, store.rows[key])
    ensures registry.arcsets ==
            if !ok then old(registry.arcsets)
            else old(registry.arcsets)[arcset :=
                   old(registry.arcsets)[arcset].(health := Healthy, parityDegraded := opt == "data")]
  {
    hide Does, Named, Normalize, UniqueIndexes;
    ghost var before := disk.files;
    var target := if opt == "" then "all" else opt;
    if target != "data" && target != "all" { return false; }
    var chunk := if size == 0 then DEFAULT_CHUNK else size;
    if !ValidChunk(chunk) || arcset !in registry.arcsets { return false; }
    if registry.arcsets[arcset].cfg.m == 0 { return false; }
    var found := FindShardByPath(env.cfg.naming, store, Normalize(root, shardFile));
    if found.None? { return false; }
    ok := RecoverFound(env, disk, store, Normalize(root, shardFile), found.value, target, chunk);
    if ok {
      RecoversExactly(env, store.rows, before, found.value, target, disk.files, ok);
      registry.SetHealth(arcset, Healthy);
      registry.SetParityDegraded(arcset, target == "data");
    }
  }

  method RecoverFound(env: Env, disk: Disk, store: Store, name: string, key: Key, target: string, chunk: int)
    returns (ok: bool)
    requires env.Ok() && ValidChunk(chunk) && (target == "data" || target == "all")
    requires Named(env.cfg.naming, store.rows, name, key)
    requires forall other | Named(env.cfg.naming, store.rows, name, other) :: other == key
    modifies disk
    ensures forall other | Named(env.cfg.naming, store.rows, name, other) ::
              Does(env, store.rows, old(disk.files), other, target, disk.files, ok)
  {
    hide Does;
    ok := RecoverStripe(env, disk, store, key, target, chunk);
  }
}
