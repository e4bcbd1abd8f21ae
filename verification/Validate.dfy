/** validate: the checks of DATA files, shard counts and stripes, the second way to complete an arcset. */
module Validate {
  import opened Bytes
  import opened Disk
  import opened ShardTable
  import opened StripeBytes
  import opened Stream
  import opened Placement
  import opened BuildSpec
  import opened BuildData
  import opened StripeTask
  import opened StripeRun
  import opened StripeView
  import opened Locality
  import opened CompleteStripes
  import opened Arcset

  // ---- what is checked ----------------------------------------------------------------------

  /** The file of a DATA row has the recorded size and checksum, as far as they are recorded. */
  predicate RowValid(hash: Bytes -> string, fs: Files, row: Row) {
    row.kind.DATA? ==>
      && row.path in fs
      && (row.size > 0 ==> |fs[row.path]| == row.size)
      && (row.sum.Some? && row.sum.value != "" ==> hash(fs[row.path]) == row.sum.value)
  }

  ghost predicate DataValid(hash: Bytes -> string, w: World) {
    forall k | k in w.t :: RowValid(hash, w.fs, w.t[k])
  }

  predicate FromDataset(t: Table, k: Key, dataset: int) {
    k in t && t[k].kind.DATA? && t[k].source.Some? && t[k].source.value.dataset == dataset
  }

  function RowsFrom(t: Table, dataset: int): set<Key> {
    set k | k in t && FromDataset(t, k, dataset)
  }

  /** Every dataset of the arcset that announces a shard count has at least that many DATA rows. */
  ghost predicate CountsValid(t: Table, own: Relations) {
    forall r | r in own && r.shards > 0 :: |RowsFrom(t, r.dataset)| >= r.shards
  }

  /** A stripe has a padded size, all its rows and files, and consistent columns. */
  ghost predicate StripeValid(env: Env, w: World, id: StripeKey)
    requires env.Ok()
  {
    var paths := FilesAt(env.cfg, w.t, id);
    && PaddedSize(w.t, id) > 0
    && (forall p: nat | p < env.cfg.Total() :: KeyIn(id, p) in w.t)
    && (forall p | p in paths :: p in w.fs)
    && Consistent(env.code, Contents(w.fs, paths), PaddedSize(w.t, id))
  }

  ghost predicate ParityValid(env: Env, w: World)
    requires env.Ok()
  {
    forall k | k in w.t :: StripeValid(env, w, IdOf(k))
  }

  /** Valid parity makes every stripe solid, and solid stripes with some data are valid. */
  lemma ValidIsSolid(env: Env, w: World)
    requires env.Ok() && RowsPlaced(env.cfg, w.t)
    ensures ParityValid(env, w) <==> AllSolid(env, w) && forall k | k in w.t :: PaddedSize(w.t, IdOf(k)) > 0
  {
    forall k, j | k in w.t && j in w.t && IdOf(j) == IdOf(k) ensures j.pos < env.cfg.Total() {
      assert RowPlaced(env.cfg, j, w.t[j]);
    }
    if ParityValid(env, w) {
      forall k | k in w.t ensures Solid(env, w, IdOf(k)) && PaddedSize(w.t, IdOf(k)) > 0 {
        assert StripeValid(env, w, IdOf(k));
      }
    }
    if AllSolid(env, w) && forall k | k in w.t :: PaddedSize(w.t, IdOf(k)) > 0 {
      forall k | k in w.t ensures StripeValid(env, w, IdOf(k)) {
        assert Solid(env, w, IdOf(k));
      }
    }
  }

  // ---- the checks ---------------------------------------------------------------------------

  method ValidateData(hash: Bytes -> string, disk: Disk, list: seq<ShardRow>, ghost t: Table) returns (ok: bool)
    requires Lists(list, t)
    ensures ok <==> DataValid(hash, World(t, disk.files))
  {
    for i := 0 to |list|
      invariant forall j | 0 <= j < i :: RowValid(hash, disk.files, list[j].row)
    {
      var row := list[i].row;
      if row.kind.DATA? {
        if row.path !in disk.files { return false; }
        if row.size > 0 && |disk.files[row.path]| != row.size { return false; }
        if row.sum.Some? && row.sum.value != "" && hash(disk.files[row.path]) != row.sum.value { return false; }
      }
    }
    forall k | k in t ensures RowValid(hash, disk.files, t[k]) {
      var i :| 0 <= i < |list| && list[i].key == k;
    }
    return true;
  }

  /** The DATA rows per dataset. */
  method CountShards(list: seq<ShardRow>, ghost t: Table) returns (counts: map<int, nat>)
    requires Lists(list, t)
    ensures forall d: int :: CountFor(counts, d) == |RowsFrom(t, d)|
  {
    counts := map[];
    ghost var seen: set<Key> := {};
    hide CountFor, SeenFrom, RowsFrom;
    NothingSeen(t);
    for i := 0 to |list|
      invariant forall k :: k in seen <==> exists j :: 0 <= j < i && list[j].key == k
      invariant Counted(counts, t, seen)
    {
      var o := list[i];
      assert o.key !in seen;
      counts := CountRow(counts, t, seen, o.key, o.row);
      seen := seen + {o.key};
    }
    forall k | k in t ensures k in seen {
      var i :| 0 <= i < |list| && list[i].key == k;
    }
    AllSeen(t, seen, counts);
  }

  ghost predicate Counted(counts: map<int, nat>, t: Table, seen: set<Key>) {
    forall d: int :: CountFor(counts, d) == |SeenFrom(t, seen, d)|
  }

  lemma NothingSeen(t: Table)
    ensures Counted(map[], t, {})
  {
  }

  lemma AllSeen(t: Table, seen: set<Key>, counts: map<int, nat>)
    requires (forall k | k in t :: k in seen) && Counted(counts, t, seen)
    ensures forall d: int :: CountFor(counts, d) == |RowsFrom(t, d)|
  {
    forall d: int ensures SeenFrom(t, seen, d) == RowsFrom(t, d) {
    }
  }

  method CountRow(counts: map<int, nat>, ghost t: Table, ghost seen: set<Key>, key: Key, row: Row)
    returns (counts': map<int, nat>)
    requires Counted(counts, t, seen) && key !in seen && key in t && t[key] == row
    ensures Counted(counts', t, seen + {key})
  {
    OneMoreSeen(t, seen, key);
    hide SeenFrom;
    if row.kind.DATA? && row.source.Some? {
      var d := row.source.value.dataset;
      counts' := counts[d := CountFor(counts, d) + 1];
    } else {
      counts' := counts;
    }
  }

  function CountFor(counts: map<int, nat>, d: int): nat {
    if d in counts then counts[d] else 0
  }

  ghost function SeenFrom(t: Table, seen: set<Key>, d: int): set<Key> {
    set k | k in seen && FromDataset(t, k, d)
  }

  lemma OneMoreSeen(t: Table, seen: set<Key>, key: Key)
    requires key !in seen
    ensures forall d: int ::
              |SeenFrom(t, seen + {key}, d)| == |SeenFrom(t, seen, d)| + if FromDataset(t, key, d) then 1 else 0
  {
    forall d: int
      ensures |SeenFrom(t, seen + {key}, d)| == |SeenFrom(t, seen, d)| + if FromDataset(t, key, d) then 1 else 0
    {
      var a := SeenFrom(t, seen, d);
      assert SeenFrom(t, seen + {key}, d) == if FromDataset(t, key, d) then a + {key} else a;
    }
  }

  method ValidateShardCounts(list: seq<ShardRow>, ghost t: Table, own: Relations) returns (ok: bool)
    requires Lists(list, t)
    ensures ok <==> CountsValid(t, own)
  {
    var counts := CountShards(list, t);
    for i := 0 to |own|
      invariant forall j | 0 <= j < i && own[j].shards > 0 :: |RowsFrom(t, own[j].dataset)| >= own[j].shards
    {
      if own[i].shards > 0 && CountFor(counts, own[i].dataset) < own[i].shards {
        assert own[i] in own;
        return false;
      }
    }
    return true;
  }

  /** The rows of each stripe. */
  ghost predicate GroupsAll(t: Table, stripes: map<StripeKey, Table>) {
    && (forall k | k in t :: IdOf(k) in stripes)
    && (forall id | id in stripes :: stripes[id] == RowsOf(t, id) && exists k :: k in t && IdOf(k) == id)
  }

  /** The rows listed so far, by stripe. */
  ghost predicate GroupsSome(t: Table, stripes: map<StripeKey, Table>) {
    forall id, k | id in stripes && k in stripes[id] :: IdOf(k) == id && k in t && stripes[id][k] == t[k]
  }

  predicate HoldsKey(stripes: map<StripeKey, Table>, k: Key) {
    IdOf(k) in stripes && k in stripes[IdOf(k)]
  }

  method GroupRows(list: seq<ShardRow>, ghost t: Table) returns (stripes: map<StripeKey, Table>)
    requires Lists(list, t)
    ensures GroupsAll(t, stripes)
  {
    stripes := map[];
    for i := 0 to |list|
      invariant GroupsSome(t, stripes) && forall id | id in stripes :: stripes[id] != map[]
      invariant forall j | 0 <= j < i :: HoldsKey(stripes, list[j].key)
    {
      var o := list[i];
      var rows := if IdOf(o.key) in stripes then stripes[IdOf(o.key)] else map[];
      var rows' := rows[o.key := o.row];
      assert o.key in rows';
      stripes := stripes[IdOf(o.key) := rows'];
    }
    forall k | k in t ensures HoldsKey(stripes, k) {
      var i :| 0 <= i < |list| && list[i].key == k;
    }
    AllGrouped(t, stripes);
  }

  lemma AllGrouped(t: Table, stripes: map<StripeKey, Table>)
    requires GroupsSome(t, stripes) && forall id | id in stripes :: stripes[id] != map[]
    requires forall k | k in t :: HoldsKey(stripes, k)
    ensures GroupsAll(t, stripes)
  {
    forall id | id in stripes ensures stripes[id] == RowsOf(t, id) && exists k :: k in t && IdOf(k) == id {
      forall k ensures k in stripes[id] <==> k in RowsOf(t, id) {
        assert k in t ==> HoldsKey(stripes, k);
        assert k in t && IdOf(k) == id <==> k in RowsOf(t, id);
      }
      var k :| k in stripes[id];
    }
  }

  /** The largest padded size among the rows of a stripe. */
  method PaddedOf(rows: Table, ghost t: Table, id: StripeKey) returns (padded: nat)
    requires rows == RowsOf(t, id)
    ensures padded == PaddedSize(t, id)
  {
    padded := 0;
    var todo := rows.Keys;
    while todo != {}
      invariant todo <= rows.Keys
      invariant forall k | k in rows && k !in todo :: Claimed(rows[k]) <= padded
      invariant padded == 0 || exists k :: k in rows && Claimed(rows[k]) == padded
    {
      var k :| k in todo;
      if rows[k].padded > padded { padded := rows[k].padded; }
      if rows[k].kind.EC? && rows[k].size > padded { padded := rows[k].size; }
      todo := todo - {k};
    }
    assert forall k: Key :: k in rows <==> k in t && IdOf(k) == id;
    PaddedSizeUnique(t, id, padded, PaddedSize(t, id));
  }

  /** Checks one stripe. */
  method ValidateStripe(env: Env, disk: Disk, rows: Table, ghost t: Table, id: StripeKey) returns (ok: bool)
    requires env.Ok() && rows == RowsOf(t, id)
    ensures ok <==> StripeValid(env, World(t, disk.files), id)
  {
    var padded := PaddedOf(rows, t, id);
    hide PaddedSize, Consistent;
    if padded <= 0 { return false; }
    var paths := [];
    for pos := 0 to env.cfg.Total()
      invariant |paths| == pos
      invariant forall p: nat | p < pos :: KeyIn(id, p) in t && paths[p] == t[KeyIn(id, p)].path
    {
      assert KeyIn(id, pos) in rows <==> KeyIn(id, pos) in t;
      if KeyIn(id, pos) !in rows { return false; }
      paths := paths + [rows[KeyIn(id, pos)].path];
    }
    assert paths == FilesAt(env.cfg, t, id);
    var verified := VerifyStripeStreaming(env.code, disk, paths, padded, DEFAULT_CHUNK);
    return verified.Success? && verified.value;
  }

  lemma GroupsDecide(env: Env, w: World, stripes: map<StripeKey, Table>)
    requires env.Ok() && GroupsAll(w.t, stripes)
    ensures ParityValid(env, w) <==> forall id | id in stripes :: StripeValid(env, w, id)
  {
    hide StripeValid;
    if ParityValid(env, w) {
      forall id | id in stripes ensures StripeValid(env, w, id) {
        var k :| k in w.t && IdOf(k) == id;
      }
    }
  }

  method ValidateListed(env: Env, disk: Disk, stripes: map<StripeKey, Table>, ghost t: Table, id: StripeKey)
    returns (ok: bool)
    requires env.Ok() && GroupsAll(t, stripes) && id in stripes
    ensures ok <==> StripeValid(env, World(t, disk.files), id)
  {
    hide StripeValid;
    ok := ValidateStripe(env, disk, stripes[id], t, id);
  }

  method ValidateStripes(env: Env, disk: Disk, stripes: map<StripeKey, Table>, ghost t: Table) returns (ok: bool)
    requires env.Ok() && GroupsAll(t, stripes)
    ensures ok <==> forall id | id in stripes :: StripeValid(env, World(t, disk.files), id)
  {
    hide StripeValid, GroupsAll;
    var todo := stripes.Keys;
    while todo != {}
      invariant todo <= stripes.Keys
      invariant forall id | id in stripes && id !in todo :: StripeValid(env, World(t, disk.files), id)
    {
      var id :| id in todo;
      var valid := ValidateListed(env, disk, stripes, t, id);
      if !valid { return false; }
      todo := todo - {id};
    }
    return true;
  }

  method ValidateEC(env: Env, disk: Disk, list: seq<ShardRow>, ghost t: Table) returns (ok: bool)
    requires env.Ok() && Lists(list, t)
    ensures ok <==> ParityValid(env, World(t, disk.files))
  {
    var stripes := GroupRows(list, t);
    GroupsDecide(env, World(t, disk.files), stripes);
    hide StripeValid, ParityValid, GroupsAll;
    ok := ValidateStripes(env, disk, stripes, t);
  }

  // ---- the command --------------------------------------------------------------------------

  /** What the command does to the arcset, and whether it succeeds. Nothing else changes. */
  ghost predicate Validates(env: Env, a: Arcset, w: World, own: Relations, stage: string, a': Arcset, ok: bool)
    requires a.cfg.m > 0 ==> env.Ok()
  {
    var full := stage == "all" || stage == "";
    var good :=
      && (full || stage == "data" || (stage == "ec" && a.cfg.m > 0))
      && (stage != "ec" ==> DataValid(env.hash, w))
      && (full ==> CountsValid(w.t, own))
      && (stage != "data" && a.cfg.m > 0 ==> ParityValid(env, w));
    && ok == good
    && a' == if !good then a
             else if full then Completion(a)
             else if stage == "ec" then a.(parityDegraded := false, health := Healthy)
             else a.(health := Healthy)
  }

  /** When validation succeeds, in terms of files and rows, and what it records. */
  lemma PassesExactly(env: Env, a: Arcset, w: World, own: Relations, stage: string, a': Arcset, ok: bool)
    requires (a.cfg.m > 0 ==> env.Ok()) && Validates(env, a, w, own, stage, a', ok)
    ensures var full := stage == "all" || stage == "";
            ok <==>
              && (full || stage == "data" || (stage == "ec" && a.cfg.m > 0))
              && (stage != "ec" ==>
                    forall k | k in w.t && w.t[k].kind.DATA? ::
                      && w.t[k].path in w.fs
                      && (w.t[k].size > 0 ==> |w.fs[w.t[k].path]| == w.t[k].size)
                      && (w.t[k].sum.None? || w.t[k].sum.value == ""
                          || env.hash(w.fs[w.t[k].path]) == w.t[k].sum.value))
              && (full ==>
                    forall r | r in own && r.shards > 0 ::
                      r.shards <= |set k | k in w.t && w.t[k].kind.DATA? && w.t[k].source.Some?
                                           && w.t[k].source.value.dataset == r.dataset|)
              && (stage != "data" && a.cfg.m > 0 ==> ParityValid(env, w))
    ensures a' == if !ok then a
                  else if stage == "data" then a.(health := Healthy)
                  else if stage == "ec" then a.(health := Healthy, parityDegraded := false)
                  else a.(status := Completed, phase := NoPhase, health := Healthy, parityDegraded := false)
  {
    hide ParityValid;
    forall d: int
      ensures RowsFrom(w.t, d) == set k | k in w.t && w.t[k].kind.DATA? && w.t[k].source.Some?
                                          && w.t[k].source.value.dataset == d
    {
    }
    assert forall k | k in w.t :: RowValid(env.hash, w.fs, w.t[k]) <==>
      (w.t[k].kind.DATA? ==>
        && w.t[k].path in w.fs
        && (w.t[k].size > 0 ==> |w.fs[w.t[k].path]| == w.t[k].size)
        && (w.t[k].sum.None? || w.t[k].sum.value == "" || env.hash(w.fs[w.t[k].path]) == w.t[k].sum.value));
  }

  method Run(env: Env, registry: Registry, arcset: nat, disk: Disk, store: Store, stage: string) returns (ok: bool)
    requires arcset in registry.arcsets && registry.arcsets[arcset].cfg.m > 0 ==>
               env.Ok() && env.cfg == registry.arcsets[arcset].cfg
    modifies registry`arcsets
    ensures arcset !in old(registry.arcsets) ==> !ok && registry.arcsets == old(registry.arcsets)
    ensures arcset in old(registry.arcsets) ==>
              && arcset in registry.arcsets
              && registry.arcsets == old(registry.arcsets)[arcset := registry.arcsets[arcset]]
              && Validates(env, old(registry.arcsets)[arcset], World(store.rows, disk.files),
                           RelationsOf(registry.relations, arcset), stage, registry.arcsets[arcset], ok)
  {
    var stage' := if stage == "" then "all" else stage;
    if stage' != "data" && stage' != "ec" && stage' != "all" { return false; }
    if arcset !in registry.arcsets { return false; }
    var m := registry.arcsets[arcset].cfg.m;
    if stage' == "ec" && m == 0 { return false; }
    ok := RunChecks(env, disk, store, RelationsOf(registry.relations, arcset), stage', m);
    hide DataValid, CountsValid, ParityValid;
    if !ok { return; }
    if stage' == "all" {
      registry.CompleteBuild(arcset);
    } else {
      if stage' == "ec" { registry.SetParityDegraded(arcset, false); }
      registry.SetHealth(arcset, Healthy);
    }
  }

  method RunChecks(env: Env, disk: Disk, store: Store, own: Relations, stage: string, m: nat) returns (ok: bool)
    requires m > 0 ==> env.Ok()
    requires stage == "data" || stage == "ec" || stage == "all"
    ensures var w := World(store.rows, disk.files);
            ok <==>
              && (stage != "ec" ==> DataValid(env.hash, w))
              && (stage == "all" ==> CountsValid(w.t, own))
              && (stage != "data" && m > 0 ==> ParityValid(env, w))
  {
    var list := ListShards(store);
    hide Lists, DataValid, CountsValid, ParityValid;
    ok := true;
    if stage == "data" || stage == "all" {
      ok := ValidateData(env.hash, disk, list, store.rows);
      if !ok || stage == "data" { return; }
    }
    if stage == "all" {
      ok := ValidateShardCounts(list, store.rows, own);
      if !ok { return; }
    }
    if m > 0 {
      ok := ValidateEC(env, disk, list, store.rows);
    }
  }
}
