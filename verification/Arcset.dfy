/** The state of arcsets and the registration of datasets in them. */
module Arcset {
  import opened Bytes
  import opened Layout
  import opened Paths

  datatype Status = Defined | Building | Completed

  datatype Phase = NoPhase | DataPhase | ECPhase

  datatype Health = Healthy | Degraded | Failed

  datatype Arcset = Arcset(cfg: Config, status: Status, phase: Phase, health: Health, parityDegraded: bool)

  /** A dataset's place in an arcset; `shards` is the shard count its metadata announces, 0 for none. */
  datatype Relation = Relation(dataset: int, arcset: nat, key: string, order: nat, shards: nat)

  type Relations = seq<Relation>

  /** A relation whose dataset's key can be part of a file name. Keys are documented to be letters, digits and
      underscores; the program registers a dataset under any key that is not empty. */
  type PlainRelation = r: Relation | NoSlash(r.key) witness Relation(0, 0, "", 0, 0)

  type PlainRelations = seq<PlainRelation>

  predicate PlainKeys(rels: Relations) {
    forall i | 0 <= i < |rels| :: NoSlash(rels[i].key)
  }

  /** What is stored of a dataset itself. */
  datatype Dataset = Dataset(name: string, sqlitePath: string)

  function Created(cfg: Config): Arcset {
    Arcset(cfg, Defined, NoPhase, Healthy, false)
  }

  function Completion(a: Arcset): Arcset {
    a.(status := Completed, phase := NoPhase, health := Healthy, parityDegraded := false)
  }

  /** A dataset belongs to one arcset; within an arcset keys are unique and append orders ascend. */
  ghost predicate RelationsUnique(rels: Relations) {
    forall i, j | 0 <= i < j < |rels| ::
      && rels[i].dataset != rels[j].dataset
      && (rels[i].arcset == rels[j].arcset ==> rels[i].key != rels[j].key && rels[i].order < rels[j].order)
  }

  predicate Registered(rels: Relations, dataset: int) {
    exists i :: 0 <= i < |rels| && rels[i].dataset == dataset
  }

  predicate KeyTaken(rels: Relations, arcset: nat, key: string) {
    exists i :: 0 <= i < |rels| && rels[i].arcset == arcset && rels[i].key == key
  }

  /** One more than the largest append order of the arcset, 0 for an empty one. */
  ghost predicate IsNextOrder(rels: Relations, arcset: nat, order: nat) {
    && (forall i | 0 <= i < |rels| && rels[i].arcset == arcset :: rels[i].order < order)
    && (order == 0 || exists i :: 0 <= i < |rels| && rels[i].arcset == arcset && rels[i].order == order - 1)
  }

  /** The relations of an arcset in append order. */
  function RelationsOf(rels: Relations, arcset: nat): (own: Relations)
    ensures PlainKeys(rels) ==> PlainKeys(own)
  {
    if rels == [] then []
    else
      var last := rels[|rels| - 1];
      RelationsOf(rels[..|rels| - 1], arcset) + if last.arcset == arcset then [last] else []
  }

  class Registry {
    var arcsets: map<nat, Arcset>
    var relations: Relations
    var datasets: map<int, Dataset>

    constructor ()
      ensures arcsets == map[] && relations == [] && datasets == map[]
    {
      arcsets, relations, datasets := map[], [], map[];
    }

    /** Defines an arcset under a new id. */
    method Create(id: nat, cfg: Config) returns (ok: bool)
      requires id !in arcsets
      modifies `arcsets
      ensures ok <==>
        && 1 <= cfg.k <= 24 && cfg.m in {0, 2, 4, 6} && cfg.k + cfg.m <= 24 && (cfg.m == 0 ==> cfg.rotation.Raid3?)
        && cfg.groups > 0 && cfg.capacity > 0
        && 1 <= cfg.naming.partitionWidth <= 3 && 1 <= cfg.naming.seqWidth <= 5
        && cfg.groups * (cfg.k + cfg.m) < PowerOfTen(cfg.naming.partitionWidth)
      ensures arcsets == if ok then old(arcsets)[id := Created(cfg)] else old(arcsets)
      ensures AllCreatable(old(arcsets)) ==> AllCreatable(arcsets)
    {
      if !ValidShape(cfg.k, cfg.m) || cfg.groups <= 0 { return false; }
      if cfg.m == 0 && !cfg.rotation.Raid3? { return false; }
      if !(1 <= cfg.naming.partitionWidth <= 3) || !(1 <= cfg.naming.seqWidth <= 5) { return false; }
      if cfg.capacity <= 0 { return false; }
      if cfg.groups * cfg.Total() > PowerOfTen(cfg.naming.partitionWidth) - 1 { return false; }
      arcsets := arcsets[id := Created(cfg)];
      return true;
    }

    /** The row of a dataset, and MAX(append_order) + 1 of the arcset. */
    method FindRelation(id: nat, dataset: int) returns (found: Option<Relation>, order: nat)
      ensures found.Some? <==> Registered(relations, dataset)
      ensures found.Some? ==> found.value in relations && found.value.dataset == dataset
      ensures IsNextOrder(relations, id, order)
    {
      found, order := None, 0;
      for i := 0 to |relations|
        invariant found.Some? <==> exists j :: 0 <= j < i && relations[j].dataset == dataset
        invariant found.Some? ==> found.value in relations && found.value.dataset == dataset
        invariant IsNextOrder(relations[..i], id, order)
      {
        var r := relations[i];
        if r.dataset == dataset { found := Some(r); }
        OneMoreRow(relations[..i], r, id, order);
        assert relations[..i + 1] == relations[..i] + [r];
        if r.arcset == id && r.order >= order { order := r.order + 1; }
      }
      assert relations[..|relations|] == relations;
    }

    /** Registers a dataset and takes the arcset back to building/data. Registering it again changes only its name
        and path, and a refused registration nothing; a dataset is never in two arcsets. */
    method AppendDataset(id: nat, dataset: int, info: Dataset, key: string, shards: nat)
      returns (r: Result<Relation>)
      requires RelationsUnique(relations)
      modifies this
      ensures RelationsUnique(relations)
      ensures r.Failure? ==> arcsets == old(arcsets) && relations == old(relations) && datasets == old(datasets)
      ensures r.Success? ==> datasets == old(datasets)[dataset := info]
      ensures r.Success? <==>
        && key != "" && id in old(arcsets) && old(arcsets)[id].health.Healthy?
        && !(old(arcsets)[id].status.Building? && old(arcsets)[id].phase.ECPhase?)
        && (forall rel | rel in old(relations) && rel.dataset == dataset :: rel.arcset == id)
        && ((exists rel :: rel in old(relations) && rel.dataset == dataset)
            || forall rel | rel in old(relations) && rel.arcset == id :: rel.key != key)
      ensures r.Success? && Registered(old(relations), dataset) ==>
                && r.value in old(relations) && r.value.dataset == dataset && r.value.arcset == id
                && arcsets == old(arcsets) && relations == old(relations)
      ensures r.Success? && !Registered(old(relations), dataset) ==>
                && r.value == Relation(dataset, id, key, r.value.order, shards)
                && IsNextOrder(old(relations), id, r.value.order)
                && relations == old(relations) + [r.value]
                && arcsets == old(arcsets)[id := old(arcsets)[id].(status := Building, phase := DataPhase)]
    {
      if key == "" { return Failure("dataset_key is required"); }
      if id !in arcsets { return Failure("arcset not found"); }
      var a := arcsets[id];
      if !a.health.Healthy? { return Failure("arcset health is not ok"); }
      if a.status.Building? && a.phase.ECPhase? { return Failure("arcset is busy in build_phase=ec"); }
      var found, order := FindRelation(id, dataset);
      if found.Some? {
        if found.value.arcset != id { return Failure("dataset is already registered in another arcset"); }
        datasets := datasets[dataset := info];
        return Success(found.value);
      }
      if KeyTaken(relations, id, key) { return Failure("insert relation"); }
      var rel := Relation(dataset, id, key, order, shards);
      AppendKeepsUnique(relations, rel);
      datasets := datasets[dataset := info];
      relations := relations + [rel];
      arcsets := arcsets[id := a.(status := Building, phase := DataPhase)];
      return Success(rel);
    }

    method SetBuildPhase(id: nat, phase: Phase)
      requires id in arcsets
      modifies `arcsets
      ensures arcsets == old(arcsets)[id := old(arcsets)[id].(status := Building, phase := phase)]
    {
      arcsets := arcsets[id := arcsets[id].(status := Building, phase := phase)];
    }

    method CompleteBuild(id: nat)
      requires id in arcsets
      modifies `arcsets
      ensures arcsets == old(arcsets)[id := Completion(old(arcsets)[id])]
      ensures Completion(old(arcsets)[id])
           == old(arcsets)[id].(status := Completed, phase := NoPhase, health := Healthy, parityDegraded := false)
    {
      arcsets := arcsets[id := Completion(arcsets[id])];
    }

    method SetHealth(id: nat, health: Health)
      requires id in arcsets
      modifies `arcsets
      ensures arcsets == old(arcsets)[id := old(arcsets)[id].(health := health)]
    {
      arcsets := arcsets[id := arcsets[id].(health := health)];
    }

    method SetParityDegraded(id: nat, degraded: bool)
      requires id in arcsets
      modifies `arcsets
      ensures arcsets == old(arcsets)[id := old(arcsets)[id].(parityDegraded := degraded)]
    {
      arcsets := arcsets[id := arcsets[id].(parityDegraded := degraded)];
    }

    /** Adds partition groups; placed rows keep their places. */
    method Expand(id: nat, groups: int) returns (ok: bool)
      modifies `arcsets
      ensures ok <==>
        && groups > 0 && id in old(arcsets) && old(arcsets)[id].health.Healthy?
        && old(arcsets)[id].cfg.Ok() && ValidShape(old(arcsets)[id].cfg.k, old(arcsets)[id].cfg.m)
        && var cfg := old(arcsets)[id].cfg;
           var more := cfg.groups + groups;
           && more * (cfg.k + cfg.m) < PowerOfTen(cfg.naming.partitionWidth)
           && cfg.k * more * cfg.capacity <= 0x7FFF_FFFF_FFFF_FFFF
           && (cfg.k + cfg.m) * more * cfg.capacity <= 0x7FFF_FFFF_FFFF_FFFF
      ensures !ok ==> arcsets == old(arcsets)
      ensures ok ==>
                var a := old(arcsets)[id];
                arcsets == old(arcsets)[id := a.(cfg := a.cfg.(groups := a.cfg.groups + groups))]
      ensures AllCreatable(old(arcsets)) ==> AllCreatable(arcsets)
    {
      if groups <= 0 || id !in arcsets { return false; }
      var a := arcsets[id];
      if !a.health.Healthy? || !ValidShape(a.cfg.k, a.cfg.m) { return false; }
      if a.cfg.groups <= 0 || a.cfg.capacity <= 0 { return false; }
      var newGroups := a.cfg.groups + groups;
      if newGroups * a.cfg.Total() > PowerOfTen(a.cfg.naming.partitionWidth) - 1 { return false; }
      if a.cfg.capacity > MAX_INT64 / a.cfg.k / newGroups || a.cfg.capacity > MAX_INT64 / a.cfg.Total() / newGroups {
        CapacityCheck(a.cfg.k, newGroups, a.cfg.capacity);
        CapacityCheck(a.cfg.Total(), newGroups, a.cfg.capacity);
        return false;
      }
      CapacityCheck(a.cfg.k, newGroups, a.cfg.capacity);
      CapacityCheck(a.cfg.Total(), newGroups, a.cfg.capacity);
      arcsets := arcsets[id := Expanded(a, groups)];
      return true;
    }
  }

  function Expanded(a: Arcset, groups: nat): Arcset {
    a.(cfg := a.cfg.(groups := a.cfg.groups + groups))
  }

  /** Every partition number can be printed in the width of partition directories. */
  predicate PartitionsFit(cfg: Config) {
    cfg.groups * cfg.Total() < PowerOfTen(cfg.naming.partitionWidth)
  }

  lemma {:induction false} DecimalFits(width: nat, n: nat)
    requires width > 0
    ensures |Decimal(n)| <= width <==> n < PowerOfTen(width)
  {
    if width == 1 {
      assert PowerOfTen(1) == 10 * PowerOfTen(0);
    } else if n >= 10 {
      DecimalFits(width - 1, n / 10);
    }
  }

  /** While partitions fit, the directory of every partition has a name of exactly the configured width. */
  lemma PartitionsFitWidth(cfg: Config, group: nat, pos: nat, stripe: nat)
    requires cfg.Ok() && PartitionsFit(cfg) && cfg.naming.partitionWidth > 0
    requires group < cfg.groups && pos < cfg.Total()
    ensures |Padded(cfg.naming.partitionWidth, Partition(cfg, group, pos, stripe))| == cfg.naming.partitionWidth
  {
    var part, n := Partition(cfg, group, pos, stripe), cfg.Total();
    assert group * n <= part < group * n + n;
    assert cfg.groups * n == group * n + (cfg.groups - group) * n;
    NonzeroMultiple(cfg.groups - group, n);
    hide Partition, Decimal, Zeros;
    DecimalFits(cfg.naming.partitionWidth, part);
  }

  /** The configurations that create accepts. Without parity the layout is always the fixed one. */
  predicate Creatable(cfg: Config) {
    && cfg.Ok() && ValidShape(cfg.k, cfg.m) && (cfg.m == 0 ==> cfg.rotation.Raid3?)
    && 1 <= cfg.naming.partitionWidth <= 3 && 1 <= cfg.naming.seqWidth <= 5
    && PartitionsFit(cfg)
  }

  ghost predicate AllCreatable(arcsets: map<nat, Arcset>) {
    forall id | id in arcsets :: Creatable(arcsets[id].cfg)
  }

  /** The total data and raw capacities are 64-bit numbers. */
  predicate CapacityFits(cfg: Config) {
    cfg.k * cfg.groups * cfg.capacity <= MAX_INT64 && cfg.Total() * cfg.groups * cfg.capacity <= MAX_INT64
  }

  /** Dividing the limit twice finds out exactly whether the product exceeds it. */
  lemma CapacityCheck(n: nat, groups: nat, capacity: nat)
    requires n > 0 && groups > 0
    ensures capacity <= MAX_INT64 / n / groups <==> n * groups * capacity <= MAX_INT64
  {
    var q := MAX_INT64 / n;
    QuotientBound(q, groups, capacity);
    QuotientBound(MAX_INT64, n, groups * capacity);
    assert n * (groups * capacity) == n * groups * capacity;
  }

  lemma QuotientBound(a: nat, d: nat, x: nat)
    requires d > 0
    ensures x <= a / d <==> d * x <= a
  {
    var q := a / d;
    assert a == q * d + a % d;
    if x < q {
      NonzeroMultiple(q - x, d);
      assert (q - x) * d == q * d - x * d;
    } else if x > q {
      NonzeroMultiple(x - q, d);
      assert (x - q) * d == x * d - q * d;
    }
  }

  lemma OneMoreRow(rels: Relations, r: Relation, id: nat, order: nat)
    requires IsNextOrder(rels, id, order)
    ensures IsNextOrder(rels + [r], id, if r.arcset == id && r.order >= order then r.order + 1 else order)
  {
    var all := rels + [r];
    if order > 0 {
      var i :| 0 <= i < |rels| && rels[i].arcset == id && rels[i].order == order - 1;
      assert all[i] == rels[i];
    }
    assert all[|rels|] == r;
  }

  predicate RegisteredIn(rels: Relations, dataset: int, arcset: nat) {
    exists r :: r in rels && r.dataset == dataset && r.arcset == arcset
  }

  /** A registration under a fresh key with the next order keeps datasets and keys unique and comes last. */
  lemma AppendKeepsUnique(rels: Relations, rel: Relation)
    requires RelationsUnique(rels) && !Registered(rels, rel.dataset)
    requires !KeyTaken(rels, rel.arcset, rel.key) && IsNextOrder(rels, rel.arcset, rel.order)
    ensures RelationsUnique(rels + [rel])
    ensures RelationsOf(rels + [rel], rel.arcset) == RelationsOf(rels, rel.arcset) + [rel]
  {
    assert (rels + [rel])[..|rels|] == rels;
  }

  /** Every arcset's relations are numbered 0, 1, 2, ... */
  ghost predicate Consecutive(rels: Relations) {
    forall id: nat, i: nat | i < |RelationsOf(rels, id)| :: RelationsOf(rels, id)[i].order == i
  }

  lemma NextIsCount(rels: Relations, id: nat, order: nat)
    requires RelationsUnique(rels) && Consecutive(rels) && IsNextOrder(rels, id, order)
    ensures order == |RelationsOf(rels, id)|
  {
    var own := RelationsOf(rels, id);
    ListedInOrder(rels, id);
    if own != [] {
      assert own[|own| - 1] in own;
    }
    if order > 0 {
      var i :| 0 <= i < |rels| && rels[i].arcset == id && rels[i].order == order - 1;
      assert rels[i] in own;
    }
  }

  /** Registrations are numbered in the order in which they are made. */
  lemma AppendCounts(rels: Relations, rel: Relation)
    requires RelationsUnique(rels) && Consecutive(rels) && IsNextOrder(rels, rel.arcset, rel.order)
    ensures Consecutive([]) && Consecutive(rels + [rel])
  {
    NextIsCount(rels, rel.arcset, rel.order);
    assert (rels + [rel])[..|rels|] == rels;
  }

  /** The listing has exactly the arcset's relations, in ascending append order. */
  lemma {:induction false} ListedInOrder(rels: Relations, arcset: nat)
    requires RelationsUnique(rels)
    ensures forall r :: r in RelationsOf(rels, arcset) <==> r in rels && r.arcset == arcset
    ensures forall i, j | 0 <= i < j < |RelationsOf(rels, arcset)| ::
              RelationsOf(rels, arcset)[i].order < RelationsOf(rels, arcset)[j].order
  {
    if rels != [] {
      var n := |rels| - 1;
      ListedInOrder(rels[..n], arcset);
      assert rels == rels[..n] + [rels[n]];
    }
  }
}
