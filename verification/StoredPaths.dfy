/** The rows of an arcset by the paths that are stored for them. */
module StoredPaths {
  import opened Paths
  import opened CleanPath
  import opened TreePaths
  import opened Layout
  import opened ShardTable
  import opened Placement
  import opened BuildSpec

  /** The target of a placement is the path the program computes for it. */
  lemma TargetIsRelPath(cfg: Config, key: Key, item: Item)
    requires cfg.Ok()
    ensures Located(cfg.naming, Target(cfg, key, item))
         == RelPath(cfg.naming, PartitionOf(cfg, key), key.stripe, item.datasetKey, BaseName(cfg.naming, item.src))
  {
    var base := BaseName(cfg.naming, item.src);
    assert "D-" + item.datasetKey + "-" + base == "D-" + (item.datasetKey + "-" + base);
    hide Clean, Padded;
  }

  /** No two rows have the same path below the arcset's root. */
  ghost predicate PlacesDiffer(naming: Naming, t: Table) {
    forall k, k' | k in t && k' in t && k != k' ::
      !t[k].path.Outside? && !t[k'].path.Outside? && Located(naming, t[k].path) != Located(naming, t[k'].path)
  }

  lemma PlacedRowsApart(cfg: Config, t: Table)
    requires cfg.Ok() && WellPlaced(cfg, t)
    ensures PlacesDiffer(cfg.naming, t)
  {
    hide Located;
    forall k, k' | k in t && k' in t && k != k'
      ensures !t[k].path.Outside? && !t[k'].path.Outside?
      ensures Located(cfg.naming, t[k].path) != Located(cfg.naming, t[k'].path)
    {
      assert RowPlaced(cfg, k, t[k]) && RowPlaced(cfg, k', t[k']);
      PlacedRowsDiffer(cfg, k, t[k], k', t[k']);
      LocatedInjective(cfg.naming, t[k].path, t[k'].path);
    }
  }

  /** The unique index on stored paths never rejects the row of a placement either. */
  lemma PlacementFindsPathFree(cfg: Config, t: Table, key: Key, item: Item, size: nat)
    requires cfg.Ok() && WellPlaced(cfg, t) && key.pos < cfg.k
    ensures PlacesDiffer(cfg.naming, Filled(cfg, t, key, item, size))
  {
    var t' := Filled(cfg, t, key, item, size);
    hide Located;
    forall k, k' | k in t' && k' in t' && k != k'
      ensures !t'[k].path.Outside? && !t'[k'].path.Outside?
      ensures Located(cfg.naming, t'[k].path) != Located(cfg.naming, t'[k'].path)
    {
      assert k == key || RowPlaced(cfg, k, t[k]);
      assert k' == key || RowPlaced(cfg, k', t[k']);
      PlacedRowsDiffer(cfg, k, t'[k], k', t'[k']);
      LocatedInjective(cfg.naming, t'[k].path, t'[k'].path);
    }
  }
}
