/** The size that is recorded for a placed shard, and the room that is asked for it. */
module PlacedSizes {
  import opened Layout
  import opened ShardTable
  import opened SlotChoice
  import opened MoveFile
  import opened Placement
  import opened BuildSpec

  /** A shard without a recorded size is placed like one whose recorded size is the length of its file. */
  lemma UnrecordedIsRead(cfg: Config, mover: Mover, w: World, item: Item)
    requires cfg.Ok() && item.size == 0 && item.src in w.fs
    ensures Step(cfg, mover, w, item) == Step(cfg, mover, w, item.(size := |w.fs[item.src]|))
  {
  }

  /** A recorded size is taken as it is, whatever the length of the file. */
  lemma RecordedIsTaken(cfg: Config, mover: Mover, w: World, item: Item, k: Key)
    requires cfg.Ok() && item.size > 0 && !HasSource(w.t, item.source)
    ensures var out := Step(cfg, mover, w, item).w;
            HasRow(out.t, k, item.source) ==> out.t[k].size == item.size
  {
    assert !HasRow(w.t, k, item.source);
    hide Choice;
  }

  /** When a shard's recorded size is missing or right and no file was in the way, its row records the length of the
      file at the path of the row. */
  lemma RowHasLength(cfg: Config, mover: Mover, w: World, item: Item, k: Key)
    requires cfg.Ok() && !HasSource(w.t, item.source)
    requires item.size == 0 || (item.src in w.fs && item.size == |w.fs[item.src]|)
    ensures var out := Step(cfg, mover, w, item).w;
            HasRow(out.t, k, item.source) && out.t[k].path !in w.fs ==>
              out.t[k].path in out.fs && |out.fs[out.t[k].path]| == out.t[k].size
  {
    assert !HasRow(w.t, k, item.source);
    hide Choice;
    var c := Choice(cfg, w.t, ItemSize(w.fs, item));
    if c.Some? {
      TargetDiffers(cfg, c.value.key, item);
    }
  }

  /** A shard whose file is longer than the room left at any data position is refused when its size is not recorded, and
      one whose recorded size is larger whatever its file is. */
  lemma TooLongIsRefused(cfg: Config, mover: Mover, w: World, item: Item)
    requires cfg.Ok() && !HasSource(w.t, item.source)
    requires item.size > 0 || item.src in w.fs
    requires var length := if item.size > 0 then item.size else |w.fs[item.src]|;
             forall k: Key | k.pos < cfg.k :: UsedBy(w.t, PartitionOf(cfg, k)) + length > cfg.capacity
    ensures Step(cfg, mover, w, item) == Outcome(w, false)
  {
    var size := ItemSize(w.fs, item);
    forall k ensures !PadFits(cfg, w.t, size, k) && !HoleFits(cfg, w.t, size, k) && !Opens(cfg, w.t, size, k) {
      assert k.pos < cfg.k ==> !Fits(cfg, w.t, size, k);
      assert !Fits(cfg, w.t, size, Key(k.group, k.stripe, 0));
    }
    NoChoice(cfg, w.t, size);
  }
}
