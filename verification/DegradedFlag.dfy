/** When the parity_degraded mark of build-data tells the truth, and what killing the command and running it again
    does. The mark is set at the end of a run that goes through, from what that run deleted; parity rows are deleted one
    by one while it runs. */
module DegradedFlag {
  import opened Bytes
  import opened Layout
  import opened ShardTable
  import opened SlotChoice
  import opened MoveFile
  import opened Placement
  import opened BuildSpec
  import opened BuildRetry
  import opened BuildCommand
  import opened Arcset

  // ---- one run ------------------------------------------------------------------------------

  /** All wanted datasets can be opened and all their shards can be placed. */
  ghost predicate GoesThrough(cfg: Config, mover: Mover, catalog: Catalog, filter: Option<int>, own: PlainRelations,
                              w: World)
    requires cfg.Ok()
  {
    AllOpen(catalog, filter, own) && Build(cfg, mover, w, AllItems(catalog, filter, own)).ok
  }

  /** The mark after a run: it is set by a run that goes through and makes parity stale. */
  lemma MarkAfterRun(a: Arcset, mover: Mover, catalog: Catalog, filter: Option<int>, own: PlainRelations, w: World,
                     a': Arcset, out: Outcome)
    requires a.cfg.Ok() && WellPlaced(a.cfg, w.t) && Buildable(a)
    requires BuildsData(a, mover, catalog, filter, own, w, a', out)
    ensures var items := AllItems(catalog, filter, own);
            && out.w == Build(a.cfg, mover, w, items).w
            && (LosesParity(w.t, out.w.t) <==> Degrades(a.cfg, mover, w, items))
            && (a'.parityDegraded <==>
                  || a.parityDegraded
                  || (GoesThrough(a.cfg, mover, catalog, filter, own, w) && Degrades(a.cfg, mover, w, items)))
  {
    var items := AllItems(catalog, filter, own);
    SucceedsExactly(a, mover, catalog, filter, own, w, a', out);
    DegradesIsLoss(a.cfg, mover, w, items);
    hide AllItems, BuildAll, Degrades;
    if !Unplaced(w.t, items) {
      PlacedAreSkipped(a.cfg, mover, w, items);
    }
    hide Build, WellPlaced;
  }

  /** After a run the mark is true exactly when it was set before, or the run goes through, or none of the shards it
      places makes parity stale. */
  lemma MarkIsTrueExactly(a: Arcset, mover: Mover, catalog: Catalog, filter: Option<int>, own: PlainRelations, w: World,
                          a': Arcset, out: Outcome)
    requires a.cfg.Ok() && WellPlaced(a.cfg, w.t) && Buildable(a)
    requires BuildsData(a, mover, catalog, filter, own, w, a', out)
    ensures (a'.parityDegraded <==> a.parityDegraded || LosesParity(w.t, out.w.t))
       <==> || a.parityDegraded || GoesThrough(a.cfg, mover, catalog, filter, own, w)
            || !Degrades(a.cfg, mover, w, AllItems(catalog, filter, own))
  {
    hide AllItems, GoesThrough, Degrades, LosesParity, BuildsData, WellPlaced;
    MarkAfterRun(a, mover, catalog, filter, own, w, a', out);
  }

  // ---- a run that is killed and run again ---------------------------------------------------

  /** Killed after the deletion of the rows. */
  predicate DropsBefore(stop: Stop) { stop.AfterDrop? || stop.AfterStore? }

  lemma StoppedParity(cfg: Config, mover: Mover, w: World, item: Item, stop: Stop)
    requires cfg.Ok() && WellPlaced(cfg, w.t) && Places(cfg, mover, w, item)
    ensures var t' := Stopped(cfg, mover, w, item, stop).t;
            && (LosesParity(w.t, t') <==> DropsBefore(stop) && Invalidates(cfg, mover, w, item))
            && ParityFrom(cfg, w.t, t')
  {
    StepParity(cfg, mover, w, item);
    if stop.AfterDrop? {
      var key := SlotKey(cfg, w, item);
      if k :| k in w.t && w.t[k].kind.EC? && InStripe(k, key.group, key.stripe) {
        assert k !in WithoutEC(w.t, key.group, key.stripe);
      }
    }
  }

  /** The placements before the kill, the interrupted one included, have made parity stale. */
  ghost predicate LostBefore(cfg: Config, mover: Mover, w: World, items: seq<Item>, i: nat, stop: Stop)
    requires cfg.Ok() && i < |items|
  {
    || Degrades(cfg, mover, w, items[..i])
    || (DropsBefore(stop) && Invalidates(cfg, mover, Build(cfg, mover, w, items[..i]).w, items[i]))
  }

  lemma LossUpToKill(cfg: Config, mover: Mover, w: World, items: seq<Item>, i: nat, stop: Stop)
    requires cfg.Ok() && WellPlaced(cfg, w.t) && i < |items| && items[i].src.Outside?
    requires Places(cfg, mover, Build(cfg, mover, w, items[..i]).w, items[i])
    ensures var c := Stopped(cfg, mover, Build(cfg, mover, w, items[..i]).w, items[i], stop);
            && (LosesParity(w.t, c.t) <==> LostBefore(cfg, mover, w, items, i, stop))
            && ParityFrom(cfg, w.t, c.t) && WellPlaced(cfg, c.t)
  {
    var b := Build(cfg, mover, w, items[..i]).w;
    DegradesIsLoss(cfg, mover, w, items[..i]);
    BuildWellPlaced(cfg, mover, w, items[..i]);
    hide Build, Degrades, Invalidates;
    StoppedParity(cfg, mover, b, items[i], stop);
    StoppedKeeps(cfg, mover, b, items[i], stop);
    LossChains(cfg, w.t, b.t, Stopped(cfg, mover, b, items[i], stop).t);
    hide WellPlaced, LosesParity, Stopped;
  }

  /** What any number of kills leaves: the placement invariant, no parity row but those of before, and every shard that
      was placed. */
  ghost predicate KillsKeep(cfg: Config, w: World, last: World)
    requires cfg.Ok()
  {
    && WellPlaced(cfg, last.t) && ParityFrom(cfg, w.t, last.t) && SourcesFrom(w.fs, last.fs)
    && forall d | HasSource(w.t, d) :: HasSource(last.t, d)
  }

  lemma SourcesStay(cfg: Config, mover: Mover, w: World, items: seq<Item>)
    requires cfg.Ok()
    ensures forall d | HasSource(w.t, d) :: HasSource(Build(cfg, mover, w, items).w.t, d)
  {
    var t' := Build(cfg, mover, w, items).w.t;
    PlacementsAddRows(cfg, mover, w, items);
    hide Build;
    forall d | HasSource(w.t, d) ensures HasSource(t', d) {
      var k :| k in w.t && w.t[k].kind.DATA? && w.t[k].source == Some(d);
      assert k in DataKeys(w.t);
    }
  }

  lemma OneKillKeeps(cfg: Config, mover: Mover, w: World, items: seq<Item>, i: nat, stop: Stop)
    requires cfg.Ok() && WellPlaced(cfg, w.t) && i < |items| && items[i].src.Outside?
    requires Places(cfg, mover, Build(cfg, mover, w, items[..i]).w, items[i])
    ensures KillsKeep(cfg, w, Stopped(cfg, mover, Build(cfg, mover, w, items[..i]).w, items[i], stop))
    ensures Unplaced(w.t, items)
  {
    var b := Build(cfg, mover, w, items[..i]).w;
    LossUpToKill(cfg, mover, w, items, i, stop);
    BuildKeepsSources(cfg, mover, w, items[..i]);
    BuildWellPlaced(cfg, mover, w, items[..i]);
    SourcesStay(cfg, mover, w, items[..i]);
    hide Build, WellPlaced, Step, HasSource;
    StoppedKeeps(cfg, mover, b, items[i], stop);
    assert items[i] in items;
  }

  lemma KillsKeepChains(cfg: Config, a: World, b: World, c: World)
    requires cfg.Ok() && KillsKeep(cfg, a, b) && KillsKeep(cfg, b, c)
    ensures KillsKeep(cfg, a, c)
  {
    hide WellPlaced, HasSource;
  }

  lemma {:induction false} InterruptedKeeps(cfg: Config, mover: Mover, w: World, items: seq<Item>,
                                            stops: seq<(nat, Stop)>, last: World)
    requires cfg.Ok() && WellPlaced(cfg, w.t) && Interrupted(cfg, mover, w, items, stops, last)
    requires forall item | item in items :: item.src.Outside?
    ensures KillsKeep(cfg, w, last)
    ensures last == w || Unplaced(w.t, items)
    decreases |stops|
  {
    if stops != [] {
      var (i, stop) := stops[0];
      var b := Build(cfg, mover, w, items[..i]).w;
      var c := Stopped(cfg, mover, b, items[i], stop);
      hide Build, WellPlaced, Places, Stopped, HasSource;
      assert items[i] in items;
      OneKillKeeps(cfg, mover, w, items, i, stop);
      InterruptedKeeps(cfg, mover, c, items, stops[1..], last);
      KillsKeepChains(cfg, w, c, last);
    }
  }

  /** Killing the command any number of times and running it again. Rows and files are always those of a run that was
      not killed. The outcomes differ exactly when one dataset is chosen and the kills left none of its shards to place.
      The marks differ exactly when the run goes through, the mark was not set before, and parity was lost before the
      last kill but not after it: the run after a kill does not see what the killed ones deleted. */
  lemma RerunExactly(a: Arcset, mover: Mover, catalog: Catalog, filter: Option<int>, own: PlainRelations, w: World,
                     stops: seq<(nat, Stop)>, last: World, one': Arcset, one: Outcome, two': Arcset, two: Outcome)
    requires a.cfg.Ok() && WellPlaced(a.cfg, w.t) && Buildable(a)
    requires Truthful(mover, w.fs, AllItems(catalog, filter, own))
    requires Interrupted(a.cfg, mover, w, AllItems(catalog, filter, own), stops, last)
    requires BuildsData(a, mover, catalog, filter, own, w, one', one)
    requires BuildsData(a, mover, catalog, filter, own, last, two', two)
    ensures two.w == one.w
    ensures var items, goes := AllItems(catalog, filter, own), GoesThrough(a.cfg, mover, catalog, filter, own, w);
            && ((two.ok <==> one.ok) <==>
                  filter.None? || !goes || (Unplaced(w.t, items) ==> Unplaced(last.t, items)))
            && ((two'.parityDegraded <==> one'.parityDegraded) <==>
                  || a.parityDegraded || !goes || !LosesParity(w.t, last.t) || Degrades(a.cfg, mover, last, items))
  {
    var items := AllItems(catalog, filter, own);
    InterruptedKeeps(a.cfg, mover, w, items, stops, last);
    RetriesConverge(a.cfg, mover, w, items, stops, last);
    hide AllItems, WellPlaced, Interrupted, Truthful;
    MarkAfterRun(a, mover, catalog, filter, own, w, one', one);
    MarkAfterRun(a, mover, catalog, filter, own, last, two', two);
    SucceedsExactly(a, mover, catalog, filter, own, w, one', one);
    SucceedsExactly(a, mover, catalog, filter, own, last, two', two);
    hide Build, BuildsData, Degrades, LosesParity, Unplaced;
    WhatIsLost(a.cfg, mover, w, last, items);
    FewerUnplaced(a.cfg, w, last, items);
  }

  /** What a whole run loses is what was lost up to a point and what is lost after it. */
  lemma WhatIsLost(cfg: Config, mover: Mover, w: World, last: World, items: seq<Item>)
    requires cfg.Ok() && WellPlaced(cfg, w.t) && KillsKeep(cfg, w, last)
    ensures var out := Build(cfg, mover, last, items).w;
            LosesParity(w.t, out.t) <==> LosesParity(w.t, last.t) || Degrades(cfg, mover, last, items)
  {
    DegradesIsLoss(cfg, mover, last, items);
    hide Build, Degrades;
    BuildWellPlaced(cfg, mover, last, items);
    LossChains(cfg, w.t, last.t, Build(cfg, mover, last, items).w.t);
  }

  lemma FewerUnplaced(cfg: Config, w: World, last: World, items: seq<Item>)
    requires cfg.Ok() && KillsKeep(cfg, w, last)
    ensures Unplaced(last.t, items) ==> Unplaced(w.t, items)
  {
    hide WellPlaced, HasSource;
  }

  /** A placement that makes parity stale and is killed after the deletion: placing the shard again ends like the
      placement that was not killed, but finds nothing to delete and so sets no mark. */
  lemma DropIsForgotten(cfg: Config, mover: Mover, w: World, item: Item, stop: Stop)
    requires cfg.Ok() && WellPlaced(cfg, w.t) && Truthful(mover, w.fs, [item])
    requires Invalidates(cfg, mover, w, item) && DropsBefore(stop)
    ensures var c, out := Stopped(cfg, mover, w, item, stop), Step(cfg, mover, w, item);
            && Step(cfg, mover, c, item) == out
            && LosesParity(w.t, out.w.t)
            && !LosesParity(c.t, out.w.t) && !Invalidates(cfg, mover, c, item)
  {
    var c, out := Stopped(cfg, mover, w, item, stop), Step(cfg, mover, w, item);
    assert item in [item];
    RetryStep(cfg, mover, w, item, stop);
    StepParity(cfg, mover, w, item);
    StoppedKeeps(cfg, mover, w, item, stop);
    StepParity(cfg, mover, c, item);
    ChosenFits(cfg, w.t, ItemSize(w.fs, item));
  }
}
