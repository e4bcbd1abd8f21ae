/** What an unfiltered make-ec leaves: every stripe of the table complete, with consistent files. */
module CompleteStripes {
  import opened Bytes
  import opened Layout
  import opened ShardTable
  import opened StripeBytes
  import opened Stream
  import opened Placement
  import opened BuildSpec
  import opened StripeTask
  import opened StripeRun
  import opened StripeView
  import opened Locality
  import opened BuildStripes
  import opened Resume
  import opened LossTolerance
  import opened MakeEcRun

  /** A stripe with exactly the rows of positions 0..k+m-1, all their files, and every byte column of its
      zero-padded files a codeword. */
  ghost predicate Solid(env: Env, w: World, id: StripeKey)
    requires env.Ok()
  {
    var paths := FilesAt(env.cfg, w.t, id);
    && (forall k | k in w.t && IdOf(k) == id :: k.pos < env.cfg.Total())
    && (forall p: nat | p < env.cfg.Total() :: KeyIn(id, p) in w.t)
    && (forall p | p in paths :: p in w.fs)
    && Consistent(env.code, Contents(w.fs, paths), PaddedSize(w.t, id))
  }

  ghost predicate AllSolid(env: Env, w: World)
    requires env.Ok()
  {
    forall k | k in w.t :: Solid(env, w, IdOf(k))
  }

  /** Every DATA row has its file, of the recorded size. */
  ghost predicate SizesTrue(w: World) {
    forall k | k in w.t && w.t[k].kind.DATA? :: w.t[k].path in w.fs && |w.fs[w.t[k].path]| == w.t[k].size
  }

  lemma PartView(env: Env, w: World, id: StripeKey)
    requires env.Ok() && RowsPlaced(env.cfg, w.t)
    ensures var l := Part(env.cfg, id, w);
            && FilesAt(env.cfg, l.t, id) == FilesAt(env.cfg, w.t, id)
            && PaddedSize(l.t, id) == PaddedSize(w.t, id)
            && Originals(env.cfg, l.t, id) == Originals(env.cfg, w.t, id)
            && (forall p | p in FilesAt(env.cfg, w.t, id) :: Same(w.fs, l.fs, p) || (p !in w.fs && p !in l.fs))
  {
    var l := Part(env.cfg, id, w);
    assert forall k: Key | IdOf(k) == id :: (k in l.t <==> k in w.t) && (k in w.t ==> l.t[k] == w.t[k]);
    assert forall p: nat :: IdOf(KeyIn(id, p)) == id;
    assert FilesAt(env.cfg, l.t, id) == FilesAt(env.cfg, w.t, id);
    assert Originals(env.cfg, l.t, id) == Originals(env.cfg, w.t, id);
    assert IsPaddedSize(w.t, id, PaddedSize(l.t, id));
    PaddedSizeUnique(w.t, id, PaddedSize(l.t, id), PaddedSize(w.t, id));
    PathsPlaced(env.cfg, w.t, id);
    forall p | p in FilesAt(env.cfg, w.t, id) ensures StripeOf(env.cfg, p) == Some(id) {
      var i :| 0 <= i < env.cfg.Total() && FilesAt(env.cfg, w.t, id)[i] == p;
      PlacedPathsAreOwn(env.cfg, KeyIn(id, i), p);
    }
  }

  lemma SolidIsLocal(env: Env, w: World, id: StripeKey)
    requires env.Ok() && RowsPlaced(env.cfg, w.t) && Solid(env, Part(env.cfg, id, w), id)
    ensures Solid(env, w, id)
  {
    PartView(env, w, id);
    var l, paths := Part(env.cfg, id, w), FilesAt(env.cfg, w.t, id);
    assert Contents(w.fs, paths) == Contents(l.fs, paths);
    hide FilesAt, Consistent, RowsPlaced;
  }

  lemma WholeIsLocal(env: Env, w: World, id: StripeKey)
    requires env.Ok() && RowsPlaced(env.cfg, w.t) && Whole(env, Part(env.cfg, id, w), id)
    ensures Whole(env, w, id)
  {
    PartView(env, w, id);
    var l, paths := Part(env.cfg, id, w), FilesAt(env.cfg, w.t, id);
    assert Contents(w.fs, paths) == Contents(l.fs, paths);
    forall p: nat | p < env.cfg.k ensures OriginalAt(l.t, id, p) == OriginalAt(w.t, id, p) {
      assert Originals(env.cfg, l.t, id)[p] == Originals(env.cfg, w.t, id)[p];
    }
    assert forall p: nat | p < |paths| :: paths[p] in paths;
    hide FilesAt, Consistent, RowsPlaced, Part, OriginalAt;
  }

  /** The rows of a built stripe describe its plan. */
  lemma BuiltView(env: Env, plan: Plan, w0: World, w: World)
    requires Ready(env, plan, w0) && IsBuilt(env, plan, w0, w)
    ensures forall p: nat | p < env.cfg.Total() :: KeyIn(plan.Id(), p) in w.t
    ensures FilesAt(env.cfg, w.t, plan.Id()) == StripePaths(env.cfg, plan)
    ensures PaddedSize(w.t, plan.Id()) == plan.Padded()
    ensures forall p: nat | p < env.cfg.k :: OriginalAt(w.t, plan.Id(), p) == plan.sizes[p]
  {
    var id := plan.Id();
    forall p: nat | p < env.cfg.Total()
      ensures KeyIn(id, p) in w.t && w.t[KeyIn(id, p)].padded == plan.Padded()
      ensures Claimed(w.t[KeyIn(id, p)]) == plan.Padded()
      ensures FileAt(env.cfg, w.t, id, p) == StripePaths(env.cfg, plan)[p]
      ensures p < env.cfg.k ==> OriginalAt(w.t, id, p) == plan.sizes[p]
    {
      BuiltRow(env, plan, w0, w, p);
    }
    assert FilesAt(env.cfg, w.t, id) == StripePaths(env.cfg, plan);
    forall k | k in w.t && IdOf(k) == id ensures Claimed(w.t[k]) <= plan.Padded() {
      assert BuiltAt(env, plan, w0, w.t, k);
      assert k == KeyIn(id, k.pos);
    }
    assert KeyIn(id, 0) in w.t && IdOf(KeyIn(id, 0)) == id;
    assert IsPaddedSize(w.t, id, plan.Padded());
    PaddedSizeUnique(w.t, id, plan.Padded(), PaddedSize(w.t, id));
  }

  lemma BuiltRow(env: Env, plan: Plan, w0: World, w: World, p: nat)
    requires Ready(env, plan, w0) && (forall key :: BuiltAt(env, plan, w0, w.t, key)) && p < env.cfg.Total()
    ensures var key := KeyIn(plan.Id(), p);
            && key in w.t && Claimed(w.t[key]) == w.t[key].padded == plan.Padded()
            && w.t[key].path == StripePaths(env.cfg, plan)[p]
            && (p < env.cfg.k ==> OriginalAt(w.t, plan.Id(), p) == plan.sizes[p])
  {
    var key := KeyIn(plan.Id(), p);
    assert key == plan.KeyAt(p);
    assert BuiltAt(env, plan, w0, w.t, key);
    if key in w0.t {
      assert RowPlaced(env.cfg, key, w0.t[key]);
    }
    MaxOfIsMaximum(plan.sizes);
    hide ParityContent, BuiltAt;
  }

  lemma BuiltIsSolid(env: Env, plan: Plan, w0: World, w: World)
    requires Ready(env, plan, w0) && IsBuilt(env, plan, w0, w)
    ensures Solid(env, w, plan.Id())
  {
    BuiltView(env, plan, w0, w);
    forall k | k in w.t && IdOf(k) == plan.Id() ensures k.pos < env.cfg.Total() {
      assert BuiltAt(env, plan, w0, w.t, k);
    }
    hide FilesAt, StripePaths, BuiltAt, FilesBuilt, Consistent;
  }

  /** With true recorded sizes a built stripe is whole. */
  lemma BuiltIsWhole(env: Env, plan: Plan, w0: World, w: World)
    requires Ready(env, plan, w0) && IsBuilt(env, plan, w0, w)
    requires forall p: nat | p < env.cfg.k && plan.paths[p].Some? ::
               plan.paths[p].value in w0.fs && |w0.fs[plan.paths[p].value]| == plan.sizes[p]
    ensures Whole(env, w, plan.Id())
  {
    BuiltView(env, plan, w0, w);
    BuiltLengths(env, plan, w0, w);
    MaxOfIsMaximum(plan.sizes);
    hide FilesAt, StripePaths, BuiltAt, FilesBuilt, Consistent, OriginalAt, Ready;
  }

  lemma BuiltLengths(env: Env, plan: Plan, w0: World, w: World)
    requires Ready(env, plan, w0) && IsBuilt(env, plan, w0, w)
    requires forall p: nat | p < env.cfg.k && plan.paths[p].Some? ::
               plan.paths[p].value in w0.fs && |w0.fs[plan.paths[p].value]| == plan.sizes[p]
    ensures var paths := StripePaths(env.cfg, plan);
            && (forall p: nat | p < env.cfg.k :: paths[p] in w.fs && |w.fs[paths[p]]| == plan.sizes[p])
            && (forall p: nat | env.cfg.k <= p < env.cfg.Total() ::
                  paths[p] in w.fs && |w.fs[paths[p]]| == plan.Padded())
  {
    DataPathsAreData(env, plan, w0);
    var paths := StripePaths(env.cfg, plan);
    forall p: nat | p < env.cfg.k ensures paths[p] in w.fs && |w.fs[paths[p]]| == plan.sizes[p] {
      if plan.paths[p].Some? {
        assert plan.paths[p] in plan.paths;
        assert !OwnFile(env.cfg, plan, paths[p]);
      }
    }
    forall p: nat | env.cfg.k <= p < env.cfg.Total() ensures paths[p] in w.fs && |w.fs[paths[p]]| == plan.Padded() {
      assert paths[p] == ParityPath(env.cfg, plan, p - env.cfg.k);
    }
  }

  // ---- the whole command --------------------------------------------------------------------

  /** Stripes with rows are stripes with DATA. */
  lemma EveryStripeHasData(cfg: Config, t: Table)
    requires cfg.Ok() && WellPlaced(cfg, t)
    ensures forall k | k in t :: IdOf(k) in DataStripes(cfg, t)
  {
    forall k | k in t ensures IdOf(k) in DataStripes(cfg, t) {
      assert IsData(t, Key(k.group, k.stripe, 0));
      assert IdOf(Key(k.group, k.stripe, 0)) == IdOf(k);
    }
  }

  /** After an unfiltered run every stripe of the table has been built from its own rows. */
  lemma EveryStripeBuilt(env: Env, w0: World, out: Outcome, id: StripeKey)
    requires env.Ok() && WellPlaced(env.cfg, w0.t) && Builds(env, w0, None, None, out) && out.ok
    ensures RowsPlaced(env.cfg, w0.t)
    ensures var plan := PlanFor(env.cfg, w0.t, id);
            if id in DataStripes(env.cfg, w0.t) then
              && Ready(env, plan, Part(env.cfg, id, w0))
              && IsBuilt(env, plan, Part(env.cfg, id, w0), Part(env.cfg, id, out.w))
            else Part(env.cfg, id, out.w) == Part(env.cfg, id, w0)
  {
    assert id in DataStripes(env.cfg, w0.t) ==>
             SelectedPlans(env.cfg, w0.t, None, None)[id] == PlanFor(env.cfg, w0.t, id);
    assert id in SelectedPlans(env.cfg, w0.t, None, None) <==> id in DataStripes(env.cfg, w0.t);
    hide PlanFor, DataStripes;
    var plans := SelectedPlans(env.cfg, w0.t, None, None);
    SelectedReady(env, w0, None, None);
    var keys :| InKeyOrder(keys) && (forall id :: id in keys <==> id in plans) && InOrder(env, plans, keys, w0) == out;
    OrderedApart(keys);
    hide WellPlaced, SelectedPlans;
    InOrderLocal(env, plans, keys, w0);
    assert StandsAt(env, plans, keys, w0, out.w, id);
    if id in plans {
      PartReady(env, plans[id], w0);
      ProgramBuilds(env, plans[id], Part(env.cfg, id, w0));
    }
    hide Part, InOrder, IsBuilt, Ready, Program, StripeTask.Run;
  }

  lemma SelectedRunPlaced(env: Env, w0: World, group: Option<nat>, stripe: Option<nat>, out: Outcome)
    requires env.Ok() && RowsPlaced(env.cfg, w0.t) && Builds(env, w0, group, stripe, out)
    ensures RowsPlaced(env.cfg, out.w.t)
  {
    var plans := SelectedPlans(env.cfg, w0.t, group, stripe);
    SelectedReady(env, w0, group, stripe);
    var keys :| InKeyOrder(keys) && (forall id :: id in keys <==> id in plans) && InOrder(env, plans, keys, w0) == out;
    var id :| id in plans;
    assert Ready(env, plans[id], out.w);
  }

  /** When an unfiltered run succeeds, every stripe in the table is solid. */
  lemma CompletedIsSolid(env: Env, w0: World, out: Outcome)
    requires env.Ok() && WellPlaced(env.cfg, w0.t) && Builds(env, w0, None, None, out) && out.ok
    ensures RowsPlaced(env.cfg, out.w.t) && AllSolid(env, out.w)
  {
    assert RowsPlaced(env.cfg, w0.t);
    SelectedRunPlaced(env, w0, None, None, out);
    forall k | k in out.w.t ensures Solid(env, out.w, IdOf(k)) {
      var id := IdOf(k);
      StripeIsBuilt(env, w0, out, k);
      BuiltIsSolid(env, PlanFor(env.cfg, w0.t, id), Part(env.cfg, id, w0), Part(env.cfg, id, out.w));
      SolidIsLocal(env, out.w, id);
    }
  }

  lemma StripeIsBuilt(env: Env, w0: World, out: Outcome, k: Key)
    requires env.Ok() && WellPlaced(env.cfg, w0.t) && Builds(env, w0, None, None, out) && out.ok && k in out.w.t
    ensures var id := IdOf(k);
            var plan := PlanFor(env.cfg, w0.t, id);
            && id in DataStripes(env.cfg, w0.t)
            && Ready(env, plan, Part(env.cfg, id, w0))
            && IsBuilt(env, plan, Part(env.cfg, id, w0), Part(env.cfg, id, out.w))
  {
    var id := IdOf(k);
    EveryStripeBuilt(env, w0, out, id);
    EveryStripeHasData(env.cfg, w0.t);
    assert k in Part(env.cfg, id, out.w).t;
    assert k in Part(env.cfg, id, w0).t ==> k in w0.t;
    hide IsBuilt, Ready, PlanFor, Part, DataStripes, Builds, WellPlaced;
  }

  /** With true recorded sizes, every stripe is whole. */
  lemma CompletedIsWhole(env: Env, w0: World, out: Outcome, k: Key)
    requires env.Ok() && WellPlaced(env.cfg, w0.t) && SizesTrue(w0) && Builds(env, w0, None, None, out) && out.ok
    requires k in out.w.t
    ensures RowsPlaced(env.cfg, out.w.t) && Whole(env, out.w, IdOf(k))
    ensures PaddedSize(out.w.t, IdOf(k)) == PlanFor(env.cfg, w0.t, IdOf(k)).Padded()
  {
    var id := IdOf(k);
    var plan, l0, l := PlanFor(env.cfg, w0.t, id), Part(env.cfg, id, w0), Part(env.cfg, id, out.w);
    assert RowsPlaced(env.cfg, w0.t);
    SelectedRunPlaced(env, w0, None, None, out);
    StripeIsBuilt(env, w0, out, k);
    PlanForMatches(env.cfg, w0.t, id);
    PlanPathsAreOwn(env, plan, w0);
    forall p: nat | p < env.cfg.k && plan.paths[p].Some?
      ensures plan.paths[p].value in l0.fs && |l0.fs[plan.paths[p].value]| == plan.sizes[p]
    {
      assert IsData(w0.t, plan.KeyAt(p));
    }
    hide RowsPlaced, Part, PlanFor, IsBuilt, Builds, WellPlaced, SizesTrue, Ready;
    BuiltIsWhole(env, plan, l0, l);
    WholeIsLocal(env, out.w, id);
    PartView(env, out.w, id);
    BuiltView(env, plan, l0, l);
  }

  /** Checksums stay true: DATA rows keep their files and their checksums. */
  lemma CompletedKeepsSums(env: Env, w0: World, out: Outcome)
    requires env.Ok() && WellPlaced(env.cfg, w0.t) && SumsTrue(env, w0) && Builds(env, w0, None, None, out) && out.ok
    ensures SumsTrue(env, out.w)
  {
    forall k | k in out.w.t && out.w.t[k].kind.DATA?
      ensures k in w0.t && w0.t[k].kind.DATA? && out.w.t[k].path == w0.t[k].path && out.w.t[k].sum == w0.t[k].sum
      ensures w0.t[k].path in w0.fs ==> Same(w0.fs, out.w.fs, w0.t[k].path)
    {
      DataRowKept(env, w0, out, k);
    }
    hide Builds, WellPlaced;
  }

  lemma DataRowKept(env: Env, w0: World, out: Outcome, k: Key)
    requires env.Ok() && WellPlaced(env.cfg, w0.t) && Builds(env, w0, None, None, out) && out.ok
    requires k in out.w.t && out.w.t[k].kind.DATA?
    ensures k in w0.t && w0.t[k].kind.DATA? && out.w.t[k].path == w0.t[k].path && out.w.t[k].sum == w0.t[k].sum
    ensures w0.t[k].path in w0.fs ==> Same(w0.fs, out.w.fs, w0.t[k].path)
  {
    var id := IdOf(k);
    var plan, l0, l := PlanFor(env.cfg, w0.t, id), Part(env.cfg, id, w0), Part(env.cfg, id, out.w);
    StripeIsBuilt(env, w0, out, k);
    assert k in l.t && l.t[k] == out.w.t[k];
    hide Builds, Ready, IsBuilt, PlanFor;
    DataFileKept(env, plan, l0, l, k);
    assert RowPlaced(env.cfg, k, w0.t[k]);
    PlacedPathsAreOwn(env.cfg, k, w0.t[k].path);
  }

  lemma DataFileKept(env: Env, plan: Plan, w0: World, w: World, k: Key)
    requires Ready(env, plan, w0) && IsBuilt(env, plan, w0, w) && IdOf(k) == plan.Id()
    requires k in w.t && w.t[k].kind.DATA?
    ensures k in w0.t && w0.t[k].kind.DATA? && w.t[k].path == w0.t[k].path && w.t[k].sum == w0.t[k].sum
    ensures w0.t[k].path in w0.fs ==> Same(w0.fs, w.fs, w.t[k].path)
  {
    assert BuiltAt(env, plan, w0, w.t, k);
    assert k == plan.KeyAt(k.pos);
    assert RowPlaced(env.cfg, k, w0.t[k]);
    assert !OwnFile(env.cfg, plan, w.t[k].path);
  }
}
