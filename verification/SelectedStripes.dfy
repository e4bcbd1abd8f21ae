/** What make-ec does to the stripes it is asked for, and to the others. */
module SelectedStripes {
  import opened Bytes
  import opened Paths
  import opened Layout
  import opened ShardTable
  import opened Placement
  import opened BuildSpec
  import opened StripeTask
  import opened StripeRun
  import opened StripeView
  import opened Locality
  import opened Schedule
  import opened BuildStripes
  import opened MakeEcRun
  import opened CompleteStripes
  import opened Arcset

  /** The stripes that are built are those with DATA rows, of the given group and of the given number. */
  lemma PlannedExactly(cfg: Config, t: Table, group: Option<nat>, stripe: Option<nat>, id: StripeKey)
    requires cfg.Ok() && RowsPlaced(cfg, t)
    ensures id in SelectedPlans(cfg, t, group, stripe) <==>
              && (group.Some? ==> id.group == group.value) && (stripe.Some? ==> id.stripe == stripe.value)
              && exists k :: IsData(t, k) && k.group == id.group && k.stripe == id.stripe
  {
    if k :| IsData(t, k) && k.group == id.group && k.stripe == id.stripe {
      assert RowPlaced(cfg, k, t[k]);
      assert IdOf(k) == id;
    }
  }

  /** A stripe that was built is solid. */
  lemma PlannedIsSolid(env: Env, w: World, group: Option<nat>, stripe: Option<nat>, out: World, id: StripeKey)
    requires env.Ok() && RowsPlaced(env.cfg, w.t) && RowsPlaced(env.cfg, out.t)
    requires PlansReady(env, SelectedPlans(env.cfg, w.t, group, stripe), w)
    requires id in SelectedPlans(env.cfg, w.t, group, stripe)
    requires OnItsOwn(env, SelectedPlans(env.cfg, w.t, group, stripe), id, w) == Outcome(Part(env.cfg, id, out), true)
    ensures Solid(env, out, id)
  {
    var plans := SelectedPlans(env.cfg, w.t, group, stripe);
    assert plans[id] == PlanFor(env.cfg, w.t, id);
    PartReady(env, plans[id], w);
    hide SelectedPlans, PlanFor, Ready, Part, Solid, RowsPlaced;
    ProgramBuilds(env, plans[id], Part(env.cfg, id, w));
    BuiltIsSolid(env, plans[id], Part(env.cfg, id, w), Part(env.cfg, id, out));
    SolidIsLocal(env, out, id);
  }

  /** The row at a position of a stripe that was built from table t, for a padded size: a DATA row is kept and stamped,
      the other data positions have PAD rows and the parity positions EC rows. */
  ghost predicate BuiltRowAt(cfg: Config, t: Table, t': Table, key: Key, padded: nat)
    requires cfg.Ok()
  {
    && key in t'
    && if IsData(t, key) then t'[key] == t[key].(padded := padded, original := t[key].size)
       else
         && t'[key].partition == PartitionOf(cfg, key) && t'[key].padded == padded
         && t'[key].original == 0 && t'[key].source.None?
         && if key.pos < cfg.k then t'[key].kind.PAD? && t'[key].size == 0 && t'[key].sum.None?
            else t'[key].kind.EC? && t'[key].size == padded
  }

  /** A number is the largest size of the DATA rows of a stripe, 0 without any. */
  ghost predicate IsLargest(cfg: Config, t: Table, id: StripeKey, n: nat) {
    && (forall p: nat | p < cfg.k && IsData(t, KeyIn(id, p)) :: t[KeyIn(id, p)].size <= n)
    && (n == 0 || exists p: nat :: p < cfg.k && IsData(t, KeyIn(id, p)) && t[KeyIn(id, p)].size == n)
  }

  lemma PaddedIsLargest(cfg: Config, t: Table, id: StripeKey)
    ensures IsLargest(cfg, t, id, PlanFor(cfg, t, id).Padded())
  {
    var plan := PlanFor(cfg, t, id);
    MaxOfIsMaximum(plan.sizes);
    assert forall p: nat | p < cfg.k :: plan.sizes[p] == if IsData(t, KeyIn(id, p)) then t[KeyIn(id, p)].size else 0;
  }

  lemma BuiltRows(env: Env, t: Table, id: StripeKey, w0: World, w: World, p: nat)
    requires env.Ok() && Ready(env, PlanFor(env.cfg, t, id), w0) && IsBuilt(env, PlanFor(env.cfg, t, id), w0, w)
    requires p < env.cfg.Total() && w0.t == RowsOf(t, id)
    ensures BuiltRowAt(env.cfg, t, w.t, KeyIn(id, p), PlanFor(env.cfg, t, id).Padded())
  {
    var plan, key := PlanFor(env.cfg, t, id), KeyIn(id, p);
    assert key == plan.KeyAt(p);
    assert (key in w0.t <==> key in t) && (key in t ==> w0.t[key] == t[key]);
    hide PlanFor, MaxOf, RowsOf, BuiltAt;
    assert BuiltAt(env, plan, w0, w.t, key);
    if key in w0.t {
      assert RowPlaced(env.cfg, key, w0.t[key]);
    }
    RowAtKey(env, plan, w0, w.t, key);
  }

  lemma RowAtKey(env: Env, plan: Plan, w0: World, t: Table, key: Key)
    requires Ready(env, plan, w0) && BuiltAt(env, plan, w0, t, key)
    requires key.pos < env.cfg.Total() && key == plan.KeyAt(key.pos)
    requires key in w0.t ==> RowPlaced(env.cfg, key, w0.t[key])
    ensures BuiltRowAt(env.cfg, w0.t, t, key, plan.Padded())
  {
    hide ParityContent, MaxOf, RowPlaced;
    assert IsData(w0.t, key) ==> key.pos < env.cfg.k by {
      if key in w0.t { DataIsData(env.cfg, key, w0.t[key]); }
    }
  }

  lemma DataIsData(cfg: Config, key: Key, row: Row)
    requires cfg.Ok() && RowPlaced(cfg, key, row)
    ensures row.kind.DATA? ==> key.pos < cfg.k
  {
  }

  /** The rows of a stripe that was built. */
  lemma PlannedIsStamped(env: Env, w: World, group: Option<nat>, stripe: Option<nat>, out: World, id: StripeKey, p: nat)
    requires env.Ok() && RowsPlaced(env.cfg, w.t) && p < env.cfg.Total()
    requires PlansReady(env, SelectedPlans(env.cfg, w.t, group, stripe), w)
    requires id in SelectedPlans(env.cfg, w.t, group, stripe)
    requires OnItsOwn(env, SelectedPlans(env.cfg, w.t, group, stripe), id, w) == Outcome(Part(env.cfg, id, out), true)
    ensures BuiltRowAt(env.cfg, w.t, out.t, KeyIn(id, p), PlanFor(env.cfg, w.t, id).Padded())
  {
    var plans := SelectedPlans(env.cfg, w.t, group, stripe);
    var l, l', key := Part(env.cfg, id, w), Part(env.cfg, id, out), KeyIn(id, p);
    assert plans[id] == PlanFor(env.cfg, w.t, id);
    assert l.t == RowsOf(w.t, id) && (key in l'.t ==> key in out.t && out.t[key] == l'.t[key]);
    PartReady(env, plans[id], w);
    hide SelectedPlans, PlanFor, Ready, Part, RowsPlaced, RowsOf;
    ProgramBuilds(env, plans[id], l);
    BuiltRows(env, w.t, id, l, l', p);
  }

  /** When a run succeeds, every stripe with DATA rows that it was asked for has been built. */
  lemma AskedForIsBuilt(env: Env, w: World, group: Option<nat>, stripe: Option<nat>, out: Outcome, k: Key)
    requires env.Ok() && RowsPlaced(env.cfg, w.t) && Builds(env, w, group, stripe, out) && out.ok
    requires IsData(w.t, k)
    requires (group.Some? ==> k.group == group.value) && (stripe.Some? ==> k.stripe == stripe.value)
    ensures RowsPlaced(env.cfg, out.w.t) && PlansReady(env, SelectedPlans(env.cfg, w.t, group, stripe), w)
    ensures var plans, id := SelectedPlans(env.cfg, w.t, group, stripe), IdOf(k);
            id in plans && OnItsOwn(env, plans, id, w) == Outcome(Part(env.cfg, id, out.w), true)
  {
    var plans, id := SelectedPlans(env.cfg, w.t, group, stripe), IdOf(k);
    SelectedReady(env, w, group, stripe);
    var keys :| InKeyOrder(keys) && (forall id :: id in keys <==> id in plans) && InOrder(env, plans, keys, w) == out;
    SelectedRunPlaced(env, w, group, stripe, out);
    PlannedExactly(env.cfg, w.t, group, stripe, id);
    OrderedApart(keys);
    hide SelectedPlans, Builds, RowsPlaced;
    InOrderLocal(env, plans, keys, w);
    assert StandsAt(env, plans, keys, w, out.w, id);
    hide OnItsOwn, InOrder, Part, PlansReady;
  }

  /** After a run that succeeds every stripe with DATA rows that it was asked for is solid. */
  lemma AskedForIsSolid(env: Env, w: World, group: Option<nat>, stripe: Option<nat>, out: Outcome, k: Key)
    requires env.Ok() && RowsPlaced(env.cfg, w.t) && Builds(env, w, group, stripe, out) && out.ok
    requires IsData(w.t, k)
    requires (group.Some? ==> k.group == group.value) && (stripe.Some? ==> k.stripe == stripe.value)
    ensures Solid(env, out.w, IdOf(k))
  {
    hide Solid, RowsPlaced, Builds, SelectedPlans, PlansReady, OnItsOwn, Part;
    AskedForIsBuilt(env, w, group, stripe, out, k);
    PlannedIsSolid(env, w, group, stripe, out.w, IdOf(k));
  }

  /** All its rows record the size of its largest DATA shard as the padded size, and each DATA row its own size as the
      original one. */
  lemma AskedForIsStamped(env: Env, w: World, group: Option<nat>, stripe: Option<nat>, out: Outcome, k: Key)
    returns (padded: nat)
    requires env.Ok() && RowsPlaced(env.cfg, w.t) && Builds(env, w, group, stripe, out) && out.ok
    requires IsData(w.t, k)
    requires (group.Some? ==> k.group == group.value) && (stripe.Some? ==> k.stripe == stripe.value)
    ensures IsLargest(env.cfg, w.t, IdOf(k), padded)
    ensures forall p: nat | p < env.cfg.Total() :: BuiltRowAt(env.cfg, w.t, out.w.t, KeyIn(IdOf(k), p), padded)
  {
    hide RowsPlaced, Builds, SelectedPlans, PlansReady, OnItsOwn, Part, PlanFor, IsLargest, BuiltRowAt;
    AskedForIsBuilt(env, w, group, stripe, out, k);
    PaddedIsLargest(env.cfg, w.t, IdOf(k));
    padded := PlanFor(env.cfg, w.t, IdOf(k)).Padded();
    forall p: nat | p < env.cfg.Total() ensures BuiltRowAt(env.cfg, w.t, out.w.t, KeyIn(IdOf(k), p), padded) {
      PlannedIsStamped(env, w, group, stripe, out.w, IdOf(k), p);
    }
  }

  /** The rows and files of a stripe are in both worlds the same. */
  ghost predicate Untouched(cfg: Config, w: World, w': World, id: StripeKey)
    requires cfg.Ok()
  {
    && (forall k: Key | k.group == id.group && k.stripe == id.stripe ::
          (k in w'.t <==> k in w.t) && (k in w.t ==> w'.t[k] == w.t[k]))
    && (forall p: Path | !p.Outside? && GroupOf(cfg, p.part) == id.group && p.stripe == id.stripe ::
          (p in w'.fs <==> p in w.fs) && (p in w.fs ==> w'.fs[p] == w.fs[p]))
  }

  lemma SamePartUntouched(cfg: Config, w: World, w': World, id: StripeKey)
    requires cfg.Ok() && Part(cfg, id, w') == Part(cfg, id, w)
    ensures Untouched(cfg, w, w', id)
  {
    var a, b := Part(cfg, id, w), Part(cfg, id, w');
    assert forall k: Key | k.group == id.group && k.stripe == id.stripe ::
             (k in a.t <==> k in w.t) && (k in b.t <==> k in w'.t);
    assert forall p: Path | !p.Outside? && GroupOf(cfg, p.part) == id.group && p.stripe == id.stripe ::
             (p in a.fs <==> p in w.fs) && (p in b.fs <==> p in w'.fs);
    assert forall k | k in a.t :: a.t[k] == w.t[k] && b.t[k] == w'.t[k];
    assert forall p | p in a.fs :: a.fs[p] == w.fs[p] && b.fs[p] == w'.fs[p];
  }

  /** Whether the run succeeds or not, a stripe of another group or with another number stays as it is. */
  lemma OthersUntouched(env: Env, w: World, group: Option<nat>, stripe: Option<nat>, out: Outcome, id: StripeKey)
    requires env.Ok() && RowsPlaced(env.cfg, w.t) && Builds(env, w, group, stripe, out)
    requires (group.Some? && id.group != group.value) || (stripe.Some? && id.stripe != stripe.value)
    ensures Untouched(env.cfg, w, out.w, id)
  {
    var plans := SelectedPlans(env.cfg, w.t, group, stripe);
    PlannedExactly(env.cfg, w.t, group, stripe, id);
    var schedule := BuildsByTurns(env, w, group, stripe, out);
    hide SelectedPlans, Builds, RowsPlaced, Part, Untouched, PlansReady;
    RunsLocally(env, plans, w, schedule, id);
    SamePartUntouched(env.cfg, w, out.w, id);
  }

  // ---- a run that fails ---------------------------------------------------------------------

  lemma {:induction false} FirstFailure(env: Env, plans: Plans, keys: seq<StripeKey>, w: World) returns (n: nat)
    requires PlansReady(env, plans, w) && (forall id | id in keys :: id in plans) && !InOrder(env, plans, keys, w).ok
    ensures n < |keys| && InOrder(env, plans, keys[..n], w).ok
    ensures var before := InOrder(env, plans, keys[..n], w).w;
            && PlansReady(env, plans, before)
            && InOrder(env, plans, keys, w) == BuildOne(env, plans[keys[n]], before)
  {
    hide BuildOne, PlansReady;
    var last := |keys| - 1;
    if InOrder(env, plans, keys[..last], w).ok {
      n := last;
    } else {
      n := FirstFailure(env, plans, keys[..last], w);
      assert keys[..last][..n] == keys[..n];
    }
  }

  /** Before the stripe in the order of group and number. */
  predicate Earlier(a: StripeKey, b: StripeKey) {
    a.group < b.group || (a.group == b.group && a.stripe < b.stripe)
  }

  /** The one stripe that fails: those before it are built, those after it are not touched. */
  lemma FailsAtFirst(env: Env, w: World, group: Option<nat>, stripe: Option<nat>, out: Outcome)
    returns (at: StripeKey)
    requires env.Ok() && RowsPlaced(env.cfg, w.t) && Builds(env, w, group, stripe, out) && !out.ok
    ensures (group.Some? ==> at.group == group.value) && (stripe.Some? ==> at.stripe == stripe.value)
    ensures exists k :: IsData(w.t, k) && IdOf(k) == at
    ensures forall k | IsData(w.t, k) && Earlier(IdOf(k), at) && (group.Some? ==> k.group == group.value)
                       && (stripe.Some? ==> k.stripe == stripe.value) :: Solid(env, out.w, IdOf(k))
    ensures forall id | Earlier(at, id) :: Untouched(env.cfg, w, out.w, id)
  {
    var plans := SelectedPlans(env.cfg, w.t, group, stripe);
    SelectedReady(env, w, group, stripe);
    var keys :| InKeyOrder(keys) && (forall id :: id in keys <==> id in plans) && InOrder(env, plans, keys, w) == out;
    SelectedRunPlaced(env, w, group, stripe, out);
    hide SelectedPlans, Builds, Solid, RowsPlaced, Untouched, BuildOne;
    var n := FirstFailure(env, plans, keys, w);
    at := keys[n];
    assert at in keys;
    PlannedExactly(env.cfg, w.t, group, stripe, at);
    StandsBefore(env, plans, keys, n, w, out);
    forall id | Earlier(at, id) ensures Untouched(env.cfg, w, out.w, id) {
      LaterNotBefore(keys, n, id);
      SamePartUntouched(env.cfg, w, out.w, id);
    }
    forall k | IsData(w.t, k) && Earlier(IdOf(k), at) && (group.Some? ==> k.group == group.value)
               && (stripe.Some? ==> k.stripe == stripe.value)
      ensures Solid(env, out.w, IdOf(k))
    {
      PlannedExactly(env.cfg, w.t, group, stripe, IdOf(k));
      EarlierIsBefore(keys, n, IdOf(k));
      PlannedIsSolid(env, w, group, stripe, out.w, IdOf(k));
    }
  }

  lemma LaterNotBefore(keys: seq<StripeKey>, n: nat, id: StripeKey)
    requires InKeyOrder(keys) && n < |keys| && Earlier(keys[n], id)
    ensures id !in keys[..n] && id != keys[n]
  {
  }

  lemma EarlierIsBefore(keys: seq<StripeKey>, n: nat, id: StripeKey)
    requires InKeyOrder(keys) && n < |keys| && Earlier(id, keys[n]) && id in keys
    ensures id in keys[..n] && id != keys[n]
  {
  }

  /** Where the stripes stand after the first n have been built and the next one has failed. */
  lemma StandsBefore(env: Env, plans: Plans, keys: seq<StripeKey>, n: nat, w: World, out: Outcome)
    requires env.Ok() && PlansReady(env, plans, w) && (forall id | id in keys :: id in plans) && InKeyOrder(keys)
    requires n < |keys| && InOrder(env, plans, keys[..n], w).ok
    requires PlansReady(env, plans, InOrder(env, plans, keys[..n], w).w)
    requires out == BuildOne(env, plans[keys[n]], InOrder(env, plans, keys[..n], w).w)
    ensures forall id | id != keys[n] && id in keys[..n] ::
              OnItsOwn(env, plans, id, w) == Outcome(Part(env.cfg, id, out.w), true)
    ensures forall id | id != keys[n] && id !in keys[..n] :: Part(env.cfg, id, out.w) == Part(env.cfg, id, w)
  {
    var before := InOrder(env, plans, keys[..n], w).w;
    assert keys[n] in keys && forall id | id in keys[..n] :: id in keys;
    assert plans[keys[n]].Id() == keys[n] && Ready(env, plans[keys[n]], before);
    OrderedApart(keys);
    assert Apart(keys[..n]);
    hide BuildOne, InOrder, OnItsOwn, Ready;
    InOrderLocal(env, plans, keys[..n], w);
    BuildOneLocal(env, plans[keys[n]], before);
    hide Part, PlansReady;
    forall id | id != keys[n]
      ensures id in keys[..n] ==> OnItsOwn(env, plans, id, w) == Outcome(Part(env.cfg, id, out.w), true)
      ensures id !in keys[..n] ==> Part(env.cfg, id, out.w) == Part(env.cfg, id, w)
    {
      assert StandsAt(env, plans, keys[..n], w, before, id);
    }
  }

  // ---- the command --------------------------------------------------------------------------

  lemma SomethingPlanned(cfg: Config, t: Table, group: Option<nat>, stripe: Option<nat>)
    requires cfg.Ok() && RowsPlaced(cfg, t)
    ensures SelectedPlans(cfg, t, group, stripe).Keys != {} <==>
            exists k :: && IsData(t, k) && (group.Some? ==> k.group == group.value)
                        && (stripe.Some? ==> k.stripe == stripe.value)
  {
    var plans := SelectedPlans(cfg, t, group, stripe);
    hide SelectedPlans;
    if k :| && IsData(t, k) && (group.Some? ==> k.group == group.value)
            && (stripe.Some? ==> k.stripe == stripe.value)
    {
      PlannedExactly(cfg, t, group, stripe, IdOf(k));
      assert IdOf(k) in plans.Keys;
    }
    if id :| id in plans.Keys {
      PlannedExactly(cfg, t, group, stripe, id);
    }
  }

  lemma SomethingPlaced(cfg: Config, t: Table)
    requires cfg.Ok() && RowsPlaced(cfg, t)
    ensures DataStripes(cfg, t) != {} <==> exists k :: IsData(t, k)
  {
    if k :| IsData(t, k) {
      assert RowPlaced(cfg, k, t[k]);
      assert IdOf(k) in DataStripes(cfg, t);
    }
  }

  /** When the command starts, what it does with the phase, when there is no matching stripe, and what completion is. */
  lemma OutcomeExactly(env: Env, a: Arcset, w: World, group: Option<nat>, stripe: Option<nat>, a': Arcset, out: Outcome)
    requires env.Ok() && RowsPlaced(env.cfg, w.t) && MakesEc(env, a, w, group, stripe, a', out)
    ensures var started := a.(status := Building, phase := ECPhase);
            if !(a.status.Building? && (a.phase.DataPhase? || a.phase.ECPhase?) && a.health.Healthy?
                 && exists k :: IsData(w.t, k))
            then !out.ok && out.w == w && a' == a
            else if !exists k :: && IsData(w.t, k) && (group.Some? ==> k.group == group.value)
                                 && (stripe.Some? ==> k.stripe == stripe.value)
            then !out.ok && out.w == w && a' == started
            else
              && Builds(env, w, group, stripe, out)
              && a' == if out.ok && group.None? && stripe.None?
                       then a.(status := Completed, phase := NoPhase, health := Healthy, parityDegraded := false)
                       else started
  {
    SomethingPlanned(env.cfg, w.t, group, stripe);
    SomethingPlaced(env.cfg, w.t);
    hide Builds, SelectedPlans, DataStripes, RowsPlaced, IsData;
  }
}
