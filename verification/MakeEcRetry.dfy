/** Stopping make-ec at any step of any stripe and giving the command again. */
module MakeEcRetry {
  import opened Bytes
  import opened Layout
  import opened ShardTable
  import opened Placement
  import opened BuildSpec
  import opened StripeTask
  import opened StripeRun
  import opened StripeView
  import opened Schedule
  import opened BuildStripes
  import opened Resume
  import opened Freshness
  import opened MakeEcRun
  import opened MakeEcKeeps
  import opened Arcset

  /** A list in key order is determined by its members. */
  lemma {:induction false} KeyOrderUnique(a: seq<StripeKey>, b: seq<StripeKey>)
    requires InKeyOrder(a) && InKeyOrder(b) && forall id :: id in a <==> id in b
    ensures a == b
    decreases |a|
  {
    assert a == [] || a[0] in b;
    assert b == [] || b[0] in a;
    if a != [] && b != [] {
      assert a[0] == b[0];
      forall id ensures id in a[1..] <==> id in b[1..] {
        assert id in a <==> id == a[0] || id in a[1..];
        assert id in b <==> id == b[0] || id in b[1..];
        assert a[0] !in a[1..] && b[0] !in b[1..];
      }
      KeyOrderUnique(a[1..], b[1..]);
    }
  }

  /** The stripes are those of the DATA rows, so the command finds the same plans. */
  lemma SameShardsSamePlans(cfg: Config, t: Table, t': Table, group: Option<nat>, stripe: Option<nat>)
    requires forall k :: (IsData(t', k) <==> IsData(t, k)) && (IsData(t, k) ==> SameShard(t'[k], t[k]))
    ensures DataStripes(cfg, t') == DataStripes(cfg, t)
    ensures SelectedPlans(cfg, t', group, stripe) == SelectedPlans(cfg, t, group, stripe)
  {
    forall id ensures id in DataStripes(cfg, t') <==> id in DataStripes(cfg, t) {
      if id in DataStripes(cfg, t) {
        var k :| k in t && IsData(t, k) && k.pos < cfg.k && id == IdOf(k);
        assert IsData(t', k);
      }
      if id in DataStripes(cfg, t') {
        var k :| k in t' && IsData(t', k) && k.pos < cfg.k && id == IdOf(k);
        assert IsData(t, k);
      }
    }
    forall id ensures PlanFor(cfg, t', id) == PlanFor(cfg, t, id) {
      assert PlanFor(cfg, t', id).paths == PlanFor(cfg, t, id).paths;
      assert PlanFor(cfg, t', id).sizes == PlanFor(cfg, t, id).sizes;
    }
  }

  /** The world where a run of the selected stripes stops. */
  ghost function StoppedRun(env: Env, w: World, group: Option<nat>, stripe: Option<nat>, schedule: seq<StripeKey>)
    : World
    requires env.Ok() && RowsPlaced(env.cfg, w.t)
  {
    var plans := SelectedPlans(env.cfg, w.t, group, stripe);
    SelectedReady(env, w, group, stripe);
    Runs(env, plans, Machine(w, Start(plans)), schedule).w
  }

  /** Wherever a run stops, the next one reads the same stripes from the table. */
  lemma PlansFoundAgain(env: Env, w: World, group: Option<nat>, stripe: Option<nat>, schedule: seq<StripeKey>)
    requires env.Ok() && RowsPlaced(env.cfg, w.t)
    ensures var w' := StoppedRun(env, w, group, stripe, schedule);
            && RowsPlaced(env.cfg, w'.t)
            && DataStripes(env.cfg, w'.t) == DataStripes(env.cfg, w.t)
            && SelectedPlans(env.cfg, w'.t, group, stripe) == SelectedPlans(env.cfg, w.t, group, stripe)
  {
    var plans, w' := SelectedPlans(env.cfg, w.t, group, stripe), StoppedRun(env, w, group, stripe, schedule);
    SelectedReady(env, w, group, stripe);
    hide SelectedPlans, DataStripes, Runs;
    RunsPlaced(env, plans, w, schedule);
    forall k ensures (IsData(w'.t, k) <==> IsData(w.t, k)) && (IsData(w.t, k) ==> SameShard(w'.t[k], w.t[k])) {
      RunsKeepRow(env, plans, w, schedule, k);
    }
    SameShardsSamePlans(env.cfg, w.t, w'.t, group, stripe);
  }

  /** Any number of runs that are stopped, each reading the table again. */
  ghost function AfterStops(env: Env, w: World, group: Option<nat>, stripe: Option<nat>, stops: seq<seq<StripeKey>>)
    : (last: World)
    requires env.Ok() && RowsPlaced(env.cfg, w.t)
    ensures RowsPlaced(env.cfg, last.t)
    decreases |stops|
  {
    if stops == [] then w
    else
      PlansFoundAgain(env, w, group, stripe, stops[0]);
      AfterStops(env, StoppedRun(env, w, group, stripe, stops[0]), group, stripe, stops[1..])
  }

  /** The run that is not stopped ends alike. */
  ghost predicate EndsAlike(a: Outcome, b: Outcome) {
    (a.ok <==> b.ok) && (b.ok ==> a == b)
  }

  lemma {:induction false} StopsDoNotMatter(env: Env, w: World, group: Option<nat>, stripe: Option<nat>,
                                            stops: seq<seq<StripeKey>>, keys: seq<StripeKey>)
    requires env.Ok() && RowsPlaced(env.cfg, w.t)
    requires InKeyOrder(keys) && forall id :: id in keys <==> id in SelectedPlans(env.cfg, w.t, group, stripe)
    ensures var plans, last := SelectedPlans(env.cfg, w.t, group, stripe), AfterStops(env, w, group, stripe, stops);
            && DataStripes(env.cfg, last.t) == DataStripes(env.cfg, w.t)
            && SelectedPlans(env.cfg, last.t, group, stripe) == plans
            && PlansReady(env, plans, w) && PlansReady(env, plans, last)
            && EndsAlike(InOrder(env, plans, keys, last), InOrder(env, plans, keys, w))
    decreases |stops|
  {
    var plans := SelectedPlans(env.cfg, w.t, group, stripe);
    SelectedReady(env, w, group, stripe);
    hide SelectedPlans, DataStripes, Runs, InOrder, PlansReady;
    if stops != [] {
      var w' := StoppedRun(env, w, group, stripe, stops[0]);
      PlansFoundAgain(env, w, group, stripe, stops[0]);
      OrderedApart(keys);
      InterruptedRun(env, plans, keys, w, stops[0]);
      StopsDoNotMatter(env, w', group, stripe, stops[1..], keys);
    }
  }

  lemma BuildsInKeyOrder(env: Env, w: World, group: Option<nat>, stripe: Option<nat>, keys: seq<StripeKey>,
                         out: Outcome)
    requires env.Ok() && RowsPlaced(env.cfg, w.t) && Builds(env, w, group, stripe, out)
    requires InKeyOrder(keys) && forall id :: id in keys <==> id in SelectedPlans(env.cfg, w.t, group, stripe)
    ensures PlansReady(env, SelectedPlans(env.cfg, w.t, group, stripe), w)
    ensures InOrder(env, SelectedPlans(env.cfg, w.t, group, stripe), keys, w) == out
  {
    var plans := SelectedPlans(env.cfg, w.t, group, stripe);
    SelectedReady(env, w, group, stripe);
    hide SelectedPlans, InOrder, PlansReady;
    var own :| InKeyOrder(own) && (forall id :: id in own <==> id in plans) && InOrder(env, plans, own, w) == out;
    KeyOrderUnique(own, keys);
  }

  /** The command, stopped any number of times at any steps of any stripes and given again, succeeds exactly when it
      would have succeeded at once, and then leaves the same rows, files and arcset. */
  lemma MakeEcAgain(env: Env, a: Arcset, w: World, group: Option<nat>, stripe: Option<nat>,
                    stops: seq<seq<StripeKey>>, one': Arcset, one: Outcome, two': Arcset, two: Outcome)
    requires env.Ok() && RowsPlaced(env.cfg, w.t) && Startable(a) && DataStripes(env.cfg, w.t) != {}
    requires MakesEc(env, a, w, group, stripe, one', one)
    requires MakesEc(env, a.(status := Building, phase := ECPhase), AfterStops(env, w, group, stripe, stops), group,
                     stripe, two', two)
    ensures two' == one' && EndsAlike(two, one)
  {
    var plans := SelectedPlans(env.cfg, w.t, group, stripe);
    var keys := SortedKeys(plans.Keys);
    hide SelectedPlans, AfterStops, Builds, DataStripes, InOrder, RowsPlaced, PlansReady;
    StopsDoNotMatter(env, w, group, stripe, stops, keys);
    if plans.Keys != {} {
      BuildsInKeyOrder(env, w, group, stripe, keys, one);
      BuildsInKeyOrder(env, AfterStops(env, w, group, stripe, stops), group, stripe, keys, two);
    }
  }
}
