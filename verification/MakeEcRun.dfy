/** The make-ec command: which stripes it builds, in which order, and when the arcset is complete. */
module MakeEcRun {
  import opened Bytes
  import opened Paths
  import opened Disk
  import opened Layout
  import opened ShardTable
  import opened Stream
  import opened Placement
  import opened BuildSpec
  import opened BuildData
  import opened StripeTask
  import opened StripeRun
  import opened StripeView
  import opened Schedule
  import opened BuildStripes
  import opened Arcset

  /** The stripes with DATA rows. */
  function DataStripes(cfg: Config, t: Table): set<StripeKey> {
    set k | k in t && IsData(t, k) && k.pos < cfg.k :: IdOf(k)
  }

  predicate Selected(id: StripeKey, group: Option<nat>, stripe: Option<nat>) {
    (group.None? || id.group == group.value) && (stripe.None? || id.stripe == stripe.value)
  }

  /** The stripes a command builds, each as the table describes it. */
  function SelectedPlans(cfg: Config, t: Table, group: Option<nat>, stripe: Option<nat>): Plans {
    map id | id in DataStripes(cfg, t) && Selected(id, group, stripe) :: PlanFor(cfg, t, id)
  }

  predicate IdLess(a: StripeKey, b: StripeKey) {
    a.group < b.group || (a.group == b.group && a.stripe < b.stripe)
  }

  ghost predicate InKeyOrder(keys: seq<StripeKey>) {
    forall i, j | 0 <= i < j < |keys| :: IdLess(keys[i], keys[j])
  }

  lemma SelectedReady(env: Env, w: World, group: Option<nat>, stripe: Option<nat>)
    requires env.Ok() && RowsPlaced(env.cfg, w.t)
    ensures PlansReady(env, SelectedPlans(env.cfg, w.t, group, stripe), w)
  {
    var plans := SelectedPlans(env.cfg, w.t, group, stripe);
    forall id | id in plans ensures Ready(env, plans[id], w) && plans[id].Id() == id {
      PlanForMatches(env.cfg, w.t, id);
    }
  }

  type Stripes = map<StripeKey, map<nat, Row>>

  predicate HoldsRow(stripes: Stripes, key: Key) {
    IdOf(key) in stripes && key.pos in stripes[IdOf(key)]
  }

  predicate IsDataAt(cfg: Config, t: Table, key: Key) {
    key.pos < cfg.k && IsData(t, key)
  }

  /** The rows held are DATA rows of the table. */
  ghost predicate HoldsData(cfg: Config, t: Table, stripes: Stripes) {
    forall key | HoldsRow(stripes, key) :: IsDataAt(cfg, t, key) && stripes[IdOf(key)][key.pos] == t[key]
  }

  /** All DATA rows of each stripe, by position. */
  ghost predicate Grouped(cfg: Config, t: Table, stripes: Stripes) {
    && stripes.Keys == DataStripes(cfg, t)
    && HoldsData(cfg, t, stripes)
    && forall key | IsDataAt(cfg, t, key) :: HoldsRow(stripes, key)
  }

  function WithRow(stripes: Stripes, key: Key, row: Row): Stripes {
    var rows := if IdOf(key) in stripes then stripes[IdOf(key)] else map[];
    stripes[IdOf(key) := rows[key.pos := row]]
  }

  lemma HoldsMore(stripes: Stripes, key: Key, row: Row)
    ensures forall k :: HoldsRow(WithRow(stripes, key, row), k) <==> HoldsRow(stripes, k) || k == key
    ensures forall k | HoldsRow(WithRow(stripes, key, row), k) ::
              WithRow(stripes, key, row)[IdOf(k)][k.pos] == if k == key then row else stripes[IdOf(k)][k.pos]
  {
  }

  method GroupStripes(list: seq<ShardRow>, ghost t: Table, cfg: Config) returns (stripes: Stripes)
    requires Lists(list, t)
    ensures Grouped(cfg, t, stripes)
  {
    stripes := map[];
    for i := 0 to |list|
      invariant stripes.Keys <= DataStripes(cfg, t) && HoldsData(cfg, t, stripes)
      invariant forall j | 0 <= j < i && list[j].row.kind.DATA? && list[j].key.pos < cfg.k ::
                  HoldsRow(stripes, list[j].key)
    {
      var o := list[i];
      if o.row.kind.DATA? && o.key.pos < cfg.k {
        HoldsMore(stripes, o.key, o.row);
        assert IsDataAt(cfg, t, o.key) && IdOf(o.key) in DataStripes(cfg, t);
        hide HoldsRow;
        stripes := WithRow(stripes, o.key, o.row);
      }
    }
    forall key | IsDataAt(cfg, t, key) ensures HoldsRow(stripes, key) {
      var i :| 0 <= i < |list| && list[i].key == key;
    }
    forall id | id in DataStripes(cfg, t) ensures id in stripes {
      var k :| k in t && IsData(t, k) && k.pos < cfg.k && id == IdOf(k);
      assert IsDataAt(cfg, t, k);
    }
  }

  /** A stripe's plan from its DATA rows. */
  method PlanOf(cfg: Config, id: StripeKey, stripes: Stripes, ghost t: Table) returns (plan: Plan)
    requires Grouped(cfg, t, stripes) && id in stripes
    ensures plan == PlanFor(cfg, t, id)
  {
    var rows := stripes[id];
    var paths: seq<Option<Path>>, sizes: seq<nat> := [], [];
    ghost var all := PlanFor(cfg, t, id);
    for pos := 0 to cfg.k
      invariant |paths| == |sizes| == pos
      invariant forall p | 0 <= p < pos :: paths[p] == all.paths[p] && sizes[p] == all.sizes[p]
    {
      assert HoldsRow(stripes, KeyIn(id, pos)) <==> IsDataAt(cfg, t, KeyIn(id, pos));
      if pos in rows {
        paths, sizes := paths + [Some(rows[pos].path)], sizes + [rows[pos].size];
      } else {
        paths, sizes := paths + [None], sizes + [0];
      }
    }
    plan := Plan(id.group, id.stripe, paths, sizes);
    assert plan.paths == all.paths && plan.sizes == all.sizes;
  }

  method LeastKey(keys: set<StripeKey>) returns (least: StripeKey)
    requires keys != {}
    ensures least in keys && forall k | k in keys && k != least :: IdLess(least, k)
  {
    least :| least in keys;
    var rest := keys - {least};
    while rest != {}
      invariant rest <= keys && least in keys
      invariant forall k | k in keys && k !in rest && k != least :: IdLess(least, k)
      decreases |rest|
    {
      var k :| k in rest;
      if IdLess(k, least) { least := k; }
      rest := rest - {k};
    }
  }

  /** The keys in ascending order of group and stripe. */
  method SortKeys(keys: set<StripeKey>) returns (sorted: seq<StripeKey>)
    ensures InKeyOrder(sorted) && forall k :: k in sorted <==> k in keys
  {
    sorted := [];
    var rest := keys;
    while rest != {}
      invariant rest <= keys && InKeyOrder(sorted)
      invariant forall k :: k in sorted <==> k in keys && k !in rest
      invariant forall i, k | 0 <= i < |sorted| && k in rest :: IdLess(sorted[i], k)
      decreases |rest|
    {
      var k := LeastKey(rest);
      sorted, rest := sorted + [k], rest - {k};
    }
  }

  lemma {:induction false} SortedKeys(ids: set<StripeKey>) returns (keys: seq<StripeKey>)
    ensures InKeyOrder(keys) && forall id :: id in keys <==> id in ids
    decreases |ids|
  {
    keys := [];
    if ids != {} {
      var least := LeastStripe(ids);
      var rest := SortedKeys(ids - {least});
      keys := [least] + rest;
      forall j | 0 < j < |keys| ensures IdLess(least, keys[j]) {
        assert keys[j] in rest;
      }
    }
  }

  lemma {:induction false} LeastStripe(ids: set<StripeKey>) returns (least: StripeKey)
    requires ids != {}
    ensures least in ids && forall id | id in ids && id != least :: IdLess(least, id)
    decreases |ids|
  {
    least :| least in ids;
    if ids - {least} != {} {
      var rest := LeastStripe(ids - {least});
      assert forall id | id in ids :: id == least || id in ids - {least};
      if IdLess(rest, least) { least := rest; }
    }
  }

  predicate Startable(a: Arcset) {
    a.status.Building? && !a.phase.NoPhase? && a.health.Healthy?
  }

  /** The selected stripes, built in key order. */
  ghost predicate Builds(env: Env, w: World, group: Option<nat>, stripe: Option<nat>, out: Outcome)
    requires env.Ok() && RowsPlaced(env.cfg, w.t)
  {
    var plans := SelectedPlans(env.cfg, w.t, group, stripe);
    SelectedReady(env, w, group, stripe);
    && plans.Keys != {}
    && exists keys ::
         InKeyOrder(keys) && (forall id :: id in keys <==> id in plans) && InOrder(env, plans, keys, w) == out
  }

  /** What the command does to the world and to the arcset, and whether it reports success. */
  ghost predicate MakesEc(env: Env, a: Arcset, w: World, group: Option<nat>, stripe: Option<nat>, a': Arcset,
                          out: Outcome)
    requires env.Ok() && RowsPlaced(env.cfg, w.t)
  {
    if !Startable(a) || DataStripes(env.cfg, w.t) == {} then a' == a && out == Outcome(w, false)
    else
      var started := a.(status := Building, phase := ECPhase);
      if SelectedPlans(env.cfg, w.t, group, stripe).Keys == {} then a' == started && out == Outcome(w, false)
      else
        && Builds(env, w, group, stripe, out)
        && a' == if out.ok && group.None? && stripe.None? then Completion(started) else started
  }

  lemma OrderedApart(keys: seq<StripeKey>)
    requires InKeyOrder(keys)
    ensures Apart(keys)
  {
  }

  /** What one worker builds is what some schedule of turns builds. */
  lemma BuildsByTurns(env: Env, w: World, group: Option<nat>, stripe: Option<nat>, out: Outcome)
    returns (schedule: seq<StripeKey>)
    requires env.Ok() && RowsPlaced(env.cfg, w.t) && Builds(env, w, group, stripe, out)
    ensures PlansReady(env, SelectedPlans(env.cfg, w.t, group, stripe), w)
    ensures var plans := SelectedPlans(env.cfg, w.t, group, stripe);
            Runs(env, plans, Machine(w, Start(plans)), schedule).w == out.w
  {
    var plans := SelectedPlans(env.cfg, w.t, group, stripe);
    SelectedReady(env, w, group, stripe);
    var keys :| InKeyOrder(keys) && (forall id :: id in keys <==> id in plans) && InOrder(env, plans, keys, w) == out;
    OrderedApart(keys);
    hide Runs, InOrder, PlansReady;
    schedule := InOrderIsASchedule(env, plans, keys, w);
  }

  /** The plans of the selected stripes, in key order. */
  method SelectStripes(env: Env, stripes: Stripes, ghost t: Table, group: Option<nat>, stripe: Option<nat>)
    returns (todo: seq<Plan>)
    requires Grouped(env.cfg, t, stripes)
    ensures var plans := SelectedPlans(env.cfg, t, group, stripe);
            && InKeyOrder(Ids(todo)) && (forall id :: id in Ids(todo) <==> id in plans)
            && forall plan | plan in todo :: plan.Id() in plans && plans[plan.Id()] == plan
  {
    var wanted := set id | id in stripes.Keys && Selected(id, group, stripe);
    ghost var plans := SelectedPlans(env.cfg, t, group, stripe);
    var keys := SortKeys(wanted);
    todo := [];
    for i := 0 to |keys|
      invariant |todo| == i
      invariant forall j | 0 <= j < i :: keys[j] in plans && todo[j] == plans[keys[j]] && todo[j].Id() == keys[j]
    {
      assert keys[i] in keys;
      var plan := PlanOf(env.cfg, keys[i], stripes, t);
      todo := todo + [plan];
    }
    assert Ids(todo) == keys;
  }

  /** What happens once there are stripes: the phase, the selected stripes, and completion. */
  method RunStripes(env: Env, registry: Registry, arcset: nat, disk: Disk, store: Store, stripes: Stripes,
                    group: Option<nat>, stripe: Option<nat>, chunk: int) returns (ok: bool)
    requires env.Ok() && RowsPlaced(env.cfg, store.rows) && ValidChunk(chunk) && Grouped(env.cfg, store.rows, stripes)
    requires arcset in registry.arcsets && Startable(registry.arcsets[arcset]) && DataStripes(env.cfg, store.rows) != {}
    modifies registry`arcsets, disk, store
    ensures arcset in registry.arcsets
    ensures registry.arcsets == old(registry.arcsets)[arcset := registry.arcsets[arcset]]
    ensures MakesEc(env, old(registry.arcsets)[arcset], World(old(store.rows), old(disk.files)), group, stripe,
                    registry.arcsets[arcset], Outcome(World(store.rows, disk.files), ok))
  {
    hide Grouped, SelectedPlans, Builds, DataStripes, RowsPlaced;
    registry.SetBuildPhase(arcset, ECPhase);
    var any;
    any, ok := BuildSelected(env, disk, store, stripes, group, stripe, chunk);
    if any && ok && group.None? && stripe.None? {
      registry.CompleteBuild(arcset);
    }
  }

  method ReadStripes(env: Env, store: Store) returns (stripes: Stripes)
    ensures Grouped(env.cfg, store.rows, stripes) && stripes.Keys == DataStripes(env.cfg, store.rows)
  {
    var list := ListShards(store);
    stripes := GroupStripes(list, store.rows, env.cfg);
  }

  lemma NothingSelected(todo: seq<Plan>, plans: Plans)
    requires forall id :: id in Ids(todo) <==> id in plans
    ensures todo == [] <==> plans.Keys == {}
  {
    if todo != [] { assert Ids(todo)[0] in Ids(todo); }
  }

  method BuildSelected(env: Env, disk: Disk, store: Store, stripes: Stripes, group: Option<nat>, stripe: Option<nat>,
                       chunk: int) returns (any: bool, ok: bool)
    requires env.Ok() && RowsPlaced(env.cfg, store.rows) && ValidChunk(chunk) && Grouped(env.cfg, store.rows, stripes)
    modifies disk, store
    ensures any <==> SelectedPlans(env.cfg, old(store.rows), group, stripe).Keys != {}
    ensures !any ==> !ok && store.rows == old(store.rows) && disk.files == old(disk.files)
    ensures any ==> Builds(env, World(old(store.rows), old(disk.files)), group, stripe,
                           Outcome(World(store.rows, disk.files), ok))
  {
    ghost var plans := SelectedPlans(env.cfg, store.rows, group, stripe);
    SelectedReady(env, World(store.rows, disk.files), group, stripe);
    hide PlansReady, RowsPlaced, SelectedPlans, Grouped;
    var todo := SelectStripes(env, stripes, store.rows, group, stripe);
    NothingSelected(todo, plans);
    if todo == [] { return false, false; }
    any := true;
    ok := BuildInOrder(env, disk, store, plans, todo, chunk);
  }

  // ---- arcsets without parity ----------------------------------------------------------------

  /** The DATA file of a row is there with the recorded checksum. */
  predicate RowMatches(hash: Bytes -> string, fs: Files, row: Row) {
    row.kind.DATA? ==> row.path in fs && row.sum == Some(hash(fs[row.path]))
  }

  method CheckData(hash: Bytes -> string, disk: Disk, store: Store) returns (ok: bool)
    ensures ok <==> forall k | k in store.rows :: RowMatches(hash, disk.files, store.rows[k])
  {
    var list := ListShards(store);
    hide Lists, RowMatches;
    ok := CheckList(hash, disk, list, store.rows);
  }

  method CheckList(hash: Bytes -> string, disk: Disk, list: seq<ShardRow>, ghost t: Table) returns (ok: bool)
    requires Lists(list, t)
    ensures ok <==> forall k | k in t :: RowMatches(hash, disk.files, t[k])
  {
    for i := 0 to |list|
      invariant forall j | 0 <= j < i :: RowMatches(hash, disk.files, list[j].row)
    {
      var row := list[i].row;
      assert t[list[i].key] == row;
      if row.kind.DATA? {
        if row.path !in disk.files { return false; }
        if row.sum.None? || hash(disk.files[row.path]) != row.sum.value { return false; }
      }
    }
    hide RowMatches;
    forall k | k in t ensures RowMatches(hash, disk.files, t[k]) {
      var i :| 0 <= i < |list| && list[i].key == k;
    }
    return true;
  }

  /** What the command does to an arcset without parity, whatever stripes are asked for: it completes exactly
      when it may start and every DATA file has its checksum. */
  ghost predicate CompletesWithoutParity(hash: Bytes -> string, a: Arcset, w: World, a': Arcset, out: Outcome) {
    && out.w == w
    && (out.ok <==> Startable(a) && forall k | k in w.t :: RowMatches(hash, w.fs, w.t[k]))
    && a' == if out.ok then Completion(a) else a
  }

  /** The same in terms of files and rows. */
  lemma CompletesExactly(hash: Bytes -> string, a: Arcset, w: World, a': Arcset, out: Outcome)
    requires CompletesWithoutParity(hash, a, w, a', out)
    ensures out.w == w
    ensures out.ok <==>
              && a.status.Building? && (a.phase.DataPhase? || a.phase.ECPhase?) && a.health.Healthy?
              && forall k | k in w.t && w.t[k].kind.DATA? ::
                   w.t[k].path in w.fs && w.t[k].sum.Some? && w.t[k].sum.value == hash(w.fs[w.t[k].path])
    ensures a' == if !out.ok then a
                  else a.(status := Completed, phase := NoPhase, health := Healthy, parityDegraded := false)
  {
    assert forall k | k in w.t :: RowMatches(hash, w.fs, w.t[k]) <==>
      (w.t[k].kind.DATA? ==>
        w.t[k].path in w.fs && w.t[k].sum.Some? && w.t[k].sum.value == hash(w.fs[w.t[k].path]));
  }

  method RunWithoutParity(hash: Bytes -> string, registry: Registry, arcset: nat, disk: Disk, store: Store)
    returns (ok: bool)
    requires arcset in registry.arcsets
    modifies registry`arcsets
    ensures arcset in registry.arcsets
    ensures registry.arcsets == old(registry.arcsets)[arcset := registry.arcsets[arcset]]
    ensures CompletesWithoutParity(hash, old(registry.arcsets)[arcset], World(store.rows, disk.files),
                                   registry.arcsets[arcset], Outcome(World(store.rows, disk.files), ok))
  {
    if !Startable(registry.arcsets[arcset]) { return false; }
    ok := CheckData(hash, disk, store);
    if ok { registry.CompleteBuild(arcset); }
  }

  // ---- the command --------------------------------------------------------------------------

  /** What the command does, with parity or without. */
  ghost predicate Makes(env: Env, a: Arcset, w: World, group: Option<nat>, stripe: Option<nat>, a': Arcset,
                        out: Outcome)
    requires a.cfg == env.cfg && (env.cfg.m > 0 ==> env.Ok() && RowsPlaced(env.cfg, w.t))
  {
    if env.cfg.m == 0 then CompletesWithoutParity(env.hash, a, w, a', out)
    else MakesEc(env, a, w, group, stripe, a', out)
  }

  method RunWithParity(env: Env, registry: Registry, arcset: nat, disk: Disk, store: Store, group: Option<nat>,
                       stripe: Option<nat>, chunk: int) returns (ok: bool)
    requires env.Ok() && RowsPlaced(env.cfg, store.rows) && ValidChunk(chunk)
    requires arcset in registry.arcsets && registry.arcsets[arcset].cfg == env.cfg
    modifies registry`arcsets, disk, store
    ensures arcset in registry.arcsets
    ensures registry.arcsets == old(registry.arcsets)[arcset := registry.arcsets[arcset]]
    ensures MakesEc(env, old(registry.arcsets)[arcset], World(old(store.rows), old(disk.files)), group, stripe,
                    registry.arcsets[arcset], Outcome(World(store.rows, disk.files), ok))
  {
    hide Grouped, DataStripes, RowsPlaced;
    if !Startable(registry.arcsets[arcset]) { return false; }
    var stripes := ReadStripes(env, store);
    if stripes.Keys == {} { return false; }
    ok := RunStripes(env, registry, arcset, disk, store, stripes, group, stripe, chunk);
  }

  /** make-ec with one worker. */
  method Run(env: Env, registry: Registry, arcset: nat, disk: Disk, store: Store, group: Option<nat>,
             stripe: Option<nat>, size: int) returns (ok: bool)
    requires arcset in registry.arcsets ==>
               && registry.arcsets[arcset].cfg == env.cfg
               && (env.cfg.m > 0 ==> env.Ok() && RowsPlaced(env.cfg, store.rows))
    modifies registry`arcsets, disk, store
    ensures !(arcset in old(registry.arcsets) && (size == 0 || ValidChunk(size))) ==>
              !ok && store.rows == old(store.rows) && disk.files == old(disk.files)
              && registry.arcsets == old(registry.arcsets)
    ensures arcset in old(registry.arcsets) && (size == 0 || ValidChunk(size)) ==>
              && arcset in registry.arcsets
              && registry.arcsets == old(registry.arcsets)[arcset := registry.arcsets[arcset]]
              && Makes(env, old(registry.arcsets)[arcset], World(old(store.rows), old(disk.files)), group, stripe,
                       registry.arcsets[arcset], Outcome(World(store.rows, disk.files), ok))
  {
    var chunk := if size == 0 then DEFAULT_CHUNK else size;
    if !ValidChunk(chunk) || arcset !in registry.arcsets { return false; }
    hide MakesEc, CompletesWithoutParity, RowsPlaced;
    if registry.arcsets[arcset].cfg.m == 0 {
      ok := RunWithoutParity(env.hash, registry, arcset, disk, store);
    } else {
      ok := RunWithParity(env, registry, arcset, disk, store, group, stripe, chunk);
    }
  }
}
