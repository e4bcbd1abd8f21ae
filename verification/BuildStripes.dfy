/** All stripes one after another, and why the number of workers does not matter. */
module BuildStripes {
  import opened Disk
  import opened Layout
  import opened ShardTable
  import opened Stream
  import opened BuildSpec
  import opened StripeTask
  import opened StripeRun
  import opened Locality
  import opened Schedule
  import MakeEc

  /** One stripe from its first step to its last. */
  ghost function BuildOne(env: Env, plan: Plan, w: World): Outcome
    requires Ready(env, plan, w)
  {
    Run(env, plan, Program(env.cfg, plan), w)
  }

  lemma {:induction false} RunsKeepReady(env: Env, plan: Plan, n: nat, w: World, other: Plan)
    requires Ready(env, plan, w) && Ready(env, other, w) && n <= |Program(env.cfg, plan)|
    ensures Ready(env, plan, RunTo(env, plan, w, n).w)
    ensures Ready(env, other, RunTo(env, plan, w, n).w)
  {
    if n > 0 {
      RunsKeepReady(env, plan, n - 1, w, other);
      RunOneMore(env, plan, w, n - 1);
      var op := Program(env.cfg, plan)[n - 1];
      ProgramMembers(env.cfg, plan, op);
      var before := RunTo(env, plan, w, n - 1).w;
      StepKeepsReady(env, plan, op, before, other);
      StepKeepsReady(env, plan, op, before, plan);
      hide Ready, Program, RunTo, Exec;
    }
  }

  lemma LocalMore(cfg: Config, id: StripeKey, w: World, before: Outcome, before': Outcome, out: Outcome, out': Outcome)
    requires cfg.Ok() && Local(cfg, id, w, before, before') && Local(cfg, id, before.w, out, out')
    ensures Local(cfg, id, w, out, out')
  {
    hide Part;
  }

  /** Steps of one stripe, taken in a row, change that stripe as they would alone and nothing else. */
  lemma {:induction false} RunsLocal(env: Env, plan: Plan, n: nat, w: World)
    requires Ready(env, plan, w) && n <= |Program(env.cfg, plan)|
    ensures Ready(env, plan, Part(env.cfg, plan.Id(), w))
    ensures Local(env.cfg, plan.Id(), w, RunTo(env, plan, w, n), RunTo(env, plan, Part(env.cfg, plan.Id(), w), n))
  {
    PartReady(env, plan, w);
    if n > 0 {
      RunsLocal(env, plan, n - 1, w);
      OneMoreLocal(env, plan, n - 1, w, Part(env.cfg, plan.Id(), w));
      hide Ready, Program, RunTo, Exec, Part, Local;
    }
  }

  lemma OneMoreLocal(env: Env, plan: Plan, n: nat, w: World, l: World)
    requires Ready(env, plan, w) && Ready(env, plan, l) && n < |Program(env.cfg, plan)|
    requires Local(env.cfg, plan.Id(), w, RunTo(env, plan, w, n), RunTo(env, plan, l, n))
    ensures Local(env.cfg, plan.Id(), w, RunTo(env, plan, w, n + 1), RunTo(env, plan, l, n + 1))
  {
    var before, before' := RunTo(env, plan, w, n), RunTo(env, plan, l, n);
    RunsKeepReady(env, plan, n, w, plan);
    RunOneMore(env, plan, w, n);
    RunOneMore(env, plan, l, n);
    var op := Program(env.cfg, plan)[n];
    ProgramMembers(env.cfg, plan, op);
    hide Program, RunTo, Exec;
    StepLocal(env, plan, op, before.w);
    if before.ok {
      LocalMore(env.cfg, plan.Id(), w, before, before', Exec(env, plan, op, before.w), Exec(env, plan, op, before'.w));
    }
    hide Ready, Part;
  }

  /** Building a stripe: what it does to itself it would do alone, and it leaves the rest alone. */
  lemma BuildOneLocal(env: Env, plan: Plan, w: World)
    requires Ready(env, plan, w)
    ensures Ready(env, plan, Part(env.cfg, plan.Id(), w))
    ensures Local(env.cfg, plan.Id(), w, BuildOne(env, plan, w), BuildOne(env, plan, Part(env.cfg, plan.Id(), w)))
  {
    var prog := Program(env.cfg, plan);
    assert prog[..|prog|] == prog;
    RunsLocal(env, plan, |prog|, w);
    hide Local, Program, Run;
  }

  lemma BuildOneKeepsReady(env: Env, plans: Plans, id: StripeKey, w: World)
    requires PlansReady(env, plans, w) && id in plans
    ensures PlansReady(env, plans, BuildOne(env, plans[id], w).w)
  {
    var prog := Program(env.cfg, plans[id]);
    assert prog[..|prog|] == prog;
    forall other | other in plans ensures Ready(env, plans[other], BuildOne(env, plans[id], w).w) {
      RunsKeepReady(env, plans[id], |prog|, w, plans[other]);
    }
  }

  /** The stripes in order, stopping at the first that fails. */
  ghost function InOrder(env: Env, plans: Plans, keys: seq<StripeKey>, w: World): (out: Outcome)
    requires PlansReady(env, plans, w) && forall id | id in keys :: id in plans
    ensures PlansReady(env, plans, out.w)
  {
    if keys == [] then Outcome(w, true)
    else
      var n := |keys| - 1;
      var before := InOrder(env, plans, keys[..n], w);
      if !before.ok then before
      else
        BuildOneKeepsReady(env, plans, keys[n], before.w);
        BuildOne(env, plans[keys[n]], before.w)
  }

  ghost predicate Apart(keys: seq<StripeKey>) {
    forall i, j | 0 <= i < j < |keys| :: keys[i] != keys[j]
  }

  /** How a stripe builds on its own. */
  ghost function OnItsOwn(env: Env, plans: Plans, id: StripeKey, w0: World): Outcome
    requires PlansReady(env, plans, w0) && id in plans
  {
    PartReady(env, plans[id], w0);
    BuildOne(env, plans[id], Part(env.cfg, id, w0))
  }

  /** Where a stripe stands after some stripes were built in order. */
  ghost predicate StandsAt(env: Env, plans: Plans, keys: seq<StripeKey>, w0: World, w: World, id: StripeKey)
    requires env.cfg.Ok() && PlansReady(env, plans, w0) && forall id | id in keys :: id in plans
  {
    if id in keys then OnItsOwn(env, plans, id, w0) == Outcome(Part(env.cfg, id, w), true)
    else Part(env.cfg, id, w) == Part(env.cfg, id, w0)
  }

  lemma {:induction false} InOrderLocal(env: Env, plans: Plans, keys: seq<StripeKey>, w0: World)
    requires env.cfg.Ok() && PlansReady(env, plans, w0) && Apart(keys) && forall id | id in keys :: id in plans
    ensures InOrder(env, plans, keys, w0).ok <==> forall id | id in keys :: OnItsOwn(env, plans, id, w0).ok
    ensures InOrder(env, plans, keys, w0).ok ==>
              forall id :: StandsAt(env, plans, keys, w0, InOrder(env, plans, keys, w0).w, id)
    ensures OutsideKept(w0, InOrder(env, plans, keys, w0).w)
  {
    if keys != [] {
      var n := |keys| - 1;
      var last := keys[n];
      InOrderLocal(env, plans, keys[..n], w0);
      assert keys == keys[..n] + [last];
      var before := InOrder(env, plans, keys[..n], w0);
      if before.ok {
        OneMoreStripe(env, plans, keys[..n], last, w0, before.w);
      }
      hide StandsAt, OnItsOwn, BuildOne, OutsideKept, PlansReady;
    }
  }

  lemma OneMoreStripe(env: Env, plans: Plans, keys: seq<StripeKey>, last: StripeKey, w0: World, w: World)
    requires env.cfg.Ok() && PlansReady(env, plans, w0) && PlansReady(env, plans, w)
    requires (forall id | id in keys :: id in plans) && last in plans && last !in keys
    requires forall id :: StandsAt(env, plans, keys, w0, w, id)
    requires OutsideKept(w0, w)
    ensures var out := BuildOne(env, plans[last], w);
            && out.ok == OnItsOwn(env, plans, last, w0).ok
            && (out.ok ==> forall id :: StandsAt(env, plans, keys + [last], w0, out.w, id))
            && OutsideKept(w0, out.w)
  {
    var out := BuildOne(env, plans[last], w);
    BuildOneLocal(env, plans[last], w);
    assert StandsAt(env, plans, keys, w0, w, last);
    assert Part(env.cfg, last, w) == Part(env.cfg, last, w0);
    hide BuildOne, Part;
    if out.ok {
      forall id ensures StandsAt(env, plans, keys + [last], w0, out.w, id) {
        assert StandsAt(env, plans, keys, w0, w, id);
      }
    }
  }

  /** Any number of workers, any interleaving: the run fails when the sequential one does, and when it does
      not, the files and rows are those of the sequential run. */
  lemma ParallelIsSequential(env: Env, plans: Plans, keys: seq<StripeKey>, w0: World, schedule: seq<StripeKey>)
    requires env.Ok() && PlansReady(env, plans, w0) && Complete(env.cfg, plans, schedule)
    requires Apart(keys) && forall id :: id in keys <==> id in plans
    ensures var m := Runs(env, plans, Machine(w0, Start(plans)), schedule);
            var out := InOrder(env, plans, keys, w0);
            && (out.ok <==> forall id | id in plans :: !m.tasks[id].failed)
            && (out.ok ==> m.w == out.w)
  {
    var m := Runs(env, plans, Machine(w0, Start(plans)), schedule);
    var out := InOrder(env, plans, keys, w0);
    InOrderLocal(env, plans, keys, w0);
    CompleteEndsAlone(env, plans, w0, schedule, StripeKey(0, 0));
    forall id
      ensures id in plans ==> OnItsOwn(env, plans, id, w0) == Outcome(Part(env.cfg, id, m.w), !m.tasks[id].failed)
              ensures id !in plans ==> Part(env.cfg, id, m.w) == Part(env.cfg, id, w0)
    {
      EndsOnItsOwn(env, plans, w0, schedule, id);
    }
    hide OnItsOwn, Part, Runs, InOrder, PlansReady, Complete;
    if out.ok {
      forall id ensures Part(env.cfg, id, m.w) == Part(env.cfg, id, out.w) {
        assert StandsAt(env, plans, keys, w0, out.w, id);
      }
      WorldIsItsParts(env.cfg, m.w, out.w);
    }
  }

  lemma EndsOnItsOwn(env: Env, plans: Plans, w0: World, schedule: seq<StripeKey>, id: StripeKey)
    requires env.Ok() && PlansReady(env, plans, w0) && Complete(env.cfg, plans, schedule)
    ensures var m := Runs(env, plans, Machine(w0, Start(plans)), schedule);
            if id in plans then
              OnItsOwn(env, plans, id, w0) == Outcome(Part(env.cfg, id, m.w), !m.tasks[id].failed)
            else Part(env.cfg, id, m.w) == Part(env.cfg, id, w0)
  {
    CompleteEndsAlone(env, plans, w0, schedule, id);
    if id in plans {
      var prog := Program(env.cfg, plans[id]);
      assert prog[..|prog|] == prog;
      PartReady(env, plans[id], w0);
      AloneIsRun(env, plans[id], Part(env.cfg, id, w0), |prog|);
    }
    hide Part, Run, Program, Alone, Ready;
  }

  /** The stripes one at a time, as one worker takes them. */
  method BuildInOrder(env: Env, disk: Disk, store: Store, ghost plans: Plans, todo: seq<Plan>, chunk: int)
    returns (ok: bool)
    requires ValidChunk(chunk) && PlansReady(env, plans, World(store.rows, disk.files))
    requires forall plan | plan in todo :: plan.Id() in plans && plans[plan.Id()] == plan
    modifies disk, store
    ensures Outcome(World(store.rows, disk.files), ok)
         == InOrder(env, plans, Ids(todo), World(old(store.rows), old(disk.files)))
  {
    ghost var w0 := World(store.rows, disk.files);
    ghost var keys := Ids(todo);
    hide PlansReady, Ready, Program, Run, BuildOne;
    for i := 0 to |todo|
      invariant PlansReady(env, plans, World(store.rows, disk.files))
      invariant Outcome(World(store.rows, disk.files), true) == InOrder(env, plans, keys[..i], w0)
    {
      NextInOrder(env, plans, keys, i, w0, World(store.rows, disk.files));
      assert plans[keys[i]] == todo[i];
      hide InOrder, Ids;
      ok := MakeEc.BuildStripe(env, disk, store, todo[i], chunk);
      if !ok {
        StopsInOrder(env, plans, keys, i + 1, w0);
        return;
      }
    }
    assert keys[..|todo|] == keys;
    ok := true;
  }

  lemma NextInOrder(env: Env, plans: Plans, keys: seq<StripeKey>, i: nat, w0: World, w: World)
    requires PlansReady(env, plans, w0) && (forall id | id in keys :: id in plans) && i < |keys|
    requires InOrder(env, plans, keys[..i], w0) == Outcome(w, true)
    ensures Ready(env, plans[keys[i]], w) && PlansReady(env, plans, w)
    ensures InOrder(env, plans, keys[..i + 1], w0) == Run(env, plans[keys[i]], Program(env.cfg, plans[keys[i]]), w)
    ensures PlansReady(env, plans, InOrder(env, plans, keys[..i + 1], w0).w)
  {
    assert keys[..i + 1][..i] == keys[..i];
    hide Ready, Program, Run;
  }

  function Ids(plans: seq<Plan>): (ids: seq<StripeKey>)
    ensures |ids| == |plans|
  {
    seq(|plans|, i requires 0 <= i < |plans| => plans[i].Id())
  }

  lemma {:induction false} StopsInOrder(env: Env, plans: Plans, keys: seq<StripeKey>, n: nat, w: World)
    requires PlansReady(env, plans, w) && (forall id | id in keys :: id in plans) && n <= |keys|
    requires !InOrder(env, plans, keys[..n], w).ok
    ensures InOrder(env, plans, keys, w) == InOrder(env, plans, keys[..n], w)
    decreases |keys|
  {
    if n < |keys| {
      var init := keys[..|keys| - 1];
      assert init[..n] == keys[..n];
      StopsInOrder(env, plans, init, n, w);
    } else {
      assert keys[..n] == keys;
    }
  }

  // ---- one worker is one schedule -----------------------------------------------------------

  lemma {:induction false} RunsAppend(env: Env, plans: Plans, m: Machine, a: seq<StripeKey>, b: seq<StripeKey>)
    requires Sane(env, plans, m)
    ensures Runs(env, plans, m, a + b) == Runs(env, plans, Runs(env, plans, m, a), b)
    decreases |b|
  {
    hide TakeTurn, Sane;
    if b == [] {
      assert a + b == a;
    } else {
      var n := |b| - 1;
      RunsAppend(env, plans, m, a, b[..n]);
      assert (a + b)[..|a + b| - 1] == a + b[..n];
    }
  }

  function Times(id: StripeKey, n: nat): seq<StripeKey> { seq(n, _ => id) }

  /** One stripe has taken its first n steps, the other stripes none. */
  ghost predicate TookSteps(env: Env, plans: Plans, m: Machine, id: StripeKey, n: nat, m': Machine)
    requires Sane(env, plans, m) && id in plans && n <= |Program(env.cfg, plans[id])|
  {
    var out := RunTo(env, plans[id], m.w, n);
    && m'.tasks.Keys == plans.Keys
    && m'.w == out.w && m'.tasks[id].failed == !out.ok && (out.ok ==> m'.tasks[id].pc == n)
    && forall other | other in plans && other != id :: m'.tasks[other] == m.tasks[other]
  }

  /** Turns of one stripe in a row, from its first step on, run its steps. */
  lemma {:induction false} TurnsInARow(env: Env, plans: Plans, m: Machine, id: StripeKey, n: nat)
    requires Sane(env, plans, m) && id in plans && m.tasks[id] == Task(0, false)
    requires n <= |Program(env.cfg, plans[id])|
    ensures TookSteps(env, plans, m, id, n, Runs(env, plans, m, Times(id, n)))
  {
    if n > 0 {
      OneMoreTurn(env, plans, m, Times(id, n - 1), id);
      assert Times(id, n) == Times(id, n - 1) + [id];
      hide TakeTurn, TookSteps, Program, Sane, Runs;
      TurnsInARow(env, plans, m, id, n - 1);
      TurnTakesStep(env, plans, m, id, n - 1, Runs(env, plans, m, Times(id, n - 1)));
    } else {
      NoTurns(env, plans, m, id);
    }
  }

  lemma NoTurns(env: Env, plans: Plans, m: Machine, id: StripeKey)
    requires Sane(env, plans, m) && id in plans && m.tasks[id] == Task(0, false)
    ensures TookSteps(env, plans, m, id, 0, Runs(env, plans, m, Times(id, 0)))
  {
  }

  lemma OneMoreTurn(env: Env, plans: Plans, m: Machine, schedule: seq<StripeKey>, id: StripeKey)
    requires Sane(env, plans, m)
    ensures Runs(env, plans, m, schedule + [id]) == TakeTurn(env, plans, Runs(env, plans, m, schedule), id)
  {
    assert (schedule + [id])[..|schedule|] == schedule;
    hide TakeTurn, Sane;
  }

  lemma TurnTakesStep(env: Env, plans: Plans, m: Machine, id: StripeKey, n: nat, before: Machine)
    requires Sane(env, plans, m) && Sane(env, plans, before) && id in plans && n < |Program(env.cfg, plans[id])|
    requires TookSteps(env, plans, m, id, n, before)
    ensures TookSteps(env, plans, m, id, n + 1, TakeTurn(env, plans, before, id))
  {
    RunOneMore(env, plans[id], m.w, n);
    assert env.Ok();
    hide Exec, Program, Ready, RunTo;
  }

  /** The schedule ends in the world that building the stripes in order ends in, and has not touched any other. */
  ghost predicate BuildsLike(env: Env, plans: Plans, keys: seq<StripeKey>, w: World, schedule: seq<StripeKey>)
    requires PlansReady(env, plans, w) && forall id | id in keys :: id in plans
  {
    var m := Runs(env, plans, Machine(w, Start(plans)), schedule);
    && m.w == InOrder(env, plans, keys, w).w
    && forall id | id in plans && id !in keys :: m.tasks[id] == Task(0, false)
  }

  /** Building the stripes in order is one of the schedules. */
  lemma {:induction false} InOrderIsASchedule(env: Env, plans: Plans, keys: seq<StripeKey>, w: World)
    returns (schedule: seq<StripeKey>)
    requires PlansReady(env, plans, w) && Apart(keys) && forall id | id in keys :: id in plans
    ensures BuildsLike(env, plans, keys, w, schedule)
  {
    schedule := [];
    if keys != [] {
      var n := |keys| - 1;
      var last := keys[n];
      assert keys == keys[..n] + [last];
      schedule := InOrderIsASchedule(env, plans, keys[..n], w);
      if InOrder(env, plans, keys[..n], w).ok {
        schedule := OneMoreInOrder(env, plans, keys, w, schedule);
      }
    }
  }

  /** Turns of the last stripe after a schedule that builds the ones before it. */
  lemma LastTurns(env: Env, plans: Plans, keys: seq<StripeKey>, w: World, m: Machine, m': Machine)
    requires PlansReady(env, plans, w) && Apart(keys) && keys != [] && forall id | id in keys :: id in plans
    requires Sane(env, plans, m) && InOrder(env, plans, keys[..|keys| - 1], w) == Outcome(m.w, true)
    requires forall id | id in plans && id !in keys[..|keys| - 1] :: m.tasks[id] == Task(0, false)
    requires var last := keys[|keys| - 1];
             m' == Runs(env, plans, m, Times(last, |Program(env.cfg, plans[last])|))
    ensures m'.w == InOrder(env, plans, keys, w).w && m'.tasks.Keys == plans.Keys
    ensures forall id | id in plans && id !in keys :: m'.tasks[id] == Task(0, false)
  {
    var last := keys[|keys| - 1];
    var n := |Program(env.cfg, plans[last])|;
    assert last !in keys[..|keys| - 1];
    hide Program, Runs, Ready, RunTo, InOrder, Times, TookSteps;
    LastInOrder(env, plans, keys, w, m.w);
    TurnsInARow(env, plans, m, last, n);
    OthersUntouched(env, plans, keys, m, n, m');
    hide PlansReady;
  }

  lemma OneMoreInOrder(env: Env, plans: Plans, keys: seq<StripeKey>, w: World, before: seq<StripeKey>)
    returns (schedule: seq<StripeKey>)
    requires PlansReady(env, plans, w) && Apart(keys) && keys != [] && forall id | id in keys :: id in plans
    requires InOrder(env, plans, keys[..|keys| - 1], w).ok
    requires BuildsLike(env, plans, keys[..|keys| - 1], w, before)
    ensures BuildsLike(env, plans, keys, w, schedule)
  {
    var last := keys[|keys| - 1];
    var turns := Times(last, |Program(env.cfg, plans[last])|);
    var start := Machine(w, Start(plans));
    hide Program, Runs, Ready, RunTo, InOrder, Times, PlansReady;
    var m := Runs(env, plans, start, before);
    RunsAppend(env, plans, start, before, turns);
    schedule := before + turns;
    LastTurns(env, plans, keys, w, m, Runs(env, plans, m, turns));
  }

  lemma OthersUntouched(env: Env, plans: Plans, keys: seq<StripeKey>, m: Machine, n: nat, m': Machine)
    requires Sane(env, plans, m) && keys != [] && keys[|keys| - 1] in plans
    requires n <= |Program(env.cfg, plans[keys[|keys| - 1]])|
    requires TookSteps(env, plans, m, keys[|keys| - 1], n, m')
    requires forall id | id in plans && id !in keys[..|keys| - 1] :: m.tasks[id] == Task(0, false)
    ensures m'.w == RunTo(env, plans[keys[|keys| - 1]], m.w, n).w
    ensures m'.tasks.Keys == plans.Keys
    ensures forall id | id in plans && id !in keys :: m'.tasks[id] == Task(0, false)
  {
    hide Program, RunTo;
    assert keys == keys[..|keys| - 1] + [keys[|keys| - 1]];
  }

  lemma LastInOrder(env: Env, plans: Plans, keys: seq<StripeKey>, w: World, before: World)
    requires PlansReady(env, plans, w) && keys != [] && forall id | id in keys :: id in plans
    requires InOrder(env, plans, keys[..|keys| - 1], w) == Outcome(before, true)
    ensures var last := keys[|keys| - 1];
            && PlansReady(env, plans, before)
            && InOrder(env, plans, keys, w) == RunTo(env, plans[last], before, |Program(env.cfg, plans[last])|)
  {
    var prog := Program(env.cfg, plans[keys[|keys| - 1]]);
    assert prog[..|prog|] == prog;
    hide Program, Ready, Run;
  }
}
