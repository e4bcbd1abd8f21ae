/** Stripes built in parallel: every interleaving of their steps ends like building them in order. */
module Schedule {
  import opened Bytes
  import opened Paths
  import opened Layout
  import opened BuildSpec
  import opened StripeTask
  import opened StripeRun
  import opened Locality

  /** How far the build of a stripe has come. */
  datatype Task = Task(pc: nat, failed: bool)

  datatype Machine = Machine(w: World, tasks: map<StripeKey, Task>)

  type Plans = map<StripeKey, Plan>

  /** Every stripe is built from the rows of the table the command read. */
  ghost predicate PlansReady(env: Env, plans: Plans, w: World) {
    forall id | id in plans :: Ready(env, plans[id], w) && plans[id].Id() == id
  }

  /** One turn of one stripe: its next step, if it has one. */
  ghost function Turn(env: Env, plan: Plan, w: World, task: Task): (World, Task)
    requires env.Ok() && |plan.paths| == |plan.sizes| == env.cfg.k
  {
    var prog := Program(env.cfg, plan);
    if task.failed || task.pc >= |prog| then (w, task)
    else
      var out := Exec(env, plan, prog[task.pc], w);
      (out.w, if out.ok then Task(task.pc + 1, false) else Task(task.pc, true))
  }

  ghost predicate Sane(env: Env, plans: Plans, m: Machine) {
    PlansReady(env, plans, m.w) && m.tasks.Keys == plans.Keys
  }

  ghost function TakeTurn(env: Env, plans: Plans, m: Machine, id: StripeKey): Machine
    requires Sane(env, plans, m)
  {
    if id in plans then
      var (w, task) := Turn(env, plans[id], m.w, m.tasks[id]);
      Machine(w, m.tasks[id := task])
    else m
  }

  lemma TurnKeepsSane(env: Env, plans: Plans, m: Machine, id: StripeKey)
    requires Sane(env, plans, m)
    ensures Sane(env, plans, TakeTurn(env, plans, m, id))
  {
    if id in plans {
      var plan, task := plans[id], m.tasks[id];
      var prog := Program(env.cfg, plan);
      if !task.failed && task.pc < |prog| {
        ProgramMembers(env.cfg, plan, prog[task.pc]);
        forall other | other in plans ensures Ready(env, plans[other], TakeTurn(env, plans, m, id).w) {
          StepKeepsReady(env, plan, prog[task.pc], m.w, plans[other]);
        }
      }
    }
  }

  /** The machine after a schedule, given as the order in which the stripes take turns. */
  ghost function Runs(env: Env, plans: Plans, m: Machine, schedule: seq<StripeKey>): (m': Machine)
    requires Sane(env, plans, m)
    ensures Sane(env, plans, m')
  {
    if schedule == [] then m
    else
      var before := Runs(env, plans, m, schedule[..|schedule| - 1]);
      TurnKeepsSane(env, plans, before, schedule[|schedule| - 1]);
      TakeTurn(env, plans, before, schedule[|schedule| - 1])
  }

  function Start(plans: Plans): map<StripeKey, Task> {
    map id | id in plans :: Task(0, false)
  }

  function Turns(schedule: seq<StripeKey>, id: StripeKey): nat {
    Count(seq(|schedule|, i requires 0 <= i < |schedule| => schedule[i] == id))
  }

  /** A stripe taking n turns on its own. */
  ghost function Alone(env: Env, plan: Plan, w: World, n: nat): (World, Task)
    requires Ready(env, plan, w)
    ensures Ready(env, plan, Alone(env, plan, w, n).0)
  {
    if n == 0 then (w, Task(0, false))
    else
      var (w', task) := Alone(env, plan, w, n - 1);
      AloneReady(env, plan, w', task);
      Turn(env, plan, w', task)
  }

  lemma AloneReady(env: Env, plan: Plan, w: World, task: Task)
    requires Ready(env, plan, w)
    ensures Ready(env, plan, Turn(env, plan, w, task).0)
  {
    var prog := Program(env.cfg, plan);
    if !task.failed && task.pc < |prog| {
      ProgramMembers(env.cfg, plan, prog[task.pc]);
      StepKeepsReady(env, plan, prog[task.pc], w, plan);
    }
  }

  /** A turn in company is a turn alone on the stripe's own rows and files. */
  lemma TurnLocal(env: Env, plan: Plan, w: World, task: Task)
    requires Ready(env, plan, w)
    ensures var id := plan.Id();
            var (w', task') := Turn(env, plan, w, task);
            && Turn(env, plan, Part(env.cfg, id, w), task) == (Part(env.cfg, id, w'), task')
            && (forall other | other != id :: Part(env.cfg, other, w') == Part(env.cfg, other, w))
            && (forall p: Path | p.Outside? :: (p in w'.fs <==> p in w.fs) && (p in w.fs ==> w'.fs[p] == w.fs[p]))
  {
    var prog := Program(env.cfg, plan);
    if !task.failed && task.pc < |prog| {
      ProgramMembers(env.cfg, plan, prog[task.pc]);
      StepLocal(env, plan, prog[task.pc], w);
    }
  }

  lemma TurnsMore(schedule: seq<StripeKey>, last: StripeKey, id: StripeKey)
    ensures Turns(schedule + [last], id) == Turns(schedule, id) + if last == id then 1 else 0
  {
    var all := schedule + [last];
    var flags := seq(|all|, i requires 0 <= i < |all| => all[i] == id);
    assert flags[..|flags| - 1] == seq(|schedule|, i requires 0 <= i < |schedule| => schedule[i] == id);
  }

  /** What has become of one stripe after some turns of its own; a stripe without a plan is untouched. */
  ghost predicate Locally(env: Env, plans: Plans, w0: World, m: Machine, id: StripeKey, turns: nat)
    requires env.cfg.Ok()
  {
    if id in plans then
      && Ready(env, plans[id], Part(env.cfg, id, w0))
      && id in m.tasks
      && (Part(env.cfg, id, m.w), m.tasks[id]) == Alone(env, plans[id], Part(env.cfg, id, w0), turns)
    else Part(env.cfg, id, m.w) == Part(env.cfg, id, w0)
  }

  ghost predicate OutsideKept(w0: World, w: World) {
    forall p: Path | p.Outside? :: (p in w.fs <==> p in w0.fs) && (p in w0.fs ==> w.fs[p] == w0.fs[p])
  }

  lemma TurnStaysLocal(env: Env, plans: Plans, w0: World, m: Machine, last: StripeKey, id: StripeKey, turns: nat)
    requires Sane(env, plans, m) && env.cfg.Ok()
    requires Locally(env, plans, w0, m, id, turns) && OutsideKept(w0, m.w)
    ensures var m' := TakeTurn(env, plans, m, last);
            Locally(env, plans, w0, m', id, if last == id then turns + 1 else turns) && OutsideKept(w0, m'.w)
  {
    if last in plans {
      TurnLocal(env, plans[last], m.w, m.tasks[last]);
    }
    hide Part, Turn, Ready;
  }

  /** What has become of every stripe depends only on how many turns it has had. */
  lemma {:induction false} RunsLocally(env: Env, plans: Plans, w0: World, schedule: seq<StripeKey>, id: StripeKey)
    requires PlansReady(env, plans, w0) && env.cfg.Ok()
    ensures var m := Runs(env, plans, Machine(w0, Start(plans)), schedule);
            Locally(env, plans, w0, m, id, Turns(schedule, id)) && OutsideKept(w0, m.w)
  {
    if schedule == [] {
      if id in plans {
        PartReady(env, plans[id], w0);
      }
    } else {
      var n := |schedule| - 1;
      var last := schedule[n];
      RunsLocally(env, plans, w0, schedule[..n], id);
      assert schedule == schedule[..n] + [last];
      TurnsMore(schedule[..n], last, id);
      var before := Runs(env, plans, Machine(w0, Start(plans)), schedule[..n]);
      TurnStaysLocal(env, plans, w0, before, last, id, Turns(schedule[..n], id));
      hide Locally, TakeTurn, Turns, OutsideKept, PlansReady;
    }
  }

  /** A stripe that has had a turn for each of its steps is finished: more turns change nothing. */
  lemma {:induction false} AloneFinishes(env: Env, plan: Plan, w: World, n: nat)
    requires Ready(env, plan, w)
    ensures var (w', task) := Alone(env, plan, w, n);
            && (!task.failed ==> task.pc == Min(n, |Program(env.cfg, plan)|))
            && task.pc <= |Program(env.cfg, plan)|
            && (n >= |Program(env.cfg, plan)| ==>
                  Alone(env, plan, w, n) == Alone(env, plan, w, |Program(env.cfg, plan)|))
  {
    hide Exec, Ready, Program;
    if n > 0 {
      AloneFinishes(env, plan, w, n - 1);
    }
  }

  function Ended(at: (World, Task)): Outcome { Outcome(at.0, !at.1.failed) }

  /** The first n steps of a stripe, run in order. */
  ghost function RunTo(env: Env, plan: Plan, w: World, n: nat): Outcome
    requires Ready(env, plan, w) && n <= |Program(env.cfg, plan)|
  {
    Run(env, plan, Program(env.cfg, plan)[..n], w)
  }

  ghost function OneMore(env: Env, plan: Plan, n: nat, before: Outcome): Outcome
    requires env.Ok() && |plan.paths| == |plan.sizes| == env.cfg.k && n < |Program(env.cfg, plan)|
  {
    if before.ok then Exec(env, plan, Program(env.cfg, plan)[n], before.w) else before
  }

  lemma RunOneMore(env: Env, plan: Plan, w: World, n: nat)
    requires Ready(env, plan, w) && n < |Program(env.cfg, plan)|
    ensures RunTo(env, plan, w, n + 1) == OneMore(env, plan, n, RunTo(env, plan, w, n))
  {
    RunNext(env, plan, Program(env.cfg, plan), n, w);
    hide Program, Exec, Ready;
  }

  lemma TurnOneMore(env: Env, plan: Plan, w: World, n: nat)
    requires Ready(env, plan, w) && n < |Program(env.cfg, plan)|
    ensures Ended(Alone(env, plan, w, n + 1)) == OneMore(env, plan, n, Ended(Alone(env, plan, w, n)))
  {
    AloneFinishes(env, plan, w, n);
    assert env.Ok() && |plan.paths| == |plan.sizes| == env.cfg.k;
    hide Program, Exec, Ready;
  }

  /** Taking turns alone is running the program. */
  lemma {:induction false} AloneIsRun(env: Env, plan: Plan, w: World, n: nat)
    requires Ready(env, plan, w) && n <= |Program(env.cfg, plan)|
    ensures Ended(Alone(env, plan, w, n)) == RunTo(env, plan, w, n)
  {
    hide Program, Ready, RunTo, Alone, OneMore, Ended;
    if n > 0 {
      AloneIsRun(env, plan, w, n - 1);
      RunOneMore(env, plan, w, n - 1);
      TurnOneMore(env, plan, w, n - 1);
    } else {
      NothingRun(env, plan, w);
    }
  }

  lemma NothingRun(env: Env, plan: Plan, w: World)
    requires Ready(env, plan, w)
    ensures Ended(Alone(env, plan, w, 0)) == RunTo(env, plan, w, 0)
  {
  }

  /** Every stripe gets as many turns as it has steps. */
  ghost predicate Complete(cfg: Config, plans: Plans, schedule: seq<StripeKey>)
    requires forall id | id in plans :: |plans[id].paths| == cfg.k
  {
    forall id | id in plans :: Turns(schedule, id) >= |Program(cfg, plans[id])|
  }

  /** A stripe has ended as it would be built alone; other stripes are as they were. */
  ghost predicate EndedAlone(env: Env, plans: Plans, w0: World, m: Machine, id: StripeKey)
    requires env.cfg.Ok() && forall id | id in plans :: |plans[id].paths| == env.cfg.k
  {
    Locally(env, plans, w0, m, id, if id in plans then |Program(env.cfg, plans[id])| else 0)
  }

  lemma CompleteEndsAlone(env: Env, plans: Plans, w0: World, schedule: seq<StripeKey>, id: StripeKey)
    requires env.Ok() && PlansReady(env, plans, w0) && Complete(env.cfg, plans, schedule)
    ensures EndedAlone(env, plans, w0, Runs(env, plans, Machine(w0, Start(plans)), schedule), id)
    ensures OutsideKept(w0, Runs(env, plans, Machine(w0, Start(plans)), schedule).w)
  {
    RunsLocally(env, plans, w0, schedule, id);
    if id in plans {
      AloneFinishes(env, plans[id], Part(env.cfg, id, w0), Turns(schedule, id));
    }
  }

  lemma EndIsUnique(env: Env, plans: Plans, w0: World, ma: Machine, mb: Machine)
    requires env.cfg.Ok() && ma.tasks.Keys == mb.tasks.Keys == plans.Keys
    requires forall id | id in plans :: |plans[id].paths| == env.cfg.k
    requires forall id :: EndedAlone(env, plans, w0, ma, id) && EndedAlone(env, plans, w0, mb, id)
    requires OutsideKept(w0, ma.w) && OutsideKept(w0, mb.w)
    ensures ma == mb
  {
    forall id ensures Part(env.cfg, id, ma.w) == Part(env.cfg, id, mb.w)
              ensures id in plans ==> ma.tasks[id] == mb.tasks[id]
    {
      assert EndedAlone(env, plans, w0, ma, id) && EndedAlone(env, plans, w0, mb, id);
    }
    hide EndedAlone, Locally, Part;
    WorldIsItsParts(env.cfg, ma.w, mb.w);
    assert ma.tasks == mb.tasks;
  }

  /** Whatever the interleaving, the files, the rows and the failures are the same. */
  lemma ScheduleIndependence(env: Env, plans: Plans, w0: World, a: seq<StripeKey>, b: seq<StripeKey>)
    requires env.Ok() && PlansReady(env, plans, w0)
    requires Complete(env.cfg, plans, a) && Complete(env.cfg, plans, b)
    ensures Runs(env, plans, Machine(w0, Start(plans)), a) == Runs(env, plans, Machine(w0, Start(plans)), b)
  {
    var ma := Runs(env, plans, Machine(w0, Start(plans)), a);
    var mb := Runs(env, plans, Machine(w0, Start(plans)), b);
    forall id ensures EndedAlone(env, plans, w0, ma, id) && EndedAlone(env, plans, w0, mb, id) {
      CompleteEndsAlone(env, plans, w0, a, id);
      CompleteEndsAlone(env, plans, w0, b, id);
    }
    CompleteEndsAlone(env, plans, w0, a, StripeKey(0, 0));
    CompleteEndsAlone(env, plans, w0, b, StripeKey(0, 0));
    hide EndedAlone, OutsideKept, Complete;
    EndIsUnique(env, plans, w0, ma, mb);
  }
}
