/** When a stripe can be built, and what an interrupted or repeated make-ec does. */
module Resume {
  import opened Bytes
  import opened Disk
  import opened Layout
  import opened ShardTable
  import opened StripeBytes
  import opened Stream
  import opened BuildSpec
  import opened StripeTask
  import opened StripeRun
  import opened Locality
  import opened Schedule
  import opened BuildStripes

  ghost predicate DataThere(plan: Plan, fs: Files) {
    forall p | p in plan.paths && p.Some? :: p.value in fs
  }

  /** The whole data files, not cut to their recorded sizes, as verification reads them. */
  function WholeData(plan: Plan, fs: Files): (data: seq<Bytes>)
    ensures |data| == |plan.paths|
  {
    seq(|plan.paths|, i requires 0 <= i < |plan.paths| =>
      if plan.paths[i].Some? && plan.paths[i].value in fs then fs[plan.paths[i].value] else [])
  }

  /** Bytes past the recorded sizes do not show in the parity. */
  ghost predicate ExtraBytesHidden(env: Env, plan: Plan, fs: Files)
    requires |plan.paths| == |plan.sizes|
  {
    forall x | 0 <= x < plan.Padded() ::
      env.code.enc(Column(WholeData(plan, fs), x)) == env.code.enc(Column(DataBytes(fs, plan.paths, plan.sizes), x))
  }

  /** Verification of freshly written files accepts exactly when bytes past the recorded sizes do not show. */
  lemma FreshVerifies(env: Env, plan: Plan, fs0: Files, fs: Files)
    requires env.Ok() && |plan.paths| == |plan.sizes| == env.cfg.k
    requires DataThere(plan, fs0) && FilesBuilt(env, plan, fs0, fs)
    requires forall p | p in plan.paths && p.Some? :: p.value.Data?
    ensures Verified(env, plan, fs) <==> ExtraBytesHidden(env, plan, fs0)
  {
    var paths := StripePaths(env.cfg, plan);
    var whole, data := WholeData(plan, fs0), DataBytes(fs0, plan.paths, plan.sizes);
    var parity := ParityFiles(env.code, data, plan.Padded());
    StripeFiles(env, plan, fs0, fs);
    forall x | 0 <= x < plan.Padded()
      ensures env.code.Codeword(Column(whole + parity, x))
         <==> env.code.enc(Column(whole, x)) == env.code.enc(Column(data, x))
    {
      ColumnSplits(env.code, whole, parity, x);
      assert Column(parity, x) == env.code.enc(Column(data, x));
      assert Column(whole + parity, x)[..env.cfg.k] == Column(whole, x);
      assert Column(whole + parity, x)[env.cfg.k..] == env.code.enc(Column(data, x));
    }
  }

  /** The parity files of a plan. */
  function PlanParity(env: Env, plan: Plan, fs: Files): (parity: seq<Bytes>)
    requires |plan.paths| == |plan.sizes|
    ensures |parity| == env.code.m
  {
    ParityFiles(env.code, DataBytes(fs, plan.paths, plan.sizes), plan.Padded())
  }

  lemma StripeFileAt(env: Env, plan: Plan, fs0: Files, fs: Files, i: nat)
    requires env.Ok() && |plan.paths| == |plan.sizes| == env.cfg.k && i < env.cfg.Total()
    requires DataThere(plan, fs0) && FilesBuilt(env, plan, fs0, fs)
    requires forall p | p in plan.paths && p.Some? :: p.value.Data?
    ensures var path := StripePaths(env.cfg, plan)[i];
            && path in fs
            && fs[path] == if i < env.cfg.k then WholeData(plan, fs0)[i] else PlanParity(env, plan, fs0)[i - env.cfg.k]
  {
    hide ParityFile, DataBytes, MaxOf;
    var path := StripePaths(env.cfg, plan)[i];
    if i >= env.cfg.k {
      assert path == ParityPath(env.cfg, plan, i - env.cfg.k);
    } else if plan.paths[i].Some? {
      assert plan.paths[i] in plan.paths;
      assert !OwnFile(env.cfg, plan, path);
    }
  }

  lemma StripeFiles(env: Env, plan: Plan, fs0: Files, fs: Files)
    requires env.Ok() && |plan.paths| == |plan.sizes| == env.cfg.k
    requires DataThere(plan, fs0) && FilesBuilt(env, plan, fs0, fs)
    requires forall p | p in plan.paths && p.Some? :: p.value.Data?
    ensures forall p | p in StripePaths(env.cfg, plan) :: p in fs
    ensures Contents(fs, StripePaths(env.cfg, plan)) == WholeData(plan, fs0) + PlanParity(env, plan, fs0)
  {
    hide FilesBuilt, StripePaths, WholeData, PlanParity, Contents, DataThere;
    var paths := StripePaths(env.cfg, plan);
    var data, parity := WholeData(plan, fs0), PlanParity(env, plan, fs0);
    forall i: nat | i < |paths|
      ensures paths[i] in fs && fs[paths[i]] == if i < |data| then data[i] else parity[i - |data|]
    {
      StripeFileAt(env, plan, fs0, fs, i);
    }
    ContentsAre(fs, paths, data, parity);
  }

  // ---- how a stripe ends --------------------------------------------------------------------

  /** The one way a build of a stripe can end. */
  ghost predicate Ends(env: Env, plan: Plan, w0: World, out: Outcome)
    requires env.Ok() && |plan.paths| == |plan.sizes| == env.cfg.k
  {
    if !DataThere(plan, w0.fs) then out == Outcome(w0, false)
    else if !ExtraBytesHidden(env, plan, w0.fs) then
      !out.ok && out.w.t == w0.t && FilesBuilt(env, plan, w0.fs, out.w.fs)
    else out.ok && FilesBuilt(env, plan, w0.fs, out.w.fs) && forall key :: BuiltAt(env, plan, w0, out.w.t, key)
  }

  lemma FilesBuiltUnique(env: Env, plan: Plan, fs0: Files, a: Files, b: Files)
    requires env.Ok() && |plan.paths| == |plan.sizes| == env.cfg.k
    requires FilesBuilt(env, plan, fs0, a) && FilesBuilt(env, plan, fs0, b)
    ensures a == b
  {
    hide ParityContent;
    forall p ensures p in a <==> p in b
             ensures p in a ==> a[p] == b[p]
    {
      if OwnFile(env.cfg, plan, p) {
        if i: nat :| i < env.cfg.m && p == ParityPath(env.cfg, plan, i) {
        } else {
          var q: nat :| q < env.cfg.k && plan.paths[q].None? && p == PadPath(env.cfg, plan, q);
        }
      }
    }
  }

  lemma EndsUnique(env: Env, plan: Plan, w0: World, a: Outcome, b: Outcome)
    requires env.Ok() && |plan.paths| == |plan.sizes| == env.cfg.k
    requires Ends(env, plan, w0, a) && Ends(env, plan, w0, b)
    ensures a == b
  {
    hide FilesBuilt, ExtraBytesHidden;
    if DataThere(plan, w0.fs) {
      FilesBuiltUnique(env, plan, w0.fs, a.w.fs, b.w.fs);
      if ExtraBytesHidden(env, plan, w0.fs) {
        forall key ensures key in a.w.t <==> key in b.w.t
                   ensures key in a.w.t ==> a.w.t[key] == b.w.t[key]
        {
          assert BuiltAt(env, plan, w0, a.w.t, key) && BuiltAt(env, plan, w0, b.w.t, key);
        }
        assert a.w.t == b.w.t;
      }
    }
  }

  /** Running some steps achieves a prefix of them; a run that stops early stops at opening the data or at
      verifying the stripe. */
  lemma {:induction false} RunReaches(env: Env, plan: Plan, w0: World, n: nat) returns (r: nat)
    requires Ready(env, plan, w0) && n <= |Program(env.cfg, plan)|
    ensures r <= n && Achieved(env, plan, w0, Done(env.cfg, plan, r), RunTo(env, plan, w0, n).w)
    ensures if RunTo(env, plan, w0, n).ok then r == n
            else r < n && StopsBefore(env, plan, Program(env.cfg, plan)[r], RunTo(env, plan, w0, n).w)
  {
    hide Program, Achieved, Exec, RunTo, Done, Ready;
    if n == 0 {
      r := 0;
      NothingReached(env, plan, w0);
    } else {
      r := RunReaches(env, plan, w0, n - 1);
      RunOneMore(env, plan, w0, n - 1);
      var before := RunTo(env, plan, w0, n - 1);
      if before.ok {
        StepAchieves(env, plan, w0, n - 1, before.w);
        if RunTo(env, plan, w0, n).ok { r := n; }
      }
    }
  }

  lemma NothingReached(env: Env, plan: Plan, w0: World)
    requires Ready(env, plan, w0)
    ensures RunTo(env, plan, w0, 0) == Outcome(w0, true) && Achieved(env, plan, w0, Done(env.cfg, plan, 0), w0)
  {
    NothingAchieved(env, plan, w0);
    assert Done(env.cfg, plan, 0) == {};
  }

  ghost predicate StopsBefore(env: Env, plan: Plan, op: Op, w: World)
    requires env.Ok() && |plan.paths| == |plan.sizes| == env.cfg.k
  {
    (op.OpenData? || op.Verify?) && !Exec(env, plan, op, w).ok
  }

  lemma DataPathsAreData(env: Env, plan: Plan, w: World)
    requires Ready(env, plan, w)
    ensures forall p | p in plan.paths && p.Some? :: p.value.Data?
  {
    forall q: nat | q < env.cfg.k && plan.paths[q].Some? ensures plan.paths[q].value.Data? {
      assert RowPlaced(env.cfg, plan.KeyAt(q), w.t[plan.KeyAt(q)]);
    }
  }

  /** Stopping before the data is opened: nothing has happened. */
  lemma StopsAtOpen(env: Env, plan: Plan, w0: World, r: nat, w: World)
    requires Ready(env, plan, w0) && r < |Program(env.cfg, plan)|
    requires Program(env.cfg, plan)[r].OpenData? && StopsBefore(env, plan, OpenData, w)
    requires Achieved(env, plan, w0, Done(env.cfg, plan, r), w)
    ensures Ends(env, plan, w0, Outcome(w, false))
  {
    NextStep(env.cfg, plan, r);
    hide Program;
    assert Done(env.cfg, plan, r) == {};
    assert w.fs == w0.fs;
  }

  lemma BeforeVerify(cfg: Config, plan: Plan, r: nat)
    requires |plan.paths| == cfg.k && r < |Program(cfg, plan)| && Program(cfg, plan)[r].Verify?
    ensures var done := Done(cfg, plan, r);
            && (forall op | Phase(op) <= 2 :: op in done <==> Belongs(cfg, plan, op))
            && OpenData in done && Drop !in done
  {
    NextStep(cfg, plan, r);
    hide Program;
    assert Belongs(cfg, plan, OpenData) && Phase(OpenData) < Phase(Verify);
  }

  /** Stopping at verification: the files are written, the rows are as before. */
  lemma StopsAtVerify(env: Env, plan: Plan, w0: World, r: nat, w: World)
    requires Ready(env, plan, w0) && r < |Program(env.cfg, plan)|
    requires Program(env.cfg, plan)[r].Verify? && StopsBefore(env, plan, Verify, w)
    requires Achieved(env, plan, w0, Done(env.cfg, plan, r), w)
    ensures Ends(env, plan, w0, Outcome(w, false))
  {
    var done := Done(env.cfg, plan, r);
    BeforeVerify(env.cfg, plan, r);
    hide Program, Done;
    WrittenVerifies(env, plan, w0, done, w.fs);
    hide FilesBuilt, FilesAchieved, ExtraBytesHidden, Consistent, StripePaths, Belongs, RowInserted;
  }

  /** Once all files of the stripe are written, verification decides whether bytes past the sizes show. */
  lemma WrittenVerifies(env: Env, plan: Plan, w0: World, done: set<Op>, fs: Files)
    requires Ready(env, plan, w0) && FilesAchieved(env, plan, w0.fs, done, fs) && DataThere(plan, w0.fs)
    requires forall op | Phase(op) <= 2 :: op in done <==> Belongs(env.cfg, plan, op)
    ensures FilesBuilt(env, plan, w0.fs, fs)
    ensures Verified(env, plan, fs) <==> ExtraBytesHidden(env, plan, w0.fs)
  {
    AllFilesBuilt(env, plan, w0.fs, done, fs);
    DataPathsAreData(env, plan, w0);
    FreshVerifies(env, plan, w0.fs, fs);
  }

  /** Building a stripe ends in the one way it can. In particular it succeeds exactly when its data files
      are there and bytes past their recorded sizes do not show in the parity. */
  lemma BuildOneEnds(env: Env, plan: Plan, w0: World)
    requires Ready(env, plan, w0)
    ensures Ends(env, plan, w0, BuildOne(env, plan, w0))
    ensures BuildOne(env, plan, w0).ok <==> DataThere(plan, w0.fs) && ExtraBytesHidden(env, plan, w0.fs)
  {
    var prog := Program(env.cfg, plan);
    var out := BuildOne(env, plan, w0);
    assert prog[..|prog|] == prog;
    assert out == RunTo(env, plan, w0, |prog|);
    var r := RunReaches(env, plan, w0, |prog|);
    if out.ok {
      AllDoneIsBuilt(env, plan, w0, out.w);
      DataPathsAreData(env, plan, w0);
      FreshVerifies(env, plan, w0.fs, out.w.fs);
    } else if prog[r].OpenData? {
      StopsAtOpen(env, plan, w0, r, out.w);
    } else {
      StopsAtVerify(env, plan, w0, r, out.w);
    }
    hide Program, Achieved, Done, FilesBuilt, ExtraBytesHidden, Verified, BuiltAt, RunTo, BuildOne;
  }

  /** When no data file is longer than its recorded size, the stripe builds. */
  lemma TruthfulBuilds(env: Env, plan: Plan, w0: World)
    requires Ready(env, plan, w0) && DataThere(plan, w0.fs)
    requires forall p | 0 <= p < env.cfg.k && plan.paths[p].Some? :: |w0.fs[plan.paths[p].value]| <= plan.sizes[p]
    ensures BuildOne(env, plan, w0).ok
  {
    assert WholeData(plan, w0.fs) == DataBytes(w0.fs, plan.paths, plan.sizes);
    BuildOneEnds(env, plan, w0);
  }

  // ---- interrupted and repeated builds ------------------------------------------------------

  /** A stripe built again from what some of its steps left behind ends as if they had not been taken. */
  lemma EndsAgain(env: Env, plan: Plan, w0: World, r: nat, w: World, out: Outcome)
    requires Ready(env, plan, w0) && r <= |Program(env.cfg, plan)|
    requires Achieved(env, plan, w0, Done(env.cfg, plan, r), w)
    requires Ends(env, plan, w, out)
    ensures Ends(env, plan, w0, out)
  {
    var done := Done(env.cfg, plan, r);
    PrefixClosed(env.cfg, plan, r);
    hide Program, Done;
    assert Achieved(env, plan, w0, done, w);
    SameData(env, plan, w0, done, w.fs);
    if done == {} {
      assert w.fs == w0.fs && w.t == w0.t;
    } else {
      FilesBuiltAgain(env, plan, w0, done, w.fs, out.w.fs);
      if DataThere(plan, w0.fs) && ExtraBytesHidden(env, plan, w0.fs) {
        forall key ensures BuiltAt(env, plan, w0, out.w.t, key) {
          assert BuiltAt(env, plan, w, out.w.t, key);
          RowBuiltAgain(env, plan, w0, done, w, out.w.t, key);
        }
      } else if DataThere(plan, w0.fs) {
        NotVerified(env, plan, w0, done, w);
      }
      hide FilesBuilt, ExtraBytesHidden, BuiltAt, FilesAchieved, RowsAchieved, Verified;
    }
  }

  /** Steps done come with those of earlier phases. */
  ghost predicate Closed(cfg: Config, plan: Plan, done: set<Op>)
    requires |plan.paths| == cfg.k
  {
    && (forall op | op in done :: Belongs(cfg, plan, op))
    && (forall op, o | op in done && Belongs(cfg, plan, o) && Phase(o) < Phase(op) :: o in done)
  }

  lemma PrefixClosed(cfg: Config, plan: Plan, n: nat)
    requires |plan.paths| == cfg.k && n <= |Program(cfg, plan)|
    ensures var done := Done(cfg, plan, n);
            Closed(cfg, plan, done) && (done != {} ==> OpenData in done)
  {
    var prog := Program(cfg, plan);
    PrefixMembers(cfg, plan, n);
    var done := Done(cfg, plan, n);
    forall op, o | op in done && Belongs(cfg, plan, o) && Phase(o) < Phase(op) ensures o in done {
      var i :| 0 <= i < n && prog[i] == op;
      NextStep(cfg, plan, i);
    }
    if n > 0 {
      assert prog[0] == OpenData;
      assert prog[..n][0] == OpenData;
    }
  }

  lemma SameData(env: Env, plan: Plan, w0: World, done: set<Op>, fs: Files)
    requires Ready(env, plan, w0) && FilesAchieved(env, plan, w0.fs, done, fs)
    ensures DataThere(plan, fs) <==> DataThere(plan, w0.fs)
    ensures DataThere(plan, fs) ==> (ExtraBytesHidden(env, plan, fs) <==> ExtraBytesHidden(env, plan, w0.fs))
  {
    DataUntouched(env, plan, w0, done, fs);
    DataPathsAreData(env, plan, w0);
    forall p | p in plan.paths && p.Some?
      ensures p.value in fs <==> p.value in w0.fs
      ensures p.value in fs ==> fs[p.value] == w0.fs[p.value]
    {
    }
    assert WholeData(plan, fs) == WholeData(plan, w0.fs);
  }

  lemma FilesBuiltAgain(env: Env, plan: Plan, w0: World, done: set<Op>, fs: Files, fs': Files)
    requires Ready(env, plan, w0) && FilesAchieved(env, plan, w0.fs, done, fs)
    requires forall op | op in done :: Belongs(env.cfg, plan, op)
    ensures FilesBuilt(env, plan, fs, fs') ==> FilesBuilt(env, plan, w0.fs, fs')
  {
    DataUntouched(env, plan, w0, done, fs);
    forall p | !OwnFile(env.cfg, plan, p)
      ensures (p in fs <==> p in w0.fs) && (p in w0.fs ==> fs[p] == w0.fs[p])
    {
      assert !ParityWritten(env.cfg, plan, done, p) by {
        assert forall i: nat | WriteParity(i) in done :: Belongs(env.cfg, plan, WriteParity(i));
      }
      assert !PadWritten(env.cfg, plan, done, p) by {
        assert forall q: nat | WritePad(q) in done :: Belongs(env.cfg, plan, WritePad(q));
      }
    }
    hide ParityContent, FilesAchieved, OwnFile;
  }

  lemma RowBuiltAgain(env: Env, plan: Plan, w0: World, done: set<Op>, w: World, t: Table, key: Key)
    requires Ready(env, plan, w0)
    requires FilesAchieved(env, plan, w0.fs, done, w.fs) && RowsAchieved(env, plan, w0, done, w.t)
    requires forall op | op in done :: Belongs(env.cfg, plan, op)
    requires BuiltAt(env, plan, w, t, key)
    ensures BuiltAt(env, plan, w0, t, key)
  {
    DataUntouched(env, plan, w0, done, w.fs);
    hide ParityContent, FilesAchieved;
    if Drop in done {
      assert RowAt(env, plan, w0, done, w.t, key);
      if InStripe(key, plan.group, plan.stripe) {
        assert key == plan.KeyAt(key.pos);
      } else {
        assert !RowInserted(env, plan, done, key);
      }
    }
  }

  lemma NotVerified(env: Env, plan: Plan, w0: World, done: set<Op>, w: World)
    requires Ready(env, plan, w0) && Achieved(env, plan, w0, done, w)
    requires DataThere(plan, w0.fs) && !ExtraBytesHidden(env, plan, w0.fs)
    requires Closed(env.cfg, plan, done)
    ensures Drop !in done && w.t == w0.t
  {
    if Verify in done {
      WrittenVerifies(env, plan, w0, done, w.fs);
      assert false;
    }
    assert Belongs(env.cfg, plan, Verify) && Phase(Verify) < Phase(Drop);
  }

  /** Interrupting the build of a stripe after any step and building it again ends like an uninterrupted
      build: the same files, the same rows, the same failure. */
  lemma InterruptedBuild(env: Env, plan: Plan, w0: World, n: nat)
    requires Ready(env, plan, w0) && n <= |Program(env.cfg, plan)|
    ensures Ready(env, plan, RunTo(env, plan, w0, n).w)
    ensures BuildOne(env, plan, RunTo(env, plan, w0, n).w) == BuildOne(env, plan, w0)
  {
    var w := RunTo(env, plan, w0, n).w;
    RunsKeepReady(env, plan, n, w0, plan);
    var r := RunReaches(env, plan, w0, n);
    BuildOneEnds(env, plan, w0);
    BuildOneEnds(env, plan, w);
    EndsAgain(env, plan, w0, r, w, BuildOne(env, plan, w));
    EndsUnique(env, plan, w0, BuildOne(env, plan, w), BuildOne(env, plan, w0));
  }

  /** The rows a stripe is built from are found again afterwards, and building it again changes nothing. */
  lemma BuiltTwice(env: Env, plan: Plan, w0: World)
    requires Ready(env, plan, w0) && BuildOne(env, plan, w0).ok
    ensures var w := BuildOne(env, plan, w0).w;
            && PlanFor(env.cfg, w.t, plan.Id()) == plan
            && Ready(env, plan, w)
            && BuildOne(env, plan, w) == Outcome(w, true)
  {
    var prog := Program(env.cfg, plan);
    assert prog[..|prog|] == prog;
    InterruptedBuild(env, plan, w0, |prog|);
    var w := BuildOne(env, plan, w0).w;
    hide BuildOne, RunTo, Program;
    assert PlanMatches(env.cfg, plan, w.t);
    assert PlanFor(env.cfg, w.t, plan.Id()).paths == plan.paths;
    assert PlanFor(env.cfg, w.t, plan.Id()).sizes == plan.sizes;
  }

  /** A parallel run of all stripes stopped after any number of steps of any of them, and then run again from
      its start, ends like a run that was not interrupted. */
  lemma InterruptedRun(env: Env, plans: Plans, keys: seq<StripeKey>, w0: World, schedule: seq<StripeKey>)
    requires env.Ok() && PlansReady(env, plans, w0)
    requires Apart(keys) && forall id :: id in keys <==> id in plans
    ensures var w := Runs(env, plans, Machine(w0, Start(plans)), schedule).w;
            && PlansReady(env, plans, w)
            && (InOrder(env, plans, keys, w).ok <==> InOrder(env, plans, keys, w0).ok)
            && (InOrder(env, plans, keys, w0).ok ==> InOrder(env, plans, keys, w) == InOrder(env, plans, keys, w0))
  {
    var w := Runs(env, plans, Machine(w0, Start(plans)), schedule).w;
    forall id ensures Resumes(env, plans, w0, w, id) {
      StripeResumes(env, plans, w0, schedule, id);
    }
    RunsLocally(env, plans, w0, schedule, StripeKey(0, 0));
    StripeResumes(env, plans, w0, schedule, StripeKey(0, 0));
    hide Resumes, Runs;
    SameEnd(env, plans, keys, w0, w);
  }

  ghost predicate Resumes(env: Env, plans: Plans, w0: World, w: World, id: StripeKey)
    requires env.cfg.Ok() && PlansReady(env, plans, w0)
  {
    && PlansReady(env, plans, w)
    && if id in plans then OnItsOwn(env, plans, id, w) == OnItsOwn(env, plans, id, w0)
       else Part(env.cfg, id, w) == Part(env.cfg, id, w0)
  }

  lemma SameEnd(env: Env, plans: Plans, keys: seq<StripeKey>, w0: World, w: World)
    requires env.Ok() && PlansReady(env, plans, w0) && PlansReady(env, plans, w)
    requires Apart(keys) && forall id :: id in keys <==> id in plans
    requires (forall id :: Resumes(env, plans, w0, w, id)) && OutsideKept(w0, w)
    ensures InOrder(env, plans, keys, w).ok <==> InOrder(env, plans, keys, w0).ok
    ensures InOrder(env, plans, keys, w0).ok ==> InOrder(env, plans, keys, w) == InOrder(env, plans, keys, w0)
  {
    InOrderLocal(env, plans, keys, w0);
    InOrderLocal(env, plans, keys, w);
    hide OnItsOwn, Part, InOrder, PlansReady;
    forall id | id in plans ensures OnItsOwn(env, plans, id, w).ok == OnItsOwn(env, plans, id, w0).ok {
      assert Resumes(env, plans, w0, w, id);
    }
    var a, b := InOrder(env, plans, keys, w), InOrder(env, plans, keys, w0);
    if b.ok {
      forall id ensures Part(env.cfg, id, a.w) == Part(env.cfg, id, b.w) {
        assert StandsAt(env, plans, keys, w, a.w, id) && StandsAt(env, plans, keys, w0, b.w, id);
        assert Resumes(env, plans, w0, w, id);
      }
      hide Resumes, StandsAt;
      assert OutsideKept(b.w, a.w);
      WorldIsItsParts(env.cfg, a.w, b.w);
    }
  }

  lemma StripeResumes(env: Env, plans: Plans, w0: World, schedule: seq<StripeKey>, id: StripeKey)
    requires env.Ok() && PlansReady(env, plans, w0)
    ensures Resumes(env, plans, w0, Runs(env, plans, Machine(w0, Start(plans)), schedule).w, id)
  {
    RunsLocally(env, plans, w0, schedule, id);
    if id in plans {
      var plan, l, turns := plans[id], Part(env.cfg, id, w0), Turns(schedule, id);
      PartReady(env, plan, w0);
      var n := Min(turns, |Program(env.cfg, plan)|);
      AloneFinishes(env, plan, l, turns);
      AloneIsRun(env, plan, l, n);
      InterruptedBuild(env, plan, l, n);
    }
    hide Part, Program, Alone, Ready, BuildOne, RunTo;
  }

  /** Wherever an interleaving stops, each stripe has taken some of its steps, on its own rows and files. */
  lemma PartAchieved(env: Env, plans: Plans, w0: World, schedule: seq<StripeKey>, id: StripeKey) returns (r: nat)
    requires env.Ok() && PlansReady(env, plans, w0) && id in plans
    ensures var w := Runs(env, plans, Machine(w0, Start(plans)), schedule).w;
            && Ready(env, plans[id], Part(env.cfg, id, w0))
            && r <= |Program(env.cfg, plans[id])|
            && Achieved(env, plans[id], Part(env.cfg, id, w0), Done(env.cfg, plans[id], r), Part(env.cfg, id, w))
  {
    var plan, l := plans[id], Part(env.cfg, id, w0);
    RunsLocally(env, plans, w0, schedule, id);
    PartReady(env, plan, w0);
    var n := Min(Turns(schedule, id), |Program(env.cfg, plan)|);
    AloneFinishes(env, plan, l, Turns(schedule, id));
    AloneIsRun(env, plan, l, n);
    r := RunReaches(env, plan, l, n);
    hide Part, Program, Alone, Ready, RunTo, Achieved;
  }
}
