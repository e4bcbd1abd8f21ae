/** What make-ec leaves alone: DATA rows, their files, and where every row is. */
module MakeEcKeeps {
  import opened Bytes
  import opened Paths
  import opened Disk
  import opened Layout
  import opened ShardTable
  import opened Placement
  import opened BuildSpec
  import opened StripeTask
  import opened StripeRun
  import opened StripeView
  import opened Locality
  import opened Schedule
  import opened Resume
  import opened Freshness
  import opened MakeEcRun

  /** The same shard; only its padded and original sizes may differ. */
  predicate SameShard(a: Row, b: Row) {
    a.(padded := 0, original := 0) == b.(padded := 0, original := 0)
  }

  /** If there is a PAD row, its file is there and empty. */
  ghost predicate PadEmpty(w: World, key: Key) {
    key in w.t && w.t[key].kind.PAD? ==> w.t[key].path in w.fs && w.fs[w.t[key].path] == []
  }

  /** What is at a key: the same DATA shard before and after, a file for a row that had one or is new, and an
      empty one for a PAD. */
  ghost predicate RowKept(w0: World, w: World, key: Key) {
    && (PadEmpty(w0, key) ==> PadEmpty(w, key))
    && (IsData(w.t, key) <==> IsData(w0.t, key))
    && (IsData(w.t, key) ==> SameShard(w.t[key], w0.t[key]))
    && (key in w.t && (key in w0.t ==> w0.t[key].path in w0.fs) ==> w.t[key].path in w.fs)
  }

  predicate FileKept(fs0: Files, fs: Files, p: Path) {
    && (p in fs0 ==> p in fs)
    && (!p.Parity? && !p.Pad? ==> (p in fs <==> p in fs0) && (p in fs0 ==> fs[p] == fs0[p]))
  }

  lemma AchievedKeeps(env: Env, plan: Plan, w0: World, r: nat, w: World, key: Key)
    requires Ready(env, plan, w0) && r <= |Program(env.cfg, plan)|
    requires Achieved(env, plan, w0, Done(env.cfg, plan, r), w)
    requires IdOf(key) == plan.Id()
    ensures RowKept(w0, w, key)
    ensures forall p :: FileKept(w0.fs, w.fs, p)
  {
    var done := Done(env.cfg, plan, r);
    PrefixClosed(env.cfg, plan, r);
    hide Program, Done;
    if RowInserted(env, plan, done, key) {
      InsertedHasFile(env, plan, w0, done, w.fs, key);
    }
    if key in w0.t && w0.t[key].kind.PAD? && !(Drop in done) {
      PadFileKept(env, plan, w0, done, w.fs, w0.t[key].path);
      assert RowPlaced(env.cfg, key, w0.t[key]);
    }
    hide ParityContent, Verified, NewRow, Belongs, RowInserted;
    assert Drop in done ==> RowAt(env, plan, w0, done, w.t, key);
  }

  /** The file of a PAD is only ever written empty. */
  lemma PadFileKept(env: Env, plan: Plan, w0: World, done: set<Op>, fs: Files, p: Path)
    requires env.Ok() && |plan.paths| == |plan.sizes| == env.cfg.k && FilesAchieved(env, plan, w0.fs, done, fs)
    ensures p.Pad? && p in w0.fs && w0.fs[p] == [] ==> p in fs && fs[p] == []
  {
    hide ParityContent;
  }

  /** A row put in by a stripe has the file the stripe wrote before. */
  lemma InsertedHasFile(env: Env, plan: Plan, w0: World, done: set<Op>, fs: Files, key: Key)
    requires env.Ok() && |plan.paths| == |plan.sizes| == env.cfg.k && FilesAchieved(env, plan, w0.fs, done, fs)
    requires Closed(env.cfg, plan, done)
    requires RowInserted(env, plan, done, key)
    ensures NewRow(env, plan, w0.fs, key).path in fs
    ensures !NewRow(env, plan, w0.fs, key).kind.DATA?
    ensures NewRow(env, plan, w0.fs, key).kind.PAD? ==> fs[NewRow(env, plan, w0.fs, key).path] == []
  {
    hide ParityContent;
    assert key == plan.KeyAt(key.pos);
    if key.pos < env.cfg.k {
      assert Belongs(env.cfg, plan, InsertPad(key.pos));
      assert WritePad(key.pos) in done;
    } else {
      assert Belongs(env.cfg, plan, InsertParity(key.pos - env.cfg.k));
      assert WriteParity(key.pos - env.cfg.k) in done;
    }
  }

  /** However far the stripes have come: DATA rows are the same shards, and rows with files keep them. */
  lemma RunsKeepRow(env: Env, plans: Plans, w0: World, schedule: seq<StripeKey>, key: Key)
    requires env.Ok() && PlansReady(env, plans, w0) && RowsPlaced(env.cfg, w0.t)
    ensures RowKept(w0, Runs(env, plans, Machine(w0, Start(plans)), schedule).w, key)
  {
    var id := IdOf(key);
    var w := Runs(env, plans, Machine(w0, Start(plans)), schedule).w;
    RunsPlaced(env, plans, w0, schedule);
    if id in plans {
      var r := PartAchieved(env, plans, w0, schedule, id);
      AchievedKeeps(env, plans[id], Part(env.cfg, id, w0), r, Part(env.cfg, id, w), key);
    } else {
      RunsLocally(env, plans, w0, schedule, id);
    }
    hide Runs, Achieved, Ready, Program;
    RowKeptLocally(env, w0, w, key);
  }

  lemma RowKeptLocally(env: Env, w0: World, w: World, key: Key)
    requires env.Ok() && RowsPlaced(env.cfg, w0.t) && RowsPlaced(env.cfg, w.t)
    requires var l0, l := Part(env.cfg, IdOf(key), w0), Part(env.cfg, IdOf(key), w); RowKept(l0, l, key) || l0 == l
    ensures RowKept(w0, w, key)
  {
    var l0, l := Part(env.cfg, IdOf(key), w0), Part(env.cfg, IdOf(key), w);
    assert key in l0.t <==> key in w0.t;
    assert key in l.t <==> key in w.t;
    if key in w.t {
      assert RowPlaced(env.cfg, key, w.t[key]);
      PlacedPathsAreOwn(env.cfg, key, w.t[key].path);
    }
    if key in w0.t {
      assert RowPlaced(env.cfg, key, w0.t[key]);
      PlacedPathsAreOwn(env.cfg, key, w0.t[key].path);
    }
  }

  /** No file is deleted, and only parity and PAD files are written. */
  lemma RunsKeepFile(env: Env, plans: Plans, w0: World, schedule: seq<StripeKey>, p: Path)
    requires env.Ok() && PlansReady(env, plans, w0)
    ensures FileKept(w0.fs, Runs(env, plans, Machine(w0, Start(plans)), schedule).w.fs, p)
  {
    var w := Runs(env, plans, Machine(w0, Start(plans)), schedule).w;
    if p.Outside? {
      RunsLocally(env, plans, w0, schedule, StripeKey(0, 0));
    } else {
      var id := StripeOf(env.cfg, p).value;
      var l0, l := Part(env.cfg, id, w0), Part(env.cfg, id, w);
      if id in plans {
        var r := PartAchieved(env, plans, w0, schedule, id);
        AchievedKeeps(env, plans[id], l0, r, l, KeyIn(id, 0));
        assert FileKept(l0.fs, l.fs, p);
      } else {
        RunsLocally(env, plans, w0, schedule, id);
      }
      assert p in l0.fs <==> p in w0.fs;
      assert p in l.fs <==> p in w.fs;
    }
  }

  // ---- the place of every row ---------------------------------------------------------------

  /** No stripe gets rows that had none. */
  lemma {:induction false} NoNewStripes(env: Env, plans: Plans, w0: World, schedule: seq<StripeKey>, key: Key)
    requires env.Ok() && PlansReady(env, plans, w0)
    requires key in Runs(env, plans, Machine(w0, Start(plans)), schedule).w.t
    ensures IdOf(key) in plans || key in w0.t
  {
    if IdOf(key) !in plans {
      RunsLocally(env, plans, w0, schedule, IdOf(key));
      var w := Runs(env, plans, Machine(w0, Start(plans)), schedule).w;
      assert key in Part(env.cfg, IdOf(key), w).t;
      assert key in Part(env.cfg, IdOf(key), w0).t ==> key in w0.t;
    }
  }

  /** Tables with the same DATA shards and the same stripes are well placed together. */
  lemma SameDataWellPlaced(cfg: Config, t: Table, t': Table)
    requires cfg.Ok() && WellPlaced(cfg, t) && RowsPlaced(cfg, t')
    requires forall k :: (IsData(t', k) <==> IsData(t, k)) && (IsData(t, k) ==> SameShard(t'[k], t[k]))
    requires forall k | k in t' :: exists j :: j in t && IdOf(j) == IdOf(k)
    ensures WellPlaced(cfg, t')
  {
    forall k, d ensures HasRow(t', k, d) <==> HasRow(t, k, d) {
      assert HasRow(t', k, d) ==> IsData(t', k);
      assert HasRow(t, k, d) ==> IsData(t, k);
    }
    forall k | k in t' ensures IsData(t', Key(k.group, k.stripe, 0)) {
      var j :| j in t && IdOf(j) == IdOf(k);
      assert IsData(t, Key(j.group, j.stripe, 0));
    }
    forall k, key: Key | k in t' && Before(key, k) && key.pos < cfg.k ensures IsData(t', key) {
      var j :| j in t && IdOf(j) == IdOf(k);
      assert Before(key, j);
    }
  }

  /** Wherever make-ec stops, the table is well placed. */
  lemma MakeEcKeepsPlaces(env: Env, w0: World, group: Option<nat>, stripe: Option<nat>, schedule: seq<StripeKey>)
    requires env.Ok() && WellPlaced(env.cfg, w0.t) && RowsPlaced(env.cfg, w0.t)
    requires PlansReady(env, SelectedPlans(env.cfg, w0.t, group, stripe), w0)
    ensures var plans := SelectedPlans(env.cfg, w0.t, group, stripe);
            WellPlaced(env.cfg, Runs(env, plans, Machine(w0, Start(plans)), schedule).w.t)
  {
    var plans := SelectedPlans(env.cfg, w0.t, group, stripe);
    var w := Runs(env, plans, Machine(w0, Start(plans)), schedule).w;
    RunsPlaced(env, plans, w0, schedule);
    forall k ensures (IsData(w.t, k) <==> IsData(w0.t, k)) && (IsData(w0.t, k) ==> SameShard(w.t[k], w0.t[k])) {
      RunsKeepRow(env, plans, w0, schedule, k);
    }
    forall k | k in w.t ensures exists j :: j in w0.t && IdOf(j) == IdOf(k) {
      NoNewStripes(env, plans, w0, schedule, k);
      if IdOf(k) in plans {
        var j :| j in w0.t && IsData(w0.t, j) && j.pos < env.cfg.k && IdOf(k) == IdOf(j);
      }
    }
    hide Runs, SelectedPlans, WellPlaced, RowsPlaced, SameShard;
    SameDataWellPlaced(env.cfg, w0.t, w.t);
  }
}
