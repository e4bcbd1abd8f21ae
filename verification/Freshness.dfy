/** Parity in the table is always the parity of the DATA rows in the table. */
module Freshness {
  import opened Bytes
  import opened Paths
  import opened Disk
  import opened Layout
  import opened ShardTable
  import opened Stream
  import opened SlotChoice
  import opened MoveFile
  import opened Placement
  import opened BuildSpec
  import opened BuildRetry
  import opened StripeTask
  import opened StripeRun
  import opened StripeView
  import opened Locality
  import opened Schedule
  import opened Resume

  /** All rows of the stripe speak for one padded size, and DATA rows have their original sizes. */
  ghost predicate StripeStamped(t: Table, id: StripeKey, n: nat) {
    forall j | j in t && IdOf(j) == id :: Claimed(t[j]) == n && (t[j].kind.DATA? ==> t[j].original == t[j].size)
  }

  /** If there is an EC row, its file is the encoding of exactly the DATA rows of its stripe, all of which
      have their files; PADs and holes count as zeros. */
  ghost predicate FreshRow(env: Env, w: World, key: Key)
    requires env.Ok()
  {
    key in w.t && w.t[key].kind.EC? && key.pos >= env.cfg.k ==>
      var plan := PlanFor(env.cfg, w.t, IdOf(key));
      var i := key.pos - env.cfg.k;
      var path := ParityPath(env.cfg, plan, i);
      && DataThere(plan, w.fs)
      && path in w.fs && w.fs[path] == ParityContent(env, plan, w.fs, i)
      && w.t[key] == ParityRow(env, plan, i, w.fs[path])
      && StripeStamped(w.t, IdOf(key), plan.Padded())
  }

  ghost predicate Fresh(env: Env, w: World)
    requires env.Ok()
  {
    forall key :: FreshRow(env, w, key)
  }

  /** A fresh EC row records the length and the checksum of its file. */
  lemma FreshIsRecorded(env: Env, w: World, key: Key)
    requires env.Ok() && FreshRow(env, w, key) && key in w.t && w.t[key].kind.EC? && key.pos >= env.cfg.k
    ensures var row := w.t[key];
            row.path in w.fs && |w.fs[row.path]| == row.size && row.sum == Some(env.hash(w.fs[row.path]))
  {
  }

  lemma PlanIsReady(env: Env, w: World, id: StripeKey)
    requires env.Ok() && RowsPlaced(env.cfg, w.t)
    ensures Ready(env, PlanFor(env.cfg, w.t, id), w)
  {
    PlanForMatches(env.cfg, w.t, id);
  }

  /** Plans that match one table are the same. */
  lemma PlanIsUnique(env: Env, plan: Plan, t: Table)
    requires PlanMatches(env.cfg, plan, t)
    ensures PlanFor(env.cfg, t, plan.Id()) == plan
  {
    var p := PlanFor(env.cfg, t, plan.Id());
    assert p.paths == plan.paths && p.sizes == plan.sizes;
  }

  /** Freshness of a row is a matter of its stripe. */
  lemma FreshIsLocal(env: Env, w: World, key: Key)
    requires env.Ok() && RowsPlaced(env.cfg, w.t)
    ensures FreshRow(env, Part(env.cfg, IdOf(key), w), key) <==> FreshRow(env, w, key)
  {
    var plan := PlanFor(env.cfg, w.t, IdOf(key));
    var l := Part(env.cfg, IdOf(key), w);
    PlanIsReady(env, w, IdOf(key));
    PartReady(env, plan, w);
    PlanIsUnique(env, plan, l.t);
    PartFiles(env, plan, w);
    PlanPathsAreOwn(env, plan, w);
    if key in w.t && w.t[key].kind.EC? && key.pos >= env.cfg.k {
      var i := key.pos - env.cfg.k;
      assert RowPlaced(env.cfg, key, w.t[key]);
      assert StripeOf(env.cfg, ParityPath(env.cfg, plan, i)) == Some(IdOf(key));
    }
    hide ParityContent, Ready, RowsPlaced, PlanFor, ParityRow, ParityPath;
  }

  /** After any steps of a stripe its parity rows are fresh if they were. */
  lemma AchievedIsFresh(env: Env, plan: Plan, w0: World, r: nat, w: World, key: Key)
    requires Ready(env, plan, w0) && r <= |Program(env.cfg, plan)|
    requires Achieved(env, plan, w0, Done(env.cfg, plan, r), w) && Ready(env, plan, w)
    requires FreshRow(env, w0, key) && IdOf(key) == plan.Id()
    ensures FreshRow(env, w, key)
  {
    if key in w.t && w.t[key].kind.EC? && key.pos >= env.cfg.k {
      var done, i := Done(env.cfg, plan, r), key.pos - env.cfg.k;
      PrefixClosed(env.cfg, plan, r);
      hide Program, Done;
      PlanIsUnique(env, plan, w0.t);
      PlanIsUnique(env, plan, w.t);
      DataUntouched(env, plan, w0, done, w.fs);
      SameData(env, plan, w0, done, w.fs);
      ParityAt(env, plan, w0, done, w, key);
      StampsAt(env, plan, w0, done, w, key);
      hide Achieved, Ready, ParityContent, PlanFor;
    }
  }

  /** What has been done before a parity row is put in. */
  lemma BeforeParity(cfg: Config, plan: Plan, done: set<Op>, i: nat)
    requires |plan.paths| == cfg.k && Closed(cfg, plan, done) && InsertParity(i) in done
    ensures i < cfg.m && WriteParity(i) in done && OpenData in done
    ensures forall p: nat | p < cfg.k && plan.paths[p].Some? :: Stamp(p) in done
  {
    assert Belongs(cfg, plan, InsertParity(i));
    assert Belongs(cfg, plan, WriteParity(i)) && Belongs(cfg, plan, OpenData);
    forall p: nat | p < cfg.k && plan.paths[p].Some? ensures Stamp(p) in done {
      assert Belongs(cfg, plan, Stamp(p));
    }
  }

  lemma StampsAt(env: Env, plan: Plan, w0: World, done: set<Op>, w: World, key: Key)
    requires Ready(env, plan, w0) && Achieved(env, plan, w0, done, w)
    requires Closed(env.cfg, plan, done)
    requires key in w.t && w.t[key].kind.EC? && key.pos >= env.cfg.k && IdOf(key) == plan.Id()
    requires FreshRow(env, w0, key) && PlanFor(env.cfg, w0.t, plan.Id()) == plan
    ensures StripeStamped(w.t, plan.Id(), plan.Padded())
  {
    hide Closed, FilesAchieved, ParityContent, Verified;
    if Drop in done {
      assert RowAt(env, plan, w0, done, w.t, key);
      BeforeParity(env.cfg, plan, done, key.pos - env.cfg.k);
      forall j | j in w.t && IdOf(j) == plan.Id()
        ensures Claimed(w.t[j]) == plan.Padded() && (w.t[j].kind.DATA? ==> w.t[j].original == w.t[j].size)
      {
        StampAt(env, plan, w0, done, w.t, j);
      }
    }
  }

  lemma StampAt(env: Env, plan: Plan, w0: World, done: set<Op>, t: Table, j: Key)
    requires Ready(env, plan, w0) && RowsAchieved(env, plan, w0, done, t) && Drop in done
    requires forall p: nat | p < env.cfg.k && plan.paths[p].Some? :: Stamp(p) in done
    requires j in t && IdOf(j) == plan.Id()
    ensures Claimed(t[j]) == plan.Padded() && (t[j].kind.DATA? ==> t[j].original == t[j].size)
  {
    hide ParityContent;
    assert RowAt(env, plan, w0, done, t, j);
    assert j == plan.KeyAt(j.pos);
    if !RowInserted(env, plan, done, j) {
      assert RowPlaced(env.cfg, j, w0.t[j]);
    }
  }

  lemma ParityAt(env: Env, plan: Plan, w0: World, done: set<Op>, w: World, key: Key)
    requires Ready(env, plan, w0) && Achieved(env, plan, w0, done, w)
    requires Closed(env.cfg, plan, done)
    requires key in w.t && w.t[key].kind.EC? && key.pos >= env.cfg.k && IdOf(key) == plan.Id()
    requires FreshRow(env, w0, key) && PlanFor(env.cfg, w0.t, plan.Id()) == plan
    ensures var i := key.pos - env.cfg.k;
            var path := ParityPath(env.cfg, plan, i);
            && DataThere(plan, w0.fs)
            && path in w.fs && w.fs[path] == ParityContent(env, plan, w0.fs, i)
            && w.t[key] == ParityRow(env, plan, i, w.fs[path])
  {
    var i := key.pos - env.cfg.k;
    var path := ParityPath(env.cfg, plan, i);
    assert key == plan.KeyAt(env.cfg.k + i);
    assert forall j: nat | WriteParity(j) in done :: Belongs(env.cfg, plan, WriteParity(j));
    hide ParityContent, Closed, Verified;
    if Drop in done {
      assert RowAt(env, plan, w0, done, w.t, key);
      BeforeParity(env.cfg, plan, done, i);
    } else {
      assert RowPlaced(env.cfg, key, w0.t[key]);
      assert !PadWritten(env.cfg, plan, done, path);
      if ParityWritten(env.cfg, plan, done, path) {
        var j: nat :| WriteParity(j) in done && path == ParityPath(env.cfg, plan, j);
        ParityPathsDiffer(env.cfg, plan, i, j);
      }
    }
  }

  /** Whatever the interleaving and wherever it stops, make-ec keeps parity fresh. */
  lemma MakeEcKeepsFresh(env: Env, plans: Plans, w0: World, schedule: seq<StripeKey>)
    requires env.Ok() && PlansReady(env, plans, w0) && RowsPlaced(env.cfg, w0.t) && Fresh(env, w0)
    ensures var w := Runs(env, plans, Machine(w0, Start(plans)), schedule).w;
            RowsPlaced(env.cfg, w.t) && Fresh(env, w)
  {
    var w := Runs(env, plans, Machine(w0, Start(plans)), schedule).w;
    RunsPlaced(env, plans, w0, schedule);
    forall key ensures FreshRow(env, w, key) {
      StripeStaysFresh(env, plans, w0, schedule, key);
    }
  }

  lemma {:induction false} RunsPlaced(env: Env, plans: Plans, w0: World, schedule: seq<StripeKey>)
    requires env.Ok() && PlansReady(env, plans, w0) && RowsPlaced(env.cfg, w0.t)
    ensures RowsPlaced(env.cfg, Runs(env, plans, Machine(w0, Start(plans)), schedule).w.t)
  {
    if schedule != [] {
      var n := |schedule| - 1;
      RunsPlaced(env, plans, w0, schedule[..n]);
      var before := Runs(env, plans, Machine(w0, Start(plans)), schedule[..n]);
      TurnKeepsSane(env, plans, before, schedule[n]);
      hide RowsPlaced, Turn;
    }
  }

  lemma StripeStaysFresh(env: Env, plans: Plans, w0: World, schedule: seq<StripeKey>, key: Key)
    requires env.Ok() && PlansReady(env, plans, w0) && RowsPlaced(env.cfg, w0.t) && FreshRow(env, w0, key)
    requires RowsPlaced(env.cfg, Runs(env, plans, Machine(w0, Start(plans)), schedule).w.t)
    ensures FreshRow(env, Runs(env, plans, Machine(w0, Start(plans)), schedule).w, key)
  {
    var id := IdOf(key);
    var w := Runs(env, plans, Machine(w0, Start(plans)), schedule).w;
    FreshIsLocal(env, w0, key);
    FreshIsLocal(env, w, key);
    if id in plans {
      var l0, l := Part(env.cfg, id, w0), Part(env.cfg, id, w);
      var r := PartAchieved(env, plans, w0, schedule, id);
      RunsLocally(env, plans, w0, schedule, id);
      AchievedIsFresh(env, plans[id], l0, r, l, key);
    } else {
      RunsLocally(env, plans, w0, schedule, id);
    }
    hide Part, Program, Ready, FreshRow, Achieved, Runs;
  }

  // ---- build-data ---------------------------------------------------------------------------

  /** Every file of the tree below the arcset is still there, with its bytes. */
  ghost predicate TreeKept(fs: Files, fs': Files) {
    forall p: Path | !p.Outside? && p in fs :: p in fs' && fs'[p] == fs[p]
  }

  /** Adding files to the tree changes no stripe with parity. */
  lemma MoreFilesStayFresh(env: Env, w: World, fs: Files, key: Key)
    requires env.Ok() && RowsPlaced(env.cfg, w.t) && FreshRow(env, w, key) && TreeKept(w.fs, fs)
    ensures FreshRow(env, World(w.t, fs), key)
  {
    if key in w.t && w.t[key].kind.EC? && key.pos >= env.cfg.k {
      var plan := PlanFor(env.cfg, w.t, IdOf(key));
      PlanIsReady(env, w, IdOf(key));
      DataPathsAreData(env, plan, w);
      assert DataBytes(fs, plan.paths, plan.sizes) == DataBytes(w.fs, plan.paths, plan.sizes);
      assert ParityContent(env, plan, fs, key.pos - env.cfg.k) == ParityContent(env, plan, w.fs, key.pos - env.cfg.k);
    }
  }

  /** Rows that change only in a stripe without parity rows afterwards. */
  lemma OtherRowsStayFresh(env: Env, w: World, t: Table, id: StripeKey, key: Key)
    requires env.Ok() && FreshRow(env, w, key)
    requires forall k: Key | IdOf(k) != id :: (k in t <==> k in w.t) && (k in t ==> t[k] == w.t[k])
    requires forall k: Key | IdOf(k) == id && k in t :: !t[k].kind.EC?
    ensures FreshRow(env, World(t, w.fs), key)
  {
    if IdOf(key) != id {
      var a, b := PlanFor(env.cfg, w.t, IdOf(key)), PlanFor(env.cfg, t, IdOf(key));
      assert forall p: nat ::
               IsData(t, Key(key.group, key.stripe, p)) <==> IsData(w.t, Key(key.group, key.stripe, p)) by {
        forall p: nat ensures IdOf(Key(key.group, key.stripe, p)) != id {
        }
      }
      assert a.paths == b.paths && a.sizes == b.sizes;
    }
  }

  /** Between any two steps of a placement parity is fresh: the stale rows are gone before the new DATA row
      appears. */
  lemma PlacementKeepsFresh(env: Env, mover: Mover, w: World, item: Item, stop: Stop)
    requires env.Ok() && WellPlaced(env.cfg, w.t) && Fresh(env, w)
    requires Places(env.cfg, mover, w, item) && item.src.Outside?
    ensures Fresh(env, Stopped(env.cfg, mover, w, item, stop))
  {
    var cfg := env.cfg;
    var w' := Stopped(cfg, mover, w, item, stop);
    var at := SlotKey(cfg, w, item);
    MoveFacts(cfg, mover, w, item);
    ChosenFits(cfg, w.t, ItemSize(w.fs, item));
    assert TreeKept(w.fs, w'.fs);
    StoppedRows(cfg, mover, w, item, stop);
    hide Stopped, Choice;
    forall key ensures FreshRow(env, w', key) {
      assert FreshRow(env, w, key);
      if w'.t == w.t {
        MoreFilesStayFresh(env, w, w'.fs, key);
      } else {
        MoreFilesStayFresh(env, w, w'.fs, key);
        OtherRowsStayFresh(env, World(w.t, w'.fs), w'.t, IdOf(at), key);
      }
    }
  }

  lemma StoppedRows(cfg: Config, mover: Mover, w: World, item: Item, stop: Stop)
    requires cfg.Ok() && WellPlaced(cfg, w.t) && Places(cfg, mover, w, item)
    ensures var t, at := Stopped(cfg, mover, w, item, stop).t, SlotKey(cfg, w, item);
            t == w.t ||
            ((forall k: Key | IdOf(k) != IdOf(at) :: (k in t <==> k in w.t) && (k in t ==> t[k] == w.t[k]))
             && forall k: Key | IdOf(k) == IdOf(at) && k in t :: !t[k].kind.EC?)
  {
  }

  /** So it is after any number of placements. */
  lemma {:induction false} BuildKeepsFresh(env: Env, mover: Mover, w: World, items: seq<Item>)
    requires env.Ok() && WellPlaced(env.cfg, w.t) && Fresh(env, w)
    requires forall item | item in items :: item.src.Outside?
    ensures Fresh(env, Build(env.cfg, mover, w, items).w)
  {
    if items != [] {
      var n := |items| - 1;
      BuildKeepsFresh(env, mover, w, items[..n]);
      BuildWellPlaced(env.cfg, mover, w, items[..n]);
      var before := Build(env.cfg, mover, w, items[..n]);
      if before.ok && Places(env.cfg, mover, before.w, items[n]) {
        PlacementKeepsFresh(env, mover, before.w, items[n], AfterStore);
      }
    }
  }
}
