/** Each step of a stripe reads and writes only that stripe's files and rows. */
module Locality {
  import opened Bytes
  import opened Paths
  import opened Disk
  import opened Layout
  import opened ShardTable
  import opened Stream
  import opened BuildSpec
  import opened StripeTask
  import opened StripeRun

  /** The stripe a file of the arcset tree belongs to. */
  function StripeOf(cfg: Config, p: Path): Option<StripeKey>
    requires cfg.Ok()
  {
    if p.Outside? then None else Some(StripeKey(GroupOf(cfg, p.part), p.stripe))
  }

  function RowsOf(t: Table, id: StripeKey): Table {
    map k | k in t && InStripe(k, id.group, id.stripe) :: t[k]
  }

  function FilesOf(cfg: Config, fs: Files, id: StripeKey): Files
    requires cfg.Ok()
  {
    map p | p in fs && StripeOf(cfg, p) == Some(id) :: fs[p]
  }

  /** The rows and files of one stripe. */
  function Part(cfg: Config, id: StripeKey, w: World): World
    requires cfg.Ok()
  {
    World(RowsOf(w.t, id), FilesOf(cfg, w.fs, id))
  }

  lemma FilesOfWrite(cfg: Config, fs: Files, id: StripeKey, p: Path, b: Bytes)
    requires cfg.Ok() && StripeOf(cfg, p) == Some(id)
    ensures FilesOf(cfg, fs[p := b], id) == FilesOf(cfg, fs, id)[p := b]
    ensures forall other | other != id :: FilesOf(cfg, fs[p := b], other) == FilesOf(cfg, fs, other)
  {
    forall other | other != id ensures FilesOf(cfg, fs[p := b], other) == FilesOf(cfg, fs, other) {
    }
  }

  lemma RowsOfWrite(t: Table, id: StripeKey, key: Key, row: Row)
    requires InStripe(key, id.group, id.stripe)
    ensures RowsOf(t[key := row], id) == RowsOf(t, id)[key := row]
    ensures forall other | other != id :: RowsOf(t[key := row], other) == RowsOf(t, other)
  {
    forall other | other != id ensures RowsOf(t[key := row], other) == RowsOf(t, other) {
    }
  }

  lemma RowsOfDrop(t: Table, id: StripeKey)
    ensures RowsOf(DataOnly(t, id.group, id.stripe), id) == DataOnly(RowsOf(t, id), id.group, id.stripe)
    ensures forall other | other != id :: RowsOf(DataOnly(t, id.group, id.stripe), other) == RowsOf(t, other)
  {
    forall other | other != id ensures RowsOf(DataOnly(t, id.group, id.stripe), other) == RowsOf(t, other) {
    }
  }

  lemma PlacedPathsAreOwn(cfg: Config, key: Key, p: Path)
    requires cfg.Ok() && key.pos < cfg.Total()
    requires !p.Outside? && p.part == PartitionOf(cfg, key) && p.stripe == key.stripe
    ensures StripeOf(cfg, p) == Some(StripeKey(key.group, key.stripe))
  {
    PartitionRoundTrip(cfg, key.group, key.pos, key.stripe);
  }

  lemma PlanPathsAreOwn(env: Env, plan: Plan, w: World)
    requires Ready(env, plan, w)
    ensures forall i: nat | i < env.cfg.m :: StripeOf(env.cfg, ParityPath(env.cfg, plan, i)) == Some(plan.Id())
    ensures forall q: nat | q < env.cfg.k :: StripeOf(env.cfg, PadPath(env.cfg, plan, q)) == Some(plan.Id())
    ensures forall q: nat | q < env.cfg.k && plan.paths[q].Some? ::
              StripeOf(env.cfg, plan.paths[q].value) == Some(plan.Id())
    ensures forall p | p in StripePaths(env.cfg, plan) :: StripeOf(env.cfg, p) == Some(plan.Id())
  {
    forall i: nat | i < env.cfg.m ensures StripeOf(env.cfg, ParityPath(env.cfg, plan, i)) == Some(plan.Id()) {
      PlacedPathsAreOwn(env.cfg, plan.KeyAt(env.cfg.k + i), ParityPath(env.cfg, plan, i));
    }
    forall q: nat | q < env.cfg.k ensures StripeOf(env.cfg, PadPath(env.cfg, plan, q)) == Some(plan.Id()) {
      PlacedPathsAreOwn(env.cfg, plan.KeyAt(q), PadPath(env.cfg, plan, q));
    }
    forall q: nat | q < env.cfg.k && plan.paths[q].Some?
      ensures StripeOf(env.cfg, plan.paths[q].value) == Some(plan.Id())
    {
      assert RowPlaced(env.cfg, plan.KeyAt(q), w.t[plan.KeyAt(q)]);
      PlacedPathsAreOwn(env.cfg, plan.KeyAt(q), plan.paths[q].value);
    }
  }

  lemma PartReady(env: Env, plan: Plan, w: World)
    requires Ready(env, plan, w)
    ensures Ready(env, plan, Part(env.cfg, plan.Id(), w))
  {
    var l := Part(env.cfg, plan.Id(), w);
    forall p: nat | p < env.cfg.k ensures plan.KeyAt(p) in l.t <==> plan.KeyAt(p) in w.t {
    }
  }

  /** The files a stripe reads are in its part. */
  lemma PartFiles(env: Env, plan: Plan, w: World)
    requires Ready(env, plan, w)
    ensures var l := Part(env.cfg, plan.Id(), w);
            && DataBytes(l.fs, plan.paths, plan.sizes) == DataBytes(w.fs, plan.paths, plan.sizes)
            && (forall i: nat :: ParityContent(env, plan, l.fs, i) == ParityContent(env, plan, w.fs, i))
            && Exec(env, plan, OpenData, l).ok == Exec(env, plan, OpenData, w).ok
            && (Verified(env, plan, l.fs) <==> Verified(env, plan, w.fs))
  {
    var l := Part(env.cfg, plan.Id(), w);
    PlanPathsAreOwn(env, plan, w);
    assert DataBytes(l.fs, plan.paths, plan.sizes) == DataBytes(w.fs, plan.paths, plan.sizes);
    var paths := StripePaths(env.cfg, plan);
    assert forall p | p in paths :: p in l.fs <==> p in w.fs;
    if forall p | p in paths :: p in w.fs {
      assert Contents(l.fs, paths) == Contents(w.fs, paths);
    }
  }

  /** A stripe's own rows clash with no row of another stripe. */
  lemma PartConflicts(env: Env, plan: Plan, w: World, key: Key, row: Row)
    requires Ready(env, plan, w) && InStripe(key, plan.group, plan.stripe)
    requires RowPlaced(env.cfg, key, row) && !row.kind.DATA?
    ensures Conflicts(Part(env.cfg, plan.Id(), w).t, key, row) <==> Conflicts(w.t, key, row)
  {
    var l := Part(env.cfg, plan.Id(), w);
    forall k | k in w.t && !InStripe(k, plan.group, plan.stripe) ensures !RowsClash(k, w.t[k], key, row) {
      PlacedRowsDiffer(env.cfg, k, w.t[k], key, row);
    }
    assert forall k | k in w.t && k !in l.t :: !RowsClash(k, w.t[k], key, row);
  }

  lemma OwnRowsPlaced(env: Env, plan: Plan, i: nat, content: Bytes)
    requires env.Ok() && |plan.paths| == env.cfg.k
    ensures i < env.cfg.k ==> RowPlaced(env.cfg, plan.KeyAt(i), PadRow(env.cfg, plan, i))
    ensures i < env.cfg.m ==> RowPlaced(env.cfg, plan.KeyAt(env.cfg.k + i), ParityRow(env, plan, i, content))
  {
  }

  /** A step changes its own stripe as it would alone, and no other stripe. */
  ghost predicate Local(cfg: Config, id: StripeKey, w: World, out: Outcome, local: Outcome)
    requires cfg.Ok()
  {
    && out.ok == local.ok
    && Part(cfg, id, out.w) == local.w
    && (forall other | other != id :: Part(cfg, other, out.w) == Part(cfg, other, w))
    && (forall p: Path | p.Outside? :: (p in out.w.fs <==> p in w.fs) && (p in w.fs ==> out.w.fs[p] == w.fs[p]))
  }

  lemma FileStepLocal(env: Env, plan: Plan, op: Op, w: World)
    requires Ready(env, plan, w) && Belongs(env.cfg, plan, op) && Phase(op) <= 3
    ensures Local(env.cfg, plan.Id(), w, Exec(env, plan, op, w), Exec(env, plan, op, Part(env.cfg, plan.Id(), w)))
  {
    var id := plan.Id();
    PartFiles(env, plan, w);
    PlanPathsAreOwn(env, plan, w);
    hide ParityContent, Verified, FilesOf, RowsOf;
    match op
    case WriteParity(i) =>
      FilesOfWrite(env.cfg, w.fs, id, ParityPath(env.cfg, plan, i), ParityContent(env, plan, w.fs, i));
    case WritePad(pos) =>
      FilesOfWrite(env.cfg, w.fs, id, PadPath(env.cfg, plan, pos), []);
    case _ =>
  }

  lemma InsertLocal(env: Env, plan: Plan, w: World, key: Key, row: Row)
    requires Ready(env, plan, w) && InStripe(key, plan.group, plan.stripe)
    requires RowPlaced(env.cfg, key, row) && !row.kind.DATA?
    ensures var l := Part(env.cfg, plan.Id(), w);
            var t, t' := Inserted(w.t, key, row), Inserted(l.t, key, row);
            && (t.Some? <==> t'.Some?)
            && (t.Some? ==> RowsOf(t.value, plan.Id()) == t'.value)
            && (t.Some? ==> forall other | other != plan.Id() :: RowsOf(t.value, other) == RowsOf(w.t, other))
  {
    PartConflicts(env, plan, w, key, row);
    RowsOfWrite(w.t, plan.Id(), key, row);
  }

  lemma InsertPadLocal(env: Env, plan: Plan, pos: nat, w: World)
    requires Ready(env, plan, w) && Belongs(env.cfg, plan, InsertPad(pos))
    ensures Local(env.cfg, plan.Id(), w, Exec(env, plan, InsertPad(pos), w),
                  Exec(env, plan, InsertPad(pos), Part(env.cfg, plan.Id(), w)))
  {
    OwnRowsPlaced(env, plan, pos, []);
    InsertLocal(env, plan, w, plan.KeyAt(pos), PadRow(env.cfg, plan, pos));
    hide Inserted, RowsOf, FilesOf, PadRow;
  }

  lemma ParityFileLocal(env: Env, plan: Plan, i: nat, w: World)
    requires Ready(env, plan, w) && Belongs(env.cfg, plan, InsertParity(i))
    ensures var path, local := ParityPath(env.cfg, plan, i), Part(env.cfg, plan.Id(), w).fs;
            (path in w.fs <==> path in local) && (path in w.fs ==> local[path] == w.fs[path])
  {
    PlanPathsAreOwn(env, plan, w);
    hide RowsOf, RowsPlaced, ParityPath;
  }

  lemma InsertParityLocal(env: Env, plan: Plan, i: nat, w: World)
    requires Ready(env, plan, w) && Belongs(env.cfg, plan, InsertParity(i))
    ensures Local(env.cfg, plan.Id(), w, Exec(env, plan, InsertParity(i), w),
                  Exec(env, plan, InsertParity(i), Part(env.cfg, plan.Id(), w)))
  {
    hide FilesOf, RowsOf, Inserted, RowsPlaced, StripeOf, ParityPath;
    ParityFileLocal(env, plan, i, w);
    var path := ParityPath(env.cfg, plan, i);
    if path in w.fs {
      OwnRowsPlaced(env, plan, i, w.fs[path]);
      InsertLocal(env, plan, w, plan.KeyAt(env.cfg.k + i), ParityRow(env, plan, i, w.fs[path]));
    }
    hide ParityRow;
  }

  lemma StepLocal(env: Env, plan: Plan, op: Op, w: World)
    requires Ready(env, plan, w) && Belongs(env.cfg, plan, op)
    ensures Local(env.cfg, plan.Id(), w, Exec(env, plan, op, w), Exec(env, plan, op, Part(env.cfg, plan.Id(), w)))
  {
    if Phase(op) <= 3 {
      FileStepLocal(env, plan, op, w);
    } else if op.Drop? {
      RowsOfDrop(w.t, plan.Id());
    } else if op.Stamp? {
      var key := plan.KeyAt(op.pos);
      if key in w.t {
        RowsOfWrite(w.t, plan.Id(), key, w.t[key].(padded := plan.Padded(), original := plan.sizes[op.pos]));
      }
    } else if op.InsertPad? {
      InsertPadLocal(env, plan, op.pos, w);
    } else {
      InsertParityLocal(env, plan, op.i, w);
    }
  }

  /** DATA rows keep their paths and sizes at every step, so no plan becomes outdated. */
  lemma StepKeepsReady(env: Env, plan: Plan, op: Op, w: World, other: Plan)
    requires Ready(env, plan, w) && Belongs(env.cfg, plan, op) && Ready(env, other, w)
    ensures Ready(env, other, Exec(env, plan, op, w).w)
  {
    hide ParityContent, Verified;
    var w' := Exec(env, plan, op, w).w;
    match op
    case InsertPad(pos) => OwnRowsPlaced(env, plan, pos, []);
    case InsertParity(i) =>
      if ParityPath(env.cfg, plan, i) in w.fs {
        OwnRowsPlaced(env, plan, i, w.fs[ParityPath(env.cfg, plan, i)]);
      }
    case _ =>
  }

  /** Stripes and outside files make up the world. */
  lemma WorldIsItsParts(cfg: Config, a: World, b: World)
    requires cfg.Ok()
    requires forall id :: Part(cfg, id, a) == Part(cfg, id, b)
    requires forall p: Path | p.Outside? :: (p in a.fs <==> p in b.fs) && (p in a.fs ==> a.fs[p] == b.fs[p])
    ensures a == b
  {
    forall k ensures k in a.t <==> k in b.t
             ensures k in a.t ==> a.t[k] == b.t[k]
    {
      var id := StripeKey(k.group, k.stripe);
      assert k in a.t <==> k in Part(cfg, id, a).t;
      assert k in b.t <==> k in Part(cfg, id, b).t;
    }
    forall p ensures p in a.fs <==> p in b.fs
             ensures p in a.fs ==> a.fs[p] == b.fs[p]
    {
      if !p.Outside? {
        var id := StripeOf(cfg, p).value;
        assert p in a.fs <==> p in Part(cfg, id, a).fs;
        assert p in b.fs <==> p in Part(cfg, id, b).fs;
      }
    }
    assert a.t == b.t && a.fs == b.fs;
  }
}
