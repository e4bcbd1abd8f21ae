/** make-ec: encoding one stripe on disk and rewriting its rows, and all stripes in order. */
module MakeEc {
  import opened Bytes
  import opened Paths
  import opened Disk
  import opened Layout
  import opened ShardTable
  import opened StripeBytes
  import opened Stream
  import opened BuildSpec
  import opened StripeTask
  import opened StripeRun

  function ParityPaths(cfg: Config, plan: Plan, n: nat): (ps: seq<Path>)
    requires cfg.Ok()
    ensures |ps| == n
  {
    seq(n, i requires 0 <= i < n => ParityPath(cfg, plan, i))
  }

  /** Without its data a stripe changes nothing. */
  lemma MissingDataStops(env: Env, plan: Plan, w: World)
    requires env.Ok() && |plan.paths| == |plan.sizes| == env.cfg.k
    requires !Exec(env, plan, OpenData, w).ok
    ensures Run(env, plan, Program(env.cfg, plan), w) == Outcome(w, false)
  {
    var prog := Program(env.cfg, plan);
    assert prog == [OpenData] + prog[1..];
    assert [OpenData][..0] == [];
    assert Run(env, plan, [OpenData], w) == Outcome(w, false);
    RunAppend(env, plan, [OpenData], prog[1..], w);
  }

  /** The streaming encoder's renames are the first steps of the stripe. */
  lemma {:induction false} EncodeSteps(env: Env, plan: Plan, w: World, n: nat)
    requires Ready(env, plan, w) && n <= env.cfg.m
    requires Exec(env, plan, OpenData, w).ok
    ensures var parity := ParityFiles(env.code, DataBytes(w.fs, plan.paths, plan.sizes), plan.Padded());
            Run(env, plan, [OpenData] + WriteSteps(n), w)
              == Outcome(w.(fs := Stored(w.fs, ParityPaths(env.cfg, plan, n), parity[..n])), true)
  {
    var ops := [OpenData] + WriteSteps(n);
    var parity := ParityFiles(env.code, DataBytes(w.fs, plan.paths, plan.sizes), plan.Padded());
    if n == 0 {
      assert ops == [OpenData] && ops[..0] == [];
    } else {
      EncodeSteps(env, plan, w, n - 1);
      var before := [OpenData] + WriteSteps(n - 1);
      assert ops == before + [WriteParity(n - 1)];
      StoredParity(env, plan, w, n - 1);
      StoredNext(w.fs, ParityPaths(env.cfg, plan, n), parity, n);
      assert ParityPaths(env.cfg, plan, n)[..n - 1] == ParityPaths(env.cfg, plan, n - 1);
      hide Run, Stored, ParityContent, Ready, ParityFiles, DataBytes;
      StepMore(env, plan, before, WriteParity(n - 1), w);
    }
  }

  lemma StoredNext(fs: Files, paths: seq<Path>, contents: seq<Bytes>, n: nat)
    requires 0 < n == |paths| <= |contents|
    ensures Stored(fs, paths, contents[..n])
         == Stored(fs, paths[..n - 1], contents[..n - 1])[paths[n - 1] := contents[n - 1]]
  {
    assert contents[..n][..n - 1] == contents[..n - 1];
  }

  /** Parity files already written do not change the data the next one is computed from. */
  lemma StoredParity(env: Env, plan: Plan, w: World, n: nat)
    requires Ready(env, plan, w) && n < env.cfg.m
    ensures var parity := ParityFiles(env.code, DataBytes(w.fs, plan.paths, plan.sizes), plan.Padded());
            var fs := Stored(w.fs, ParityPaths(env.cfg, plan, n), parity[..n]);
            ParityContent(env, plan, fs, n) == parity[n]
  {
    var parity := ParityFiles(env.code, DataBytes(w.fs, plan.paths, plan.sizes), plan.Padded());
    var fs := Stored(w.fs, ParityPaths(env.cfg, plan, n), parity[..n]);
    StoredElsewhere(w.fs, ParityPaths(env.cfg, plan, n), parity[..n]);
    forall p: nat | p < env.cfg.k && plan.paths[p].Some?
      ensures plan.paths[p].value !in ParityPaths(env.cfg, plan, n)
    {
      assert RowPlaced(env.cfg, plan.KeyAt(p), w.t[plan.KeyAt(p)]);
    }
    assert DataBytes(fs, plan.paths, plan.sizes) == DataBytes(w.fs, plan.paths, plan.sizes);
  }

  lemma StepMore(env: Env, plan: Plan, done: seq<Op>, op: Op, w: World)
    requires env.Ok() && |plan.paths| == |plan.sizes| == env.cfg.k
    ensures var before := Run(env, plan, done, w);
            Run(env, plan, done + [op], w) == if before.ok then Exec(env, plan, op, before.w) else before
  {
    assert (done + [op])[..|done|] == done;
  }

  lemma StopsAt(env: Env, plan: Plan, done: seq<Op>, rest: seq<Op>, w: World)
    requires env.Ok() && |plan.paths| == |plan.sizes| == env.cfg.k
    requires !Run(env, plan, done, w).ok
    ensures Run(env, plan, done + rest, w) == Run(env, plan, done, w)
  {
    RunAppend(env, plan, done, rest, w);
  }

  /** Creates the zero-byte PAD files. */
  method WritePads(env: Env, disk: Disk, plan: Plan, ghost t: Table, ghost done: seq<Op>, ghost w0: World)
    requires env.Ok() && |plan.paths| == |plan.sizes| == env.cfg.k
    requires Run(env, plan, done, w0) == Outcome(World(t, disk.files), true)
    modifies disk
    ensures Run(env, plan, done + PadFileSteps(Positions(plan, false, env.cfg.k)), w0)
         == Outcome(World(t, disk.files), true)
  {
    PositionStepsMore(done, [], 0);
    hide PadFileSteps;
    for pos := 0 to env.cfg.k
      invariant Run(env, plan, done + PadFileSteps(Positions(plan, false, pos)), w0)
             == Outcome(World(t, disk.files), true)
    {
      if plan.paths[pos].None? {
        ghost var ps := Positions(plan, false, pos);
        PositionStepsMore(done, ps, pos);
        StepMore(env, plan, done + PadFileSteps(ps), WritePad(pos), w0);
        hide Run;
        disk.files := disk.files[PadPath(env.cfg, plan, pos) := []];
      }
    }
  }

  method StampOne(env: Env, store: Store, plan: Plan, pos: nat, padded: nat, ghost fs: Files, ghost done: seq<Op>,
                  ghost w0: World)
    requires env.Ok() && |plan.paths| == |plan.sizes| == env.cfg.k && pos < env.cfg.k && padded == plan.Padded()
    requires Run(env, plan, done, w0) == Outcome(World(store.rows, fs), true)
    modifies store
    ensures Run(env, plan, done + [Stamp(pos)], w0) == Outcome(World(store.rows, fs), true)
  {
    StepMore(env, plan, done, Stamp(pos), w0);
    hide Run;
    store.UpdateShardMetadata(plan.KeyAt(pos), padded, plan.sizes[pos]);
  }

  /** Records padded and original sizes on the DATA rows. */
  method StampData(env: Env, store: Store, plan: Plan, ghost fs: Files, ghost done: seq<Op>, ghost w0: World)
    requires env.Ok() && |plan.paths| == |plan.sizes| == env.cfg.k
    requires Run(env, plan, done, w0) == Outcome(World(store.rows, fs), true)
    modifies store
    ensures Run(env, plan, done + StampSteps(Positions(plan, true, env.cfg.k)), w0)
         == Outcome(World(store.rows, fs), true)
  {
    PositionStepsMore(done, [], 0);
    hide StampSteps;
    var padded := LargestSize(plan.sizes);
    hide Run;
    for pos := 0 to env.cfg.k
      invariant Run(env, plan, done + StampSteps(Positions(plan, true, pos)), w0)
             == Outcome(World(store.rows, fs), true)
    {
      if plan.paths[pos].Some? {
        ghost var ps := Positions(plan, true, pos);
        PositionStepsMore(done, ps, pos);
        StampOne(env, store, plan, pos, padded, fs, done + StampSteps(ps), w0);
      }
    }
  }

  method InsertPadRow(env: Env, store: Store, plan: Plan, pos: nat, ghost fs: Files, ghost done: seq<Op>,
                      ghost w0: World)
    returns (ok: bool)
    requires env.Ok() && |plan.paths| == |plan.sizes| == env.cfg.k
    requires Run(env, plan, done, w0) == Outcome(World(store.rows, fs), true)
    modifies store
    ensures Run(env, plan, done + [InsertPad(pos)], w0) == Outcome(World(store.rows, fs), ok)
  {
    StepMore(env, plan, done, InsertPad(pos), w0);
    hide Run;
    ok := store.InsertShard(plan.KeyAt(pos), PadRow(env.cfg, plan, pos));
  }

  /** Inserts the PAD rows; stops at the first rejected insert. */
  method InsertPads(env: Env, store: Store, plan: Plan, ghost fs: Files, ghost done: seq<Op>, ghost w0: World)
    returns (ok: bool)
    requires env.Ok() && |plan.paths| == |plan.sizes| == env.cfg.k
    requires Run(env, plan, done, w0) == Outcome(World(store.rows, fs), true)
    modifies store
    ensures Run(env, plan, done + PadRowSteps(Positions(plan, false, env.cfg.k)), w0)
         == Outcome(World(store.rows, fs), ok)
  {
    PositionStepsMore(done, [], 0);
    hide PadRowSteps;
    for pos := 0 to env.cfg.k
      invariant Run(env, plan, done + PadRowSteps(Positions(plan, false, pos)), w0)
             == Outcome(World(store.rows, fs), true)
    {
      if plan.paths[pos].None? {
        ghost var ps := Positions(plan, false, pos);
        PositionStepsMore(done, ps, pos);
        hide Run;
        ok := InsertPadRow(env, store, plan, pos, fs, done + PadRowSteps(ps), w0);
        if !ok {
          PadsStop(env, plan, done, pos, w0);
          return;
        }
      }
    }
    ok := true;
  }

  lemma PadsStop(env: Env, plan: Plan, done: seq<Op>, pos: nat, w0: World)
    requires env.Ok() && |plan.paths| == |plan.sizes| == env.cfg.k && pos < env.cfg.k
    requires !Run(env, plan, done + PadRowSteps(Positions(plan, false, pos + 1)), w0).ok
    ensures Run(env, plan, done + PadRowSteps(Positions(plan, false, env.cfg.k)), w0)
         == Run(env, plan, done + PadRowSteps(Positions(plan, false, pos + 1)), w0)
  {
    var more := LaterPositions(plan, false, pos + 1, env.cfg.k);
    var some := Positions(plan, false, pos + 1);
    assert done + PadRowSteps(some + more) == (done + PadRowSteps(some)) + PadRowSteps(more);
    StopsAt(env, plan, done + PadRowSteps(some), PadRowSteps(more), w0);
  }

  lemma {:induction false} LaterPositions(plan: Plan, data: bool, from: nat, n: nat) returns (more: seq<nat>)
    requires from <= n <= |plan.paths|
    ensures Positions(plan, data, n) == Positions(plan, data, from) + more
    decreases n
  {
    if from == n {
      more := [];
    } else {
      more := LaterPositions(plan, data, from, n - 1);
      if plan.paths[n - 1].Some? == data { more := more + [n - 1]; }
    }
  }

  method InsertParityRow(env: Env, disk: Disk, store: Store, plan: Plan, i: nat, ghost done: seq<Op>, ghost w0: World)
    returns (ok: bool)
    requires env.Ok() && |plan.paths| == |plan.sizes| == env.cfg.k
    requires Run(env, plan, done, w0) == Outcome(World(store.rows, disk.files), true)
    modifies store
    ensures Run(env, plan, done + [InsertParity(i)], w0) == Outcome(World(store.rows, disk.files), ok)
  {
    StepMore(env, plan, done, InsertParity(i), w0);
    hide Run;
    var path := ParityPath(env.cfg, plan, i);
    if path !in disk.files { return false; }
    ok := store.InsertShard(plan.KeyAt(env.cfg.k + i), ParityRow(env, plan, i, disk.files[path]));
  }

  lemma PositionStepsMore(done: seq<Op>, ps: seq<nat>, pos: nat)
    ensures done + PadFileSteps(ps + [pos]) == (done + PadFileSteps(ps)) + [WritePad(pos)]
    ensures done + StampSteps(ps + [pos]) == (done + StampSteps(ps)) + [Stamp(pos)]
    ensures done + PadRowSteps(ps + [pos]) == (done + PadRowSteps(ps)) + [InsertPad(pos)]
    ensures done + PadFileSteps([]) == done && done + StampSteps([]) == done && done + PadRowSteps([]) == done
  {
  }

  lemma InsertStepsMore(done: seq<Op>, i: nat)
    ensures done + InsertSteps(i + 1) == (done + InsertSteps(i)) + [InsertParity(i)]
  {
  }

  lemma InsertsStop(env: Env, plan: Plan, done: seq<Op>, i: nat, w0: World)
    requires env.Ok() && |plan.paths| == |plan.sizes| == env.cfg.k && i < env.cfg.m
    requires !Run(env, plan, done + InsertSteps(i + 1), w0).ok
    ensures Run(env, plan, done + InsertSteps(env.cfg.m), w0) == Run(env, plan, done + InsertSteps(i + 1), w0)
  {
    var rest := seq(env.cfg.m - i - 1, j requires 0 <= j < env.cfg.m - i - 1 => InsertParity(i + 1 + j));
    assert done + InsertSteps(env.cfg.m) == (done + InsertSteps(i + 1)) + rest;
    StopsAt(env, plan, done + InsertSteps(i + 1), rest, w0);
  }

  /** Inserts the EC rows with the checksums of their files. */
  method InsertParities(env: Env, disk: Disk, store: Store, plan: Plan, ghost done: seq<Op>, ghost w0: World)
    returns (ok: bool)
    requires env.Ok() && |plan.paths| == |plan.sizes| == env.cfg.k
    requires Run(env, plan, done, w0) == Outcome(World(store.rows, disk.files), true)
    modifies store
    ensures Run(env, plan, done + InsertSteps(env.cfg.m), w0) == Outcome(World(store.rows, disk.files), ok)
  {
    assert done + InsertSteps(0) == done;
    for i := 0 to env.cfg.m
      invariant Run(env, plan, done + InsertSteps(i), w0) == Outcome(World(store.rows, disk.files), true)
    {
      InsertStepsMore(done, i);
      hide Run, InsertSteps;
      ok := InsertParityRow(env, disk, store, plan, i, done + InsertSteps(i), w0);
      if !ok {
        InsertsStop(env, plan, done, i, w0);
        return;
      }
    }
    ok := true;
  }

  /** Encodes a stripe, creates its PADs, verifies it, and only then rewrites its rows. */
  method BuildStripe(env: Env, disk: Disk, store: Store, plan: Plan, chunk: int) returns (ok: bool)
    requires Ready(env, plan, World(store.rows, disk.files)) && ValidChunk(chunk)
    modifies disk, store
    ensures Outcome(World(store.rows, disk.files), ok)
         == Run(env, plan, Program(env.cfg, plan), World(old(store.rows), old(disk.files)))
  {
    ghost var w0 := World(store.rows, disk.files);
    ok := EncodeData(env, disk, plan, chunk, w0);
    if !ok { return; }
    hide Run;
    ghost var done := [OpenData] + WriteSteps(env.cfg.m);
    WritePads(env, disk, plan, store.rows, done, w0);
    done := done + PadFileSteps(Positions(plan, false, env.cfg.k));
    ok := CheckStripe(env, disk, store, plan, chunk, done, w0);
    if !ok {
      CheckStops(env, plan, w0);
      return;
    }
    ok := RewriteRows(env, disk, store, plan, done + [Verify], w0);
    ProgramParts(env.cfg, plan);
  }

  lemma ProgramParts(cfg: Config, plan: Plan)
    requires |plan.paths| == cfg.k
    ensures var pads, datas := Positions(plan, false, cfg.k), Positions(plan, true, cfg.k);
            Program(cfg, plan) == [OpenData] + WriteSteps(cfg.m) + PadFileSteps(pads) + [Verify] + [Drop]
                                  + StampSteps(datas) + PadRowSteps(pads) + InsertSteps(cfg.m)
  {
  }

  lemma CheckStops(env: Env, plan: Plan, w0: World)
    requires env.Ok() && |plan.paths| == |plan.sizes| == env.cfg.k
    requires var pads := PadFileSteps(Positions(plan, false, env.cfg.k));
             var done := [OpenData] + WriteSteps(env.cfg.m) + pads + [Verify];
             !Run(env, plan, done, w0).ok
    ensures var done := [OpenData] + WriteSteps(env.cfg.m) + PadFileSteps(Positions(plan, false, env.cfg.k)) + [Verify];
            Run(env, plan, Program(env.cfg, plan), w0) == Run(env, plan, done, w0)
  {
    ProgramParts(env.cfg, plan);
    var pads, datas := Positions(plan, false, env.cfg.k), Positions(plan, true, env.cfg.k);
    var done := [OpenData] + WriteSteps(env.cfg.m) + PadFileSteps(pads) + [Verify];
    var rest := [Drop] + StampSteps(datas) + PadRowSteps(pads) + InsertSteps(env.cfg.m);
    assert Program(env.cfg, plan) == done + rest;
    StopsAt(env, plan, done, rest, w0);
  }

  method EncodeData(env: Env, disk: Disk, plan: Plan, chunk: int, ghost w0: World) returns (ok: bool)
    requires Ready(env, plan, w0) && ValidChunk(chunk) && disk.files == w0.fs
    modifies disk
    ensures ok ==> Run(env, plan, [OpenData] + WriteSteps(env.cfg.m), w0) == Outcome(World(w0.t, disk.files), true)
    ensures !ok ==> Run(env, plan, Program(env.cfg, plan), w0) == Outcome(World(w0.t, disk.files), false)
  {
    var ecPaths := ParityPaths(env.cfg, plan, env.cfg.m);
    var encoded := EncodeStripeStreaming(env.code, disk, plan.paths, plan.sizes, ecPaths, chunk);
    if encoded.Failure? {
      MissingDataStops(env, plan, w0);
      return false;
    }
    EncodeSteps(env, plan, w0, env.cfg.m);
    ghost var parity := ParityFiles(env.code, DataBytes(w0.fs, plan.paths, plan.sizes), plan.Padded());
    assert parity[..env.cfg.m] == parity;
    return true;
  }

  method CheckStripe(env: Env, disk: Disk, store: Store, plan: Plan, chunk: int, ghost done: seq<Op>, ghost w0: World)
    returns (ok: bool)
    requires env.Ok() && |plan.paths| == |plan.sizes| == env.cfg.k && ValidChunk(chunk)
    requires Run(env, plan, done, w0) == Outcome(World(store.rows, disk.files), true)
    ensures Run(env, plan, done + [Verify], w0) == Outcome(World(store.rows, disk.files), ok)
  {
    StepMore(env, plan, done, Verify, w0);
    var paths := StripePaths(env.cfg, plan);
    var padded := LargestSize(plan.sizes);
    var verified := VerifyStripeStreaming(env.code, disk, paths, padded, chunk);
    ok := verified.Success? && verified.value;
  }

  method RewriteRows(env: Env, disk: Disk, store: Store, plan: Plan, ghost done: seq<Op>, ghost w0: World)
    returns (ok: bool)
    requires env.Ok() && |plan.paths| == |plan.sizes| == env.cfg.k
    requires Run(env, plan, done, w0) == Outcome(World(store.rows, disk.files), true)
    modifies store
    ensures Outcome(World(store.rows, disk.files), ok)
         == Run(env, plan, done + [Drop] + StampSteps(Positions(plan, true, env.cfg.k))
                           + PadRowSteps(Positions(plan, false, env.cfg.k)) + InsertSteps(env.cfg.m), w0)
  {
    StepMore(env, plan, done, Drop, w0);
    hide Run;
    store.DeleteECAndPADShards(plan.group, plan.stripe);
    ghost var done1 := done + [Drop];
    StampData(env, store, plan, disk.files, done1, w0);
    ghost var done2 := done1 + StampSteps(Positions(plan, true, env.cfg.k));
    ok := InsertPads(env, store, plan, disk.files, done2, w0);
    ghost var done3 := done2 + PadRowSteps(Positions(plan, false, env.cfg.k));
    if !ok {
      StopsAt(env, plan, done3, InsertSteps(env.cfg.m), w0);
      return;
    }
    ok := InsertParities(env, disk, store, plan, done3, w0);
  }
}
