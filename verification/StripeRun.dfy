/** What the steps of a stripe have achieved after any number of them. */
module StripeRun {
  import opened Bytes
  import opened Paths
  import opened Disk
  import opened Layout
  import opened ShardTable
  import opened StripeBytes
  import opened Stream
  import opened Placement
  import opened BuildSpec
  import opened StripeTask

  // ---- the order of the steps ---------------------------------------------------------------

  function Phase(op: Op): nat {
    match op
    case OpenData => 0
    case WriteParity(_) => 1
    case WritePad(_) => 2
    case Verify => 3
    case Drop => 4
    case Stamp(_) => 5
    case InsertPad(_) => 6
    case InsertParity(_) => 7
  }

  /** The steps a program consists of. */
  predicate Belongs(cfg: Config, plan: Plan, op: Op)
    requires |plan.paths| == cfg.k
  {
    match op
    case OpenData => true
    case Verify => true
    case Drop => true
    case WriteParity(i) => i < cfg.m
    case InsertParity(i) => i < cfg.m
    case WritePad(p) => p < cfg.k && plan.paths[p].None?
    case InsertPad(p) => p < cfg.k && plan.paths[p].None?
    case Stamp(p) => p < cfg.k && plan.paths[p].Some?
  }

  ghost predicate Ordered(ops: seq<Op>) {
    forall i, j | 0 <= i < j < |ops| :: Phase(ops[i]) <= Phase(ops[j]) && ops[i] != ops[j]
  }

  ghost predicate PhasesIn(ops: seq<Op>, lo: nat, hi: nat) {
    forall i | 0 <= i < |ops| :: lo <= Phase(ops[i]) <= hi
  }

  lemma OrderedAppend(a: seq<Op>, b: seq<Op>, mid: nat, hi: nat)
    requires Ordered(a) && Ordered(b) && mid <= hi
    requires PhasesIn(a, 0, mid) && PhasesIn(b, mid + 1, hi)
    ensures Ordered(a + b) && PhasesIn(a + b, 0, hi)
  {
  }

  lemma {:induction false} PositionsAscend(plan: Plan, data: bool, n: nat)
    requires n <= |plan.paths|
    ensures forall i, j | 0 <= i < j < |Positions(plan, data, n)| ::
              Positions(plan, data, n)[i] < Positions(plan, data, n)[j]
  {
    if n > 0 {
      PositionsAscend(plan, data, n - 1);
      var rest := Positions(plan, data, n - 1);
      forall i | 0 <= i < |rest| ensures rest[i] < n - 1 {
        assert rest[i] in rest;
      }
    }
  }

  lemma ProgramOrdered(cfg: Config, plan: Plan)
    requires |plan.paths| == cfg.k
    ensures Ordered(Program(cfg, plan))
  {
    var pads, datas := Positions(plan, false, cfg.k), Positions(plan, true, cfg.k);
    PositionsAscend(plan, false, cfg.k);
    PositionsAscend(plan, true, cfg.k);
    var a := [OpenData];
    var b := WriteSteps(cfg.m);
    var c := PadFileSteps(pads);
    var d := [Verify, Drop];
    var e := StampSteps(datas);
    var f := PadRowSteps(pads);
    var g := InsertSteps(cfg.m);
    assert Ordered(a) && Ordered(b) && Ordered(c) && Ordered(d) && Ordered(e) && Ordered(f) && Ordered(g);
    assert PhasesIn(a, 0, 0) && PhasesIn(b, 1, 1) && PhasesIn(c, 2, 2) && PhasesIn(d, 3, 4);
    assert PhasesIn(e, 5, 5) && PhasesIn(f, 6, 6) && PhasesIn(g, 7, 7);
    hide Ordered, PhasesIn;
    OrderedAppend(a, b, 0, 1);
    OrderedAppend(a + b, c, 1, 2);
    OrderedAppend(a + b + c, d, 2, 4);
    OrderedAppend(a + b + c + d, e, 4, 5);
    OrderedAppend(a + b + c + d + e, f, 5, 6);
    OrderedAppend(a + b + c + d + e + f, g, 6, 7);
  }

  lemma ProgramMembers(cfg: Config, plan: Plan, op: Op)
    requires |plan.paths| == cfg.k
    ensures op in Program(cfg, plan) <==> Belongs(cfg, plan, op)
  {
    var pads, datas := Positions(plan, false, cfg.k), Positions(plan, true, cfg.k);
    var a := [OpenData];
    var b := WriteSteps(cfg.m);
    var c := PadFileSteps(pads);
    var d := [Verify, Drop];
    var e := StampSteps(datas);
    var f := PadRowSteps(pads);
    var g := InsertSteps(cfg.m);
    assert op in Program(cfg, plan) <==>
           op in a || op in b || op in c || op in d || op in e || op in f || op in g;
    match op
    case WriteParity(i) => if i < cfg.m { assert b[i] == op; }
    case InsertParity(i) => if i < cfg.m { assert g[i] == op; }
    case WritePad(p) =>
      if p in pads { var i :| 0 <= i < |pads| && pads[i] == p; assert c[i] == op; }
    case InsertPad(p) =>
      if p in pads { var i :| 0 <= i < |pads| && pads[i] == p; assert f[i] == op; }
    case Stamp(p) =>
      if p in datas { var i :| 0 <= i < |datas| && datas[i] == p; assert e[i] == op; }
    case Verify => assert d[0] == op;
    case Drop => assert d[1] == op;
    case OpenData => assert a[0] == op;
  }

  lemma PrefixMembers(cfg: Config, plan: Plan, n: nat)
    requires |plan.paths| == cfg.k && n <= |Program(cfg, plan)|
    ensures forall op | op in Program(cfg, plan)[..n] :: Belongs(cfg, plan, op)
  {
    forall op | op in Program(cfg, plan)[..n] ensures Belongs(cfg, plan, op) {
      ProgramMembers(cfg, plan, op);
    }
  }

  /** The step after n steps: all steps of earlier phases are done, none of later phases, and it is new. */
  lemma NextStep(cfg: Config, plan: Plan, n: nat)
    requires |plan.paths| == cfg.k && n < |Program(cfg, plan)|
    ensures var prog := Program(cfg, plan);
            && Belongs(cfg, plan, prog[n])
            && prog[n] !in prog[..n]
            && (forall op | op in prog[..n] :: Phase(op) <= Phase(prog[n]) && Belongs(cfg, plan, op))
            && (forall op | Belongs(cfg, plan, op) && Phase(op) < Phase(prog[n]) :: op in prog[..n])
            && prog[..n + 1] == prog[..n] + [prog[n]]
  {
    var prog := Program(cfg, plan);
    hide Program, Belongs;
    ProgramOrdered(cfg, plan);
    ProgramMembers(cfg, plan, prog[n]);
    PrefixMembers(cfg, plan, n);
    OrderedAt(prog, n);
    forall op | Belongs(cfg, plan, op) && Phase(op) < Phase(prog[n]) ensures op in prog[..n] {
      ProgramMembers(cfg, plan, op);
    }
  }

  /** In an ordered list, what comes before step n is new and not later, and what is earlier comes before. */
  lemma OrderedAt(prog: seq<Op>, n: nat)
    requires Ordered(prog) && n < |prog|
    ensures prog[n] !in prog[..n] && prog[..n + 1] == prog[..n] + [prog[n]]
    ensures forall op | op in prog[..n] :: Phase(op) <= Phase(prog[n])
    ensures forall op | op in prog && Phase(op) < Phase(prog[n]) :: op in prog[..n]
  {
    forall op | op in prog && Phase(op) < Phase(prog[n]) ensures op in prog[..n] {
      var j :| 0 <= j < |prog| && prog[j] == op;
      assert j < n;
    }
  }

  // ---- what the steps achieve ---------------------------------------------------------------

  ghost predicate RowsPlaced(cfg: Config, t: Table)
    requires cfg.Ok()
  {
    forall k | k in t :: RowPlaced(cfg, k, t[k])
  }

  /** The plan is what the DATA rows of the stripe say. */
  ghost predicate PlanMatches(cfg: Config, plan: Plan, t: Table) {
    && |plan.paths| == |plan.sizes| == cfg.k
    && forall p: nat | p < cfg.k ::
         if IsData(t, plan.KeyAt(p))
         then plan.paths[p] == Some(t[plan.KeyAt(p)].path) && plan.sizes[p] == t[plan.KeyAt(p)].size
         else plan.paths[p] == None && plan.sizes[p] == 0
  }

  lemma PlanForMatches(cfg: Config, t: Table, id: StripeKey)
    ensures PlanMatches(cfg, PlanFor(cfg, t, id), t)
  {
  }

  ghost predicate ParityWritten(cfg: Config, plan: Plan, done: set<Op>, p: Path)
    requires cfg.Ok()
  {
    exists i: nat :: WriteParity(i) in done && p == ParityPath(cfg, plan, i)
  }

  ghost predicate PadWritten(cfg: Config, plan: Plan, done: set<Op>, p: Path)
    requires cfg.Ok()
  {
    exists pos: nat :: WritePad(pos) in done && p == PadPath(cfg, plan, pos)
  }

  ghost predicate FilesAchieved(env: Env, plan: Plan, fs0: Files, done: set<Op>, fs: Files)
    requires env.Ok() && |plan.paths| == |plan.sizes| == env.cfg.k
  {
    && (forall p :: p in fs <==>
          p in fs0 || ParityWritten(env.cfg, plan, done, p) || PadWritten(env.cfg, plan, done, p))
    && (forall p | p in fs0 && !ParityWritten(env.cfg, plan, done, p) && !PadWritten(env.cfg, plan, done, p) ::
          fs[p] == fs0[p])
    && (forall i: nat | WriteParity(i) in done ::
          ParityPath(env.cfg, plan, i) in fs
          && fs[ParityPath(env.cfg, plan, i)] == ParityContent(env, plan, fs0, i))
    && (forall pos: nat | WritePad(pos) in done ::
          PadPath(env.cfg, plan, pos) in fs && fs[PadPath(env.cfg, plan, pos)] == [])
  }

  ghost predicate Verified(env: Env, plan: Plan, fs: Files)
    requires env.Ok() && |plan.paths| == |plan.sizes| == env.cfg.k
  {
    var paths := StripePaths(env.cfg, plan);
    (forall p | p in paths :: p in fs) && Consistent(env.code, Contents(fs, paths), plan.Padded())
  }

  ghost predicate RowInserted(env: Env, plan: Plan, done: set<Op>, key: Key)
  {
    && InStripe(key, plan.group, plan.stripe)
    && if key.pos < env.cfg.k then InsertPad(key.pos) in done else InsertParity(key.pos - env.cfg.k) in done
  }

  /** The row a stripe ends up with at a key that the plan has no DATA row for. */
  function NewRow(env: Env, plan: Plan, fs0: Files, key: Key): Row
    requires env.cfg.Ok() && |plan.paths| == |plan.sizes|
  {
    if key.pos < env.cfg.k then PadRow(env.cfg, plan, key.pos)
    else ParityRow(env, plan, key.pos - env.cfg.k, ParityContent(env, plan, fs0, key.pos - env.cfg.k))
  }

  function StampedRow(plan: Plan, row: Row, pos: nat): Row
    requires pos < |plan.sizes|
  {
    row.(padded := plan.Padded(), original := plan.sizes[pos])
  }

  /** A row that deleting the stripe's EC and PAD rows leaves. */
  predicate Kept(t: Table, plan: Plan, key: Key) {
    key in t && !((t[key].kind.EC? || t[key].kind.PAD?) && InStripe(key, plan.group, plan.stripe))
  }

  /** What is at one key once the stripe's EC and PAD rows have been deleted. */
  ghost predicate RowAt(env: Env, plan: Plan, w0: World, done: set<Op>, t: Table, key: Key)
    requires env.Ok() && |plan.paths| == |plan.sizes| == env.cfg.k
  {
    if RowInserted(env, plan, done, key) then
      key in t && !Kept(w0.t, plan, key) && t[key] == NewRow(env, plan, w0.fs, key)
    else if Kept(w0.t, plan, key) then
      key in t && t[key] ==
        if InStripe(key, plan.group, plan.stripe) && Stamp(key.pos) in done && key.pos < env.cfg.k
        then StampedRow(plan, w0.t[key], key.pos) else w0.t[key]
    else key !in t
  }

  ghost predicate RowsAchieved(env: Env, plan: Plan, w0: World, done: set<Op>, t: Table)
    requires env.Ok() && |plan.paths| == |plan.sizes| == env.cfg.k
  {
    if Drop !in done then t == w0.t && (forall key :: !RowInserted(env, plan, done, key))
    else forall key :: RowAt(env, plan, w0, done, t, key)
  }

  /** Everything the steps done so far have achieved. */
  ghost predicate Achieved(env: Env, plan: Plan, w0: World, done: set<Op>, w: World)
    requires env.Ok() && |plan.paths| == |plan.sizes| == env.cfg.k
  {
    && (OpenData in done ==> forall p | p in plan.paths && p.Some? :: p.value in w0.fs)
    && FilesAchieved(env, plan, w0.fs, done, w.fs)
    && (Verify in done ==> Verified(env, plan, w.fs))
    && RowsAchieved(env, plan, w0, done, w.t)
  }

  ghost predicate Ready(env: Env, plan: Plan, w0: World) {
    && env.Ok() && RowsPlaced(env.cfg, w0.t) && PlanMatches(env.cfg, plan, w0.t)
    && plan.Padded() == MaxOf(plan.sizes)
  }

  lemma NothingAchieved(env: Env, plan: Plan, w0: World)
    requires Ready(env, plan, w0)
    ensures Achieved(env, plan, w0, {}, w0)
  {
  }

  /** Data files are not the files a stripe writes, so every parity file is computed from the same data. */
  lemma DataUntouched(env: Env, plan: Plan, w0: World, done: set<Op>, fs: Files)
    requires Ready(env, plan, w0) && FilesAchieved(env, plan, w0.fs, done, fs)
    ensures DataBytes(fs, plan.paths, plan.sizes) == DataBytes(w0.fs, plan.paths, plan.sizes)
    ensures forall i: nat :: ParityContent(env, plan, fs, i) == ParityContent(env, plan, w0.fs, i)
  {
    forall p: nat | p < env.cfg.k && plan.paths[p].Some?
      ensures plan.paths[p].value in fs <==> plan.paths[p].value in w0.fs
      ensures plan.paths[p].value in w0.fs ==> fs[plan.paths[p].value] == w0.fs[plan.paths[p].value]
    {
      assert RowPlaced(env.cfg, plan.KeyAt(p), w0.t[plan.KeyAt(p)]);
      assert plan.paths[p].value.Data?;
    }
    assert DataBytes(fs, plan.paths, plan.sizes) == DataBytes(w0.fs, plan.paths, plan.sizes);
  }

  lemma ParityPathsDiffer(cfg: Config, plan: Plan, i: nat, j: nat)
    requires cfg.Ok() && i < cfg.m && j < cfg.m && ParityPath(cfg, plan, i) == ParityPath(cfg, plan, j)
    ensures i == j
  {
    PartitionInjective(cfg, plan.group, cfg.k + i, plan.group, cfg.k + j, plan.stripe);
  }

  lemma FilesAfterParity(env: Env, plan: Plan, fs0: Files, done: set<Op>, fs: Files, i: nat)
    requires env.Ok() && |plan.paths| == |plan.sizes| == env.cfg.k
    requires FilesAchieved(env, plan, fs0, done, fs)
    requires i < env.cfg.m && forall j: nat | WriteParity(j) in done :: j < env.cfg.m
    requires forall pos: nat :: WritePad(pos) !in done
    ensures FilesAchieved(env, plan, fs0, done + {WriteParity(i)},
                          fs[ParityPath(env.cfg, plan, i) := ParityContent(env, plan, fs0, i)])
  {
    var done', path := done + {WriteParity(i)}, ParityPath(env.cfg, plan, i);
    var fs' := fs[path := ParityContent(env, plan, fs0, i)];
    assert WriteParity(i) in done';
    assert forall j: nat :: WriteParity(j) in done' <==> WriteParity(j) in done || j == i;
    assert forall pos: nat :: WritePad(pos) !in done';
    forall p ensures ParityWritten(env.cfg, plan, done', p) <==> ParityWritten(env.cfg, plan, done, p) || p == path {
      if ParityWritten(env.cfg, plan, done, p) {
        var j: nat :| WriteParity(j) in done && p == ParityPath(env.cfg, plan, j);
        assert WriteParity(j) in done';
      }
    }
    forall j: nat | WriteParity(j) in done'
      ensures ParityPath(env.cfg, plan, j) in fs'
      ensures fs'[ParityPath(env.cfg, plan, j)] == ParityContent(env, plan, fs0, j)
    {
      if ParityPath(env.cfg, plan, j) == path {
        ParityPathsDiffer(env.cfg, plan, i, j);
      }
    }
  }

  lemma FilesAfterPad(env: Env, plan: Plan, fs0: Files, done: set<Op>, fs: Files, pos: nat)
    requires env.Ok() && |plan.paths| == |plan.sizes| == env.cfg.k
    requires FilesAchieved(env, plan, fs0, done, fs)
    ensures FilesAchieved(env, plan, fs0, done + {WritePad(pos)}, fs[PadPath(env.cfg, plan, pos) := []])
  {
    var done', path := done + {WritePad(pos)}, PadPath(env.cfg, plan, pos);
    assert WritePad(pos) in done';
    assert forall j: nat :: WriteParity(j) in done' <==> WriteParity(j) in done;
    assert forall q: nat :: WritePad(q) in done' <==> WritePad(q) in done || q == pos;
    forall p ensures ParityWritten(env.cfg, plan, done', p) <==> ParityWritten(env.cfg, plan, done, p)
             ensures PadWritten(env.cfg, plan, done', p) <==> PadWritten(env.cfg, plan, done, p) || p == path
    {
      if ParityWritten(env.cfg, plan, done, p) {
        var j: nat :| WriteParity(j) in done && p == ParityPath(env.cfg, plan, j);
        assert WriteParity(j) in done';
      }
      if PadWritten(env.cfg, plan, done, p) {
        var q: nat :| WritePad(q) in done && p == PadPath(env.cfg, plan, q);
        assert WritePad(q) in done';
      }
    }
  }

  /** A step that writes no file leaves what is achieved in files. */
  lemma FilesAfterRowStep(env: Env, plan: Plan, fs0: Files, done: set<Op>, fs: Files, op: Op)
    requires env.Ok() && |plan.paths| == |plan.sizes| == env.cfg.k
    requires FilesAchieved(env, plan, fs0, done, fs) && !op.WriteParity? && !op.WritePad?
    ensures FilesAchieved(env, plan, fs0, done + {op}, fs)
  {
    var done' := done + {op};
    assert forall j: nat :: WriteParity(j) in done' <==> WriteParity(j) in done;
    assert forall q: nat :: WritePad(q) in done' <==> WritePad(q) in done;
    forall p ensures ParityWritten(env.cfg, plan, done', p) <==> ParityWritten(env.cfg, plan, done, p)
             ensures PadWritten(env.cfg, plan, done', p) <==> PadWritten(env.cfg, plan, done, p)
    {
      if ParityWritten(env.cfg, plan, done, p) {
        var j: nat :| WriteParity(j) in done && p == ParityPath(env.cfg, plan, j);
        assert WriteParity(j) in done';
      }
      if PadWritten(env.cfg, plan, done, p) {
        var q: nat :| WritePad(q) in done && p == PadPath(env.cfg, plan, q);
        assert WritePad(q) in done';
      }
    }
  }

  lemma RowsAfterFileStep(env: Env, plan: Plan, w0: World, done: set<Op>, t: Table, op: Op)
    requires env.Ok() && |plan.paths| == |plan.sizes| == env.cfg.k
    requires RowsAchieved(env, plan, w0, done, t) && Phase(op) <= 3
    ensures RowsAchieved(env, plan, w0, done + {op}, t)
  {
    var done' := done + {op};
    assert forall key :: RowInserted(env, plan, done', key) <==> RowInserted(env, plan, done, key);
    if Drop in done {
      forall key ensures RowAt(env, plan, w0, done', t, key) {
        assert RowAt(env, plan, w0, done, t, key);
      }
    }
  }

  lemma RowsAfterDrop(env: Env, plan: Plan, w0: World, done: set<Op>, t: Table)
    requires env.Ok() && |plan.paths| == |plan.sizes| == env.cfg.k
    requires RowsAchieved(env, plan, w0, done, t) && Drop !in done
    requires forall op | op in done :: Phase(op) <= 4
    ensures RowsAchieved(env, plan, w0, done + {Drop}, DataOnly(t, plan.group, plan.stripe))
  {
    var done' := done + {Drop};
    var t' := DataOnly(t, plan.group, plan.stripe);
    forall key ensures RowAt(env, plan, w0, done', t', key) {
      assert RowInserted(env, plan, done', key) <==> RowInserted(env, plan, done, key);
    }
  }

  lemma RowsAfterStamp(env: Env, plan: Plan, w0: World, done: set<Op>, t: Table, pos: nat)
    requires Ready(env, plan, w0)
    requires RowsAchieved(env, plan, w0, done, t) && Drop in done
    requires pos < env.cfg.k && plan.paths[pos].Some?
    ensures RowsAchieved(env, plan, w0, done + {Stamp(pos)}, Stamped(t, plan, pos))
  {
    var done', at := done + {Stamp(pos)}, plan.KeyAt(pos);
    assert Kept(w0.t, plan, at);
    assert RowAt(env, plan, w0, done, t, at);
    var t' := Stamped(t, plan, pos);
    forall key ensures RowAt(env, plan, w0, done', t', key) {
      assert RowAt(env, plan, w0, done, t, key);
      assert RowInserted(env, plan, done', key) <==> RowInserted(env, plan, done, key);
    }
  }

  lemma RowsAfterInsert(env: Env, plan: Plan, w0: World, done: set<Op>, t: Table, op: Op, key: Key)
    requires Ready(env, plan, w0)
    requires RowsAchieved(env, plan, w0, done, t) && Drop in done
    requires Belongs(env.cfg, plan, op) && op !in done
    requires match op case InsertPad(p) => key == plan.KeyAt(p)
                      case InsertParity(i) => key == plan.KeyAt(env.cfg.k + i)
                      case _ => false
    ensures key !in t
    ensures RowsAchieved(env, plan, w0, done + {op}, t[key := NewRow(env, plan, w0.fs, key)])
  {
    var done' := done + {op};
    if key in w0.t {
      assert RowPlaced(env.cfg, key, w0.t[key]);
    }
    assert !Kept(w0.t, plan, key) && RowAt(env, plan, w0, done, t, key);
    var t' := t[key := NewRow(env, plan, w0.fs, key)];
    forall k ensures RowAt(env, plan, w0, done', t', k) {
      assert RowAt(env, plan, w0, done, t, k);
      assert RowInserted(env, plan, done', k) <==> RowInserted(env, plan, done, k) || k == key;
    }
  }

  /** Rows stay in their places at every step. */
  lemma AchievedPlaced(env: Env, plan: Plan, w0: World, done: set<Op>, t: Table)
    requires Ready(env, plan, w0) && RowsAchieved(env, plan, w0, done, t)
    requires forall op | op in done :: Belongs(env.cfg, plan, op)
    ensures RowsPlaced(env.cfg, t)
  {
    if Drop in done {
      forall k | k in t ensures RowPlaced(env.cfg, k, t[k]) {
        assert RowAt(env, plan, w0, done, t, k);
        if !RowInserted(env, plan, done, k) {
          assert RowPlaced(env.cfg, k, w0.t[k]);
        }
      }
    }
  }

  /** No insert of a stripe's own rows violates a unique index. */
  lemma InsertNeverConflicts(env: Env, plan: Plan, w0: World, done: set<Op>, t: Table, key: Key)
    requires Ready(env, plan, w0) && RowsAchieved(env, plan, w0, done, t)
    requires forall op | op in done :: Belongs(env.cfg, plan, op)
    requires key !in t && InStripe(key, plan.group, plan.stripe) && key.pos < env.cfg.Total()
    ensures !Conflicts(t, key, NewRow(env, plan, w0.fs, key))
  {
    AchievedPlaced(env, plan, w0, done, t);
    var row := NewRow(env, plan, w0.fs, key);
    forall k | k in t ensures !RowsClash(k, t[k], key, row) {
      assert RowPlaced(env.cfg, k, t[k]);
      PlacedRowsDiffer(env.cfg, k, t[k], key, row);
    }
  }

  lemma FileStepAchieves(env: Env, plan: Plan, w0: World, done: set<Op>, w: World, op: Op)
    requires Ready(env, plan, w0) && Achieved(env, plan, w0, done, w)
    requires Belongs(env.cfg, plan, op) && Phase(op) <= 3
    requires forall o | o in done :: Phase(o) <= Phase(op) && Belongs(env.cfg, plan, o)
    requires op !in done
    ensures Exec(env, plan, op, w).ok ==> Achieved(env, plan, w0, done + {op}, Exec(env, plan, op, w).w)
    ensures !op.OpenData? && !op.Verify? ==> Exec(env, plan, op, w).ok
    ensures !Exec(env, plan, op, w).ok ==> Exec(env, plan, op, w).w == w
  {
    DataUntouched(env, plan, w0, done, w.fs);
    assert !op.Verify? ==> Verify !in done;
    RowsAfterFileStep(env, plan, w0, done, w.t, op);
    hide RowsAchieved, ParityContent;
    match op {
      case OpenData =>
        if Exec(env, plan, op, w).ok {
          OpenAchieves(env, plan, w0, done, w);
        }
        FilesAfterRowStep(env, plan, w0.fs, done, w.fs, op);
        hide FilesAchieved;
      case WriteParity(i) =>
        assert forall j: nat | WriteParity(j) in done :: Belongs(env.cfg, plan, WriteParity(j));
        FilesAfterParity(env, plan, w0.fs, done, w.fs, i);
        hide FilesAchieved;
      case WritePad(pos) =>
        FilesAfterPad(env, plan, w0.fs, done, w.fs, pos);
        hide FilesAchieved;
      case Verify =>
        FilesAfterRowStep(env, plan, w0.fs, done, w.fs, op);
        hide FilesAchieved;
    }
  }

  /** What an insert step does once the files it reads are there. */
  lemma InsertStep(env: Env, plan: Plan, w0: World, done: set<Op>, w: World, op: Op, key: Key)
    requires Ready(env, plan, w0) && Achieved(env, plan, w0, done, w)
    requires Belongs(env.cfg, plan, op) && op !in done && Drop in done
    requires forall o | o in done :: Belongs(env.cfg, plan, o)
    requires match op case InsertPad(p) => key == plan.KeyAt(p)
                      case InsertParity(i) => key == plan.KeyAt(env.cfg.k + i) && WriteParity(i) in done
                      case _ => false
    ensures Exec(env, plan, op, w) == Outcome(w.(t := w.t[key := NewRow(env, plan, w0.fs, key)]), true)
    ensures RowsAchieved(env, plan, w0, done + {op}, w.t[key := NewRow(env, plan, w0.fs, key)])
  {
    RowsAfterInsert(env, plan, w0, done, w.t, op, key);
    InsertNeverConflicts(env, plan, w0, done, w.t, key);
    hide RowsAchieved, Conflicts, Verified;
    if op.InsertParity? {
      assert w.fs[ParityPath(env.cfg, plan, op.i)] == ParityContent(env, plan, w0.fs, op.i);
    }
    hide FilesAchieved, ParityContent;
  }

  lemma RowStepAchieves(env: Env, plan: Plan, w0: World, done: set<Op>, w: World, op: Op)
    requires Ready(env, plan, w0) && Achieved(env, plan, w0, done, w)
    requires Belongs(env.cfg, plan, op) && op !in done && Phase(op) > 3
    requires forall o | o in done :: Phase(o) <= Phase(op) && Belongs(env.cfg, plan, o)
    requires op.Drop? || Drop in done
    requires op.InsertParity? ==> WriteParity(op.i) in done
    ensures Exec(env, plan, op, w).ok
    ensures Achieved(env, plan, w0, done + {op}, Exec(env, plan, op, w).w)
  {
    FilesAfterRowStep(env, plan, w0.fs, done, w.fs, op);
    assert forall o: Op :: o in done + {op} <==> o in done || o == op;
    match op {
      case Drop =>
        RowsAfterDrop(env, plan, w0, done, w.t);
        hide FilesAchieved, RowsAchieved, Verified;
      case Stamp(pos) =>
        RowsAfterStamp(env, plan, w0, done, w.t, pos);
        hide FilesAchieved, RowsAchieved, Verified;
      case InsertPad(pos) =>
        InsertStep(env, plan, w0, done, w, op, plan.KeyAt(pos));
        hide FilesAchieved, RowsAchieved, Verified, Exec;
      case InsertParity(i) =>
        InsertStep(env, plan, w0, done, w, op, plan.KeyAt(env.cfg.k + i));
        hide FilesAchieved, RowsAchieved, Verified, Exec;
    }
  }

  /** One more step of the program. Only opening the data and verifying the stripe can fail. */
  lemma StepAchieves(env: Env, plan: Plan, w0: World, n: nat, w: World)
    requires Ready(env, plan, w0) && n < |Program(env.cfg, plan)|
    requires Achieved(env, plan, w0, Done(env.cfg, plan, n), w)
    ensures var op := Program(env.cfg, plan)[n];
            var out := Exec(env, plan, op, w);
            && (out.ok ==> Achieved(env, plan, w0, Done(env.cfg, plan, n + 1), out.w))
            && (!op.OpenData? && !op.Verify? ==> out.ok)
            && (!out.ok ==> out.w == w)
  {
    NextStep(env.cfg, plan, n);
    var op := Program(env.cfg, plan)[n];
    var done := Done(env.cfg, plan, n);
    assert Done(env.cfg, plan, n + 1) == done + {op};
    assert forall o | Belongs(env.cfg, plan, o) && Phase(o) < Phase(op) :: o in done;
    hide Achieved, Program, Exec;
    if Phase(op) <= 3 {
      FileStepAchieves(env, plan, w0, done, w, op);
    } else {
      RowStepAchieves(env, plan, w0, done, w, op);
    }
  }

  /** The first n steps, as a set. */
  function Done(cfg: Config, plan: Plan, n: nat): set<Op>
    requires |plan.paths| == cfg.k && n <= |Program(cfg, plan)|
  {
    set op | op in Program(cfg, plan)[..n]
  }

  lemma OpenAchieves(env: Env, plan: Plan, w0: World, done: set<Op>, w: World)
    requires Ready(env, plan, w0) && Achieved(env, plan, w0, done, w)
    requires forall p | p in plan.paths && p.Some? :: p.value in w.fs
    ensures forall p | p in plan.paths && p.Some? :: p.value in w0.fs
  {
  }

  // ---- whole programs -----------------------------------------------------------------------

  lemma StartAchieves(env: Env, plan: Plan, w0: World)
    requires Ready(env, plan, w0)
    ensures Run(env, plan, Program(env.cfg, plan)[..0], w0) == Outcome(w0, true)
    ensures Achieved(env, plan, w0, Done(env.cfg, plan, 0), w0)
  {
    NothingAchieved(env, plan, w0);
    assert Done(env.cfg, plan, 0) == {};
  }

  /** Running any number of steps achieves what they are for; a failure leaves what was achieved. */
  lemma {:induction false} RunAchieves(env: Env, plan: Plan, w0: World, n: nat)
    requires Ready(env, plan, w0) && n <= |Program(env.cfg, plan)|
    ensures var out := Run(env, plan, Program(env.cfg, plan)[..n], w0);
            out.ok ==> Achieved(env, plan, w0, Done(env.cfg, plan, n), out.w)
  {
    hide Achieved, Program, Exec, Done, Run;
    var prog := Program(env.cfg, plan);
    if n == 0 {
      StartAchieves(env, plan, w0);
    } else {
      RunAchieves(env, plan, w0, n - 1);
      RunNext(env, plan, prog, n - 1, w0);
      var before := Run(env, plan, prog[..n - 1], w0);
      if before.ok {
        StepAchieves(env, plan, w0, n - 1, before.w);
      }
    }
  }

  /** The files of a stripe after all its steps; files that are not its own are as before. */
  ghost predicate FilesBuilt(env: Env, plan: Plan, fs0: Files, fs: Files)
    requires env.Ok() && |plan.paths| == |plan.sizes| == env.cfg.k
  {
    && (forall i: nat | i < env.cfg.m ::
          ParityPath(env.cfg, plan, i) in fs
          && fs[ParityPath(env.cfg, plan, i)] == ParityContent(env, plan, fs0, i))
    && (forall p: nat | p < env.cfg.k && plan.paths[p].None? ::
          PadPath(env.cfg, plan, p) in fs && fs[PadPath(env.cfg, plan, p)] == [])
    && (forall p | !OwnFile(env.cfg, plan, p) :: (p in fs <==> p in fs0) && (p in fs0 ==> fs[p] == fs0[p]))
  }

  /** The stripe after all its steps: files and rows. */
  ghost predicate IsBuilt(env: Env, plan: Plan, w0: World, w: World)
    requires env.Ok() && |plan.paths| == |plan.sizes| == env.cfg.k
  {
    && (forall p | p in plan.paths && p.Some? :: p.value in w0.fs)
    && FilesBuilt(env, plan, w0.fs, w.fs)
    && Verified(env, plan, w.fs)
    && (forall key :: BuiltAt(env, plan, w0, w.t, key))
  }

  /** A file the stripe writes. */
  ghost predicate OwnFile(cfg: Config, plan: Plan, p: Path)
    requires cfg.Ok() && |plan.paths| == cfg.k
  {
    || (exists i: nat :: i < cfg.m && p == ParityPath(cfg, plan, i))
    || (exists q: nat :: q < cfg.k && plan.paths[q].None? && p == PadPath(cfg, plan, q))
  }

  /** Every position of the stripe has its row, stamped with the padded size; other rows are as before. */
  ghost predicate BuiltAt(env: Env, plan: Plan, w0: World, t: Table, key: Key)
    requires env.Ok() && |plan.paths| == |plan.sizes| == env.cfg.k
  {
    if !InStripe(key, plan.group, plan.stripe) then
      (key in t <==> key in w0.t) && (key in t ==> t[key] == w0.t[key])
    else if key.pos >= env.cfg.Total() then
      key !in t
    else if key.pos < env.cfg.k && plan.paths[key.pos].Some? && key in w0.t then
      key in t && t[key] == StampedRow(plan, w0.t[key], key.pos)
    else
      key in t && t[key] == NewRow(env, plan, w0.fs, key)
  }

  lemma AllDoneIsBuilt(env: Env, plan: Plan, w0: World, w: World)
    requires Ready(env, plan, w0)
    requires Achieved(env, plan, w0, Done(env.cfg, plan, |Program(env.cfg, plan)|), w)
    ensures IsBuilt(env, plan, w0, w)
  {
    var prog := Program(env.cfg, plan);
    var done := Done(env.cfg, plan, |prog|);
    assert prog[..|prog|] == prog;
    forall op ensures op in done <==> Belongs(env.cfg, plan, op) {
      ProgramMembers(env.cfg, plan, op);
    }
    hide Program, Done;
    assert OpenData in done && Verify in done;
    forall key ensures BuiltAt(env, plan, w0, w.t, key) {
      BuiltKey(env, plan, w0, done, w.t, key);
    }
    AllFilesBuilt(env, plan, w0.fs, done, w.fs);
    hide FilesAchieved, RowsAchieved, Verified, FilesBuilt, BuiltAt, Belongs;
  }

  lemma AllFilesBuilt(env: Env, plan: Plan, fs0: Files, done: set<Op>, fs: Files)
    requires env.Ok() && |plan.paths| == |plan.sizes| == env.cfg.k
    requires FilesAchieved(env, plan, fs0, done, fs)
    requires forall op | Phase(op) <= 2 :: op in done <==> Belongs(env.cfg, plan, op)
    ensures FilesBuilt(env, plan, fs0, fs)
  {
    forall i: nat | i < env.cfg.m ensures WriteParity(i) in done {
      assert Belongs(env.cfg, plan, WriteParity(i));
    }
    forall p: nat | p < env.cfg.k && plan.paths[p].None? ensures WritePad(p) in done {
      assert Belongs(env.cfg, plan, WritePad(p));
    }
    forall p | !OwnFile(env.cfg, plan, p)
      ensures !ParityWritten(env.cfg, plan, done, p) && !PadWritten(env.cfg, plan, done, p)
    {
      assert forall i: nat | WriteParity(i) in done :: Belongs(env.cfg, plan, WriteParity(i));
      assert forall q: nat | WritePad(q) in done :: Belongs(env.cfg, plan, WritePad(q));
    }
  }

  lemma BuiltKey(env: Env, plan: Plan, w0: World, done: set<Op>, t: Table, key: Key)
    requires Ready(env, plan, w0) && RowsAchieved(env, plan, w0, done, t)
    requires forall op :: op in done <==> Belongs(env.cfg, plan, op)
    ensures BuiltAt(env, plan, w0, t, key)
  {
    assert Drop in done;
    assert RowAt(env, plan, w0, done, t, key);
    if InStripe(key, plan.group, plan.stripe) {
      assert key == plan.KeyAt(key.pos);
      if key in w0.t {
        assert RowPlaced(env.cfg, key, w0.t[key]);
      }
      if key.pos < env.cfg.k {
        assert Stamp(key.pos) in done <==> plan.paths[key.pos].Some?;
        assert InsertPad(key.pos) in done <==> plan.paths[key.pos].None?;
      } else {
        assert InsertParity(key.pos - env.cfg.k) in done <==> key.pos < env.cfg.Total();
      }
    }
  }

  /** A stripe that runs to its end has all its files and rows, and every byte column of its zero-padded
      files is a codeword. */
  lemma ProgramBuilds(env: Env, plan: Plan, w0: World)
    requires Ready(env, plan, w0)
    ensures var out := Run(env, plan, Program(env.cfg, plan), w0);
            out.ok ==> IsBuilt(env, plan, w0, out.w)
  {
    var prog := Program(env.cfg, plan);
    assert prog[..|prog|] == prog;
    RunAchieves(env, plan, w0, |prog|);
    if Run(env, plan, prog, w0).ok {
      AllDoneIsBuilt(env, plan, w0, Run(env, plan, prog, w0).w);
    }
  }
}
