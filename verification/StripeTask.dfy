/** What make-ec does to one stripe, as a list of atomic file and row steps. */
module StripeTask {
  import opened Bytes
  import opened Paths
  import opened Disk
  import opened Layout
  import opened ShardTable
  import opened ColumnCode
  import opened StripeBytes
  import opened Stream
  import opened Placement
  import opened BuildSpec

  datatype StripeKey = StripeKey(group: nat, stripe: nat)

  /** The fixed surroundings of a run: configuration, code and checksum. */
  datatype Env = Env(cfg: Config, code: Code, hash: Bytes -> string) {
    ghost predicate Ok() {
      cfg.Ok() && cfg.m > 0 && code.Shaped() && code.k == cfg.k && code.m == cfg.m
    }
  }

  /** A stripe with the DATA rows it had when the command read the table. */
  datatype Plan = Plan(group: nat, stripe: nat, paths: seq<Option<Path>>, sizes: seq<nat>) {
    function Id(): StripeKey { StripeKey(group, stripe) }

    function KeyAt(pos: nat): Key { Key(group, stripe, pos) }

    function Padded(): nat { MaxOf(sizes) }
  }

  function PlanFor(cfg: Config, t: Table, id: StripeKey): (plan: Plan)
    ensures |plan.paths| == |plan.sizes| == cfg.k && plan.Id() == id
  {
    var g, s := id.group, id.stripe;
    Plan(g, s,
         seq(cfg.k, p requires 0 <= p < cfg.k => if IsData(t, Key(g, s, p)) then Some(t[Key(g, s, p)].path) else None),
         seq(cfg.k, p requires 0 <= p < cfg.k => if IsData(t, Key(g, s, p)) then t[Key(g, s, p)].size else 0))
  }

  function ParityPath(cfg: Config, plan: Plan, i: nat): Path
    requires cfg.Ok()
  {
    Parity(PartitionOf(cfg, plan.KeyAt(cfg.k + i)), plan.stripe)
  }

  function PadPath(cfg: Config, plan: Plan, pos: nat): Path
    requires cfg.Ok()
  {
    Pad(PartitionOf(cfg, plan.KeyAt(pos)), plan.stripe)
  }

  /** The k+m files of the stripe in position order. */
  function StripePaths(cfg: Config, plan: Plan): (paths: seq<Path>)
    requires cfg.Ok() && |plan.paths| == cfg.k
    ensures |paths| == cfg.Total()
  {
    seq(cfg.Total(), p requires 0 <= p < cfg.Total() =>
      if p >= cfg.k then ParityPath(cfg, plan, p - cfg.k)
      else if plan.paths[p].Some? then plan.paths[p].value
      else PadPath(cfg, plan, p))
  }

  function PadRow(cfg: Config, plan: Plan, pos: nat): Row
    requires cfg.Ok()
  {
    Row(PAD, PartitionOf(cfg, plan.KeyAt(pos)), PadPath(cfg, plan, pos), 0, None, None, plan.Padded(), 0)
  }

  function ParityRow(env: Env, plan: Plan, i: nat, content: Bytes): Row
    requires env.cfg.Ok()
  {
    Row(EC, PartitionOf(env.cfg, plan.KeyAt(env.cfg.k + i)), ParityPath(env.cfg, plan, i), plan.Padded(), None,
        Some(env.hash(content)), plan.Padded(), 0)
  }

  datatype Op =
    | OpenData
    | WriteParity(i: nat)
    | WritePad(pos: nat)
    | Verify
    | Drop
    | Stamp(pos: nat)
    | InsertPad(pos: nat)
    | InsertParity(i: nat)

  function ParityContent(env: Env, plan: Plan, fs: Files, i: nat): Bytes
    requires |plan.paths| == |plan.sizes|
  {
    ParityFile(env.code, DataBytes(fs, plan.paths, plan.sizes), plan.Padded(), i)
  }

  function Stamped(t: Table, plan: Plan, pos: nat): Table
    requires pos < |plan.sizes|
  {
    Restamped(t, plan.KeyAt(pos), plan.Padded(), plan.sizes[pos])
  }

  function Inserted(t: Table, key: Key, row: Row): Option<Table> {
    if Conflicts(t, key, row) then None else Some(t[key := row])
  }

  /** One atomic step. A failed step changes nothing. */
  ghost function Exec(env: Env, plan: Plan, op: Op, w: World): Outcome
    requires env.Ok() && |plan.paths| == |plan.sizes| == env.cfg.k
  {
    match op
    case OpenData =>
      Outcome(w, forall p | p in plan.paths && p.Some? :: p.value in w.fs)
    case WriteParity(i) =>
      Outcome(w.(fs := w.fs[ParityPath(env.cfg, plan, i) := ParityContent(env, plan, w.fs, i)]), true)
    case WritePad(pos) =>
      Outcome(w.(fs := w.fs[PadPath(env.cfg, plan, pos) := []]), true)
    case Verify =>
      var paths := StripePaths(env.cfg, plan);
      Outcome(w, (forall p | p in paths :: p in w.fs) && Consistent(env.code, Contents(w.fs, paths), plan.Padded()))
    case Drop =>
      Outcome(w.(t := DataOnly(w.t, plan.group, plan.stripe)), true)
    case Stamp(pos) =>
      if pos < env.cfg.k then Outcome(w.(t := Stamped(w.t, plan, pos)), true) else Outcome(w, false)
    case InsertPad(pos) =>
      var t := Inserted(w.t, plan.KeyAt(pos), PadRow(env.cfg, plan, pos));
      if t.Some? then Outcome(w.(t := t.value), true) else Outcome(w, false)
    case InsertParity(i) =>
      var path := ParityPath(env.cfg, plan, i);
      if path !in w.fs then Outcome(w, false)
      else
        var t := Inserted(w.t, plan.KeyAt(env.cfg.k + i), ParityRow(env, plan, i, w.fs[path]));
        if t.Some? then Outcome(w.(t := t.value), true) else Outcome(w, false)
  }

  /** The positions of the stripe without a DATA row, or with one, in order. */
  function Positions(plan: Plan, data: bool, n: nat): (ps: seq<nat>)
    requires n <= |plan.paths|
    ensures forall p | p in ps :: p < n && plan.paths[p].Some? == data
    ensures forall p | 0 <= p < n && plan.paths[p].Some? == data :: p in ps
  {
    if n == 0 then []
    else if plan.paths[n - 1].Some? == data then Positions(plan, data, n - 1) + [n - 1]
    else Positions(plan, data, n - 1)
  }

  function WriteSteps(n: nat): seq<Op> { seq(n, i requires 0 <= i < n => WriteParity(i)) }

  function PadFileSteps(ps: seq<nat>): seq<Op> { seq(|ps|, i requires 0 <= i < |ps| => WritePad(ps[i])) }

  function StampSteps(ps: seq<nat>): seq<Op> { seq(|ps|, i requires 0 <= i < |ps| => Stamp(ps[i])) }

  function PadRowSteps(ps: seq<nat>): seq<Op> { seq(|ps|, i requires 0 <= i < |ps| => InsertPad(ps[i])) }

  function InsertSteps(n: nat): seq<Op> { seq(n, i requires 0 <= i < n => InsertParity(i)) }

  /** The steps of one stripe in the order make-ec takes them. */
  function Program(cfg: Config, plan: Plan): seq<Op>
    requires |plan.paths| == cfg.k
  {
    var pads, datas := Positions(plan, false, cfg.k), Positions(plan, true, cfg.k);
    [OpenData] + WriteSteps(cfg.m) + PadFileSteps(pads) + [Verify, Drop]
    + StampSteps(datas) + PadRowSteps(pads) + InsertSteps(cfg.m)
  }

  /** Steps run in order until one fails. */
  ghost function Run(env: Env, plan: Plan, ops: seq<Op>, w: World): Outcome
    requires env.Ok() && |plan.paths| == |plan.sizes| == env.cfg.k
  {
    if ops == [] then Outcome(w, true)
    else
      var before := Run(env, plan, ops[..|ops| - 1], w);
      if before.ok then Exec(env, plan, ops[|ops| - 1], before.w) else before
  }

  lemma {:induction false} RunAppend(env: Env, plan: Plan, a: seq<Op>, b: seq<Op>, w: World)
    requires env.Ok() && |plan.paths| == |plan.sizes| == env.cfg.k
    ensures var first := Run(env, plan, a, w);
            Run(env, plan, a + b, w) == if first.ok then Run(env, plan, b, first.w) else first
    decreases |b|
  {
    if b == [] {
      assert a + b == a;
    } else {
      var n := |b| - 1;
      assert (a + b)[..|a + b| - 1] == a + b[..n];
      RunAppend(env, plan, a, b[..n], w);
    }
  }

  lemma RunNext(env: Env, plan: Plan, ops: seq<Op>, n: nat, w: World)
    requires env.Ok() && |plan.paths| == |plan.sizes| == env.cfg.k && n < |ops|
    ensures var before := Run(env, plan, ops[..n], w);
            Run(env, plan, ops[..n + 1], w) == if before.ok then Exec(env, plan, ops[n], before.w) else before
  {
    assert ops[..n + 1][..n] == ops[..n];
  }
}
