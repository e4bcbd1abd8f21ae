/** Where position `pos` of a stripe lives: the fixed and the rotating partition layout. */
module Layout {
  import opened Paths

  /** The erasure codes the program accepts. */
  predicate ValidShape(k: int, m: int) {
    0 < k <= 24 && (m == 0 || ((m == 2 || m == 4 || m == 6) && k + m <= 24))
  }

  datatype Rotation = Raid3 | Raid5

  datatype Config =
    Config(k: nat, m: nat, groups: nat, capacity: nat, rotation: Rotation, naming: Naming) {
    function Total(): nat { k + m }

    predicate Ok() { k > 0 && groups > 0 && capacity > 0 }
  }

  function Partition(cfg: Config, group: nat, pos: nat, stripe: nat): nat
    requires cfg.Ok()
  {
    if cfg.rotation.Raid5? then group * cfg.Total() + (pos + stripe) % cfg.Total()
    else group * cfg.Total() + pos
  }

  function GroupOf(cfg: Config, part: nat): nat
    requires cfg.Ok()
  {
    part / cfg.Total()
  }

  /** The position a stripe has in a partition of its group. */
  function PosOf(cfg: Config, part: nat, stripe: nat): nat
    requires cfg.Ok()
  {
    if cfg.rotation.Raid5? then (part % cfg.Total() - stripe) % cfg.Total() else part % cfg.Total()
  }

  /** Both layouts start with position p of a group in its partition p. From one stripe to the next the fixed layout
      keeps the partition, and the rotating one goes on to the next partition of the group, after the last to the
      first. */
  lemma NextPartition(cfg: Config, group: nat, pos: nat, stripe: nat)
    requires cfg.Ok() && pos < cfg.Total()
    ensures Partition(cfg, group, pos, 0) == group * cfg.Total() + pos
    ensures var here, next := Partition(cfg, group, pos, stripe), Partition(cfg, group, pos, stripe + 1);
            var first, last := group * cfg.Total(), group * cfg.Total() + cfg.Total() - 1;
            && first <= here <= last
            && next == if cfg.rotation.Raid3? then here else if here == last then first else here + 1
  {
    var n := cfg.Total();
    var r := (pos + stripe) % n;
    assert pos + stripe == ((pos + stripe) / n) * n + r;
    DivModUnique(pos, n, 0, pos);
    if r == n - 1 {
      assert pos + stripe + 1 == ((pos + stripe) / n + 1) * n + 0;
      DivModUnique(pos + stripe + 1, n, (pos + stripe) / n + 1, 0);
    } else {
      DivModUnique(pos + stripe + 1, n, (pos + stripe) / n, r + 1);
    }
  }

  lemma {:induction false} MultipleGrows(d: nat, n: nat)
    requires d > 0
    ensures d * n >= n
  {
    if d > 1 {
      MultipleGrows(d - 1, n);
      assert d * n == (d - 1) * n + n;
    }
  }

  lemma NonzeroMultiple(d: int, n: int)
    requires n > 0
    ensures d > 0 ==> d * n >= n
    ensures d < 0 ==> d * n <= -n
  {
    if d > 0 {
      MultipleGrows(d, n);
    } else if d < 0 {
      MultipleGrows(-d, n);
    }
  }

  lemma QuotientUnique(q: int, r: int, q': int, r': int, n: int)
    requires n > 0 && q * n + r == q' * n + r' && 0 <= r < n && 0 <= r' < n
    ensures q == q' && r == r'
  {
    assert (q - q') * n == r' - r;
    NonzeroMultiple(q - q', n);
  }

  lemma DivModUnique(a: int, n: int, q: int, r: int)
    requires n > 0 && a == q * n + r && 0 <= r < n
    ensures a / n == q && a % n == r
  {
    assert a == (a / n) * n + a % n;
    QuotientUnique(q, r, a / n, a % n, n);
  }

  lemma ModShift(a: int, n: int, c: int)
    requires n > 0
    ensures (a + c * n) % n == a % n
  {
    assert a + c * n == (a / n + c) * n + a % n;
    DivModUnique(a + c * n, n, a / n + c, a % n);
  }

  /** Taking a remainder first changes nothing. */
  lemma ModOfMod(a: int, b: int, n: int)
    requires n > 0
    ensures (a % n + b) % n == (a + b) % n
  {
    assert a % n + b == a + b + (-(a / n)) * n;
    ModShift(a + b, n, -(a / n));
  }

  /** pos -> partition is a bijection onto the k+m partitions of the group, with PosOf its inverse. */
  lemma PartitionRoundTrip(cfg: Config, group: nat, pos: nat, stripe: nat)
    requires cfg.Ok() && pos < cfg.Total()
    ensures GroupOf(cfg, Partition(cfg, group, pos, stripe)) == group
    ensures PosOf(cfg, Partition(cfg, group, pos, stripe), stripe) == pos
  {
    var n := cfg.Total();
    var part := Partition(cfg, group, pos, stripe);
    if cfg.rotation.Raid5? {
      var r := (pos + stripe) % n;
      DivModUnique(part, n, group, r);
      ModOfMod(pos + stripe, 0 - stripe, n);
      DivModUnique(pos, n, 0, pos);
    } else {
      DivModUnique(part, n, group, pos);
    }
  }

  lemma PosRoundTrip(cfg: Config, part: nat, stripe: nat)
    requires cfg.Ok()
    ensures PosOf(cfg, part, stripe) < cfg.Total()
    ensures Partition(cfg, GroupOf(cfg, part), PosOf(cfg, part, stripe), stripe) == part
  {
    var n := cfg.Total();
    if cfg.rotation.Raid5? {
      ModOfMod(part % n - stripe, stripe, n);
      DivModUnique(part % n, n, 0, part % n);
    }
    assert part == (part / n) * n + part % n;
  }

  /** Two positions share a partition at one stripe number only if they are the same position
      of the same group. */
  lemma PartitionInjective(cfg: Config, g: nat, p: nat, g': nat, p': nat, stripe: nat)
    requires cfg.Ok() && p < cfg.Total() && p' < cfg.Total()
    requires Partition(cfg, g, p, stripe) == Partition(cfg, g', p', stripe)
    ensures g == g' && p == p'
  {
    PartitionRoundTrip(cfg, g, p, stripe);
    PartitionRoundTrip(cfg, g', p', stripe);
  }

  /** A position after the first shares its partition with a data position of the next stripe. */
  lemma NextStripeShares(cfg: Config, g: nat, p: nat, s: nat) returns (q: nat)
    requires cfg.Ok() && 0 < p < cfg.k
    ensures q < cfg.k && Partition(cfg, g, q, s + 1) == Partition(cfg, g, p, s)
  {
    q := if cfg.rotation.Raid5? then p - 1 else p;
  }

  /** Under raid3 a data partition never holds parity, whatever the stripe. */
  lemma Raid3SeparatesParity(cfg: Config, g: nat, p: nat, s: nat, g': nat, p': nat, s': nat)
    requires cfg.Ok() && cfg.rotation.Raid3?
    requires p < cfg.k <= p' < cfg.Total()
    ensures Partition(cfg, g, p, s) != Partition(cfg, g', p', s')
  {
    DivModUnique(Partition(cfg, g, p, s), cfg.Total(), g, p);
    DivModUnique(Partition(cfg, g', p', s'), cfg.Total(), g', p');
  }

  /** The stripes of a window of k+m consecutive stripes whose parity falls on a partition. */
  function ParityStripes(cfg: Config, part: nat, from: nat): set<nat>
    requires cfg.Ok()
  {
    set s | from <= s < from + cfg.Total() && PosOf(cfg, part, s) >= cfg.k
  }

  /** The stripe of the window at which a partition has position pos. */
  function StripeAt(cfg: Config, part: nat, from: nat, pos: nat): nat
    requires cfg.Ok()
  {
    from + (part % cfg.Total() - pos - from) % cfg.Total()
  }

  lemma StripeAtInverts(cfg: Config, part: nat, from: nat, pos: nat)
    requires cfg.Ok() && cfg.rotation.Raid5? && pos < cfg.Total()
    ensures PosOf(cfg, part, StripeAt(cfg, part, from, pos)) == pos
  {
    var n := cfg.Total();
    var x := part % n - pos - from;
    // part % n - stripe is pos plus a multiple of n
    assert x == (x / n) * n + x % n;
    ModShift(pos, n, x / n);
    DivModUnique(pos, n, 0, pos);
  }

  lemma StripeAtUnique(cfg: Config, part: nat, from: nat, s: nat)
    requires cfg.Ok() && cfg.rotation.Raid5? && from <= s < from + cfg.Total()
    ensures s == StripeAt(cfg, part, from, PosOf(cfg, part, s))
  {
    var n := cfg.Total();
    var x := part % n - s;
    assert x == (x / n) * n + x % n;
    ModShift(s - from, n, x / n);
    DivModUnique(s - from, n, 0, s - from);
  }

  /** The m parity positions of a window are the images of m distinct positions. */
  lemma {:induction false} CountParity(cfg: Config, part: nat, from: nat, upTo: nat)
    requires cfg.Ok() && cfg.rotation.Raid5? && cfg.k <= upTo <= cfg.Total()
    ensures |set s | from <= s < from + cfg.Total() && cfg.k <= PosOf(cfg, part, s) < upTo| == upTo - cfg.k
    decreases upTo
  {
    var these := set s | from <= s < from + cfg.Total() && cfg.k <= PosOf(cfg, part, s) < upTo;
    if upTo == cfg.k {
      assert these == {};
    } else {
      CountParity(cfg, part, from, upTo - 1);
      StripeAtInverts(cfg, part, from, upTo - 1);
      forall s | from <= s < from + cfg.Total() && PosOf(cfg, part, s) == upTo - 1
        ensures s == StripeAt(cfg, part, from, upTo - 1)
      {
        StripeAtUnique(cfg, part, from, s);
      }
      var fewer := set s | from <= s < from + cfg.Total() && cfg.k <= PosOf(cfg, part, s) < upTo - 1;
      assert these == fewer + {StripeAt(cfg, part, from, upTo - 1)};
    }
  }

  /** Under raid5 any k+m consecutive stripes put exactly m parity shards on every partition. */
  lemma Raid5SpreadsParity(cfg: Config, part: nat, from: nat)
    requires cfg.Ok() && cfg.rotation.Raid5?
    ensures |ParityStripes(cfg, part, from)| == cfg.m
  {
    CountParity(cfg, part, from, cfg.Total());
    forall s: nat ensures PosOf(cfg, part, s) < cfg.Total() {
      PosRoundTrip(cfg, part, s);
    }
    assert ParityStripes(cfg, part, from)
        == set s | from <= s < from + cfg.Total() && cfg.k <= PosOf(cfg, part, s) < cfg.Total();
  }
}
