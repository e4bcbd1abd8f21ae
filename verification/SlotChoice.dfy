/** Which slot a DATA shard goes to: the first fitting PAD, else the first fitting hole of a started
    stripe, else position 0 of the next stripe in the first group whose k data partitions all fit. */
module SlotChoice {
  import opened Bytes
  import opened Layout
  import opened ShardTable

  datatype Slot = Slot(key: Key, usePad: bool)

  ghost predicate Fits(cfg: Config, t: Table, size: nat, key: Key)
    requires cfg.Ok()
  {
    cfg.capacity - UsedBy(t, PartitionOf(cfg, key)) >= size
  }

  ghost predicate PadFits(cfg: Config, t: Table, size: nat, key: Key)
    requires cfg.Ok()
  {
    cfg.m > 0 && key in t && t[key].kind.PAD? && key.pos < cfg.k && Fits(cfg, t, size, key)
  }

  ghost predicate HoleFits(cfg: Config, t: Table, size: nat, key: Key)
    requires cfg.Ok()
  {
    && key.group < cfg.groups && key.pos < cfg.k && key !in t
    && Started(t, key.group, key.stripe) && Fits(cfg, t, size, key)
  }

  ghost predicate Next(t: Table, group: nat, stripe: nat) {
    !Started(t, group, stripe) && (stripe == 0 || Started(t, group, stripe - 1))
  }

  ghost predicate Opens(cfg: Config, t: Table, size: nat, key: Key)
    requires cfg.Ok()
  {
    && key.group < cfg.groups && key.pos == 0 && Next(t, key.group, key.stripe)
    && forall p: nat | p < cfg.k :: Fits(cfg, t, size, Key(key.group, key.stripe, p))
  }

  ghost predicate FirstPad(cfg: Config, t: Table, size: nat, key: Key)
    requires cfg.Ok()
  {
    PadFits(cfg, t, size, key) && forall k | Less(k, key) :: !PadFits(cfg, t, size, k)
  }

  ghost predicate FirstHole(cfg: Config, t: Table, size: nat, key: Key)
    requires cfg.Ok()
  {
    HoleFits(cfg, t, size, key) && forall k | Less(k, key) :: !HoleFits(cfg, t, size, k)
  }

  ghost predicate FirstOpen(cfg: Config, t: Table, size: nat, key: Key)
    requires cfg.Ok()
  {
    Opens(cfg, t, size, key) && forall k: Key | k.group < key.group :: !Opens(cfg, t, size, k)
  }

  /** The choice of a slot that is not a PAD. */
  ghost predicate ChoosesNew(cfg: Config, t: Table, size: nat, c: Option<Key>)
    requires cfg.Ok()
  {
    match c
    case Some(key) =>
      FirstHole(cfg, t, size, key) || ((forall k :: !HoleFits(cfg, t, size, k)) && FirstOpen(cfg, t, size, key))
    case None => forall k :: !HoleFits(cfg, t, size, k) && !Opens(cfg, t, size, k)
  }

  ghost predicate Chooses(cfg: Config, t: Table, size: nat, c: Option<Slot>)
    requires cfg.Ok()
  {
    match c
    case Some(Slot(key, true)) => FirstPad(cfg, t, size, key)
    case Some(Slot(key, false)) => (forall k :: !PadFits(cfg, t, size, k)) && ChoosesNew(cfg, t, size, Some(key))
    case None => (forall k :: !PadFits(cfg, t, size, k)) && ChoosesNew(cfg, t, size, None)
  }

  lemma StartedDown(t: Table, g: nat)
    ensures forall s: nat, s': nat | s <= s' && Started(t, g, s') :: Started(t, g, s)
  {
    forall s: nat, s': nat | s <= s' && Started(t, g, s') ensures Started(t, g, s) {
      var k :| k in t && k.group == g && k.stripe >= s';
    }
  }

  lemma NextUnique(t: Table, g: nat, s: nat, s': nat)
    requires Next(t, g, s) && Next(t, g, s')
    ensures s == s'
  {
    StartedDown(t, g);
  }

  /** The rule determines the slot: there is never more than one choice. */
  lemma ChoiceUnique(cfg: Config, t: Table, size: nat, c: Option<Slot>, c': Option<Slot>)
    requires cfg.Ok() && Chooses(cfg, t, size, c) && Chooses(cfg, t, size, c')
    ensures c == c'
  {
    if c.Some? && c'.Some? {
      var a, b := c.value.key, c'.value.key;
      assert Less(a, b) || Less(b, a) || a == b;
      if FirstOpen(cfg, t, size, a) && FirstOpen(cfg, t, size, b) && a.group == b.group {
        NextUnique(t, a.group, a.stripe, b.stripe);
      }
    }
  }

  lemma {:induction false} LeastKey(s: set<Key>) returns (least: Key)
    requires s != {}
    ensures least in s && forall k | k in s :: !Less(k, least)
    decreases |s|
  {
    least :| least in s;
    if s - {least} != {} {
      var rest := LeastKey(s - {least});
      assert forall k | k in s :: k == least || k in s - {least};
      if Less(rest, least) { least := rest; }
    }
  }

  lemma {:induction false} StripeBound(t: Table) returns (bound: nat)
    ensures forall k | k in t :: k.stripe < bound
    decreases |t|
  {
    if k :| k in t {
      bound := StripeBound(t - {k});
      bound := Max(bound, k.stripe + 1);
    } else {
      bound := 0;
    }
  }

  ghost function Keys(groups: nat, stripes: nat, positions: nat): set<Key> {
    set g: nat, s: nat, p: nat | g < groups && s < stripes && p < positions :: Key(g, s, p)
  }

  /** Holes and next stripes lie within finitely many keys. */
  lemma SlotsAreBounded(cfg: Config, t: Table, size: nat, bound: nat)
    requires cfg.Ok() && forall k | k in t :: k.stripe < bound
    ensures forall k | HoleFits(cfg, t, size, k) || Opens(cfg, t, size, k) ::
              k in Keys(cfg.groups, bound + 1, cfg.k)
  {
    forall k | HoleFits(cfg, t, size, k) || Opens(cfg, t, size, k)
      ensures k in Keys(cfg.groups, bound + 1, cfg.k)
    {
      assert k.stripe <= bound;
      assert k == Key(k.group, k.stripe, k.pos);
    }
  }

  lemma NewChoiceExists(cfg: Config, t: Table, size: nat)
    requires cfg.Ok()
    ensures exists c :: ChoosesNew(cfg, t, size, c)
  {
    var bound := StripeBound(t);
    SlotsAreBounded(cfg, t, size, bound);
    var keys := Keys(cfg.groups, bound + 1, cfg.k);
    var holes := set k | k in keys && HoleFits(cfg, t, size, k);
    var opens := set k | k in keys && Opens(cfg, t, size, k);
    if holes != {} {
      var key := LeastKey(holes);
      assert FirstHole(cfg, t, size, key) by {
        assert forall k | HoleFits(cfg, t, size, k) :: k in holes;
      }
      assert ChoosesNew(cfg, t, size, Some(key));
    } else {
      assert forall k :: !HoleFits(cfg, t, size, k) by {
        assert forall k | HoleFits(cfg, t, size, k) :: k in holes;
      }
      if opens != {} {
        var key := LeastKey(opens);
        assert FirstOpen(cfg, t, size, key) by {
          assert forall k | Opens(cfg, t, size, k) :: k in opens;
        }
        assert ChoosesNew(cfg, t, size, Some(key));
      } else {
        assert forall k | Opens(cfg, t, size, k) :: k in opens;
        assert ChoosesNew(cfg, t, size, None);
      }
    }
  }

  /** The rule always decides. */
  lemma ChoiceExists(cfg: Config, t: Table, size: nat)
    requires cfg.Ok()
    ensures exists c :: Chooses(cfg, t, size, c)
  {
    var pads := set k | k in t && PadFits(cfg, t, size, k);
    if pads != {} {
      var key := LeastKey(pads);
      assert Chooses(cfg, t, size, Some(Slot(key, true)));
    } else {
      assert forall k | PadFits(cfg, t, size, k) :: k in pads;
      NewChoiceExists(cfg, t, size);
      var c :| ChoosesNew(cfg, t, size, c);
      assert Chooses(cfg, t, size, if c.Some? then Some(Slot(c.value, false)) else None);
    }
  }

  ghost function Choice(cfg: Config, t: Table, size: nat): (c: Option<Slot>)
    requires cfg.Ok()
    ensures Chooses(cfg, t, size, c)
  {
    ChoiceExists(cfg, t, size);
    var c :| Chooses(cfg, t, size, c);
    c
  }

  /** A chosen slot is a data position with room for the shard, and free or a PAD. */
  lemma ChosenFits(cfg: Config, t: Table, size: nat)
    requires cfg.Ok() && Choice(cfg, t, size).Some?
    ensures var slot := Choice(cfg, t, size).value;
            && slot.key.pos < cfg.k
            && Fits(cfg, t, size, slot.key)
            && (slot.usePad <==> slot.key in t)
            && (slot.usePad ==> t[slot.key].kind.PAD?)
  {
    var slot := Choice(cfg, t, size).value;
    assert forall k | Opens(cfg, t, size, k) && k in t :: Started(t, k.group, k.stripe);
    assert Opens(cfg, t, size, slot.key) ==> Fits(cfg, t, size, Key(slot.key.group, slot.key.stripe, 0));
  }

  /** Placement fails exactly when no PAD fits, no hole fits and no group can open a stripe. */
  lemma NoChoice(cfg: Config, t: Table, size: nat)
    requires cfg.Ok()
    ensures Choice(cfg, t, size).None? <==>
            forall k :: !PadFits(cfg, t, size, k) && !HoleFits(cfg, t, size, k) && !Opens(cfg, t, size, k)
  {
    var c := Choice(cfg, t, size);
    assert c.Some? ==> PadFits(cfg, t, size, c.value.key) || HoleFits(cfg, t, size, c.value.key)
                       || Opens(cfg, t, size, c.value.key);
  }

  /** Earlier by group, then by stripe, then by position. */
  predicate Earlier(a: Key, b: Key) {
    a.group < b.group || (a.group == b.group && (a.stripe < b.stripe || (a.stripe == b.stripe && a.pos < b.pos)))
  }

  /** There is as much space left in the partition of the position. */
  ghost predicate Room(cfg: Config, t: Table, size: nat, key: Key)
    requires cfg.Ok()
  {
    UsedBy(t, PartitionOf(cfg, key)) + size <= cfg.capacity
  }

  ghost predicate RoomyPad(cfg: Config, t: Table, size: nat, key: Key)
    requires cfg.Ok()
  {
    cfg.m > 0 && key in t && t[key].kind.PAD? && key.pos < cfg.k && Room(cfg, t, size, key)
  }

  /** A data position without a row in a stripe that has been started, or in one before a started one. */
  ghost predicate RoomyHole(cfg: Config, t: Table, size: nat, key: Key)
    requires cfg.Ok()
  {
    && key !in t && key.pos < cfg.k && key.group < cfg.groups && Room(cfg, t, size, key)
    && exists k :: k in t && k.group == key.group && k.stripe >= key.stripe
  }

  /** The stripe after the last one of a group, with room at each data position. */
  ghost predicate RoomyStripe(cfg: Config, t: Table, size: nat, group: nat, stripe: nat)
    requires cfg.Ok()
  {
    && group < cfg.groups
    && (forall k | k in t && k.group == group :: k.stripe < stripe)
    && (stripe == 0 || exists k :: k in t && k.group == group && k.stripe == stripe - 1)
    && forall p: nat | p < cfg.k :: Room(cfg, t, size, Key(group, stripe, p))
  }

  lemma OpensMeans(cfg: Config, t: Table, size: nat, key: Key)
    requires cfg.Ok()
    ensures Opens(cfg, t, size, key) <==> key.pos == 0 && RoomyStripe(cfg, t, size, key.group, key.stripe)
  {
    if Opens(cfg, t, size, key) && key.stripe > 0 {
      var k :| k in t && k.group == key.group && k.stripe >= key.stripe - 1;
      assert k.stripe == key.stripe - 1;
    }
    forall p: nat | p < cfg.k
      ensures Fits(cfg, t, size, Key(key.group, key.stripe, p)) <==> Room(cfg, t, size, Key(key.group, key.stripe, p))
    {
    }
  }

  /** First fit: the first PAD with room; without one, the first hole with room; without one, position 0 of the next
      stripe of the first group that has room for a stripe; otherwise nothing. */
  lemma FirstFit(cfg: Config, t: Table, size: nat)
    requires cfg.Ok()
    ensures match Choice(cfg, t, size)
            case Some(Slot(key, true)) =>
              RoomyPad(cfg, t, size, key) && forall k | Earlier(k, key) :: !RoomyPad(cfg, t, size, k)
            case Some(Slot(key, false)) =>
              && (forall k :: !RoomyPad(cfg, t, size, k))
              && if key.pos > 0 || exists k :: RoomyHole(cfg, t, size, k)
                 then RoomyHole(cfg, t, size, key) && forall k | Earlier(k, key) :: !RoomyHole(cfg, t, size, k)
                 else RoomyStripe(cfg, t, size, key.group, key.stripe)
                      && forall g: nat, s: nat | g < key.group :: !RoomyStripe(cfg, t, size, g, s)
            case None =>
              && (forall k :: !RoomyPad(cfg, t, size, k) && !RoomyHole(cfg, t, size, k))
              && forall g: nat, s: nat :: !RoomyStripe(cfg, t, size, g, s)
  {
    var c := Choice(cfg, t, size);
    forall k ensures PadFits(cfg, t, size, k) <==> RoomyPad(cfg, t, size, k)
             ensures HoleFits(cfg, t, size, k) <==> RoomyHole(cfg, t, size, k)
             ensures Opens(cfg, t, size, k) <==> k.pos == 0 && RoomyStripe(cfg, t, size, k.group, k.stripe)
    {
      OpensMeans(cfg, t, size, k);
    }
    hide PadFits, HoleFits, Opens, RoomyPad, RoomyHole, RoomyStripe;
    forall g: nat, s: nat ensures RoomyStripe(cfg, t, size, g, s) <==> Opens(cfg, t, size, Key(g, s, 0)) {
    }
  }
}
