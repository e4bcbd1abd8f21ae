/** Short lives of a small arcset that end where the program does less than one might expect. */
module SampleLives {
  import opened Bytes
  import opened Paths
  import opened Disk
  import opened Layout
  import opened ShardTable
  import opened SlotChoice
  import opened MoveFile
  import opened Placement
  import opened BuildSpec
  import opened PlacedSizes
  import opened BuildRetry
  import opened BuildCommand
  import opened DegradedFlag
  import opened StripeTask
  import opened StripeRun
  import opened StripeView
  import opened Schedule
  import opened MakeEcRun
  import opened MakeEcKeeps
  import opened CompleteStripes
  import opened PartitionLoss
  import opened Recover
  import opened Arcset
  import PairCode
  import Validate
  import Lifecycle
  import opened TrueRecords
  import Durability

  const CFG := Config(2, 2, 1, 10, Raid3, Naming(2, 3, ".bin"))

  /** A checksum that tells all contents apart. */
  function Hash(b: Bytes): (s: string)
    ensures |s| == |b| + 1
  {
    "#" + seq(|b|, i requires 0 <= i < |b| => b[i] as int as char)
  }

  lemma HashInjective(a: Bytes, b: Bytes)
    requires Hash(a) == Hash(b)
    ensures a == b
  {
    forall i | 0 <= i < |a| ensures a[i] == b[i] {
      assert Hash(a)[i + 1] == a[i] as int as char && Hash(b)[i + 1] == b[i] as int as char;
    }
  }

  const SETUP := Lifecycle.Setup(PairCode.PAIR, Mover(Hash, true))

  /** The first dataset has one shard, the second a small one and one larger than a partition. */
  function First(c: Bytes): Listed { Listed(0, |c|, Hash(c), Outside("s0")) }

  const SMALL := Listed(0, 1, Hash([7]), Outside("s1"))

  const LARGE := Listed(1, 11, Hash(Window([], 0, 11)), Outside("s2"))

  function Tree(c: Bytes): Files { map[Outside("s0") := c, Outside("s1") := [7]] }

  const FIRST := Relation(1, 0, "k", 0, 1)

  const SECOND := Relation(2, 0, "l", 1, 2)

  const BUILDING := Arcset(CFG, Building, DataPhase, Healthy, false)

  function FirstCatalog(c: Bytes): Catalog { map[1 := [First(c)]] }

  /** Appending the first dataset, building it, and adding parity. */
  function Commands(c: Bytes): seq<Lifecycle.Command> {
    [Lifecycle.Append(1, "k", 1), Lifecycle.BuildData(FirstCatalog(c), None), Lifecycle.MakeEc(None, None)]
  }

  // ---- the first dataset is placed ----------------------------------------------------------

  function FirstItem(c: Bytes): Item { Item(Source(1, 0), "k", |c|, Hash(c), Outside("s0")) }

  function FirstRow(c: Bytes): Row {
    Row(DATA, 0, Data(0, 0, "k-s0"), |c|, Some(Source(1, 0)), Some(Hash(c)), 0, 0)
  }

  function Placed(c: Bytes): World {
    World(map[Key(0, 0, 0) := FirstRow(c)], map[Data(0, 0, "k-s0") := c, Outside("s1") := [7]])
  }

  lemma NothingUsed(part: nat)
    ensures UsedBy(map[], part) == 0
  {
  }

  /** In an empty arcset a shard that fits opens the first stripe. */
  lemma FirstSlot(size: nat)
    requires size <= 10
    ensures CFG.Ok() && Choice(CFG, map[], size) == Some(Slot(Key(0, 0, 0), false))
  {
    var key := Key(0, 0, 0);
    forall p: nat ensures Fits(CFG, map[], size, Key(0, 0, p)) {
      NothingUsed(PartitionOf(CFG, Key(0, 0, p)));
    }
    assert Opens(CFG, map[], size, key);
    assert forall k :: !PadFits(CFG, map[], size, k) && !HoleFits(CFG, map[], size, k);
    assert Chooses(CFG, map[], size, Some(Slot(key, false)));
    ChoiceUnique(CFG, map[], size, Choice(CFG, map[], size), Some(Slot(key, false)));
  }

  lemma FirstIsPlaced(c: Bytes)
    requires |c| <= 10
    ensures CFG.Ok() && Step(CFG, SETUP.mover, World(map[], Tree(c)), FirstItem(c)) == Outcome(Placed(c), true)
  {
    FirstSlot(|c|);
    var key, item := Key(0, 0, 0), FirstItem(c);
    assert ItemSize(Tree(c), item) == |c|;
    assert BaseName(CFG.naming, item.src) == "s0";
    assert "k" + "-" + "s0" == "k-s0";
    assert Target(CFG, key, item) == Data(0, 0, "k-s0");
    hide Choice;
    assert "s0"[1] != "s1"[1];
    assert Tree(c)[Data(0, 0, "k-s0") := c] - {Outside("s0")} == Placed(c).fs;
    assert Moved(SETUP.mover, Tree(c), item.src, Data(0, 0, "k-s0"), item.sum) == Some(Placed(c).fs);
    assert Filled(CFG, map[], key, item, |c|) == Placed(c).t;
  }

  lemma FirstIsBuilt(c: Bytes)
    requires |c| <= 10
    ensures CFG.Ok()
    ensures BuildsData(BUILDING, SETUP.mover, FirstCatalog(c), None, [FIRST], World(map[], Tree(c)), BUILDING,
                       Outcome(Placed(c), true))
  {
    FirstIsPlaced(c);
    var catalog, own: PlainRelations, w := FirstCatalog(c), [FIRST], World(map[], Tree(c));
    OneItem(catalog, c);
    hide Step;
    assert Build(CFG, SETUP.mover, w, [FirstItem(c)][..0]) == Outcome(w, true);
    BuildAllIsBuild(CFG, SETUP.mover, catalog, None, w, own);
    hide BuildAll, AllItems;
    assert !LosesParity(w.t, Placed(c).t);
  }

  lemma OneItem(catalog: Catalog, c: Bytes)
    requires catalog == FirstCatalog(c)
    ensures AllItems(catalog, None, [FIRST]) == [FirstItem(c)] && AllOpen(catalog, None, [FIRST])
  {
    var own: PlainRelations := [FIRST];
    assert own[..0] == [];
    assert AllItems(catalog, None, own[..0]) == [];
    assert ItemsOf(FIRST, catalog[1]) == [FirstItem(c)];
  }

  // ---- and made complete --------------------------------------------------------------------

  function New(c: Bytes): Lifecycle.System { Lifecycle.System(Created(CFG), [], World(map[], Tree(c))) }

  function Appended(c: Bytes): Lifecycle.System { Lifecycle.System(BUILDING, [FIRST], World(map[], Tree(c))) }

  function Built(c: Bytes): Lifecycle.System { Lifecycle.System(BUILDING, [FIRST], Placed(c)) }

  lemma SetupSuits()
    ensures Lifecycle.Suits(SETUP, CFG) && SETUP.code.Lawful()
  {
    PairCode.PairIsLawful();
  }

  lemma FirstIsHonest(c: Bytes)
    ensures HonestCatalog(SETUP.mover, Tree(c), FirstCatalog(c))
  {
    assert forall b: Bytes | Hash(b) == Hash(c) :: |b| == |c|;
    assert First(c).src == Outside("s0");
    hide Hash;
    assert "s0"[1] != "s1"[1];
    assert Honest(SETUP.mover, Tree(c), First(c).src, First(c).size, First(c).sum);
  }

  lemma FirstAppended(c: Bytes)
    requires Lifecycle.Suits(SETUP, CFG)
    ensures Lifecycle.Next(SETUP, New(c), Lifecycle.Append(1, "k", 1), Appended(c))
  {
    var rel: PlainRelation := FIRST;
    assert Appended(c).own == New(c).own + [rel];
  }

  lemma FirstTwo(c: Bytes)
    requires Lifecycle.Suits(SETUP, CFG) && |c| <= 10
    ensures Lifecycle.Lives(SETUP, CFG, Tree(c), Commands(c)[..2], [New(c), Appended(c), Built(c)])
  {
    FirstAppended(c);
    FirstIsBuilt(c);
    var cmds, states := Commands(c)[..2], [New(c), Appended(c), Built(c)];
    assert cmds == [Lifecycle.Append(1, "k", 1), Lifecycle.BuildData(FirstCatalog(c), None)];
    hide BuildsData, HonestCatalog;
    assert Lifecycle.FromOutside(FirstCatalog(c));
    assert Lifecycle.Next(SETUP, Appended(c), cmds[1], Built(c));
    hide Lifecycle.Next;
  }

  lemma LifeIsHonest(c: Bytes)
    ensures HonestLife(SETUP.mover, Tree(c), Commands(c)) && HonestLife(SETUP.mover, Tree(c), Commands(c)[..2])
  {
    FirstIsHonest(c);
    hide HonestCatalog, FirstCatalog;
  }

  /** What make-ec makes of the arcset, and that data files and files outside the tree stay. */
  lemma MakeEcMakes(s: Lifecycle.System, s': Lifecycle.System)
    requires Lifecycle.Suits(SETUP, s.a.cfg) && Lifecycle.Inv(SETUP, s) && s.a.cfg.m > 0
    requires Lifecycle.Next(SETUP, s, Lifecycle.MakeEc(None, None), s') && !s.a.status.Completed?
    requires s'.a.status.Completed?
    ensures s'.own == s.own && s'.a == Completion(s.a.(status := Building, phase := ECPhase))
    ensures forall p: Path | p.Outside? || p.Data? ::
              (p in s'.w.fs <==> p in s.w.fs) && (p in s.w.fs ==> s'.w.fs[p] == s.w.fs[p])
  {
    var env := Lifecycle.EnvOf(SETUP, s.a);
    var ok :| Makes(env, s.a, s.w, None, None, s'.a, Outcome(s'.w, ok));
    var out := Outcome(s'.w, ok);
    hide Lifecycle.Inv, Runs, SelectedPlans, DataStripes;
    assert RowsPlaced(env.cfg, s.w.t);
    assert Builds(env, s.w, None, None, out);
    var schedule := BuildsByTurns(env, s.w, None, None, out);
    hide Builds, RowsPlaced;
    forall p: Path | p.Outside? || p.Data?
      ensures (p in s'.w.fs <==> p in s.w.fs) && (p in s.w.fs ==> s'.w.fs[p] == s.w.fs[p])
    {
      RunsKeepFile(env, SelectedPlans(env.cfg, s.w.t, None, None), s.w, schedule, p);
      assert FileKept(s.w.fs, s'.w.fs, p);
    }
  }

  lemma FirstCompletes(c: Bytes) returns (last: Lifecycle.System)
    requires Lifecycle.Suits(SETUP, CFG) && |c| <= 10
    ensures Lifecycle.Lives(SETUP, CFG, Tree(c), Commands(c), [New(c), Appended(c), Built(c), last])
    ensures last.own == [FIRST] && last.a == Completion(BUILDING)
    ensures Outside("s1") in last.w.fs && last.w.fs[Outside("s1")] == [7] && Data(1, 0, "l-s1") !in last.w.fs
  {
    hide HonestLife, Lifecycle.Lives, Lifecycle.Next, Lifecycle.Inv, Placed, FirstCatalog, Hash;
    FirstTwo(c);
    last := FirstMakesEc(c);
    MakeEcMakes(Built(c), last);
    var cmds, states := Commands(c)[..2], [New(c), Appended(c), Built(c)];
    Lifecycle.OneMore(SETUP, CFG, Tree(c), cmds, states, Lifecycle.MakeEc(None, None), last);
    assert cmds + [Lifecycle.MakeEc(None, None)] == Commands(c);
    assert states + [last] == [New(c), Appended(c), Built(c), last];
    SmallIsThere(c);
  }

  lemma SmallIsThere(c: Bytes)
    ensures Outside("s1") in Placed(c).fs && Placed(c).fs[Outside("s1")] == [7]
    ensures Data(1, 0, "l-s1") !in Placed(c).fs
  {
  }

  lemma FirstMakesEc(c: Bytes) returns (last: Lifecycle.System)
    requires Lifecycle.Suits(SETUP, CFG) && |c| <= 10
    requires Lifecycle.Lives(SETUP, CFG, Tree(c), Commands(c)[..2], [New(c), Appended(c), Built(c)])
    ensures Lifecycle.Inv(SETUP, Built(c))
    ensures Lifecycle.Next(SETUP, Built(c), Lifecycle.MakeEc(None, None), last) && last.a.status.Completed?
  {
    hide HonestLife, Lifecycle.Lives, Lifecycle.Next, Lifecycle.Inv, Hash;
    LifeIsHonest(c);
    assert IsData(Placed(c).t, Key(0, 0, 0));
    assert IdOf(Key(0, 0, 0)) in DataStripes(CFG, Placed(c).t);
    hide DataStripes;
    var states := [New(c), Appended(c), Built(c)];
    last := Durability.MakeEcCompletes(SETUP, CFG, Tree(c), Commands(c)[..2], states, 2);
  }

  // ---- a stripe whose only shard is empty ---------------------------------------------------

  lemma NoData(w: World, w': World)
    requires w.t == Placed([]).t && Lifecycle.KeepsData(w, w') && Lifecycle.AddsNothing(w, w')
    ensures IsData(w'.t, Key(0, 0, 0)) && forall id :: !SomeDataIn(w'.t, id)
  {
    assert IsData(w.t, Key(0, 0, 0));
    assert Lifecycle.ShardKept(w, w', Key(0, 0, 0));
    forall j | j in w'.t && w'.t[j].kind.DATA? ensures w'.t[j].size == 0 {
      assert IsData(w'.t, j);
      assert IsData(w.t, j);
    }
  }

  /** A life that completes with an empty shard: nothing is lost yet, but no recovery ever begins, whatever files are
      left and whichever shard and target are given, and the parity never validates. */
  lemma EmptyShardIsNotRecovered() returns (last: Lifecycle.System)
    ensures var states := [New([]), Appended([]), Built([]), last];
            Lifecycle.Suits(SETUP, CFG) && Lifecycle.Lives(SETUP, CFG, Tree([]), Commands([]), states)
    ensures last.a.status.Completed? && last.a.cfg == CFG && IsData(last.w.t, Key(0, 0, 0))
    ensures var env := Lifecycle.EnvOf(SETUP, last.a);
            && env.Ok()
            && (forall key, fs', target | key in last.w.t :: !Begins(env, last.w.t, fs', key, target))
            && !Validate.ParityValid(env, last.w)
  {
    hide Lifecycle.Lives, Lifecycle.Next, Lifecycle.Inv, Hash, Begins, Validate.ParityValid, SomeDataIn, Placed;
    SetupSuits();
    last := FirstCompletes([]);
    var env := Lifecycle.EnvOf(SETUP, last.a);
    LastIsSolid([], last);
    NoData(Placed([]), last.w);
    Durability.ValidatesExactly(env, last.w);
    assert IdOf(Key(0, 0, 0)) == StripeKey(0, 0);
    forall key, fs', target | key in last.w.t ensures !Begins(env, last.w.t, fs', key, target) {
      NoDataNoBegin(env, last.w, key, fs', target);
    }
  }

  lemma NoDataNoBegin(env: Env, w: World, key: Key, fs': Files, target: string)
    requires env.Ok() && Lifecycle.Sound(env, w) && AllSolid(env, w) && key in w.t && !SomeDataIn(w.t, IdOf(key))
    ensures !Begins(env, w.t, fs', key, target)
  {
    hide Lifecycle.Sound, SomeDataIn;
    Durability.PaddedExactly(env, w, IdOf(key));
  }

  lemma LastIsSolid(c: Bytes, last: Lifecycle.System)
    requires Lifecycle.Suits(SETUP, CFG) && last.a == Completion(BUILDING)
    requires Lifecycle.Lives(SETUP, CFG, Tree(c), Commands(c), [New(c), Appended(c), Built(c), last])
    ensures var env := Lifecycle.EnvOf(SETUP, last.a);
            env.Ok() && Lifecycle.Sound(env, last.w) && AllSolid(env, last.w)
    ensures Lifecycle.KeepsData(Placed(c), last.w) && Lifecycle.AddsNothing(Placed(c), last.w)
  {
    var cmds, states := Commands(c), [New(c), Appended(c), Built(c), last];
    assert Lifecycle.Next(SETUP, states[2], cmds[2], states[3]);
    hide Lifecycle.Lives, Lifecycle.Next, Hash, Lifecycle.KeepsData, Lifecycle.AddsNothing;
    Lifecycle.EveryStateIsSound(SETUP, CFG, Tree(c), cmds, states, 2);
    Lifecycle.EveryStateIsSound(SETUP, CFG, Tree(c), cmds, states, 3);
    Lifecycle.NextKeeps(SETUP, Built(c), cmds[2], last);
  }

  // ---- parity lost and no mark --------------------------------------------------------------

  /** The table has one stripe: a DATA shard, a PAD and two parity shards. */
  ghost predicate OneStripe(t: Table) {
    && WellPlaced(CFG, t)
    && (forall k :: k in t <==> k.group == 0 && k.stripe == 0 && k.pos < 4)
    && t[Key(0, 0, 1)].kind.PAD? && forall d: Source | HasSource(t, d) :: d.dataset == 1
  }

  lemma LastHasOneStripe(c: Bytes, last: Lifecycle.System)
    requires Lifecycle.Suits(SETUP, CFG) && last.a == Completion(BUILDING)
    requires Lifecycle.Lives(SETUP, CFG, Tree(c), Commands(c), [New(c), Appended(c), Built(c), last])
    ensures OneStripe(last.w.t)
  {
    hide Lifecycle.Lives, Hash;
    LastIsSolid(c, last);
    var w, t := Placed(c), last.w.t;
    assert IsData(w.t, Key(0, 0, 0));
    assert Lifecycle.ShardKept(w, last.w, Key(0, 0, 0));
    forall k ensures k in t <==> k.group == 0 && k.stripe == 0 && k.pos < 4 {
      if k in t {
        assert IsData(t, Key(k.group, k.stripe, 0));
        assert RowPlaced(CFG, k, t[k]);
      }
      assert Solid(Lifecycle.EnvOf(SETUP, last.a), last.w, IdOf(Key(0, 0, 0)));
      assert k == KeyIn(IdOf(k), k.pos);
    }
    assert RowPlaced(CFG, Key(0, 0, 1), t[Key(0, 0, 1)]);
    assert !IsData(t, Key(0, 0, 1));
    forall d: Source | HasSource(t, d) ensures d.dataset == 1 {
      var k :| k in t && t[k].kind.DATA? && t[k].source == Some(d);
      assert IsData(t, k);
    }
  }

  function SmallItem(): Item { Item(Source(2, 0), "l", 1, Hash([7]), Outside("s1")) }

  function LargeItem(): Item { Item(Source(2, 1), "l", 11, Hash(Window([], 0, 11)), Outside("s2")) }

  /** The small shard takes the PAD, and the parity rows go. */
  lemma SmallTakesPad(w: World)
    requires OneStripe(w.t) && Outside("s1") in w.fs && w.fs[Outside("s1")] == [7] && Data(1, 0, "l-s1") !in w.fs
    ensures Invalidates(CFG, SETUP.mover, w, SmallItem())
  {
    var slot, item := Slot(Key(0, 0, 1), true), SmallItem();
    PadIsChosen(w.t);
    assert ItemSize(w.fs, item) == 1;
    assert BaseName(CFG.naming, item.src) == "s1";
    assert "l" + "-" + "s1" == "l-s1";
    assert Target(CFG, slot.key, item) == Data(1, 0, "l-s1");
    hide Choice, Hash;
    assert HasEC(w.t, 0, 0) by {
      assert RowPlaced(CFG, Key(0, 0, 2), w.t[Key(0, 0, 2)]);
    }
  }

  lemma PadIsChosen(t: Table)
    requires OneStripe(t)
    ensures Choice(CFG, t, 1) == Some(Slot(Key(0, 0, 1), true))
  {
    var slot := Slot(Key(0, 0, 1), true);
    forall k | k in t ensures Weight(t[k], 1) == 0 {
      assert RowPlaced(CFG, k, t[k]);
    }
    UsedSame(t, map[], 1);
    assert PadFits(CFG, t, 1, slot.key);
    forall k | Less(k, slot.key) ensures !PadFits(CFG, t, 1, k) {
      assert k in t ==> IsData(t, Key(k.group, k.stripe, 0));
    }
    assert Chooses(CFG, t, 1, Some(slot));
    ChoiceUnique(CFG, t, 1, Some(slot), Choice(CFG, t, 1));
  }

  /** The large shard fits nowhere. */
  lemma LargeFitsNowhere(w: World)
    requires !HasSource(w.t, LargeItem().source)
    ensures Step(CFG, SETUP.mover, w, LargeItem()) == Outcome(w, false)
  {
    assert ItemSize(w.fs, LargeItem()) == 11;
    assert forall k :: !Fits(CFG, w.t, 11, k);
    forall k ensures !PadFits(CFG, w.t, 11, k) && !HoleFits(CFG, w.t, 11, k) && !Opens(CFG, w.t, 11, k) {
      assert !Fits(CFG, w.t, 11, Key(k.group, k.stripe, 0));
    }
    NoChoice(CFG, w.t, 11);
  }

  const OWN: PlainRelations := [FIRST, SECOND]

  lemma ItemsOfSecond(shards: seq<Listed>)
    ensures AllItems(map[2 := shards], Some(2), OWN) == ItemsOf(SECOND, shards)
    ensures AllOpen(map[2 := shards], Some(2), OWN)
  {
    var catalog: Catalog := map[2 := shards];
    assert OWN[..1] == [FIRST] && OWN[..1][..0] == [];
    assert AllItems(catalog, Some(2), OWN[..1]) == [];
    assert AllOpen(catalog, Some(2), OWN[..1]);
  }

  lemma LargeIsNew(w: World)
    requires Invalidates(CFG, SETUP.mover, w, SmallItem()) && !HasSource(w.t, LargeItem().source)
    ensures !HasSource(Step(CFG, SETUP.mover, w, SmallItem()).w.t, LargeItem().source)
  {
    hide Choice, Hash;
  }

  lemma SecondFails(w: World, a: Item, b: Item, w': World)
    requires CFG.Ok() && Step(CFG, SETUP.mover, w, a) == Outcome(w', true)
    requires Step(CFG, SETUP.mover, w', b) == Outcome(w', false)
    ensures Build(CFG, SETUP.mover, w, [a, b]) == Outcome(w', false)
  {
    hide Step, Hash;
    assert [a, b][..1] == [a] && [a][..0] == [];
    assert Build(CFG, SETUP.mover, w, [a][..0]) == Outcome(w, true);
    assert Build(CFG, SETUP.mover, w, [a, b][..1]) == Outcome(w', true);
  }

  lemma SmallThenLarge(w: World) returns (w': World)
    requires OneStripe(w.t) && Invalidates(CFG, SETUP.mover, w, SmallItem())
    ensures Build(CFG, SETUP.mover, w, [SmallItem(), LargeItem()]) == Outcome(w', false) && LosesParity(w.t, w'.t)
  {
    w' := Step(CFG, SETUP.mover, w, SmallItem()).w;
    assert !HasSource(w.t, LargeItem().source);
    hide Step, Hash, WellPlaced, LosesParity, OneStripe, HasSource;
    LargeIsNew(w);
    LargeFitsNowhere(w');
    SecondFails(w, SmallItem(), LargeItem(), w');
    StepParity(CFG, SETUP.mover, w, SmallItem());
  }

  /** The run over the small and the large shard. */
  lemma HalfFails(w: World) returns (w': World)
    requires OneStripe(w.t) && Invalidates(CFG, SETUP.mover, w, SmallItem())
    ensures BuildsData(BUILDING, SETUP.mover, map[2 := [SMALL, LARGE]], Some(2), OWN, w, BUILDING, Outcome(w', false))
    ensures LosesParity(w.t, w'.t)
  {
    hide Hash, WellPlaced, Step, LosesParity, AllItems, BuildAll, OneStripe, Invalidates;
    var catalog: Catalog, items := map[2 := [SMALL, LARGE]], [SmallItem(), LargeItem()];
    ItemsOfSecond([SMALL, LARGE]);
    assert ItemsOf(SECOND, [SMALL, LARGE]) == items;
    w' := SmallThenLarge(w);
    hide Build;
    BuildAllIsBuild(CFG, SETUP.mover, catalog, Some(2), w, OWN);
  }

  function Second(last: Lifecycle.System): Lifecycle.System { Lifecycle.System(BUILDING, OWN, last.w) }

  lemma SecondAppended(last: Lifecycle.System)
    requires Lifecycle.Suits(SETUP, last.a.cfg) && RowsPlaced(last.a.cfg, last.w.t)
    requires last.own == [FIRST] && last.a == Completion(BUILDING)
    ensures Lifecycle.Next(SETUP, last, Lifecycle.Append(2, "l", 2), Second(last))
  {
    var rel: PlainRelation := SECOND;
    assert OWN == last.own + [rel];
    assert "k"[0] != "l"[0];
  }

  function BothCommands(c: Bytes): seq<Lifecycle.Command> { Commands(c) + [Lifecycle.Append(2, "l", 2)] }

  /** The second dataset is appended to the completed arcset, whose stripe has a PAD and parity. */
  lemma SecondLife(c: Bytes) returns (states: seq<Lifecycle.System>)
    requires |c| <= 10
    ensures Lifecycle.Suits(SETUP, CFG) && |states| == 5
    ensures Lifecycle.Lives(SETUP, CFG, Tree(c), BothCommands(c), states)
    ensures states[4].a == BUILDING && states[4].own == OWN && OneStripe(states[4].w.t)
    ensures Invalidates(CFG, SETUP.mover, states[4].w, SmallItem())
    ensures Outside("s1") in states[4].w.fs && states[4].w.fs[Outside("s1")] == [7]
  {
    SetupSuits();
    var last := FirstCompletes(c);
    LastHasOneStripe(c, last);
    states := [New(c), Appended(c), Built(c), last];
    hide Lifecycle.Lives, Lifecycle.Next, Hash, Invalidates, Placed;
    SmallTakesPad(last.w);
    Lifecycle.EveryStateIsSound(SETUP, CFG, Tree(c), Commands(c), states, 3);
    SecondAppended(last);
    Lifecycle.OneMore(SETUP, CFG, Tree(c), Commands(c), states, Lifecycle.Append(2, "l", 2), Second(last));
    states := states + [Second(last)];
  }

  lemma SecondIsHonest(c: Bytes, shards: seq<Listed>)
    requires shards == [SMALL] || shards == [SMALL, LARGE]
    ensures HonestCatalog(SETUP.mover, Tree(c), map[2 := shards])
    ensures Lifecycle.FromOutside(map[2 := shards])
  {
    assert forall b: Bytes | Hash(b) == SMALL.sum :: |b| == 1;
    assert forall b: Bytes | Hash(b) == LARGE.sum :: |b| == 11;
    assert "s0"[1] != "s1"[1] && "s0"[1] != "s2"[1] && "s1"[1] != "s2"[1];
    hide Hash;
    assert Honest(SETUP.mover, Tree(c), SMALL.src, SMALL.size, SMALL.sum);
    assert Honest(SETUP.mover, Tree(c), LARGE.src, LARGE.size, LARGE.sum);
  }

  lemma HonestMore(c: Bytes, cmds: seq<Lifecycle.Command>, cmd: Lifecycle.Command)
    requires HonestLife(SETUP.mover, Tree(c), cmds)
    requires cmd.BuildData? || cmd.BuildKilled? ==> HonestCatalog(SETUP.mover, Tree(c), cmd.catalog)
    ensures HonestLife(SETUP.mover, Tree(c), cmds + [cmd])
  {
    hide HonestCatalog;
  }

  /** A life in which a run over the small and the large shard fails: its parity rows are gone, and no mark says so. */
  lemma HalfFailedRun() returns (cmds: seq<Lifecycle.Command>, states: seq<Lifecycle.System>)
    ensures Lifecycle.Suits(SETUP, CFG) && HonestLife(SETUP.mover, Tree([1]), cmds)
    ensures Lifecycle.Lives(SETUP, CFG, Tree([1]), cmds, states)
    ensures |cmds| == 5 && cmds[4] == Lifecycle.BuildData(map[2 := [SMALL, LARGE]], Some(2))
    ensures LosesParity(states[4].w.t, states[5].w.t) && !states[5].a.parityDegraded
  {
    var catalog: Catalog, before := map[2 := [SMALL, LARGE]], BothCommands([1]);
    var cmd := Lifecycle.BuildData(catalog, Some(2));
    hide Lifecycle.Lives, Hash, Invalidates, BuildsData, HonestCatalog, HonestLife, LosesParity;
    states := SecondLife([1]);
    SecondIsHonest([1], [SMALL, LARGE]);
    LifeIsHonest([1]);
    HonestMore([1], Commands([1]), Lifecycle.Append(2, "l", 2));
    HonestMore([1], before, cmd);
    var w' := HalfFails(states[4].w);
    var s' := Lifecycle.System(BUILDING, OWN, w');
    assert Lifecycle.Inv(SETUP, states[4]) ==> Lifecycle.Next(SETUP, states[4], cmd, s');
    hide Lifecycle.Next, Lifecycle.Inv;
    Lifecycle.OneMore(SETUP, CFG, Tree([1]), before, states, cmd, s');
    cmds, states := before + [cmd], states + [s'];
  }

  // ---- a kill that is forgotten -------------------------------------------------------------

  /** The small shard, killed after the deletion and placed by a second run. */
  lemma KilledAndRun(w: World) returns (c: World, out: Outcome)
    requires OneStripe(w.t) && Invalidates(CFG, SETUP.mover, w, SmallItem())
    requires Outside("s1") in w.fs && w.fs[Outside("s1")] == [7]
    ensures Places(CFG, SETUP.mover, w, SmallItem()) && c == Stopped(CFG, SETUP.mover, w, SmallItem(), AfterDrop)
    ensures BuildsData(BUILDING, SETUP.mover, map[2 := [SMALL]], Some(2), OWN, c, BUILDING, out)
    ensures out.ok && LosesParity(w.t, out.w.t) && HasSource(out.w.t, Source(2, 0))
  {
    var catalog: Catalog, item := map[2 := [SMALL]], SmallItem();
    StepKeepsSources(CFG, SETUP.mover, w, item);
    c := Stopped(CFG, SETUP.mover, w, item, AfterDrop);
    assert Truthful(SETUP.mover, w.fs, [item]);
    DropIsForgotten(CFG, SETUP.mover, w, item, AfterDrop);
    out := Step(CFG, SETUP.mover, w, item);
    StoppedIsNew(w);
    ItemsOfSecond([SMALL]);
    assert ItemsOf(SECOND, [SMALL]) == [item];
    hide Stopped, LosesParity, Invalidates, WellPlaced, Choice, HasSource, Step, Hash, AllItems;
    BuildsOne(catalog, c, out);
  }

  lemma StoppedIsNew(w: World)
    requires CFG.Ok() && Places(CFG, SETUP.mover, w, SmallItem())
    ensures !HasSource(Stopped(CFG, SETUP.mover, w, SmallItem(), AfterDrop).t, SmallItem().source)
  {
    var key := SlotKey(CFG, w, SmallItem());
    DropHasNoSource(w.t, key.group, key.stripe, SmallItem().source);
    hide Choice, HasSource;
  }

  /** A run over the small shard alone is its placement. */
  lemma BuildsOne(catalog: Catalog, c: World, out: Outcome)
    requires AllItems(catalog, Some(2), OWN) == [SmallItem()] && AllOpen(catalog, Some(2), OWN)
    requires CFG.Ok() && Step(CFG, SETUP.mover, c, SmallItem()) == out && out.ok && !LosesParity(c.t, out.w.t)
    requires !HasSource(c.t, SmallItem().source)
    ensures BuildsData(BUILDING, SETUP.mover, catalog, Some(2), OWN, c, BUILDING, out)
  {
    hide Step, LosesParity, HasSource, AllItems, BuildAll, Hash;
    var items := [SmallItem()];
    assert items[..0] == [];
    assert Build(CFG, SETUP.mover, c, items[..0]) == Outcome(c, true);
    assert Build(CFG, SETUP.mover, c, items) == out;
    assert SmallItem() in items;
    GrowsExactly(CFG, SETUP.mover, c, items);
    BuildAllIsBuild(CFG, SETUP.mover, catalog, Some(2), c, OWN);
  }

  lemma KillIsNext(s: Lifecycle.System, killed: Lifecycle.System)
    requires Lifecycle.Inv(SETUP, s) && s.a == BUILDING && s.own == OWN
    requires Places(CFG, SETUP.mover, s.w, SmallItem())
    requires killed == Lifecycle.System(BUILDING, OWN, Stopped(CFG, SETUP.mover, s.w, SmallItem(), AfterDrop))
    ensures Lifecycle.Next(SETUP, s, Lifecycle.BuildKilled(map[2 := [SMALL]], Some(2), 0, AfterDrop), killed)
  {
    hide AllItems, Stopped, Places, Hash;
    ItemsOfSecond([SMALL]);
    assert ItemsOf(SECOND, [SMALL]) == [SmallItem()];
    SecondIsHonest([1], [SMALL]);
    assert Build(CFG, SETUP.mover, s.w, [SmallItem()][..0]) == Outcome(s.w, true);
  }

  lemma RunIsNext(killed: Lifecycle.System, last: Lifecycle.System, out: Outcome)
    requires Lifecycle.Inv(SETUP, killed) && killed.a == BUILDING && killed.own == OWN
    requires BuildsData(BUILDING, SETUP.mover, map[2 := [SMALL]], Some(2), OWN, killed.w, BUILDING, out)
    requires last == Lifecycle.System(BUILDING, OWN, out.w)
    ensures Lifecycle.Next(SETUP, killed, Lifecycle.BuildData(map[2 := [SMALL]], Some(2)), last)
  {
    hide BuildsData, Hash;
    SecondIsHonest([1], [SMALL]);
    assert out == Outcome(last.w, out.ok);
  }

  /** A life in which the run over the small shard is killed after the deletion and run again: parity rows are gone, the
      second run goes through, and there is no mark. */
  lemma KilledRun() returns (cmds: seq<Lifecycle.Command>, states: seq<Lifecycle.System>)
    ensures Lifecycle.Suits(SETUP, CFG) && HonestLife(SETUP.mover, Tree([1]), cmds)
    ensures Lifecycle.Lives(SETUP, CFG, Tree([1]), cmds, states)
    ensures |cmds| == 6 && cmds[4] == Kill() && cmds[5] == Rerun()
    ensures HasSource(states[6].w.t, Source(2, 0))
    ensures LosesParity(states[4].w.t, states[6].w.t) && !states[6].a.parityDegraded
  {
    assert CFG.Ok() && !BUILDING.parityDegraded;
    hide *;
    KilledIsHonest([1]);
    states := SecondLife([1]);
    var c, out := KilledAndRun(states[4].w);
    var killed, last := Lifecycle.System(BUILDING, OWN, c), Lifecycle.System(BUILDING, OWN, out.w);
    TwoMore([1], states, killed, last, out);
    cmds, states := BothCommands([1]) + [Kill()] + [Rerun()], states + [killed] + [last];
    BothAreFour([1]);
  }

  lemma BothAreFour(c: Bytes)
    ensures |BothCommands(c)| == 4
  {
  }

  function Kill(): Lifecycle.Command { Lifecycle.BuildKilled(map[2 := [SMALL]], Some(2), 0, AfterDrop) }

  function Rerun(): Lifecycle.Command { Lifecycle.BuildData(map[2 := [SMALL]], Some(2)) }

  lemma KilledIsHonest(c: Bytes)
    ensures HonestLife(SETUP.mover, Tree(c), BothCommands(c) + [Kill()] + [Rerun()])
  {
    hide Hash, HonestCatalog, HonestLife;
    SecondIsHonest(c, [SMALL]);
    LifeIsHonest(c);
    HonestMore(c, Commands(c), Lifecycle.Append(2, "l", 2));
    HonestMore(c, BothCommands(c), Kill());
    HonestMore(c, BothCommands(c) + [Kill()], Rerun());
  }

  /** The kill and the run after it are the next commands. */
  lemma TwoMore(c: Bytes, states: seq<Lifecycle.System>, killed: Lifecycle.System, last: Lifecycle.System, out: Outcome)
    requires Lifecycle.Suits(SETUP, CFG) && |states| == 5
    requires Lifecycle.Lives(SETUP, CFG, Tree(c), BothCommands(c), states)
    requires states[4].a == BUILDING && states[4].own == OWN
    requires CFG.Ok() && Places(CFG, SETUP.mover, states[4].w, SmallItem())
    requires killed == Lifecycle.System(BUILDING, OWN, Stopped(CFG, SETUP.mover, states[4].w, SmallItem(), AfterDrop))
    requires BuildsData(BUILDING, SETUP.mover, map[2 := [SMALL]], Some(2), OWN, killed.w, BUILDING, out)
    requires last == Lifecycle.System(BUILDING, OWN, out.w)
    ensures Lifecycle.Lives(SETUP, CFG, Tree(c), BothCommands(c) + [Kill()] + [Rerun()], states + [killed] + [last])
  {
    hide Lifecycle.Lives, Lifecycle.Next, Lifecycle.Inv, Hash, BuildsData, Places, Stopped, Commands;
    assert |BothCommands(c)| == 4 by { BothAreFour(c); }
    Lifecycle.EveryStateIsSound(SETUP, CFG, Tree(c), BothCommands(c), states, 4);
    KillIsNext(states[4], killed);
    Lifecycle.OneMore(SETUP, CFG, Tree(c), BothCommands(c), states, Kill(), killed);
    Lifecycle.EveryStateIsSound(SETUP, CFG, Tree(c), BothCommands(c) + [Kill()], states + [killed], 5);
    RunIsNext(killed, last, out);
    Lifecycle.OneMore(SETUP, CFG, Tree(c), BothCommands(c) + [Kill()], states + [killed], Rerun(), last);
  }

  // ---- refused as if it were not registered -------------------------------------------------

  /** A life with a registered dataset all of whose shards are placed: choosing it fails. */
  lemma RegisteredButRefused(c: Bytes, a': Arcset, out: Outcome)
    requires |c| <= 10 && CFG.Ok()
    requires BuildsData(BUILDING, SETUP.mover, FirstCatalog(c), Some(1), [FIRST], Placed(c), a', out)
    ensures Lifecycle.Suits(SETUP, CFG)
    ensures Lifecycle.Lives(SETUP, CFG, Tree(c), Commands(c)[..2], [New(c), Appended(c), Built(c)])
    ensures Built(c).a == BUILDING && Buildable(BUILDING) && Registered(Built(c).own, 1) && Built(c).w == Placed(c)
    ensures !out.ok && out.w == Placed(c)
  {
    hide BuildsData, Lifecycle.Lives, Hash;
    SetupSuits();
    FirstTwo(c);
    var own: PlainRelations := [FIRST];
    assert own[0].dataset == 1;
    assert HasRow(Placed(c).t, Key(0, 0, 0), Source(1, 0));
    PlacedDatasetFails(BUILDING, SETUP.mover, FirstCatalog(c), 1, own, Placed(c), a', out);
  }

  // ---- a size that is read and then lost ----------------------------------------------------

  /** The first shard without a recorded size. */
  function Unsized(): Listed { Listed(0, 0, Hash([1]), Outside("s0")) }

  function UnsizedItem(): Item { Item(Source(1, 0), "k", 0, Hash([1]), Outside("s0")) }

  const UNSIZED: Catalog := map[1 := [Unsized()]]

  /** After the move: the file is at its target, and there is no row. */
  function JustMoved(): World { World(map[], map[Data(0, 0, "k-s0") := [1], Outside("s1") := [7]]) }

  /** What the second run makes of it: a row of size 0. */
  function WithoutSize(): World {
    World(map[Key(0, 0, 0) := FirstRow([1]).(size := 0)], JustMoved().fs)
  }

  /** In one run the size is that of the file. */
  lemma UnsizedIsPlaced()
    ensures CFG.Ok() && Step(CFG, SETUP.mover, World(map[], Tree([1])), UnsizedItem()) == Outcome(Placed([1]), true)
    ensures Places(CFG, SETUP.mover, World(map[], Tree([1])), UnsizedItem())
    ensures Stopped(CFG, SETUP.mover, World(map[], Tree([1])), UnsizedItem(), AfterMove) == JustMoved()
  {
    FirstIsPlaced([1]);
    var w, item := World(map[], Tree([1])), UnsizedItem();
    UnrecordedIsRead(CFG, SETUP.mover, w, item);
    assert item.(size := |w.fs[item.src]|) == FirstItem([1]);
    assert Placed([1]).fs == JustMoved().fs;
    hide Choice;
  }

  lemma SizeIsLost()
    ensures CFG.Ok() && Step(CFG, SETUP.mover, JustMoved(), UnsizedItem()) == Outcome(WithoutSize(), true)
  {
    FirstSlot(0);
    var key, item, w := Key(0, 0, 0), UnsizedItem(), JustMoved();
    assert "s0"[1] != "s1"[1];
    assert item.src !in w.fs;
    assert ItemSize(w.fs, item) == 0;
    assert BaseName(CFG.naming, item.src) == "s0";
    assert "k" + "-" + "s0" == "k-s0";
    assert Target(CFG, key, item) == Data(0, 0, "k-s0");
    hide Choice, Hash;
    assert w.fs - {item.src} == w.fs;
    assert Filled(CFG, map[], key, item, 0) == WithoutSize().t;
  }

  lemma UnsizedItems()
    ensures AllItems(UNSIZED, None, [FIRST]) == [UnsizedItem()] && AllOpen(UNSIZED, None, [FIRST])
    ensures Lifecycle.FromOutside(UNSIZED)
  {
    var own: PlainRelations := [FIRST];
    assert own[..0] == [];
    assert AllItems(UNSIZED, None, own[..0]) == [];
    assert ItemsOf(FIRST, UNSIZED[1]) == [UnsizedItem()];
  }

  function KilledAfterMove(): Lifecycle.System { Lifecycle.System(BUILDING, [FIRST], JustMoved()) }

  function RunAgain(): Lifecycle.System { Lifecycle.System(BUILDING, [FIRST], WithoutSize()) }

  lemma KillAfterMoveIsNext()
    requires Lifecycle.Suits(SETUP, CFG)
    ensures Lifecycle.Next(SETUP, Appended([1]), Lifecycle.BuildKilled(UNSIZED, None, 0, AfterMove), KilledAfterMove())
  {
    UnsizedIsPlaced();
    UnsizedItems();
    hide AllItems, Places, Stopped, Hash;
    assert Build(CFG, SETUP.mover, Appended([1]).w, [UnsizedItem()][..0]) == Outcome(Appended([1]).w, true);
  }

  lemma RunAgainIsNext()
    requires Lifecycle.Suits(SETUP, CFG)
    ensures Lifecycle.Next(SETUP, KilledAfterMove(), Lifecycle.BuildData(UNSIZED, None), RunAgain())
  {
    SizeIsLost();
    UnsizedItems();
    var own: PlainRelations, w, items := [FIRST], JustMoved(), [UnsizedItem()];
    hide Step, AllItems, Hash;
    assert items[..0] == [];
    assert Build(CFG, SETUP.mover, w, items[..0]) == Outcome(w, true);
    assert Build(CFG, SETUP.mover, w, items) == Outcome(WithoutSize(), true);
    BuildAllIsBuild(CFG, SETUP.mover, UNSIZED, None, w, own);
    hide BuildAll, Build;
    assert !LosesParity(w.t, WithoutSize().t);
    assert BuildsData(BUILDING, SETUP.mover, UNSIZED, None, own, w, BUILDING, Outcome(WithoutSize(), true));
  }

  function UnsizedCommands(): seq<Lifecycle.Command> {
    [Lifecycle.Append(1, "k", 1), Lifecycle.BuildKilled(UNSIZED, None, 0, AfterMove),
     Lifecycle.BuildData(UNSIZED, None)]
  }

  lemma UnsizedLives()
    ensures Lifecycle.Suits(SETUP, CFG)
    ensures Lifecycle.Lives(SETUP, CFG, Tree([1]), UnsizedCommands(),
                            [New([1]), Appended([1]), KilledAfterMove(), RunAgain()])
  {
    hide Lifecycle.Next, Hash, Tree, FirstRow;
    SetupSuits();
    FirstAppended([1]);
    KillAfterMoveIsNext();
    RunAgainIsNext();
  }

  lemma SizeZeroOverOneByte()
    ensures var w := WithoutSize();
            && Key(0, 0, 0) in w.t && w.t[Key(0, 0, 0)].size == 0
            && w.t[Key(0, 0, 0)].path in w.fs && |w.fs[w.t[Key(0, 0, 0)].path]| == 1
    ensures Key(0, 0, 0) in Placed([1]).t && Placed([1]).t[Key(0, 0, 0)].size == 1
  {
    hide Hash;
  }

  /** A life in which a shard without a recorded size is killed after the move and built again: the row has size 0 and
      the file has not. Built at once it has the size of the file. */
  lemma RetryLosesSize() returns (cmds: seq<Lifecycle.Command>, states: seq<Lifecycle.System>)
    ensures Lifecycle.Suits(SETUP, CFG) && Lifecycle.Lives(SETUP, CFG, Tree([1]), cmds, states) && |cmds| == 3
    ensures cmds[1] == Lifecycle.BuildKilled(UNSIZED, None, 0, AfterMove)
    ensures cmds[2] == Lifecycle.BuildData(UNSIZED, None)
    ensures var w := states[3].w;
            && Key(0, 0, 0) in w.t && w.t[Key(0, 0, 0)].size == 0
            && w.t[Key(0, 0, 0)].path in w.fs && |w.fs[w.t[Key(0, 0, 0)].path]| == 1
    ensures CFG.Ok() && Build(CFG, SETUP.mover, states[1].w, AllItems(UNSIZED, None, [FIRST])).ok
    ensures var w := Build(CFG, SETUP.mover, states[1].w, AllItems(UNSIZED, None, [FIRST])).w;
            Key(0, 0, 0) in w.t && w.t[Key(0, 0, 0)].size == 1
  {
    hide Lifecycle.Lives, Hash, Placed, WithoutSize, Build, AllItems, Tree;
    cmds, states := UnsizedCommands(), [New([1]), Appended([1]), KilledAfterMove(), RunAgain()];
    UnsizedLives();
    SizeZeroOverOneByte();
    BuiltAtOnce();
  }

  lemma BuiltAtOnce()
    ensures CFG.Ok()
    ensures Build(CFG, SETUP.mover, Appended([1]).w, AllItems(UNSIZED, None, [FIRST])) == Outcome(Placed([1]), true)
  {
    UnsizedIsPlaced();
    UnsizedItems();
    hide Step, AllItems, Hash;
    var w, items := Appended([1]).w, [UnsizedItem()];
    assert Build(CFG, SETUP.mover, w, items[..0]) == Outcome(w, true);
  }
}
