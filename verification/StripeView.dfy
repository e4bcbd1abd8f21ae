/** A stripe as its rows describe it: padded size, files and original sizes. */
module StripeView {
  import opened Bytes
  import opened Paths
  import opened Layout
  import opened ShardTable
  import opened StripeTask

  function IdOf(key: Key): StripeKey { StripeKey(key.group, key.stripe) }

  function KeyIn(id: StripeKey, pos: nat): Key { Key(id.group, id.stripe, pos) }

  /** The padded size a row speaks for: its metadata, or the size of a parity file. */
  function Claimed(row: Row): nat {
    Max(row.padded, if row.kind.EC? then row.size else 0)
  }

  /** The largest padded size the rows of a stripe speak for, 0 for none. */
  ghost predicate IsPaddedSize(t: Table, id: StripeKey, n: nat) {
    && (forall k | k in t && IdOf(k) == id :: Claimed(t[k]) <= n)
    && (n == 0 || exists k :: k in t && IdOf(k) == id && Claimed(t[k]) == n)
  }

  lemma PaddedSizeUnique(t: Table, id: StripeKey, a: nat, b: nat)
    requires IsPaddedSize(t, id, a) && IsPaddedSize(t, id, b)
    ensures a == b
  {
  }

  lemma {:induction false} PaddedSizeExists(t: Table, id: StripeKey)
    ensures exists n :: IsPaddedSize(t, id, n)
    decreases |t|
  {
    if k :| k in t {
      var rest := t - {k};
      PaddedSizeExists(rest, id);
      var n :| IsPaddedSize(rest, id, n);
      assert forall j | j in t :: j == k || j in rest;
      if IdOf(k) == id && Claimed(t[k]) > n {
        assert IsPaddedSize(t, id, Claimed(t[k]));
      } else {
        assert IsPaddedSize(t, id, n);
      }
    } else {
      assert IsPaddedSize(t, id, 0);
    }
  }

  /** The padded size in terms of rows: none of the stripe records more in its metadata, and no parity row has a larger
      size, but one does have it unless it is 0. */
  lemma PaddedSizeExactly(t: Table, id: StripeKey, n: nat)
    ensures PaddedSize(t, id) == n <==>
              && (forall k | k in t && k.group == id.group && k.stripe == id.stripe ::
                    t[k].padded <= n && (t[k].kind.EC? ==> t[k].size <= n))
              && (n == 0 || exists k :: k in t && k.group == id.group && k.stripe == id.stripe
                              && (t[k].padded == n || (t[k].kind.EC? && t[k].size == n)))
  {
    if (forall k | k in t && k.group == id.group && k.stripe == id.stripe ::
          t[k].padded <= n && (t[k].kind.EC? ==> t[k].size <= n))
       && (n == 0 || exists k :: k in t && k.group == id.group && k.stripe == id.stripe
                       && (t[k].padded == n || (t[k].kind.EC? && t[k].size == n)))
    {
      PaddedSizeUnique(t, id, n, PaddedSize(t, id));
    }
    assert IsPaddedSize(t, id, PaddedSize(t, id));
  }

  ghost function PaddedSize(t: Table, id: StripeKey): (n: nat)
    ensures IsPaddedSize(t, id, n)
  {
    PaddedSizeExists(t, id);
    var n :| IsPaddedSize(t, id, n);
    n
  }

  /** The file of a position: its row's, or the one a PAD or parity row would have. */
  function FileAt(cfg: Config, t: Table, id: StripeKey, pos: nat): Path
    requires cfg.Ok()
  {
    var key := KeyIn(id, pos);
    if key in t then t[key].path
    else if pos < cfg.k then Pad(PartitionOf(cfg, key), id.stripe)
    else Parity(PartitionOf(cfg, key), id.stripe)
  }

  function FilesAt(cfg: Config, t: Table, id: StripeKey): (paths: seq<Path>)
    requires cfg.Ok()
    ensures |paths| == cfg.Total()
  {
    seq(cfg.Total(), p requires 0 <= p < cfg.Total() => FileAt(cfg, t, id, p))
  }

  /** What a data position is cut to: nothing for a PAD or a hole, else the original or the recorded size. */
  function OriginalAt(t: Table, id: StripeKey, pos: nat): nat {
    var key := KeyIn(id, pos);
    if key !in t || t[key].kind.PAD? then 0
    else if t[key].kind.DATA? && t[key].original > 0 then t[key].original
    else t[key].size
  }

  function Originals(cfg: Config, t: Table, id: StripeKey): (sizes: seq<nat>)
    ensures |sizes| == cfg.k
  {
    seq(cfg.k, p requires 0 <= p < cfg.k => OriginalAt(t, id, p))
  }

  function Somes(paths: seq<Path>): (os: seq<Option<Path>>)
    ensures |os| == |paths|
  {
    seq(|paths|, i requires 0 <= i < |paths| => Some(paths[i]))
  }
}
