/** The global shard table: one row per (group, stripe, position), with the unique indexes of the
    database schema. A row is identified by that key, so row ids do not appear. */
module ShardTable {
  import opened Bytes
  import opened Paths
  import opened Layout

  datatype Kind = DATA | EC | PAD

  datatype Key = Key(group: nat, stripe: nat, pos: nat)

  /** The dataset a DATA shard comes from and its number there. */
  datatype Source = Source(dataset: int, number: int)

  /** A row; `padded` and `original` are the padded_size and original_size of its metadata, 0 when unset. */
  datatype Row = Row(kind: Kind, partition: nat, path: Path, size: nat, source: Option<Source>,
                     sum: Option<string>, padded: nat, original: nat)

  type Table = map<Key, Row>

  function PartitionOf(cfg: Config, key: Key): nat
    requires cfg.Ok()
  {
    Partition(cfg, key.group, key.pos, key.stripe)
  }

  predicate Less(a: Key, b: Key) {
    a.group < b.group || (a.group == b.group && (a.stripe < b.stripe || (a.stripe == b.stripe && a.pos < b.pos)))
  }

  predicate InStripe(key: Key, group: nat, stripe: nat) {
    key.group == group && key.stripe == stripe
  }

  /** Some row of the group has this stripe number or a later one. */
  ghost predicate Started(t: Table, group: nat, stripe: nat) {
    exists k :: k in t && k.group == group && k.stripe >= stripe
  }

  /** The table after deleting the EC rows of a stripe. */
  function WithoutEC(t: Table, group: nat, stripe: nat): Table {
    map k | k in t && !(t[k].kind.EC? && InStripe(k, group, stripe)) :: t[k]
  }

  predicate HasEC(t: Table, group: nat, stripe: nat) {
    exists k :: k in t && t[k].kind.EC? && InStripe(k, group, stripe)
  }

  /** The table after deleting the EC and PAD rows of a stripe. */
  function DataOnly(t: Table, group: nat, stripe: nat): Table {
    map k | k in t && !((t[k].kind.EC? || t[k].kind.PAD?) && InStripe(k, group, stripe)) :: t[k]
  }

  ghost predicate HasSource(t: Table, source: Source) {
    exists k :: k in t && t[k].kind.DATA? && t[k].source == Some(source)
  }

  /** Whether inserting the row violates a unique index. */
  predicate Conflicts(t: Table, key: Key, row: Row) {
    key in t || exists k :: k in t && RowsClash(k, t[k], key, row)
  }

  predicate RowsClash(k: Key, r: Row, key: Key, row: Row) {
    || r.path == row.path
    || (r.partition == row.partition && k.stripe == key.stripe)
    || (r.kind.DATA? && row.kind.DATA? && r.source == row.source)
  }

  /** The unique indexes: no two rows share a file, a partition at one stripe number, or a dataset's shard. */
  ghost predicate UniqueIndexes(t: Table) {
    forall k, k' | k in t && k' in t && k != k' :: !RowsClash(k, t[k], k', t[k'])
  }

  /** Index by index. */
  lemma UniqueExactly(t: Table)
    ensures UniqueIndexes(t) <==>
              && (forall k, k' | k in t && k' in t && k != k' :: t[k].path != t[k'].path)
              && (forall k, k' | k in t && k' in t && k != k' && t[k].partition == t[k'].partition ::
                    k.stripe != k'.stripe)
              && (forall k, k' | k in t && k' in t && k != k' && t[k].kind.DATA? && t[k'].kind.DATA? ::
                    t[k].source != t[k'].source)
  {
    forall k, k' | k in t && k' in t && k != k'
      ensures !RowsClash(k, t[k], k', t[k']) <==>
              && t[k].path != t[k'].path
              && (t[k].partition == t[k'].partition ==> k.stripe != k'.stripe)
              && (t[k].kind.DATA? && t[k'].kind.DATA? ==> t[k].source != t[k'].source)
    {
    }
  }

  /** Every row of a is a row of b. */
  ghost predicate SubTable(a: Table, b: Table) {
    forall k | k in a :: k in b && b[k] == a[k]
  }

  /** An insert is refused exactly when its key is taken or the new table would violate a unique index. */
  lemma InsertExactly(t: Table, key: Key, row: Row)
    requires UniqueIndexes(t)
    ensures Conflicts(t, key, row) <==> key in t || !UniqueIndexes(t[key := row])
  {
    var t' := t[key := row];
    if k :| k in t && RowsClash(k, t[k], key, row) && key !in t {
      assert RowsClash(k, t'[k], key, t'[key]);
    }
    assert forall k, k' | k in t && k' in t && k != k' :: !RowsClash(k, t[k], k', t[k']);
  }

  /** A row is replaced exactly when the new table keeps the unique indexes; the row's own old values never
      stand in its way. */
  lemma UpdateExactly(t: Table, key: Key, row: Row)
    requires UniqueIndexes(t) && key in t
    ensures Conflicts(t - {key}, key, row) <==> !UniqueIndexes(t[key := row])
  {
    FewerRowsStayUnique(t - {key}, t);
    InsertExactly(t - {key}, key, row);
    assert (t - {key})[key := row] == t[key := row];
  }

  lemma FewerRowsStayUnique(a: Table, b: Table)
    requires SubTable(a, b) && UniqueIndexes(b)
    ensures UniqueIndexes(a)
  {
  }

  /** Deleting the EC rows of a stripe leaves the largest part of the table without any. */
  lemma DropsExactly(t: Table, group: nat, stripe: nat)
    ensures var t' := WithoutEC(t, group, stripe);
            && SubTable(t', t) && !HasEC(t', group, stripe)
            && (UniqueIndexes(t) ==> UniqueIndexes(t'))
            && forall u: Table | SubTable(u, t) && !HasEC(u, group, stripe) :: SubTable(u, t')
  {
    var t' := WithoutEC(t, group, stripe);
    assert SubTable(t', t);
    if UniqueIndexes(t) {
      FewerRowsStayUnique(t', t);
    }
    forall u: Table | SubTable(u, t) && !HasEC(u, group, stripe) ensures SubTable(u, t') {
      assert forall k | k in u :: !(u[k].kind.EC? && InStripe(k, group, stripe));
    }
  }

  /** The stripe has DATA rows only. */
  ghost predicate OnlyData(t: Table, group: nat, stripe: nat) {
    forall k | k in t && InStripe(k, group, stripe) :: t[k].kind.DATA?
  }

  /** Deleting the EC and PAD rows of a stripe leaves the largest part of the table with only DATA rows there. */
  lemma DataOnlyExactly(t: Table, group: nat, stripe: nat)
    ensures var t' := DataOnly(t, group, stripe);
            && SubTable(t', t) && OnlyData(t', group, stripe)
            && (UniqueIndexes(t) ==> UniqueIndexes(t'))
            && forall u: Table | SubTable(u, t) && OnlyData(u, group, stripe) :: SubTable(u, t')
  {
    var t' := DataOnly(t, group, stripe);
    assert SubTable(t', t);
    if UniqueIndexes(t) {
      FewerRowsStayUnique(t', t);
    }
  }

  /** The table after setting the sizes in the metadata of a row. */
  function Restamped(t: Table, key: Key, padded: nat, original: nat): Table {
    if key in t then t[key := t[key].(padded := padded, original := original)] else t
  }

  /** Metadata plays no part in the unique indexes and takes no space. */
  lemma RestampedKeeps(t: Table, key: Key, padded: nat, original: nat, part: nat)
    ensures var t' := Restamped(t, key, padded, original);
            && (UniqueIndexes(t') <==> UniqueIndexes(t))
            && UsedBy(t', part) == UsedBy(t, part)
            && forall k | k in t :: k in t' && t'[k].(padded := 0, original := 0) == t[k].(padded := 0, original := 0)
  {
    var t' := Restamped(t, key, padded, original);
    forall k, k' | k in t && k' in t ensures RowsClash(k, t'[k], k', t'[k']) <==> RowsClash(k, t[k], k', t[k']) {
    }
    if key in t {
      UsedReplaced(t, key, t'[key], part);
    }
  }

  // ---- space used per partition ------------------------------------------------------------

  function Weight(row: Row, part: nat): nat {
    if row.partition == part then row.size else 0
  }

  /** SUM(file_size) over the rows of a partition. */
  ghost function UsedBy(t: Table, part: nat): nat
    decreases |t|
  {
    if t == map[] then 0
    else
      var k :| k in t;
      Weight(t[k], part) + UsedBy(t - {k}, part)
  }

  lemma {:induction false} UsedWithout(t: Table, key: Key, part: nat)
    requires key in t
    ensures UsedBy(t, part) == Weight(t[key], part) + UsedBy(t - {key}, part)
    decreases |t|
  {
    var k :| k in t && UsedBy(t, part) == Weight(t[k], part) + UsedBy(t - {k}, part);
    if k != key {
      UsedWithout(t - {k}, key, part);
      UsedWithout(t - {key}, k, part);
      assert t - {k} - {key} == t - {key} - {k};
    }
  }

  lemma UsedWith(t: Table, key: Key, row: Row, part: nat)
    requires key !in t
    ensures UsedBy(t[key := row], part) == Weight(row, part) + UsedBy(t, part)
  {
    UsedWithout(t[key := row], key, part);
    assert t[key := row] - {key} == t;
  }

  lemma UsedReplaced(t: Table, key: Key, row: Row, part: nat)
    requires key in t
    ensures UsedBy(t[key := row], part) + Weight(t[key], part) == UsedBy(t, part) + Weight(row, part)
  {
    UsedWithout(t, key, part);
    UsedWithout(t[key := row], key, part);
    assert t[key := row] - {key} == t - {key};
  }

  /** The space used is the sum of the sizes of the rows in the partition, of whatever kind. */
  lemma UsedIsSum(t: Table, key: Key, row: Row, part: nat)
    ensures UsedBy(map[], part) == 0
    ensures UsedBy(t[key := row], part) == UsedBy(t - {key}, part) + if row.partition == part then row.size else 0
  {
    UsedWithout(t[key := row], key, part);
    assert t[key := row] - {key} == t - {key};
  }

  /** Rows outside a partition do not count for it. */
  lemma {:induction false} UsedSame(t: Table, t': Table, part: nat)
    requires forall k | k in t :: (k in t' && t'[k] == t[k]) || Weight(t[k], part) == 0
    requires forall k | k in t' :: (k in t && t[k] == t'[k]) || Weight(t'[k], part) == 0
    ensures UsedBy(t, part) == UsedBy(t', part)
    decreases |t| + |t'|
  {
    if k :| k in t {
      UsedWithout(t, k, part);
      if k in t' && t'[k] == t[k] {
        UsedWithout(t', k, part);
        UsedSame(t - {k}, t' - {k}, part);
      } else {
        UsedSame(t - {k}, t', part);
      }
    } else if k :| k in t' {
      UsedWithout(t', k, part);
      UsedSame(t, t' - {k}, part);
    } else {
      assert t == map[] && t' == map[];
    }
  }

  /** Fewer rows use no more space. */
  lemma {:induction false} UsedFewer(t: Table, t': Table, part: nat)
    requires forall k | k in t' :: k in t && t[k] == t'[k]
    ensures UsedBy(t', part) <= UsedBy(t, part)
    decreases |t|
  {
    if k :| k in t' {
      UsedWithout(t, k, part);
      UsedWithout(t', k, part);
      UsedFewer(t - {k}, t' - {k}, part);
    }
  }

  // ---- the stored table --------------------------------------------------------------------

  class Store {
    var rows: Table

    constructor (rows: Table)
      ensures this.rows == rows
    {
      this.rows := rows;
    }

    method InsertShard(key: Key, row: Row) returns (ok: bool)
      modifies this
      ensures ok <==> !Conflicts(old(rows), key, row)
      ensures rows == if ok then old(rows)[key := row] else old(rows)
      ensures UniqueIndexes(old(rows)) ==> UniqueIndexes(rows)
    {
      if UniqueIndexes(rows) {
        InsertExactly(rows, key, row);
      }
      ok := !Conflicts(rows, key, row);
      if ok { rows := rows[key := row]; }
    }

    method UpdateShardData(key: Key, row: Row) returns (ok: bool)
      modifies this
      ensures ok <==> key in old(rows) && !Conflicts(old(rows) - {key}, key, row)
      ensures rows == if ok then old(rows)[key := row] else old(rows)
      ensures UniqueIndexes(old(rows)) ==> UniqueIndexes(rows)
    {
      if UniqueIndexes(rows) && key in rows {
        UpdateExactly(rows, key, row);
      }
      ok := key in rows && !Conflicts(rows - {key}, key, row);
      if ok { rows := rows[key := row]; }
    }

    method DeleteECShards(group: nat, stripe: nat)
      modifies this
      ensures rows == WithoutEC(old(rows), group, stripe)
      ensures UniqueIndexes(old(rows)) ==> UniqueIndexes(rows)
    {
      DropsExactly(rows, group, stripe);
      rows := WithoutEC(rows, group, stripe);
    }

    method DeleteECAndPADShards(group: nat, stripe: nat)
      modifies this
      ensures rows == DataOnly(old(rows), group, stripe)
      ensures UniqueIndexes(old(rows)) ==> UniqueIndexes(rows)
    {
      DataOnlyExactly(rows, group, stripe);
      rows := DataOnly(rows, group, stripe);
    }

    method UpdateShardMetadata(key: Key, padded: nat, original: nat)
      modifies this
      ensures rows == Restamped(old(rows), key, padded, original)
      ensures UniqueIndexes(old(rows)) ==> UniqueIndexes(rows)
    {
      RestampedKeeps(rows, key, padded, original, 0);
      if key in rows {
        rows := rows[key := rows[key].(padded := padded, original := original)];
      }
    }
  }
}
