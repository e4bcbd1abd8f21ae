/** Grouping a dataset's files into shards of limited size: the greedy packer and splitter. */
module GenDef {
  import opened Bytes

  datatype File = File(path: string, size: nat)

  /** A piece [offset, offset + size) of a file. */
  datatype Segment = Segment(path: string, fileSize: nat, offset: nat, size: nat) {
    predicate Whole() { offset == 0 && size == fileSize }

    /** More of the file follows. */
    predicate Partial() { offset + size < fileSize }
  }

  datatype ShardDef = ShardDef(dataset: int, number: nat, segments: seq<Segment>)

  function Total(segs: seq<Segment>): nat {
    if segs == [] then 0 else Total(segs[..|segs| - 1]) + segs[|segs| - 1].size
  }

  function Flat(shards: seq<seq<Segment>>): seq<Segment> {
    if shards == [] then [] else Flat(shards[..|shards| - 1]) + shards[|shards| - 1]
  }

  /** All segments, those of the shard being filled included. */
  function All(shards: seq<seq<Segment>>, current: seq<Segment>): seq<Segment> {
    Flat(shards) + current
  }

  // ---- what a grouping has to be ------------------------------------------------------------

  /** The segments are pieces of the file in order, without gap or overlap, from 0 to `upTo`; none of them
      is empty unless the file is. */
  ghost predicate Pieces(segs: seq<Segment>, f: File, upTo: nat) {
    if segs == [] then upTo == 0
    else
      var last := segs[|segs| - 1];
      && last.path == f.path && last.fileSize == f.size && last.offset + last.size == upTo
      && (last.size > 0 || f.size == 0)
      && Pieces(segs[..|segs| - 1], f, last.offset)
  }

  /** The segments are the files in order, each cut into its pieces, and in one piece if it is within the limit. */
  ghost predicate Tiles(segs: seq<Segment>, files: seq<File>, limit: nat) {
    if files == [] then segs == []
    else
      var f := files[|files| - 1];
      exists n: nat :: n < |segs| && Pieces(segs[n..], f, f.size)
        && (limit == 0 || f.size <= limit ==> n == |segs| - 1)
        && Tiles(segs[..n], files[..|files| - 1], limit)
  }

  /** A shard ends where it does because it is full, or because a whole file would not have fitted. */
  ghost predicate Follows(limit: nat, shard: seq<Segment>, next: Segment) {
    Total(shard) == limit || (next.Whole() && Total(shard) + next.size > limit)
  }

  /** A file is cut only where its piece fills a shard to the limit. */
  ghost predicate CutsAtLimit(limit: nat, shard: seq<Segment>) {
    forall j | 0 <= j < |shard| && shard[j].Partial() :: j == |shard| - 1 && Total(shard) == limit
  }

  ghost predicate Packed(limit: nat, shards: seq<seq<Segment>>) {
    && (forall i | 0 <= i < |shards| :: shards[i] != [])
    && (limit == 0 ==> |shards| <= 1)
    && (limit > 0 ==>
          && (forall i | 0 <= i < |shards| :: Total(shards[i]) <= limit && CutsAtLimit(limit, shards[i]))
          && (forall i | 0 <= i < |shards| - 1 :: Follows(limit, shards[i], shards[i + 1][0])))
  }

  /** The shards emitted so far and the one being filled. */
  ghost predicate Filling(limit: nat, shards: seq<seq<Segment>>, current: seq<Segment>) {
    && Packed(limit, shards)
    && (limit == 0 ==> shards == [])
    && (limit > 0 ==>
          && Total(current) <= limit && (forall j | 0 <= j < |current| :: !current[j].Partial())
          && (shards != [] ==>
                if current == [] then Total(shards[|shards| - 1]) == limit
                else Follows(limit, shards[|shards| - 1], current[0])))
  }

  lemma {:induction false} TotalOne(segs: seq<Segment>, s: Segment)
    ensures Total(segs + [s]) == Total(segs) + s.size
  {
    assert (segs + [s])[..|segs|] == segs;
  }

  lemma {:induction false} FlatOne(shards: seq<seq<Segment>>, shard: seq<Segment>)
    ensures Flat(shards + [shard]) == Flat(shards) + shard
  {
    assert (shards + [shard])[..|shards|] == shards;
  }

  lemma PiecesMore(segs: seq<Segment>, f: File, s: Segment)
    requires Pieces(segs, f, s.offset) && s.path == f.path && s.fileSize == f.size && (s.size > 0 || f.size == 0)
    ensures Pieces(segs + [s], f, s.offset + s.size)
  {
    assert (segs + [s])[..|segs|] == segs;
  }

  lemma TilesMore(segs: seq<Segment>, files: seq<File>, limit: nat, f: File, pieces: seq<Segment>)
    requires Tiles(segs, files, limit) && Pieces(pieces, f, f.size) && pieces != []
    requires limit == 0 || f.size <= limit ==> |pieces| == 1
    ensures Tiles(segs + pieces, files + [f], limit)
  {
    var all := segs + pieces;
    assert (files + [f])[..|files|] == files;
    assert all[|segs|..] == pieces && all[..|segs|] == segs;
  }

  lemma EmitPacked(limit: nat, shards: seq<seq<Segment>>, shard: seq<Segment>)
    requires limit > 0 && shard != [] && Packed(limit, shards)
    requires Total(shard) <= limit && CutsAtLimit(limit, shard)
    requires shards != [] ==> Follows(limit, shards[|shards| - 1], shard[0])
    ensures Packed(limit, shards + [shard])
  {
    var all := shards + [shard];
    hide CutsAtLimit, Follows, Total;
    forall i | 0 <= i < |all| - 1 ensures Follows(limit, all[i], all[i + 1][0]) {
      assert all[i] == shards[i];
    }
  }

  /** Closing the current shard: its last piece, if any, is where a file was cut. */
  lemma Close(limit: nat, shards: seq<seq<Segment>>, current: seq<Segment>)
    requires Filling(limit, shards, current) && current != [] && limit > 0
    ensures Packed(limit, shards + [current])
    ensures Flat(shards + [current]) == All(shards + [current], []) == All(shards, current)
    ensures Total(current) == limit ==> Filling(limit, shards + [current], [])
  {
    FlatOne(shards, current);
    EmitPacked(limit, shards, current);
    hide Packed;
  }

  /** A whole file that does not fit starts the next shard. */
  lemma StartNext(limit: nat, shards: seq<seq<Segment>>, current: seq<Segment>, s: Segment)
    requires Filling(limit, shards, current) && current != [] && limit > 0
    requires s.Whole() && s.size <= limit < Total(current) + s.size
    ensures Filling(limit, shards + [current], [s]) && Total([s]) == s.size
    ensures All(shards + [current], [s]) == All(shards, current) + [s]
  {
    Close(limit, shards, current);
    TotalOne([], s);
    hide Packed;
    assert [] + [s] == [s];
  }

  /** A last or only piece that fits goes into the current shard. */
  lemma Extend(limit: nat, shards: seq<seq<Segment>>, current: seq<Segment>, s: Segment)
    requires Filling(limit, shards, current) && !s.Partial()
    requires limit > 0 ==> Total(current) + s.size <= limit
    ensures Filling(limit, shards, current + [s]) && Total(current + [s]) == Total(current) + s.size
    ensures All(shards, current + [s]) == All(shards, current) + [s]
  {
    TotalOne(current, s);
    hide Packed;
    assert current != [] ==> (current + [s])[0] == current[0];
  }

  /** A piece that reaches the limit closes the shard. */
  lemma FillUp(limit: nat, shards: seq<seq<Segment>>, current: seq<Segment>, s: Segment)
    requires Filling(limit, shards, current) && limit > 0 && Total(current) + s.size == limit
    ensures Filling(limit, shards + [current + [s]], [])
    ensures All(shards + [current + [s]], []) == All(shards, current) + [s]
    ensures Total(current + [s]) == limit
  {
    var filled := current + [s];
    TotalOne(current, s);
    FlatOne(shards, filled);
    assert forall j | 0 <= j < |current| :: filled[j] == current[j];
    EmitPacked(limit, shards, filled);
    hide Packed;
  }

  // ---- the packer ---------------------------------------------------------------------------

  /** Places a whole file, closing the current shard first if it does not fit. */
  method AddWhole(limit: nat, f: File, shards: seq<seq<Segment>>, current: seq<Segment>, currentSize: nat)
    returns (shards': seq<seq<Segment>>, current': seq<Segment>, currentSize': nat)
    requires limit == 0 || f.size <= limit
    requires Filling(limit, shards, current) && currentSize == Total(current)
    ensures Filling(limit, shards', current') && currentSize' == Total(current') && current' != []
    ensures All(shards', current') == All(shards, current) + [Segment(f.path, f.size, 0, f.size)]
  {
    var s := Segment(f.path, f.size, 0, f.size);
    if limit > 0 && currentSize + f.size > limit && currentSize > 0 {
      StartNext(limit, shards, current, s);
      hide Filling, All;
      shards', current', currentSize' := shards + [current], [s], f.size;
    } else {
      Extend(limit, shards, current, s);
      hide Filling, All;
      shards', current', currentSize' := shards, current + [s], currentSize + f.size;
    }
  }

  /** The size of the next piece of a split file; the inner case for an empty piece never arises. */
  function ChunkSize(limit: nat, remaining: nat, currentSize: nat): (chunk: nat)
    requires limit > 0 && remaining > 0 && currentSize < limit
    ensures 0 < chunk <= remaining && currentSize + chunk <= limit
    ensures chunk < remaining ==> currentSize + chunk == limit
  {
    var chunk := Min(remaining, limit);
    var spaceLeft := limit - currentSize;
    if currentSize > 0 && chunk > spaceLeft then spaceLeft else chunk
  }

  /** Places the next piece of a file that is being split: a full shard is closed before and after. */
  method AddPiece(limit: nat, f: File, offset: nat, shards: seq<seq<Segment>>, current: seq<Segment>, currentSize: nat)
    returns (shards': seq<seq<Segment>>, current': seq<Segment>, currentSize': nat, chunk: nat)
    requires limit > 0 && offset < f.size
    requires Filling(limit, shards, current) && currentSize == Total(current)
    ensures Filling(limit, shards', current') && currentSize' == Total(current')
    ensures 0 < chunk <= f.size - offset
    ensures All(shards', current') == All(shards, current) + [Segment(f.path, f.size, offset, chunk)]
  {
    shards', current', currentSize' := shards, current, currentSize;
    if currentSize >= limit {
      assert current != [];
      Close(limit, shards, current);
      NoSegments();
      hide Filling, All, Total;
      shards', current', currentSize' := shards + [current], [], 0;
    }
    hide Filling, All, Total;
    shards', current', currentSize', chunk := AddChunk(limit, f, offset, shards', current', currentSize');
  }

  lemma NoSegments()
    ensures Total([]) == 0
  {
  }

  method AddChunk(limit: nat, f: File, offset: nat, shards: seq<seq<Segment>>, current: seq<Segment>, currentSize: nat)
    returns (shards': seq<seq<Segment>>, current': seq<Segment>, currentSize': nat, chunk: nat)
    requires limit > 0 && offset < f.size
    requires Filling(limit, shards, current) && currentSize == Total(current) < limit
    ensures Filling(limit, shards', current') && currentSize' == Total(current')
    ensures 0 < chunk <= f.size - offset
    ensures All(shards', current') == All(shards, current) + [Segment(f.path, f.size, offset, chunk)]
  {
    chunk := ChunkSize(limit, f.size - offset, currentSize);
    var s := Segment(f.path, f.size, offset, chunk);
    if currentSize + chunk >= limit {
      FillUp(limit, shards, current, s);
      hide Filling, All;
      shards', current', currentSize' := shards + [current + [s]], [], 0;
    } else {
      Extend(limit, shards, current, s);
      hide Filling, All;
      shards', current', currentSize' := shards, current + [s], currentSize + chunk;
    }
  }

  /** Splits a file larger than the limit. */
  method AddSplit(limit: nat, f: File, shards: seq<seq<Segment>>, current: seq<Segment>, currentSize: nat)
    returns (shards': seq<seq<Segment>>, current': seq<Segment>, currentSize': nat, ghost pieces: seq<Segment>)
    requires 0 < limit < f.size
    requires Filling(limit, shards, current) && currentSize == Total(current)
    ensures Filling(limit, shards', current') && currentSize' == Total(current')
    ensures Pieces(pieces, f, f.size) && pieces != []
    ensures All(shards', current') == All(shards, current) + pieces
  {
    shards', current', currentSize', pieces := shards, current, currentSize, [];
    var remaining := f.size;
    var offset := 0;
    while remaining > 0
      invariant remaining + offset == f.size
      invariant Filling(limit, shards', current') && currentSize' == Total(current')
      invariant Pieces(pieces, f, offset)
      invariant All(shards', current') == All(shards, current) + pieces
    {
      var chunk;
      ghost var before := All(shards', current');
      shards', current', currentSize', chunk := AddPiece(limit, f, offset, shards', current', currentSize');
      ghost var s := Segment(f.path, f.size, offset, chunk);
      PiecesMore(pieces, f, s);
      assert before + [s] == All(shards, current) + (pieces + [s]);
      pieces := pieces + [s];
      remaining, offset := remaining - chunk, offset + chunk;
    }
  }

  /** The shard definitions of a dataset. */
  method GenerateShardDefs(files: seq<File>, limit: nat, dataset: int) returns (defs: seq<ShardDef>)
    ensures forall i | 0 <= i < |defs| :: defs[i].number == i && defs[i].dataset == dataset
    ensures Packed(limit, Groups(defs))
    ensures Tiles(Flat(Groups(defs)), files, limit)
  {
    var shards: seq<seq<Segment>>, current: seq<Segment>, currentSize := [], [], 0;
    assert files[..0] == [];
    for i := 0 to |files|
      invariant Filling(limit, shards, current) && currentSize == Total(current)
      invariant Tiles(All(shards, current), files[..i], limit)
    {
      var f := files[i];
      ghost var before := All(shards, current);
      assert files[..i + 1] == files[..i] + [f];
      ghost var pieces;
      hide Tiles, Filling, All, Pieces;
      if limit == 0 || f.size <= limit {
        shards, current, currentSize := AddWhole(limit, f, shards, current, currentSize);
        pieces := [Segment(f.path, f.size, 0, f.size)];
        OnePiece(f);
      } else {
        shards, current, currentSize, pieces := AddSplit(limit, f, shards, current, currentSize);
      }
      TilesMore(before, files[..i], limit, f, pieces);
    }
    assert files[..|files|] == files;
    hide Tiles, Filling, Packed;
    if |current| > 0 {
      FlatOne(shards, current);
      EmitLast(limit, shards, current);
      shards := shards + [current];
    } else {
      assert All(shards, current) == Flat(shards);
      EmptyLast(limit, shards);
    }
    defs := seq(|shards|, i requires 0 <= i < |shards| => ShardDef(dataset, i, shards[i]));
    assert Groups(defs) == shards;
  }

  lemma OnePiece(f: File)
    ensures Pieces([Segment(f.path, f.size, 0, f.size)], f, f.size)
  {
    var s := Segment(f.path, f.size, 0, f.size);
    assert [s][..0] == [];
  }

  lemma EmitLast(limit: nat, shards: seq<seq<Segment>>, current: seq<Segment>)
    requires Filling(limit, shards, current) && current != []
    ensures Packed(limit, shards + [current])
  {
    if limit > 0 {
      EmitPacked(limit, shards, current);
    }
  }

  lemma EmptyLast(limit: nat, shards: seq<seq<Segment>>)
    requires Filling(limit, shards, [])
    ensures Packed(limit, shards)
  {
  }

  function Groups(defs: seq<ShardDef>): (shards: seq<seq<Segment>>)
    ensures |shards| == |defs|
  {
    seq(|defs|, i requires 0 <= i < |defs| => defs[i].segments)
  }

  // ---- space --------------------------------------------------------------------------------

  function FileBytes(files: seq<File>): nat {
    if files == [] then 0 else FileBytes(files[..|files| - 1]) + files[|files| - 1].size
  }

  function ShardBytes(shards: seq<seq<Segment>>): nat {
    if shards == [] then 0 else ShardBytes(shards[..|shards| - 1]) + Total(shards[|shards| - 1])
  }

  lemma {:induction false} TotalAppend(a: seq<Segment>, b: seq<Segment>)
    ensures Total(a + b) == Total(a) + Total(b)
    decreases |b|
  {
    if b == [] {
      assert a + b == a;
    } else {
      var n := |b| - 1;
      assert (a + b)[..|a + b| - 1] == a + b[..n];
      TotalAppend(a, b[..n]);
    }
  }

  lemma TotalSplit(segs: seq<Segment>, n: nat)
    requires n <= |segs|
    ensures Total(segs) == Total(segs[..n]) + Total(segs[n..])
  {
    TotalAppend(segs[..n], segs[n..]);
    assert segs == segs[..n] + segs[n..];
  }

  lemma {:induction false} PiecesTotal(segs: seq<Segment>, f: File, upTo: nat)
    requires Pieces(segs, f, upTo)
    ensures Total(segs) == upTo
  {
    if segs != [] {
      PiecesTotal(segs[..|segs| - 1], f, segs[|segs| - 1].offset);
    }
  }

  lemma {:induction false} TilesTotal(segs: seq<Segment>, files: seq<File>, limit: nat)
    requires Tiles(segs, files, limit)
    ensures Total(segs) == FileBytes(files)
    decreases |files|
  {
    if files != [] {
      var f := files[|files| - 1];
      var n: nat :| n < |segs| && Pieces(segs[n..], f, f.size) && Tiles(segs[..n], files[..|files| - 1], limit);
      hide Tiles, Pieces, Total;
      TilesTotal(segs[..n], files[..|files| - 1], limit);
      PiecesTotal(segs[n..], f, f.size);
      TotalSplit(segs, n);
    }
  }

  lemma {:induction false} FlatTotal(shards: seq<seq<Segment>>)
    ensures Total(Flat(shards)) == ShardBytes(shards)
  {
    if shards != [] {
      FlatTotal(shards[..|shards| - 1]);
      TotalAppend(Flat(shards[..|shards| - 1]), shards[|shards| - 1]);
    }
  }

  /** No byte is lost or doubled. */
  lemma GroupingConserves(shards: seq<seq<Segment>>, files: seq<File>, limit: nat)
    requires Tiles(Flat(shards), files, limit)
    ensures ShardBytes(shards) == FileBytes(files)
  {
    TilesTotal(Flat(shards), files, limit);
    FlatTotal(shards);
  }

  lemma {:induction false} FirstWithinTotal(segs: seq<Segment>)
    requires segs != []
    ensures segs[0].size <= Total(segs)
  {
    if |segs| > 1 {
      FirstWithinTotal(segs[..|segs| - 1]);
    }
  }

  lemma PrefixPacked(limit: nat, shards: seq<seq<Segment>>, n: nat)
    requires Packed(limit, shards) && n <= |shards|
    ensures Packed(limit, shards[..n])
  {
    hide Follows, CutsAtLimit, Total;
    var rest := shards[..n];
    forall i | limit > 0 && 0 <= i < n - 1 ensures Follows(limit, rest[i], rest[i + 1][0]) {
      assert Follows(limit, shards[i], shards[i + 1][0]);
    }
  }

  lemma NeighboursHold(limit: nat, a: seq<Segment>, b: seq<Segment>)
    requires b != [] && Follows(limit, a, b[0])
    ensures Total(a) + Total(b) >= limit
  {
    FirstWithinTotal(b);
  }

  lemma TwoHoldTheLimit(limit: nat, shards: seq<seq<Segment>>)
    requires limit > 0 && Packed(limit, shards) && |shards| >= 2
    ensures Packed(limit, shards[..|shards| - 2])
    ensures ShardBytes(shards) >= ShardBytes(shards[..|shards| - 2]) + limit
  {
    var n := |shards|;
    assert Follows(limit, shards[n - 2], shards[n - 2 + 1][0]);
    NeighboursHold(limit, shards[n - 2], shards[n - 1]);
    PrefixPacked(limit, shards, n - 2);
    hide Packed, Follows, Total;
    assert shards[..n - 1][..n - 2] == shards[..n - 2] && shards[..n - 1][n - 2] == shards[n - 2];
  }

  lemma OneMoreTimes(q: nat, limit: nat)
    ensures (q + 1) * limit == q * limit + limit
  {
  }

  /** Two neighbouring shards hold at least the limit, so at most half the space is wasted. */
  lemma {:induction false} AtMostHalfWasted(limit: nat, shards: seq<seq<Segment>>)
    requires limit > 0 && Packed(limit, shards)
    ensures (|shards| / 2) * limit <= ShardBytes(shards)
    decreases |shards|
  {
    var n := |shards|;
    if n >= 2 {
      TwoHoldTheLimit(limit, shards);
      hide Packed, ShardBytes;
      AtMostHalfWasted(limit, shards[..n - 2]);
      OneMoreTimes((n - 2) / 2, limit);
      assert |shards[..n - 2]| == n - 2 && n / 2 == (n - 2) / 2 + 1;
    }
  }

  /** n shards of a limit hold files of at least (n / 2) * limit bytes. */
  lemma ShardsNeeded(limit: nat, shards: seq<seq<Segment>>, files: seq<File>)
    requires limit > 0 && Packed(limit, shards) && Tiles(Flat(shards), files, limit)
    ensures (|shards| / 2) * limit <= FileBytes(files)
  {
    AtMostHalfWasted(limit, shards);
    GroupingConserves(shards, files, limit);
  }
}
