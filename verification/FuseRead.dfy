/** Random-access reading of a mounted file whose bytes lie in segments of shards. */
module FuseRead {
  import opened Bytes
  import opened BinShard

  /** A segment of a file: its shard ("" when unknown), place and sizes. */
  datatype SegmentLoc = SegmentLoc(shard: string, offset: nat, size: nat, csize: nat)

  /** Up to n bytes from off; where there are none although some were asked for, reading fails. */
  function ReadAt(b: Bytes, off: nat, n: nat): Result<Bytes> {
    if n == 0 then Success([])
    else if off >= |b| then Failure("EIO")
    else Success(b[off..Min(off + n, |b|)])
  }

  /** `length` bytes of decompressed data from `start`, fewer at its end. */
  function Cut(b: Bytes, start: nat, length: nat): Result<Bytes> {
    if start > |b| then Failure("EIO") else Success(b[start..Min(start + length, |b|)])
  }

  function ReadSegment(mode: Mode, codec: Codec, shards: Tree, seg: SegmentLoc, start: nat,
                       length: nat): Result<Bytes> {
    if seg.shard == "" || seg.shard !in shards then Failure("ENOENT")
    else
      var file := shards[seg.shard];
      match mode
      case PerSegment =>
        var n := if seg.csize == 0 then seg.size else seg.csize;
        var packed := if n == 0 then Some([]) else Slice(file, seg.offset, n);
        if packed.None? then Failure("EIO")
        else
          var plain := codec.decompress(packed.value);
          if plain.None? then Failure("EIO") else Cut(plain.value, start, length)
      case PerShard =>
        var plain := codec.decompress(file);
        if plain.None? then Failure("EIO") else Cut(plain.value, seg.offset + start, length)
      case Plain => ReadAt(file, seg.offset + start, length)
  }

  /** Reading any stretch within a segment gives that stretch of its raw data. */
  ghost predicate Readable(mode: Mode, codec: Codec, shards: Tree, segs: seq<SegmentLoc>, raws: seq<Bytes>) {
    && |raws| == |segs|
    && forall i: nat | i < |segs| :: |raws[i]| == segs[i].size && SegmentReadable(mode, codec, shards, segs[i], raws[i])
  }

  ghost predicate SegmentReadable(mode: Mode, codec: Codec, shards: Tree, seg: SegmentLoc, raw: Bytes) {
    forall start: nat, length: nat | start + length <= |raw| ::
      ReadSegment(mode, codec, shards, seg, start, length) == Success(raw[start..start + length])
  }

  /** The slice [off, off + n) of a flat file, cut at its end. */
  function FlatRead(b: Bytes, off: nat, n: nat): Bytes {
    b[Min(off, |b|)..Min(off + n, |b|)]
  }

  /** The data in which a segment begins at `from`: the shard as it is, all of it decompressed, or the segment
      decompressed on its own, whose size stands for a compressed size that is not recorded. */
  predicate LiesIn(mode: Mode, codec: Codec, file: Bytes, seg: SegmentLoc, data: Bytes, from: nat) {
    match mode
    case Plain => data == file && from == seg.offset
    case PerShard => codec.decompress(file) == Some(data) && from == seg.offset
    case PerSegment =>
      var n := if seg.csize > 0 then seg.csize else seg.size;
      && (n == 0 || seg.offset + n <= |file|) && from == 0
      && codec.decompress(if n == 0 then [] else file[seg.offset..seg.offset + n]) == Some(data)
  }

  /** What is read of a shard as it is found, whole or not: the bytes that are there from the start asked for, and an
      error when that is past the end of the data, or nothing is left of an uncompressed shard. */
  lemma ReadsWhatIsThere(mode: Mode, codec: Codec, shards: Tree, seg: SegmentLoc, start: nat, length: nat, data: Bytes,
                         from: nat)
    requires seg.shard != "" && seg.shard in shards && LiesIn(mode, codec, shards[seg.shard], seg, data, from)
    ensures var at := from + start;
            ReadSegment(mode, codec, shards, seg, start, length)
              == if at < |data| || (at == |data| && !mode.Plain?) || (length == 0 && mode.Plain?)
                 then Success(FlatRead(data, at, length))
                 else Failure("EIO")
  {
    assert FlatRead(data, from + start, 0) == [];
    if mode.PerSegment? {
      var n := if seg.csize > 0 then seg.csize else seg.size;
      assert Slice(shards[seg.shard], seg.offset, n).Some? || n == 0;
    }
  }

  /** One more segment: what is read of it continues what has been read. */
  lemma FlatReadMore(a: Bytes, b: Bytes, off: nat, n: nat)
    requires off >= |a| || |FlatRead(a, off, n)| < n
    ensures if off >= |a| + |b| then FlatRead(a + b, off, n) == FlatRead(a, off, n)
            else
              var start := Max(off - |a|, 0);
              var length := Min(n - |FlatRead(a, off, n)|, |b| - start);
              && 0 <= length && start + length <= |b|
              && FlatRead(a + b, off, n) == FlatRead(a, off, n) + b[start..start + length]
  {
    var whole, got := a + b, FlatRead(a, off, n);
    var lo, hi := Min(off, |whole|), Min(off + n, |whole|);
    if off < |a| + |b| {
      var start := Max(off - |a|, 0);
      var length := Min(n - |got|, |b| - start);
      assert |got| + length == hi - lo;
      forall x | 0 <= x < hi - lo ensures whole[lo..hi][x] == (got + b[start..start + length])[x] {
        assert whole[lo..hi][x] == whole[lo + x];
      }
    }
  }

  /** Once the buffer is full, later segments change nothing. */
  lemma FlatReadFull(a: Bytes, b: Bytes, off: nat, n: nat)
    requires |FlatRead(a, off, n)| >= n
    ensures FlatRead(a + b, off, n) == FlatRead(a, off, n)
  {
  }

  lemma {:induction false} ConcatSplits(parts: seq<Bytes>, i: nat)
    requires i <= |parts|
    ensures Concat(parts) == Concat(parts[..i]) + Concat(parts[i..])
    decreases |parts|
  {
    if i == |parts| {
      assert parts[..i] == parts;
    } else {
      var init := parts[..|parts| - 1];
      ConcatSplits(init, i);
      assert init[..i] == parts[..i];
      assert parts[i..][..|parts[i..]| - 1] == init[i..];
    }
  }

  /** The error is one of reading within a segment. */
  ghost predicate FailsWithin(mode: Mode, codec: Codec, shards: Tree, segs: seq<SegmentLoc>, r: Result<Bytes>) {
    exists seg, start: nat, length: nat ::
      seg in segs && start + length <= seg.size && r == ReadSegment(mode, codec, shards, seg, start, length)
  }

  /** What has been read before segment i. */
  ghost predicate ReadSoFar(raws: seq<Bytes>, i: nat, off: nat, n: nat, skipped: nat, buf: Bytes) {
    i <= |raws| && skipped == |Concat(raws[..i])| && buf == FlatRead(Concat(raws[..i]), off, n)
  }

  /** Reads from a mounted file like from a flat one. */
  method Read(mode: Mode, codec: Codec, shards: Tree, segs: seq<SegmentLoc>, n: nat, at: int, ghost raws: seq<Bytes>)
    returns (r: Result<Bytes>)
    ensures Readable(mode, codec, shards, segs, raws) ==> r == Success(FlatRead(Concat(raws), Max(at, 0), n))
    ensures r.Failure? ==> FailsWithin(mode, codec, shards, segs, r)
  {
    var off := if at < 0 then 0 else at;
    var buf: Bytes, skipped: nat := [], 0;
    ghost var readable := Readable(mode, codec, shards, segs, raws);
    assert raws[..0] == [];
    for i := 0 to |segs|
      invariant readable ==> ReadSoFar(raws, i, off, n, skipped, buf)
      invariant if off >= skipped then buf == [] else |buf| < n
    {
      var segEnd := skipped + segs[i].size;
      if readable {
        OneMoreSegment(mode, codec, shards, segs, raws, i, off, n, skipped, buf);
      }
      hide ReadSoFar, ReadSegment, Readable;
      if off < segEnd {
        var readStart := Max(off - skipped, 0);
        var readLen := Min(n - |buf|, segs[i].size - readStart);
        var data := ReadSegment(mode, codec, shards, segs[i], readStart, readLen);
        if data.Failure? { return data; }
        buf := buf + data.value;
        if |buf| >= n {
          if readable { FullBuffer(raws, i + 1, off, n, segEnd, buf); }
          return Success(buf);
        }
      }
      skipped := segEnd;
    }
    assert raws[..|raws|] == raws;
    return Success(buf);
  }

  lemma FullBuffer(raws: seq<Bytes>, i: nat, off: nat, n: nat, skipped: nat, buf: Bytes)
    requires ReadSoFar(raws, i, off, n, skipped, buf) && |buf| >= n
    ensures buf == FlatRead(Concat(raws), off, n)
  {
    ConcatSplits(raws, i);
    FlatReadFull(Concat(raws[..i]), Concat(raws[i..]), off, n);
  }

  /** What reading segment i adds to what the segments before it gave. */
  lemma OneMoreSegment(mode: Mode, codec: Codec, shards: Tree, segs: seq<SegmentLoc>, raws: seq<Bytes>, i: nat,
                       off: nat,
                       n: nat, skipped: nat, buf: Bytes)
    requires Readable(mode, codec, shards, segs, raws) && i < |segs|
    requires ReadSoFar(raws, i, off, n, skipped, buf) && (off >= skipped || |buf| < n)
    ensures var segEnd := skipped + segs[i].size;
            if off >= segEnd then ReadSoFar(raws, i + 1, off, n, segEnd, buf)
            else
              var start := Max(off - skipped, 0);
              var length := Min(n - |buf|, segs[i].size - start);
              var data := ReadSegment(mode, codec, shards, segs[i], start, length);
              data.Success? && ReadSoFar(raws, i + 1, off, n, segEnd, buf + data.value)
  {
    var before := Concat(raws[..i]);
    assert raws[..i + 1][..i] == raws[..i];
    assert Concat(raws[..i + 1]) == before + raws[i];
    assert SegmentReadable(mode, codec, shards, segs[i], raws[i]);
    FlatReadMore(before, raws[i], off, n);
    hide FlatRead, Concat, ReadSegment;
  }

  // ---- mounting what was packed -------------------------------------------------------------

  function LocOf(shard: string, info: SegInfo): SegmentLoc {
    SegmentLoc(shard, info.offset, info.size, info.csize)
  }

  lemma StretchOfPart(whole: Bytes, part: Bytes, off: nat, start: nat, length: nat)
    requires Slice(whole, off, |part|) == Some(part) && start + length <= |part|
    ensures whole[off + start..off + start + length] == part[start..start + length]
  {
    var w := whole[off..off + |part|];
    assert w == part;
    var a, b := whole[off + start..off + start + length], part[start..start + length];
    forall x | 0 <= x < |a| ensures a[x] == b[x] {
      assert w[start + x] == whole[off + (start + x)];
    }
  }

  /** In all three modes a recorded segment reads back as its stretch of raw data. */
  lemma PackedIsReadable(mode: Mode, codec: Codec, shards: Tree, path: string, segs: seq<SegmentDef>, raws: seq<Bytes>,
                         sh: Shard, i: nat)
    requires codec.Inverts() && Holds(mode, codec, segs, raws, sh) && i < |segs|
    requires path != "" && path in shards && shards[path] == sh.bytes
    ensures SegmentReadable(mode, codec, shards, LocOf(path, sh.infos[i]), raws[i])
  {
    var ws := AllWritten(mode, codec, raws);
    PartAt(ws, i);
    assert sh.infos[i] == InfoAt(mode, codec, segs, raws, i);
    assert mode.PerShard? || mode.Plain? ==> ws == raws;
    var off := |Concat(ws[..i])|;
    forall start: nat, length: nat | start + length <= |raws[i]|
      ensures ReadSegment(mode, codec, shards, LocOf(path, sh.infos[i]), start, length)
           == Success(raws[i][start..start + length])
    {
      if mode.PerSegment? {
        assert codec.decompress(ws[i]) == Some(raws[i]);
      } else {
        StretchOfPart(Concat(raws), raws[i], off, start, length);
      }
    }
  }

  // ---- the index of a mount -----------------------------------------------------------------

  /** A row of the index query: the path of a file and one of its segments. */
  datatype SegRow = SegRow(path: string, loc: SegmentLoc)

  type Index = map<string, seq<SegmentLoc>>

  /** The segments of one file, in the order of the rows. */
  function LocsOf(rows: seq<SegRow>, path: string): seq<SegmentLoc> {
    if rows == [] then []
    else
      var last := rows[|rows| - 1];
      LocsOf(rows[..|rows| - 1], path) + if last.path == path then [last.loc] else []
  }

  lemma NextRow(rows: seq<SegRow>, i: nat, path: string)
    requires i < |rows|
    ensures LocsOf(rows[..i + 1], path) == LocsOf(rows[..i], path) + if rows[i].path == path then [rows[i].loc] else []
  {
    assert rows[..i + 1][..i] == rows[..i];
  }

  /** The index keeps the order of the query: row i is found after as many segments of its file as there are rows of the
      file before it. */
  lemma {:induction false} IndexFollowsRows(rows: seq<SegRow>, i: nat)
    requires i < |rows|
    ensures var n := Count(seq(i, j requires 0 <= j < i => rows[j].path == rows[i].path));
            n < |LocsOf(rows, rows[i].path)| && LocsOf(rows, rows[i].path)[n] == rows[i].loc
    decreases |rows|
  {
    var path, init := rows[i].path, rows[..|rows| - 1];
    if i < |init| {
      IndexFollowsRows(init, i);
      assert seq(i, j requires 0 <= j < i => rows[j].path == path)
          == seq(i, j requires 0 <= j < i => init[j].path == init[i].path);
    } else {
      LocsAreCounted(init, path);
      assert seq(i, j requires 0 <= j < i => rows[j].path == path)
          == seq(|init|, j requires 0 <= j < |init| => init[j].path == path);
    }
  }

  lemma {:induction false} LocsAreCounted(rows: seq<SegRow>, path: string)
    ensures |LocsOf(rows, path)| == Count(seq(|rows|, j requires 0 <= j < |rows| => rows[j].path == path))
  {
    if rows != [] {
      var n := |rows| - 1;
      var flags := seq(|rows|, j requires 0 <= j < |rows| => rows[j].path == path);
      LocsAreCounted(rows[..n], path);
      assert flags[..n] == seq(n, j requires 0 <= j < n => rows[..n][j].path == path);
    }
  }

  method BuildIndex(rows: seq<SegRow>) returns (idx: Index)
    ensures forall p :: p in idx <==> LocsOf(rows, p) != []
    ensures forall p | p in idx :: idx[p] == LocsOf(rows, p)
  {
    idx := map[];
    for i := 0 to |rows|
      invariant forall p :: p in idx <==> LocsOf(rows[..i], p) != []
      invariant forall p | p in idx :: idx[p] == LocsOf(rows[..i], p)
    {
      var row := rows[i];
      forall p ensures LocsOf(rows[..i + 1], p) == LocsOf(rows[..i], p) + if row.path == p then [row.loc] else [] {
        NextRow(rows, i, p);
      }
      hide LocsOf;
      var before := if row.path in idx then idx[row.path] else [];
      idx := idx[row.path := before + [row.loc]];
    }
    assert rows[..|rows|] == rows;
  }

  /** A packed shard: its path, what went into it, and its bytes and records. */
  datatype Pack = Pack(path: string, segs: seq<SegmentDef>, raws: seq<Bytes>, shard: Shard)

  function RowsIn(pack: Pack): (rows: seq<SegRow>)
    ensures |rows| == |pack.shard.infos|
  {
    var infos := pack.shard.infos;
    seq(|infos|, i requires 0 <= i < |infos| => SegRow(infos[i].path, LocOf(pack.path, infos[i])))
  }

  function AllRows(packs: seq<Pack>): seq<SegRow> {
    if packs == [] then [] else AllRows(packs[..|packs| - 1]) + RowsIn(packs[|packs| - 1])
  }

  /** The shards were packed from the files and are in the dataset's directory. */
  ghost predicate AllPacked(mode: Mode, codec: Codec, files: Tree, shards: Tree, packs: seq<Pack>) {
    forall pack | pack in packs ::
      && RawsOf(files, pack.segs, pack.raws) && Holds(mode, codec, pack.segs, pack.raws, pack.shard)
      && pack.path != "" && pack.path in shards && shards[pack.path] == pack.shard.bytes
  }

  /** What the query returns: the records of all shards, those of one file by their place in their shard. */
  ghost predicate Queried(rows: seq<SegRow>, packs: seq<Pack>) {
    && multiset(rows) == multiset(AllRows(packs))
    && forall i, j | 0 <= i < j < |rows| && rows[i].path == rows[j].path :: rows[i].loc.offset <= rows[j].loc.offset
  }

  /** As many bytes from the start of the file as each segment has. */
  function Pieces(file: Bytes, locs: seq<SegmentLoc>): (ps: seq<Bytes>)
    ensures |ps| == |locs|
  {
    seq(|locs|, i requires 0 <= i < |locs| => Clip(file, locs[i].size))
  }

  lemma {:induction false} RowOfPack(packs: seq<Pack>, row: SegRow)
    requires row in AllRows(packs)
    ensures exists pack :: pack in packs && row in RowsIn(pack)
  {
    if packs != [] {
      var n := |packs| - 1;
      assert packs == packs[..n] + [packs[n]];
      if row in RowsIn(packs[n]) {
        assert packs[n] in packs;
      } else {
        RowOfPack(packs[..n], row);
        var pack :| pack in packs[..n] && row in RowsIn(pack);
        assert pack in packs;
      }
    }
  }

  lemma {:induction false} LocIsRow(rows: seq<SegRow>, path: string, x: nat)
    requires x < |LocsOf(rows, path)|
    ensures SegRow(path, LocsOf(rows, path)[x]) in rows
  {
    var n := |rows| - 1;
    assert rows == rows[..n] + [rows[n]];
    if x < |LocsOf(rows[..n], path)| {
      LocIsRow(rows[..n], path, x);
    }
  }

  lemma RecordOfFile(mode: Mode, codec: Codec, files: Tree, pack: Pack, i: nat)
    requires RawsOf(files, pack.segs, pack.raws) && Holds(mode, codec, pack.segs, pack.raws, pack.shard)
    requires i < |pack.shard.infos|
    ensures var row := RowsIn(pack)[i];
            && row.path in files && row.loc.size <= |files[row.path]|
            && pack.raws[i] == Clip(files[row.path], row.loc.size)
  {
    assert pack.shard.infos[i] == InfoAt(mode, codec, pack.segs, pack.raws, i);
    assert RawOf(files, pack.segs[i]) == Some(pack.raws[i]);
    var file := files[RowsIn(pack)[i].path];
    assert file[..|file|] == file;
  }

  /** Every record leads to the beginning of its file. */
  lemma RowIsReadable(mode: Mode, codec: Codec, files: Tree, shards: Tree, packs: seq<Pack>, row: SegRow)
    requires codec.Inverts() && AllPacked(mode, codec, files, shards, packs) && row in AllRows(packs)
    ensures row.path in files && row.loc.size <= |files[row.path]|
    ensures SegmentReadable(mode, codec, shards, row.loc, Clip(files[row.path], row.loc.size))
  {
    RowOfPack(packs, row);
    var pack :| pack in packs && row in RowsIn(pack);
    var i :| 0 <= i < |pack.shard.infos| && RowsIn(pack)[i] == row;
    hide SegmentReadable, RawsOf, Holds;
    PackedIsReadable(mode, codec, shards, pack.path, pack.segs, pack.raws, pack.shard, i);
    RecordOfFile(mode, codec, files, pack, i);
  }

  /** A mounted file reads like the pieces of its segments one after another: in the order of the index, each from
      the start of the source file. */
  lemma MountedReads(mode: Mode, codec: Codec, files: Tree, shards: Tree, packs: seq<Pack>, rows: seq<SegRow>,
                     path: string)
    requires codec.Inverts() && AllPacked(mode, codec, files, shards, packs) && Queried(rows, packs)
    requires LocsOf(rows, path) != []
    ensures path in files
    ensures Readable(mode, codec, shards, LocsOf(rows, path), Pieces(files[path], LocsOf(rows, path)))
  {
    var locs := LocsOf(rows, path);
    forall x: nat | x < |locs|
      ensures path in files && locs[x].size <= |files[path]|
      ensures SegmentReadable(mode, codec, shards, locs[x], Clip(files[path], locs[x].size))
    {
      LocIsRow(rows, path, x);
      assert SegRow(path, locs[x]) in multiset(rows);
      RowIsReadable(mode, codec, files, shards, packs, SegRow(path, locs[x]));
    }
    var first := locs[0];
    hide SegmentReadable;
  }

  function Offset(locs: seq<SegmentLoc>, i: nat): nat
    requires i <= |locs|
  {
    if i == 0 then 0 else Offset(locs, i - 1) + locs[i - 1].size
  }

  lemma {:induction false} PiecesLength(file: Bytes, locs: seq<SegmentLoc>, i: nat)
    requires i <= |locs| && forall x | 0 <= x < |locs| :: locs[x].size <= |file|
    ensures |Concat(Pieces(file, locs)[..i])| == Offset(locs, i)
  {
    if i > 0 {
      PiecesLength(file, locs, i - 1);
      assert Pieces(file, locs)[..i][..i - 1] == Pieces(file, locs)[..i - 1];
    } else {
      assert Pieces(file, locs)[..0] == [];
    }
  }

  /** Part i is in b where it is in the concatenation. */
  predicate InPlace(parts: seq<Bytes>, b: Bytes, i: nat)
    requires i < |parts|
  {
    Slice(b, |Concat(parts[..i])|, |parts[i]|) == Some(parts[i])
  }

  /** A concatenation is the file exactly when every part is where it belongs. */
  lemma {:induction false} ConcatIs(parts: seq<Bytes>, b: Bytes)
    requires |Concat(parts)| == |b|
    ensures (forall i: nat | i < |parts| :: InPlace(parts, b, i)) <==> Concat(parts) == b
  {
    if Concat(parts) == b {
      forall i: nat | i < |parts| ensures InPlace(parts, b, i) {
        PartAt(parts, i);
      }
    } else if parts != [] {
      var n := |parts| - 1;
      var init, last := parts[..n], parts[n];
      var b' := b[..|Concat(init)|];
      assert b == b' + b[|b'|..];
      ConcatIs(init, b');
      if Concat(init) == b' {
        assert b[|b'|..] != last;
        assert b[|b'|..|b'| + |last|] == b[|b'|..];
        assert !InPlace(parts, b, n);
      } else {
        var i: nat :| i < n && !InPlace(init, b', i);
        assert init[..i] == parts[..i] && init[i] == parts[i];
        PartAt(init, i);
        SliceOfSum(b', b[|b'|..], |Concat(init[..i])|, |init[i]|);
        assert !InPlace(parts, b, i);
      }
    }
  }

  /** The mounted file and the source file have the same bytes everywhere. */
  ghost predicate ReadsLike(file: Bytes, locs: seq<SegmentLoc>) {
    forall off: nat, n: nat :: FlatRead(Concat(Pieces(file, locs)), off, n) == FlatRead(file, off, n)
  }

  lemma ReadsLikeExactly(file: Bytes, locs: seq<SegmentLoc>)
    requires |Concat(Pieces(file, locs))| == |file|
    ensures ReadsLike(file, locs) <==> Concat(Pieces(file, locs)) == file
  {
    var all := Concat(Pieces(file, locs));
    if ReadsLike(file, locs) {
      assert FlatRead(all, 0, |file|) == FlatRead(file, 0, |file|);
      assert all[0..|file|] == all && file[0..|file|] == file;
    }
  }

  /** Where segment i belongs, the file has its own beginning again. */
  predicate Repeats(file: Bytes, locs: seq<SegmentLoc>, i: nat)
    requires i < |locs| && locs[i].size <= |file|
  {
    Slice(file, Offset(locs, i), locs[i].size) == Some(file[..locs[i].size])
  }

  lemma PieceAt(file: Bytes, locs: seq<SegmentLoc>, i: nat)
    requires i < |locs| && forall x | 0 <= x < |locs| :: locs[x].size <= |file|
    ensures InPlace(Pieces(file, locs), file, i) <==> Repeats(file, locs, i)
  {
    PiecesLength(file, locs, i);
    assert file[..|file|] == file;
  }

  /** A file whose pieces have its length reads like its source exactly when every piece, in the order of the index,
      repeats the beginning of the file. */
  lemma CutFileReadsExactly(file: Bytes, locs: seq<SegmentLoc>)
    requires Offset(locs, |locs|) == |file| && forall x | 0 <= x < |locs| :: locs[x].size <= |file|
    ensures ReadsLike(file, locs) <==> forall i: nat | i < |locs| :: Repeats(file, locs, i)
  {
    var parts := Pieces(file, locs);
    PiecesLength(file, locs, |locs|);
    assert parts[..|parts|] == parts;
    hide Concat, Pieces, Offset, ReadsLike, InPlace, Repeats;
    ReadsLikeExactly(file, locs);
    ConcatIs(parts, file);
    forall i: nat | i < |locs| ensures InPlace(parts, file, i) <==> Repeats(file, locs, i) {
      PieceAt(file, locs, i);
    }
  }

  /** A file cut in two does not read like its source when its second piece is not its beginning again: the bytes
      1, 2 in two shards read as 1, 1. */
  lemma CutFileReadsWrong()
    ensures Concat(Pieces([1, 2], [SegmentLoc("a", 0, 1, 0), SegmentLoc("b", 0, 1, 0)])) == [1, 1]
  {
    var ps := Pieces([1, 2], [SegmentLoc("a", 0, 1, 0), SegmentLoc("b", 0, 1, 0)]);
    assert [1 as byte, 2][..1] == [1];
    assert ps == [[1], [1]];
    assert ps[..1] == [[1]] && ps[..1][..0] == [];
    assert Concat(ps[..1]) == [1];
  }

  lemma {:induction false} CountLocs(rows: seq<SegRow>, path: string, loc: SegmentLoc)
    ensures multiset(LocsOf(rows, path))[loc] == multiset(rows)[SegRow(path, loc)]
  {
    if rows != [] {
      var n := |rows| - 1;
      assert rows == rows[..n] + [rows[n]];
      CountLocs(rows[..n], path, loc);
      assert multiset(rows) == multiset(rows[..n]) + multiset{rows[n]};
    }
  }

  lemma {:induction false} OnlyLoc(rows: seq<SegRow>, i: nat)
    requires i < |rows| && forall j | 0 <= j < |rows| && j != i :: rows[j].path != rows[i].path
    ensures LocsOf(rows, rows[i].path) == [rows[i].loc]
    decreases |rows|
  {
    var n := |rows| - 1;
    if i < n {
      OnlyLoc(rows[..n], i);
    } else {
      NoLocs(rows[..n], rows[n].path);
    }
  }

  lemma {:induction false} NoLocs(rows: seq<SegRow>, path: string)
    requires forall j | 0 <= j < |rows| :: rows[j].path != path
    ensures LocsOf(rows, path) == []
  {
    if rows != [] {
      NoLocs(rows[..|rows| - 1], path);
    }
  }

  /** A file with one record among all shards reads like its source exactly when it was packed whole. */
  lemma MountedReadsSource(mode: Mode, codec: Codec, files: Tree, shards: Tree, packs: seq<Pack>, rows: seq<SegRow>,
                           i: nat)
    requires codec.Inverts() && AllPacked(mode, codec, files, shards, packs) && Queried(rows, packs)
    requires i < |AllRows(packs)|
    requires forall j | 0 <= j < |AllRows(packs)| && j != i :: AllRows(packs)[j].path != AllRows(packs)[i].path
    ensures var row := AllRows(packs)[i];
            && LocsOf(rows, row.path) == [row.loc] && row.path in files
            && Readable(mode, codec, shards, [row.loc], Pieces(files[row.path], [row.loc]))
            && (ReadsLike(files[row.path], [row.loc]) <==> row.loc.size == |files[row.path]|)
  {
    var all := AllRows(packs);
    var row := all[i];
    OnlyLoc(all, i);
    var locs := LocsOf(rows, row.path);
    forall loc ensures multiset(locs)[loc] == multiset([row.loc])[loc] {
      CountLocs(rows, row.path, loc);
      CountLocs(all, row.path, loc);
    }
    assert |locs| == |multiset(locs)| == 1 by { assert multiset(locs) == multiset([row.loc]); }
    assert locs[0] in multiset(locs);
    MountedReads(mode, codec, files, shards, packs, rows, row.path);
    RowIsReadable(mode, codec, files, shards, packs, row);
    OnePiece(files[row.path], row.loc);
  }

  lemma OnePiece(file: Bytes, loc: SegmentLoc)
    requires loc.size <= |file|
    ensures ReadsLike(file, [loc]) <==> loc.size == |file|
  {
    var ps := Pieces(file, [loc]);
    assert ps[..0] == [] && ps == [] + [Clip(file, loc.size)];
    assert Concat(ps) == Clip(file, loc.size);
    if ReadsLike(file, [loc]) {
      assert FlatRead(Concat(ps), 0, |file|) == FlatRead(file, 0, |file|);
      assert |FlatRead(file, 0, |file|)| == |file|;
    }
  }
}
