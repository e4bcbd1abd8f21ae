/** Bin shards: packing source files into one file in three compression modes, and unpacking them. */
module BinShard {
  import opened Bytes
  import opened CleanPath

  datatype Mode = Plain | PerSegment | PerShard

  /** The compressor of a mode. */
  datatype Codec = Codec(compress: Bytes -> Bytes, decompress: Bytes -> Option<Bytes>) {
    /** Decompression inverts compression; only nothing may compress to nothing. */
    ghost predicate Inverts() {
      forall b: Bytes :: decompress(compress(b)) == Some(b) && (compress(b) == [] ==> b == [])
    }
  }

  type Tree = map<string, Bytes>

  datatype SegmentDef = SegmentDef(path: string, size: int)

  /** Where a segment is in the shard; `csize` is its compressed size, 0 when it is not compressed on its own. */
  datatype SegInfo = SegInfo(path: string, offset: nat, size: nat, csize: nat)

  datatype Shard = Shard(bytes: Bytes, infos: seq<SegInfo>)

  /** What is read of a source file: all of it, or the first `size` bytes. */
  function RawOf(files: Tree, seg: SegmentDef): Option<Bytes> {
    if seg.path !in files then None
    else if seg.size <= 0 then Some(files[seg.path])
    else if |files[seg.path]| < seg.size then None
    else Some(files[seg.path][..seg.size])
  }

  function Concat(parts: seq<Bytes>): Bytes {
    if parts == [] then [] else Concat(parts[..|parts| - 1]) + parts[|parts| - 1]
  }

  function WrittenAs(mode: Mode, codec: Codec, raw: Bytes): Bytes {
    if mode.PerSegment? then codec.compress(raw) else raw
  }

  function AllWritten(mode: Mode, codec: Codec, raws: seq<Bytes>): (ws: seq<Bytes>)
    ensures |ws| == |raws|
  {
    seq(|raws|, i requires 0 <= i < |raws| => WrittenAs(mode, codec, raws[i]))
  }

  /** The record of segment i. */
  function InfoAt(mode: Mode, codec: Codec, segs: seq<SegmentDef>, raws: seq<Bytes>, i: nat): SegInfo
    requires i < |segs| == |raws|
  {
    var ws := AllWritten(mode, codec, raws);
    SegInfo(segs[i].path, |Concat(ws[..i])|, |raws[i]|, if mode.PerSegment? then |ws[i]| else 0)
  }

  /** The shard holds the segments one after another, and its records say where. */
  ghost predicate Holds(mode: Mode, codec: Codec, segs: seq<SegmentDef>, raws: seq<Bytes>, sh: Shard) {
    && |sh.infos| == |segs| == |raws|
    && sh.bytes == (if mode.PerShard? then codec.compress(Concat(raws)) else Concat(AllWritten(mode, codec, raws)))
    && forall i | 0 <= i < |segs| :: sh.infos[i] == InfoAt(mode, codec, segs, raws, i)
  }

  /** The raw data of the segments. */
  ghost predicate RawsOf(files: Tree, segs: seq<SegmentDef>, raws: seq<Bytes>) {
    |raws| == |segs| && forall i | 0 <= i < |segs| :: RawOf(files, segs[i]) == Some(raws[i])
  }

  lemma ConcatOne(parts: seq<Bytes>, b: Bytes)
    ensures Concat(parts + [b]) == Concat(parts) + b
  {
    assert (parts + [b])[..|parts|] == parts;
  }

  /** What has been packed after some segments: the data, plain and as written, and the records. */
  ghost predicate Packing(mode: Mode, codec: Codec, segs: seq<SegmentDef>, raws: seq<Bytes>, plain: Bytes, out: Bytes,
                          infos: seq<SegInfo>)
  {
    && |infos| == |segs| == |raws|
    && plain == Concat(raws) && out == Concat(AllWritten(mode, codec, raws))
    && forall i | 0 <= i < |segs| :: infos[i] == InfoAt(mode, codec, segs, raws, i)
  }

  lemma PackOne(mode: Mode, codec: Codec, segs: seq<SegmentDef>, raws: seq<Bytes>, plain: Bytes, out: Bytes,
                infos: seq<SegInfo>, seg: SegmentDef, raw: Bytes)
    requires Packing(mode, codec, segs, raws, plain, out, infos)
    ensures var w := WrittenAs(mode, codec, raw);
            Packing(mode, codec, segs + [seg], raws + [raw], plain + raw, out + w,
                    infos + [SegInfo(seg.path, |out|, |raw|, if mode.PerSegment? then |w| else 0)])
  {
    var w := WrittenAs(mode, codec, raw);
    var ws := AllWritten(mode, codec, raws);
    ConcatOne(raws, raw);
    ConcatOne(ws, w);
    assert AllWritten(mode, codec, raws + [raw]) == ws + [w];
    forall i | 0 <= i <= |segs| ensures (ws + [w])[..i] == ws[..i] {
    }
    hide Concat;
  }

  /** Packs the segments in order. */
  method MakeBin(mode: Mode, codec: Codec, files: Tree, segs: seq<SegmentDef>)
    returns (r: Result<Shard>, ghost raws: seq<Bytes>)
    ensures r.Failure? <==>
              exists i :: 0 <= i < |segs| && (segs[i].path !in files || segs[i].size > |files[segs[i].path]|)
    ensures r.Success? ==>
              |raws| == |segs| && forall i | 0 <= i < |segs| ::
                var file := files[segs[i].path];
                raws[i] == if segs[i].size <= 0 then file else file[..segs[i].size]
    ensures r.Success? ==> RawsOf(files, segs, raws) && Holds(mode, codec, segs, raws, r.value)
  {
    raws := [];
    var out: Bytes, plain: Bytes, infos: seq<SegInfo>, totalSize: nat := [], [], [], 0;
    for i := 0 to |segs|
      invariant |raws| == i && forall j | 0 <= j < i :: RawOf(files, segs[j]) == Some(raws[j])
      invariant Packing(mode, codec, segs[..i], raws, plain, out, infos) && totalSize == |out|
    {
      var raw := RawOf(files, segs[i]);
      if raw.None? { return Failure("read source file"), raws; }
      var writeData := WrittenAs(mode, codec, raw.value);
      PackOne(mode, codec, segs[..i], raws, plain, out, infos, segs[i], raw.value);
      assert segs[..i + 1] == segs[..i] + [segs[i]];
      hide Packing;
      infos := infos + [SegInfo(segs[i].path, totalSize, |raw.value|, if mode.PerSegment? then |writeData| else 0)];
      raws := raws + [raw.value];
      out, plain, totalSize := out + writeData, plain + raw.value, totalSize + |writeData|;
    }
    assert segs[..|segs|] == segs;
    return Success(Shard(if mode.PerShard? then codec.compress(plain) else out, infos)), raws;
  }

  // ---- unpacking ----------------------------------------------------------------------------

  /** The bytes of one segment; a record that points outside the data yields nothing. */
  function Extract(mode: Mode, codec: Codec, src: Bytes, info: SegInfo): Option<Bytes> {
    if mode.PerShard? then
      var plain := codec.decompress(src);
      if plain.Some? then Slice(plain.value, info.offset, info.size) else None
    else if info.csize > 0 then
      var packed := Slice(src, info.offset, info.csize);
      if packed.Some? then codec.decompress(packed.value) else None
    else Slice(src, info.offset, info.size)
  }

  function Slice(b: Bytes, off: nat, n: nat): Option<Bytes> {
    if off + n <= |b| then Some(b[off..off + n]) else None
  }

  /** A record can be unpacked: its path stays below the target directory and its data is there. */
  predicate Unpackable(mode: Mode, codec: Codec, src: Bytes, root: string, info: SegInfo) {
    SafeJoin(root, info.path).Some? && Extract(mode, codec, src, info).Some?
  }

  /** The file tree after writing the segments in order up to the first bad one, and whether there is none. */
  function Unpacked(mode: Mode, codec: Codec, src: Bytes, root: string, infos: seq<SegInfo>, tree: Tree): (Tree, bool) {
    if infos == [] then (tree, true)
    else
      var n := |infos| - 1;
      var (before, ok) := Unpacked(mode, codec, src, root, infos[..n], tree);
      if !ok || !Unpackable(mode, codec, src, root, infos[n]) then (before, false)
      else (before[SafeJoin(root, infos[n].path).value := Extract(mode, codec, src, infos[n]).value], true)
  }

  lemma {:induction false} UnpacksExactly(mode: Mode, codec: Codec, src: Bytes, root: string, infos: seq<SegInfo>,
                                          tree: Tree)
    ensures Unpacked(mode, codec, src, root, infos, tree).1
       <==> forall i | 0 <= i < |infos| :: Unpackable(mode, codec, src, root, infos[i])
  {
    hide Unpackable;
    if infos != [] {
      var n := |infos| - 1;
      var init := infos[..n];
      UnpacksExactly(mode, codec, src, root, init, tree);
      assert Unpacked(mode, codec, src, root, infos, tree).1
        <==> Unpacked(mode, codec, src, root, init, tree).1 && Unpackable(mode, codec, src, root, infos[n]);
      hide Unpacked;
      assert forall i | 0 <= i < n :: init[i] == infos[i];
    }
  }

  /** Which records are good: their paths stay below the target, and their data is all there and can be decompressed. */
  lemma UnpacksWhen(mode: Mode, codec: Codec, src: Bytes, root: string, infos: seq<SegInfo>, tree: Tree)
    ensures Unpacked(mode, codec, src, root, infos, tree).1 <==>
              forall i | 0 <= i < |infos| ::
                var info := infos[i];
                && SafeJoin(root, info.path).Some?
                && if mode.PerShard? then
                     codec.decompress(src).Some? && info.offset + info.size <= |codec.decompress(src).value|
                   else if info.csize == 0 then info.offset + info.size <= |src|
                   else info.offset + info.csize <= |src|
                        && codec.decompress(src[info.offset..info.offset + info.csize]).Some?
  {
    UnpacksExactly(mode, codec, src, root, infos, tree);
    hide SafeJoin, Unpacked;
  }

  /** After the first bad record nothing more is written. */
  lemma {:induction false} StopsAtBad(mode: Mode, codec: Codec, src: Bytes, root: string, infos: seq<SegInfo>,
                                      tree: Tree,
                                      n: nat)
    requires n < |infos| && !Unpackable(mode, codec, src, root, infos[n])
    requires Unpacked(mode, codec, src, root, infos[..n], tree).1
    ensures Unpacked(mode, codec, src, root, infos, tree)
         == (Unpacked(mode, codec, src, root, infos[..n], tree).0, false)
    decreases |infos|
  {
    hide Unpackable;
    var init := infos[..|infos| - 1];
    if n < |init| {
      assert init[..n] == infos[..n];
      StopsAtBad(mode, codec, src, root, init, tree, n);
    }
  }

  /** Unpacks a shard below the directory `root`. */
  method Unpack(mode: Mode, codec: Codec, src: Bytes, infos: seq<SegInfo>, root: string, before: Tree)
    returns (r: Result<nat>, tree: Tree)
    ensures if mode.PerShard? && codec.decompress(src).None? then r.Failure? && tree == before
            else (tree, r.Success?) == Unpacked(mode, codec, src, root, infos, before)
    ensures r.Success? ==> r.value == |infos|
  {
    tree := before;
    var plain: Bytes := [];
    if mode.PerShard? {
      var d := codec.decompress(src);
      if d.None? { return Failure("decompress shard"), tree; }
      plain := d.value;
    }
    for i := 0 to |infos|
      invariant Unpacked(mode, codec, src, root, infos[..i], before) == (tree, true)
    {
      var info := infos[i];
      assert infos[..i + 1][..i] == infos[..i];
      var outPath := SafeJoin(root, info.path);
      if outPath.None? {
        StopsAtBad(mode, codec, src, root, infos, before, i);
        return Failure("unsafe shard entry path"), tree;
      }
      var data;
      if mode.PerShard? {
        data := Slice(plain, info.offset, info.size);
      } else if info.csize > 0 {
        data := Slice(src, info.offset, info.csize);
        if data.Some? { data := codec.decompress(data.value); }
      } else {
        data := Slice(src, info.offset, info.size);
      }
      assert data == Extract(mode, codec, src, info);
      if data.None? {
        StopsAtBad(mode, codec, src, root, infos, before, i);
        return Failure("segment out of range"), tree;
      }
      tree := tree[outPath.value := data.value];
    }
    assert infos[..|infos|] == infos;
    return Success(|infos|), tree;
  }

  // ---- packing and unpacking agree ----------------------------------------------------------

  /** A part is found in a concatenation after the parts before it. */
  lemma {:induction false} PartAt(parts: seq<Bytes>, i: nat)
    requires i < |parts|
    ensures |Concat(parts[..i])| + |parts[i]| <= |Concat(parts)|
    ensures Slice(Concat(parts), |Concat(parts[..i])|, |parts[i]|) == Some(parts[i])
    decreases |parts|
  {
    var init, last := parts[..|parts| - 1], parts[|parts| - 1];
    if i < |init| {
      PartAt(init, i);
      assert init[..i] == parts[..i] && init[i] == parts[i];
      SliceOfSum(Concat(init), last, |Concat(init[..i])|, |parts[i]|);
    } else {
      assert parts[..i] == init;
      var a := Concat(init);
      assert (a + last)[|a|..|a| + |last|] == last;
    }
  }

  lemma SliceOfSum(a: Bytes, b: Bytes, off: nat, n: nat)
    requires off + n <= |a|
    ensures Slice(a + b, off, n) == Slice(a, off, n)
  {
    assert (a + b)[off..off + n] == a[off..off + n];
  }

  /** Every record leads back to the raw data of its segment. */
  lemma SegmentComesBack(mode: Mode, codec: Codec, segs: seq<SegmentDef>, raws: seq<Bytes>, sh: Shard, i: nat)
    requires codec.Inverts() && Holds(mode, codec, segs, raws, sh) && i < |segs|
    ensures Extract(mode, codec, sh.bytes, sh.infos[i]) == Some(raws[i])
  {
    var ws := AllWritten(mode, codec, raws);
    PartAt(ws, i);
    assert sh.infos[i] == InfoAt(mode, codec, segs, raws, i);
    if mode.PerShard? {
      assert ws == raws;
    } else if mode.PerSegment? {
      assert codec.decompress(ws[i]) == Some(raws[i]);
    }
  }

  lemma {:induction false} UnpackedAt(mode: Mode, codec: Codec, src: Bytes, root: string, infos: seq<SegInfo>,
                                      tree: Tree,
                                      i: nat)
    requires i < |infos| && Unpacked(mode, codec, src, root, infos, tree).1
    requires forall j | i < j < |infos| :: SafeJoin(root, infos[j].path) != SafeJoin(root, infos[i].path)
    ensures SafeJoin(root, infos[i].path).Some? && Extract(mode, codec, src, infos[i]).Some?
    ensures var out, at := Unpacked(mode, codec, src, root, infos, tree).0, SafeJoin(root, infos[i].path).value;
            at in out && out[at] == Extract(mode, codec, src, infos[i]).value
    decreases |infos|
  {
    hide SafeJoin, Extract;
    if i < |infos| - 1 {
      UnpackedAt(mode, codec, src, root, infos[..|infos| - 1], tree, i);
    }
  }

  /** No later segment goes to the same place. */
  ghost predicate LastOfFile(segs: seq<SegmentDef>, i: nat)
    requires i < |segs|
  {
    forall j | i < j < |segs| :: Clean(segs[j].path) != Clean(segs[i].path)
  }

  lemma LaterTargetsDiffer(root: string, segs: seq<SegmentDef>, infos: seq<SegInfo>, i: nat)
    requires IsAbs(root) && Clean(root) == root && |infos| == |segs|
    requires forall i | 0 <= i < |segs| :: infos[i].path == segs[i].path
    requires forall i | 0 <= i < |segs| :: SafeJoin(root, segs[i].path).Some?
    requires i < |segs| && LastOfFile(segs, i)
    ensures forall j | i < j < |infos| :: SafeJoin(root, infos[j].path) != SafeJoin(root, infos[i].path)
  {
    hide SafeJoin, Clean;
    forall j | i < j < |infos| ensures SafeJoin(root, infos[j].path) != SafeJoin(root, infos[i].path) {
      SafeJoinInjective(root, segs[j].path, segs[i].path);
    }
  }

  /** In all three modes a packed shard unpacks exactly when all its paths stay below the target directory. */
  lemma PackedUnpacksExactly(mode: Mode, codec: Codec, segs: seq<SegmentDef>, raws: seq<Bytes>, sh: Shard, root: string,
                             before: Tree)
    requires codec.Inverts() && Holds(mode, codec, segs, raws, sh)
    ensures mode.PerShard? ==> codec.decompress(sh.bytes).Some?
    ensures Unpacked(mode, codec, sh.bytes, root, sh.infos, before).1
       <==> forall i | 0 <= i < |segs| :: SafeJoin(root, segs[i].path).Some?
  {
    UnpacksExactly(mode, codec, sh.bytes, root, sh.infos, before);
    forall i | 0 <= i < |segs|
      ensures Unpackable(mode, codec, sh.bytes, root, sh.infos[i]) <==> SafeJoin(root, segs[i].path).Some?
    {
      SegmentComesBack(mode, codec, segs, raws, sh, i);
      assert sh.infos[i] == InfoAt(mode, codec, segs, raws, i);
    }
    hide Unpackable, Unpacked, SafeJoin;
  }

  lemma PieceComesBack(mode: Mode, codec: Codec, files: Tree, segs: seq<SegmentDef>, raws: seq<Bytes>, sh: Shard,
                       i: nat)
    requires codec.Inverts() && RawsOf(files, segs, raws) && Holds(mode, codec, segs, raws, sh) && i < |segs|
    ensures sh.infos[i].path == segs[i].path && segs[i].path in files
    ensures Extract(mode, codec, sh.bytes, sh.infos[i]) == Some(raws[i])
    ensures var file := files[segs[i].path];
            && raws[i] <= file && |raws[i]| == (if segs[i].size <= 0 then |file| else segs[i].size)
            && (raws[i] == file <==> segs[i].size <= 0 || segs[i].size == |file|)
  {
    SegmentComesBack(mode, codec, segs, raws, sh, i);
    assert sh.infos[i] == InfoAt(mode, codec, segs, raws, i);
    assert RawOf(files, segs[i]) == Some(raws[i]);
    var file := files[segs[i].path];
    assert file[..|file|] == file;
    hide Extract;
  }

  /** Unpacking what was packed, in all three modes: a file comes back exactly when its last segment is the whole
      file. A file cut into pieces never does, because packing reads every piece from the start of the file and
      unpacking writes every piece over the one before. */
  lemma PackUnpack(mode: Mode, codec: Codec, files: Tree, segs: seq<SegmentDef>, raws: seq<Bytes>, sh: Shard,
                   root: string, before: Tree, i: nat)
    requires codec.Inverts() && RawsOf(files, segs, raws) && Holds(mode, codec, segs, raws, sh)
    requires IsAbs(root) && Clean(root) == root && forall i | 0 <= i < |segs| :: SafeJoin(root, segs[i].path).Some?
    requires i < |segs| && LastOfFile(segs, i)
    ensures mode.PerShard? ==> codec.decompress(sh.bytes).Some?
    ensures Unpacked(mode, codec, sh.bytes, root, sh.infos, before).1 && segs[i].path in files
    ensures var tree := Unpacked(mode, codec, sh.bytes, root, sh.infos, before).0;
            var at := SafeJoin(root, segs[i].path).value;
            var file := files[segs[i].path];
            && at in tree && tree[at] == raws[i] <= file
            && |tree[at]| == (if segs[i].size <= 0 then |file| else segs[i].size)
            && (tree[at] == file <==> segs[i].size <= 0 || segs[i].size == |file|)
  {
    hide SafeJoin, Unpacked, Clean, Extract, AllWritten, RawOf;
    PackedUnpacksExactly(mode, codec, segs, raws, sh, root, before);
    forall i | 0 <= i < |segs| ensures sh.infos[i].path == segs[i].path {
      PieceComesBack(mode, codec, files, segs, raws, sh, i);
    }
    LaterTargetsDiffer(root, segs, sh.infos, i);
    hide Holds, RawsOf;
    PieceComesBack(mode, codec, files, segs, raws, sh, i);
    UnpackedAt(mode, codec, sh.bytes, root, sh.infos, before, i);
  }
}
