/** Chunked encode, verify and reconstruct of one stripe. Each is proved equal to its whole-file
    meaning in StripeBytes, whatever the chunk size. */
module Stream {
  import opened Bytes
  import opened ColumnCode
  import opened StripeBytes
  import opened Paths
  import opened Disk

  const MIN_CHUNK := 0x10_0000
  const MAX_CHUNK := 0x400_0000
  const DEFAULT_CHUNK := 0x80_0000

  predicate ValidChunk(n: int) { MIN_CHUNK <= n <= MAX_CHUNK }

  /** The data of a stripe as the encoder sees it: nothing at a position without a file, and
      otherwise the file cut to its recorded size. */
  function DataBytes(files: Files, paths: seq<Option<Path>>, sizes: seq<nat>): (data: seq<Bytes>)
    requires |paths| == |sizes|
    ensures |data| == |paths|
  {
    seq(|paths|, i requires 0 <= i < |paths| =>
      if paths[i].Some? && paths[i].value in files then Clip(files[paths[i].value], sizes[i]) else [])
  }

  /** Byte x of a position's data counts when there is a file and x is within its recorded size; else it is zero. */
  lemma OnlyRecordedCounts(files: Files, paths: seq<Option<Path>>, sizes: seq<nat>, i: nat, x: nat)
    requires |paths| == |sizes| && i < |paths|
    ensures At(DataBytes(files, paths, sizes)[i], x)
         == if paths[i].Some? && paths[i].value in files && x < sizes[i] then At(files[paths[i].value], x) else 0
  {
  }

  /** One bounded read: n bytes at off, zero beyond the recorded size and beyond the file's end. */
  function ReadBounded(b: Bytes, size: nat, off: nat, n: nat): (w: Bytes)
    ensures w == Window(Clip(b, size), off, n)
  {
    var w := if off < size then
               var want := Min(n, size - off);
               Window(b, off, want) + seq(n - want, _ => 0)
             else seq(n, _ => 0);
    assert w == Window(Clip(b, size), off, n) by {
      forall x | 0 <= x < n ensures w[x] == Window(Clip(b, size), off, n)[x] {
        assert Window(Clip(b, size), off, n)[x] == At(Clip(b, size), off + x);
        if off < size {
          var want := Min(n, size - off);
          if x < want {
            assert Window(b, off, want)[x] == At(b, off + x);
          } else {
            assert w[x] == seq(n - want, _ => 0)[x - want];
          }
        }
      }
    }
    w
  }

  /** The library's Encode: fills the parity buffers from the data buffers. */
  method EncodeBuffers(code: Code, bufs: array<Bytes>, n: nat)
    requires code.Shaped() && bufs.Length == code.Total()
    modifies bufs
    ensures bufs[..code.k] == old(bufs[..code.k])
    ensures bufs[code.k..] == ParityFiles(code, old(bufs[..code.k]), n)
  {
    ghost var data := bufs[..code.k];
    for j := 0 to code.m
      invariant bufs[..code.k] == data
      invariant forall i | 0 <= i < j :: bufs[code.k + i] == ParityFile(code, data, n, i)
    {
      bufs[code.k + j] := ParityFile(code, bufs[..code.k], n, j);
    }
  }

  /** Reads one chunk of every data file. */
  method ReadData(disk: Disk, paths: seq<Option<Path>>, sizes: seq<nat>, off: nat, n: nat, bufs: array<Bytes>)
    requires |paths| == |sizes| <= bufs.Length
    requires forall i | 0 <= i < |paths| && paths[i].Some? :: paths[i].value in disk.files
    modifies bufs
    ensures forall i | 0 <= i < |paths| :: bufs[i] == Window(DataBytes(disk.files, paths, sizes)[i], off, n)
  {
    for i := 0 to |paths|
      invariant forall j | 0 <= j < i :: bufs[j] == Window(DataBytes(disk.files, paths, sizes)[j], off, n)
    {
      if paths[i].Some? {
        bufs[i] := ReadBounded(disk.files[paths[i].value], sizes[i], off, n);
      } else {
        bufs[i] := ReadBounded([], 0, off, n);
      }
    }
  }

  /** Appends the parity buffers of one chunk to the temporary files. */
  method AppendParity(code: Code, ghost data: seq<Bytes>, ghost windows: seq<Bytes>, ghost off: nat, n: nat,
                      bufs: array<Bytes>, out: array<Bytes>)
    requires bufs.Length == code.Total() && out.Length == code.m && out != bufs
    requires |windows| == |data| && forall i | 0 <= i < |data| :: windows[i] == Window(data[i], off, n)
    requires bufs[code.k..] == ParityFiles(code, windows, n)
    requires forall j | 0 <= j < code.m :: out[j] == ParityFile(code, data, off, j)
    modifies out
    ensures forall j | 0 <= j < code.m :: out[j] == ParityFile(code, data, off + n, j)
  {
    for j := 0 to code.m
      invariant forall i | 0 <= i < code.m :: out[i] == ParityFile(code, data, if i < j then off + n else off, i)
    {
      ParityAppend(code, data, windows, off, n, j);
      assert bufs[code.k + j] == bufs[code.k..][j];
      out[j] := out[j] + bufs[code.k + j];
    }
  }

  method EncodeStripeStreaming(code: Code, disk: Disk, dataPaths: seq<Option<Path>>, dataSizes: seq<nat>,
                               ecPaths: seq<Path>, chunk: int) returns (r: Result<nat>)
    requires code.Shaped()
    modifies disk
    ensures r.Failure? <==>
      || code.m == 0 || |dataPaths| != code.k || |dataSizes| != code.k || |ecPaths| != code.m
      || !ValidChunk(chunk)
      || exists i :: 0 <= i < |dataPaths| && dataPaths[i].Some? && dataPaths[i].value !in old(disk.files)
    ensures r.Failure? ==> disk.files == old(disk.files)
    ensures r.Success? ==> r.value == MaxOf(dataSizes)
    ensures r.Success? ==>
              disk.files == Stored(old(disk.files), ecPaths,
                ParityFiles(code, DataBytes(old(disk.files), dataPaths, dataSizes), MaxOf(dataSizes)))
  {
    if code.m <= 0 { return Failure("m must be positive for EC encoding"); }
    if |dataPaths| != code.k || |dataSizes| != code.k || |ecPaths| != code.m {
      return Failure("invalid stripe shape");
    }
    if !ValidChunk(chunk) { return Failure("ec chunk size out of range"); }
    var padded := LargestSize(dataSizes);
    for i := 0 to code.k
      invariant forall j | 0 <= j < i :: dataPaths[j].Some? ==> dataPaths[j].value in disk.files
    {
      if dataPaths[i].Some? && dataPaths[i].value !in disk.files {
        return Failure("open data shard");
      }
    }
    var out := new Bytes[code.m](_ => []);
    var bufs := new Bytes[code.Total()](_ => []);
    ghost var data := DataBytes(disk.files, dataPaths, dataSizes);
    var off := 0;
    while off < padded
      invariant disk.files == old(disk.files)
      invariant forall j | 0 <= j < code.m :: out[j] == ParityFile(code, data, Min(off, padded), j)
    {
      var n := Min(chunk, padded - off);
      ReadData(disk, dataPaths, dataSizes, off, n, bufs);
      ghost var windows := bufs[..code.k];
      EncodeBuffers(code, bufs, n);
      AppendParity(code, data, windows, off, n, bufs, out);
      off := off + chunk;
    }
    assert out[..] == ParityFiles(code, data, padded);
    StoreAll(disk, ecPaths, out[..]);
    return Success(padded);
  }

  method LargestSize(sizes: seq<nat>) returns (padded: nat)
    ensures padded == MaxOf(sizes)
  {
    padded := 0;
    for i := 0 to |sizes|
      invariant padded == MaxOf(sizes[..i])
    {
      assert sizes[..i + 1][..i] == sizes[..i];
      if sizes[i] > padded { padded := sizes[i]; }
    }
    assert sizes[..|sizes|] == sizes;
  }

  /** The renames of the finished temporary files, one after another. */
  method StoreAll(disk: Disk, paths: seq<Path>, contents: seq<Bytes>)
    requires |paths| == |contents|
    modifies disk
    ensures disk.files == Stored(old(disk.files), paths, contents)
  {
    for i := 0 to |paths|
      invariant disk.files == Stored(old(disk.files), paths[..i], contents[..i])
    {
      assert paths[..i + 1][..i] == paths[..i] && contents[..i + 1][..i] == contents[..i];
      disk.files := disk.files[paths[i] := contents[i]];
    }
    assert paths[..|paths|] == paths && contents[..|paths|] == contents;
  }

  /** The contents of a list of existing files. */
  function Contents(files: Files, paths: seq<Path>): (cs: seq<Bytes>)
    requires forall p | p in paths :: p in files
    ensures |cs| == |paths|
  {
    seq(|paths|, i requires 0 <= i < |paths| => files[paths[i]])
  }

  lemma ContentsAre(fs: Files, paths: seq<Path>, a: seq<Bytes>, b: seq<Bytes>)
    requires |paths| == |a| + |b|
    requires forall i: nat | i < |paths| :: paths[i] in fs && fs[paths[i]] == if i < |a| then a[i] else b[i - |a|]
    ensures (forall p | p in paths :: p in fs) && Contents(fs, paths) == a + b
  {
  }

  method VerifyStripeStreaming(code: Code, disk: Disk, paths: seq<Path>, padded: nat, chunk: int)
    returns (r: Result<bool>)
    requires code.Shaped()
    ensures r.Failure? <==>
      |paths| != code.Total() || !ValidChunk(chunk)
      || (code.m > 0 && exists i :: 0 <= i < |paths| && paths[i] !in disk.files)
    ensures r.Success? && code.m == 0 ==> r.value
    ensures r.Success? && code.m > 0 ==> (r.value <==> Consistent(code, Contents(disk.files, paths), padded))
  {
    if |paths| != code.Total() { return Failure("wrong number of files"); }
    if !ValidChunk(chunk) { return Failure("ec chunk size out of range"); }
    if code.m == 0 { return Success(true); }
    for i := 0 to |paths|
      invariant forall j | 0 <= j < i :: paths[j] in disk.files
    {
      if paths[i] !in disk.files { return Failure("open shard"); }
    }
    ghost var files := Contents(disk.files, paths);
    var bufs := new Bytes[code.Total()](_ => []);
    var off := 0;
    while off < padded
      invariant Consistent(code, files, Min(off, padded))
    {
      var n := Min(chunk, padded - off);
      for i := 0 to code.Total()
        invariant forall j | 0 <= j < i :: bufs[j] == Window(files[j], off, n)
      {
        bufs[i] := Window(disk.files[paths[i]], off, n);
      }
      ConsistentAppend(code, files, bufs[..], off, n);
      var ok := VerifyBuffers(code, bufs[..], n);
      if !ok {
        ConsistentPrefix(code, files, off + n, padded);
        return Success(false);
      }
      off := off + chunk;
    }
    return Success(true);
  }

  lemma ConsistentPrefix(code: Code, files: seq<Bytes>, n: nat, padded: nat)
    requires n <= padded
    ensures Consistent(code, files, padded) ==> Consistent(code, files, n)
  {
  }

  /** The library's Verify. */
  method VerifyBuffers(code: Code, bufs: seq<Bytes>, n: nat) returns (ok: bool)
    requires code.Shaped() && |bufs| == code.Total()
    ensures ok <==> Consistent(code, bufs, n)
  {
    for x := 0 to n
      invariant Consistent(code, bufs, x)
    {
      var word := Column(bufs, x);
      if code.Word(word[..code.k]) != word {
        assert !code.Codeword(Column(bufs, x));
        return false;
      }
    }
    return true;
  }

  predicate Missing(files: Files, path: Option<Path>) {
    path.None? || path.value !in files
  }

  function Shards(files: Files, paths: seq<Option<Path>>): (s: seq<Option<Bytes>>)
    ensures |s| == |paths|
  {
    seq(|paths|, i requires 0 <= i < |paths| =>
      if Missing(files, paths[i]) then None else Some(files[paths[i].value]))
  }

  /** Whether position i is to be written: missing, and a data position or target "all". */
  predicate Wanted(files: Files, paths: seq<Option<Path>>, k: nat, target: string, i: nat)
    requires i < |paths|
  {
    Missing(files, paths[i]) && (i < k || target == "all")
  }

  /** What is written at position i: data cut to its original size, parity whole. */
  function RecoveredFile(code: Code, shards: seq<Option<Bytes>>, sizes: seq<nat>, padded: nat, i: nat): Bytes
    requires |sizes| == code.k
  {
    if i < code.k then Clip(RebuiltFile(code, shards, padded, i), sizes[i])
    else RebuiltFile(code, shards, padded, i)
  }

  /** The files after the first `upTo` wanted positions have been renamed into place. */
  function Recovered(code: Code, files: Files, paths: seq<Option<Path>>, sizes: seq<nat>, padded: nat,
                     target: string, upTo: nat): Files
    requires |sizes| == code.k && upTo <= |paths|
  {
    if upTo == 0 then files
    else
      var i := upTo - 1;
      var before := Recovered(code, files, paths, sizes, padded, target, i);
      if Wanted(files, paths, code.k, target, i) && paths[i].Some?
      then before[paths[i].value := RecoveredFile(code, Shards(files, paths), sizes, padded, i)]
      else before
  }

  /** The library's Reconstruct: fills the buffers of the erased positions. */
  method ReconstructBuffers(code: Code, bufs: array<Option<Bytes>>, n: nat)
    requires code.Shaped() && bufs.Length == code.Total()
    modifies bufs
    ensures forall i | 0 <= i < code.Total() ::
              bufs[i] == if old(bufs[i]).Some? then old(bufs[i]) else Some(RebuiltFile(code, old(bufs[..]), n, i))
  {
    var shards := bufs[..];
    for i := 0 to code.Total()
      invariant forall j | 0 <= j < code.Total() ::
                  bufs[j] == if j < i && shards[j].None? then Some(RebuiltFile(code, shards, n, j)) else shards[j]
    {
      if shards[i].None? {
        bufs[i] := Some(RebuiltFile(code, shards, n, i));
      }
    }
  }

  lemma ClipAppend(a: Bytes, b: Bytes, size: nat)
    ensures Clip(a + b, size) == Clip(a, size) + b[..Min(Max(0, size - |a|), |b|)]
  {
  }

  /** Truncating every chunk at the original size truncates the concatenation at that size. */
  lemma RecoveredAppend(code: Code, shards: seq<Option<Bytes>>, windows: seq<Option<Bytes>>, sizes: seq<nat>,
                        off: nat, n: nat, i: nat)
    requires |sizes| == code.k && |shards| == |windows|
    requires forall i | 0 <= i < |shards| ::
               windows[i] == if shards[i].Some? then Some(Window(shards[i].value, off, n)) else None
    ensures var buf := RebuiltFile(code, windows, n, i);
            RecoveredFile(code, shards, sizes, off + n, i)
              == RecoveredFile(code, shards, sizes, off, i)
                 + if i < code.k && off + n > sizes[i] then buf[..Max(0, sizes[i] - off)] else buf
  {
    RebuiltAppend(code, shards, windows, off, n, i);
    if i < code.k {
      ClipAppend(RebuiltFile(code, shards, off, i), RebuiltFile(code, windows, n, i), sizes[i]);
    }
  }

  /** Reads one chunk of every available shard. */
  method ReadShards(disk: Disk, paths: seq<Option<Path>>, missing: array<bool>, off: nat, n: nat,
                    bufs: array<Option<Bytes>>)
    requires |paths| == missing.Length == bufs.Length
    requires forall i | 0 <= i < |paths| :: missing[i] == Missing(disk.files, paths[i])
    modifies bufs
    ensures forall i | 0 <= i < |paths| ::
              bufs[i] == if Missing(disk.files, paths[i]) then None
                         else Some(Window(disk.files[paths[i].value], off, n))
  {
    for i := 0 to |paths|
      invariant forall j | 0 <= j < i ::
                  bufs[j] == if Missing(disk.files, paths[j]) then None
                             else Some(Window(disk.files[paths[j].value], off, n))
    {
      if missing[i] {
        bufs[i] := None;
      } else {
        bufs[i] := Some(Window(disk.files[paths[i].value], off, n));
      }
    }
  }

  /** Appends the reconstructed buffers of one chunk, truncating data at its original size. */
  method AppendRecovered(code: Code, ghost shards: seq<Option<Bytes>>, ghost windows: seq<Option<Bytes>>,
                         sizes: seq<nat>, off: nat, n: nat, target: string, missing: array<bool>,
                         bufs: array<Option<Bytes>>, tmp: array<Bytes>)
    requires |sizes| == code.k
    requires |shards| == |windows| == missing.Length == bufs.Length == tmp.Length == code.Total()
    requires forall i | 0 <= i < code.Total() :: missing[i] == shards[i].None?
    requires forall i | 0 <= i < code.Total() ::
               windows[i] == if shards[i].Some? then Some(Window(shards[i].value, off, n)) else None
    requires forall i | 0 <= i < code.Total() && missing[i] :: bufs[i] == Some(RebuiltFile(code, windows, n, i))
    requires forall i | 0 <= i < code.Total() && missing[i] && (i < code.k || target == "all") ::
               tmp[i] == RecoveredFile(code, shards, sizes, off, i)
    modifies tmp
    ensures forall i | 0 <= i < code.Total() && missing[i] && (i < code.k || target == "all") ::
              tmp[i] == RecoveredFile(code, shards, sizes, off + n, i)
  {
    for i := 0 to code.Total()
      invariant forall j | 0 <= j < i && missing[j] && (j < code.k || target == "all") ::
                  tmp[j] == RecoveredFile(code, shards, sizes, off + n, j)
      invariant forall j | i <= j < code.Total() :: tmp[j] == old(tmp[j])
    {
      if missing[i] && (i < code.k || target == "all") {
        RecoveredAppend(code, shards, windows, sizes, off, n, i);
        var buf := bufs[i].value;
        if i < code.k && off + n > sizes[i] {
          buf := buf[..Max(0, sizes[i] - off)];
        }
        tmp[i] := tmp[i] + buf;
      }
    }
  }

  /** One chunk of the reconstruction: read, reconstruct, append. */
  method RecoverChunk(code: Code, disk: Disk, paths: seq<Option<Path>>, sizes: seq<nat>, off: nat, n: nat,
                      target: string, missing: array<bool>, bufs: array<Option<Bytes>>, tmp: array<Bytes>)
    requires code.Shaped() && |sizes| == code.k
    requires |paths| == missing.Length == bufs.Length == tmp.Length == code.Total()
    requires forall i | 0 <= i < |paths| :: missing[i] == Missing(disk.files, paths[i])
    requires forall i | 0 <= i < |paths| && Wanted(disk.files, paths, code.k, target, i) ::
               tmp[i] == RecoveredFile(code, Shards(disk.files, paths), sizes, off, i)
    modifies bufs, tmp
    ensures forall i | 0 <= i < |paths| && Wanted(disk.files, paths, code.k, target, i) ::
              tmp[i] == RecoveredFile(code, Shards(disk.files, paths), sizes, off + n, i)
  {
    hide RecoveredFile;
    ghost var shards := Shards(disk.files, paths);
    ReadShards(disk, paths, missing, off, n, bufs);
    ghost var windows := bufs[..];
    ReconstructBuffers(code, bufs, n);
    AppendRecovered(code, shards, windows, sizes, off, n, target, missing, bufs, tmp);
  }

  /** Enough files are there, and every one to be written has a path. */
  ghost predicate Repairs(code: Code, files: Files, paths: seq<Option<Path>>, target: string) {
    && |paths| == code.Total() && (target == "data" || target == "all")
    && Available(Shards(files, paths)) >= code.k
    && forall i | 0 <= i < |paths| && Wanted(files, paths, code.k, target, i) :: paths[i].Some?
  }

  method ReconstructStripeStreaming(code: Code, disk: Disk, paths: seq<Option<Path>>, originalSizes: seq<nat>,
                                    padded: nat, chunk: int, target: string) returns (r: Result<()>)
    requires code.Shaped() && |originalSizes| == code.k
    modifies disk
    ensures r.Success? <==> ValidChunk(chunk) && Repairs(code, old(disk.files), paths, target)
    ensures r.Success? ==>
      disk.files == Recovered(code, old(disk.files), paths, originalSizes, padded, target, |paths|)
    ensures r.Failure? && disk.files != old(disk.files) ==>
              exists i :: 0 <= i < |paths| && Wanted(old(disk.files), paths, code.k, target, i) && paths[i].None?
  {
    if |paths| != code.Total() { return Failure("wrong number of files"); }
    if !ValidChunk(chunk) { return Failure("ec chunk size out of range"); }
    if target != "data" && target != "all" { return Failure("target must be data or all"); }
    ghost var shards := Shards(disk.files, paths);
    var missing := new bool[code.Total()](_ => false);
    var avail := CountAvailable(disk, paths, missing);
    if avail < code.k { return Failure("too few shards"); }

    var tmp := new Bytes[code.Total()](_ => []);
    var bufs := new Option<Bytes>[code.Total()](_ => None);
    var off := 0;
    while off < padded
      invariant disk.files == old(disk.files)
      invariant forall i | 0 <= i < code.Total() :: missing[i] == Missing(disk.files, paths[i])
      invariant forall i | 0 <= i < code.Total() && Wanted(disk.files, paths, code.k, target, i) ::
        tmp[i] == RecoveredFile(code, shards, originalSizes, Min(off, padded), i)
    {
      var n := Min(chunk, padded - off);
      RecoverChunk(code, disk, paths, originalSizes, off, n, target, missing, bufs, tmp);
      off := off + chunk;
    }
    r := RenameRecovered(code, disk, paths, originalSizes, padded, target, missing, tmp[..]);
  }

  method CountAvailable(disk: Disk, paths: seq<Option<Path>>, missing: array<bool>) returns (avail: nat)
    requires missing.Length == |paths|
    modifies missing
    ensures avail == Available(Shards(disk.files, paths))
    ensures forall i | 0 <= i < |paths| :: missing[i] == Missing(disk.files, paths[i])
  {
    ghost var shards := Shards(disk.files, paths);
    ghost var flags := seq(|shards|, i requires 0 <= i < |shards| => shards[i].Some?);
    avail := 0;
    for i := 0 to |paths|
      invariant avail == Count(flags[..i])
      invariant forall j | 0 <= j < i :: missing[j] == Missing(disk.files, paths[j])
    {
      assert flags[..i + 1][..i] == flags[..i];
      if paths[i].None? || paths[i].value !in disk.files {
        missing[i] := true;
      } else {
        missing[i] := false;
        avail := avail + 1;
      }
    }
    assert flags[..|paths|] == flags;
  }

  method RenameRecovered(code: Code, disk: Disk, paths: seq<Option<Path>>, ghost sizes: seq<nat>, ghost padded: nat,
                         target: string, missing: array<bool>, tmp: seq<Bytes>) returns (r: Result<()>)
    requires |sizes| == code.k && |paths| == |tmp| == missing.Length
    requires forall i | 0 <= i < |paths| :: missing[i] == Missing(disk.files, paths[i])
    requires forall i | 0 <= i < |paths| && Wanted(disk.files, paths, code.k, target, i) ::
      tmp[i] == RecoveredFile(code, Shards(disk.files, paths), sizes, padded, i)
    modifies disk
    ensures r.Success? <==>
      forall i | 0 <= i < |paths| && Wanted(old(disk.files), paths, code.k, target, i) :: paths[i].Some?
    ensures r.Success? ==> disk.files == Recovered(code, old(disk.files), paths, sizes, padded, target, |paths|)
  {
    for i := 0 to |paths|
      invariant disk.files == Recovered(code, old(disk.files), paths, sizes, padded, target, i)
      invariant forall j | 0 <= j < i && Wanted(old(disk.files), paths, code.k, target, j) :: paths[j].Some?
    {
      if missing[i] && (i < code.k || target == "all") {
        if paths[i].None? { return Failure("rename to an empty path"); }
        disk.files := disk.files[paths[i].value := tmp[i]];
      }
    }
    return Success(());
  }
}
