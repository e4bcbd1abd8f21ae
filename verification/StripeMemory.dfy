/** The simple whole-file encoder and decoder, and the proof that the chunked ones agree with them. */
module StripeMemory {
  import opened Bytes
  import opened ColumnCode
  import opened StripeBytes
  import opened Paths
  import opened Disk
  import opened Layout
  import Stream

  datatype Encoded = Encoded(parity: seq<Bytes>, originalSizes: seq<nat>, paddedSize: nat)

  function PadTo(b: Bytes, n: nat): (p: Bytes)
    ensures |p| == Max(|b|, n)
    ensures forall x :: At(p, x) == At(b, x)
  {
    if |b| >= n then b else b + seq(n - |b|, _ => 0)
  }

  function Sizes(data: seq<Bytes>): (sizes: seq<nat>)
    ensures |sizes| == |data|
  {
    seq(|data|, i requires 0 <= i < |data| => |data[i]|)
  }

  lemma PaddingKeepsParity(code: Code, data: seq<Bytes>, padded: seq<Bytes>, n: nat)
    requires |padded| == |data|
    requires forall i | 0 <= i < |data| :: forall x :: At(padded[i], x) == At(data[i], x)
    ensures ParityFiles(code, padded, n) == ParityFiles(code, data, n)
  {
    forall x ensures Column(padded, x) == Column(data, x) {
    }
    forall j | 0 <= j < code.m ensures ParityFile(code, padded, n, j) == ParityFile(code, data, n, j) {
    }
  }

  method EncodeBytes(code: Code, data: seq<Bytes>) returns (r: Result<Encoded>)
    requires code.Shaped()
    ensures r.Failure? <==> |data| != code.k
    ensures r.Success? ==> r.value.originalSizes == Sizes(data) && r.value.paddedSize == MaxOf(Sizes(data))
    ensures r.Success? ==> r.value.parity == ParityFiles(code, data, MaxOf(Sizes(data)))
  {
    if |data| != code.k { return Failure("wrong number of data shards"); }
    var sizes := Sizes(data);
    var maxLen := Stream.LargestSize(sizes);
    if maxLen == 0 {
      var empty := seq(code.m, _ => []);
      assert empty == ParityFiles(code, data, 0);
      return Success(Encoded(empty, sizes, 0));
    }
    var shards := new Bytes[code.Total()](_ => []);
    for i := 0 to code.k
      invariant forall j | 0 <= j < i :: shards[j] == PadTo(data[j], maxLen)
    {
      shards[i] := PadTo(data[i], maxLen);
    }
    PaddingKeepsParity(code, data, shards[..code.k], maxLen);
    Stream.EncodeBuffers(code, shards, maxLen);
    return Success(Encoded(shards[code.k..], sizes, maxLen));
  }

  /** The data files of a stripe, nothing at a position without one. */
  function FilesOrNone(files: Files, paths: seq<Option<Path>>): (data: seq<Bytes>)
    requires forall p | p in paths && p.Some? :: p.value in files
    ensures |data| == |paths|
  {
    seq(|paths|, i requires 0 <= i < |paths| =>
      assert paths[i] in paths; if paths[i].Some? then files[paths[i].value] else [])
  }

  /** When the recorded sizes are those of the files, missing positions included, the streaming encoder writes the same
      parity files as the in-memory encoder. */
  lemma ChunkedEncodesWhole(code: Code, files: Files, paths: seq<Option<Path>>, sizes: seq<nat>, ecPaths: seq<Path>)
    requires forall p | p in paths && p.Some? :: p.value in files
    requires |ecPaths| == code.m && sizes == Sizes(FilesOrNone(files, paths))
    ensures var data := FilesOrNone(files, paths);
            Stored(files, ecPaths, ParityFiles(code, Stream.DataBytes(files, paths, sizes), MaxOf(sizes)))
              == Stored(files, ecPaths, ParityFiles(code, data, MaxOf(Sizes(data))))
  {
    assert Stream.DataBytes(files, paths, sizes) == FilesOrNone(files, paths);
  }

  // ---- what the library checks --------------------------------------------------------------

  /** The library takes an empty shard for an erased one. */
  function NonEmpty(shards: seq<Option<Bytes>>): (given: seq<Option<Bytes>>)
    ensures |given| == |shards|
  {
    seq(|shards|, i requires 0 <= i < |shards| => if shards[i] == Some([]) then None else shards[i])
  }

  /** The length of the first shard that is not empty, 0 for none. */
  function ShardSize(shards: seq<Option<Bytes>>): nat {
    if shards == [] then 0
    else if shards[0].Some? && shards[0].value != [] then |shards[0].value|
    else ShardSize(shards[1..])
  }

  /** All shards that are not empty have one length. */
  predicate OneSize(shards: seq<Option<Bytes>>) {
    forall i | 0 <= i < |shards| && shards[i].Some? && shards[i].value != [] :: |shards[i].value| == ShardSize(shards)
  }

  /** What has to hold of the shards for a reconstruction to go through. */
  predicate Reconstructible(code: Code, shards: seq<Option<Bytes>>) {
    |shards| == code.Total() && OneSize(shards) && Available(NonEmpty(shards)) >= code.k
  }

  lemma {:induction false} SizeIsFirst(shards: seq<Option<Bytes>>, i: nat)
    requires i < |shards| && shards[i].Some? && shards[i].value != []
    ensures exists j :: 0 <= j < |shards| && shards[j].Some? && shards[j].value != []
                        && ShardSize(shards) == |shards[j].value|
  {
    if shards[0].None? || shards[0].value == [] {
      assert shards[1..][i - 1] == shards[i];
      SizeIsFirst(shards[1..], i - 1);
      var j :| 0 <= j < |shards[1..]| && shards[1..][j].Some? && shards[1..][j].value != []
               && ShardSize(shards[1..]) == |shards[1..][j].value|;
      assert shards[j + 1] == shards[1..][j];
    }
  }

  /** Which shards can be reconstructed: at least k are not empty, and those have one length. */
  lemma ReconstructsExactly(code: Code, shards: seq<Option<Bytes>>)
    ensures Reconstructible(code, shards) <==>
              && |shards| == code.Total()
              && (forall i, j | 0 <= i < j < |shards| && shards[i].Some? && shards[j].Some? ::
                    shards[i].value == [] || shards[j].value == [] || |shards[i].value| == |shards[j].value|)
              && |set i | 0 <= i < |shards| && shards[i].Some? && shards[i].value != []| >= code.k
  {
    var given := NonEmpty(shards);
    var flags := seq(|given|, i requires 0 <= i < |given| => given[i].Some?);
    CountIsCardinality(flags);
    forall i | 0 <= i < |shards| ensures flags[i] <==> shards[i].Some? && shards[i].value != [] {
    }
    assert (set i | 0 <= i < |flags| && flags[i])
        == set i | 0 <= i < |shards| && shards[i].Some? && shards[i].value != [];
    OneSizeExactly(shards);
    hide OneSize;
  }

  lemma OneSizeExactly(shards: seq<Option<Bytes>>)
    ensures OneSize(shards) <==>
              forall i, j | 0 <= i < j < |shards| && shards[i].Some? && shards[j].Some? ::
                shards[i].value == [] || shards[j].value == [] || |shards[i].value| == |shards[j].value|
  {
    forall i | 0 <= i < |shards| && shards[i].Some? && shards[i].value != []
      ensures exists j :: 0 <= j < |shards| && shards[j].Some? && shards[j].value != []
                          && ShardSize(shards) == |shards[j].value|
    {
      SizeIsFirst(shards, i);
    }
    hide ShardSize;
  }

  lemma {:induction false} SizeOfShards(shards: seq<Option<Bytes>>)
    ensures ShardSize(shards) == 0 <==> forall i | 0 <= i < |shards| && shards[i].Some? :: shards[i].value == []
  {
    if shards != [] {
      SizeOfShards(shards[1..]);
      assert forall i | 0 < i < |shards| :: shards[i] == shards[1..][i - 1];
    }
  }

  lemma EmptyIsNotAvailable(shards: seq<Option<Bytes>>)
    ensures Available(NonEmpty(shards)) <= Available(shards)
    ensures ShardSize(shards) == 0 ==> Available(NonEmpty(shards)) == 0
  {
    SizeOfShards(shards);
    var given := NonEmpty(shards);
    var a := seq(|given|, i requires 0 <= i < |given| => given[i].Some?);
    var b := seq(|shards|, i requires 0 <= i < |shards| => shards[i].Some?);
    FewerFlags(a, b);
    if ShardSize(shards) == 0 {
      NoFlags(a);
    }
  }

  lemma {:induction false} FewerFlags(a: seq<bool>, b: seq<bool>)
    requires |a| == |b| && forall i | 0 <= i < |a| && a[i] :: b[i]
    ensures Count(a) <= Count(b)
  {
    if a != [] {
      FewerFlags(a[..|a| - 1], b[..|b| - 1]);
    }
  }

  lemma {:induction false} NoFlags(a: seq<bool>)
    requires forall i | 0 <= i < |a| :: !a[i]
    ensures Count(a) == 0
  {
    if a != [] {
      NoFlags(a[..|a| - 1]);
    }
  }

  /** The library's Reconstruct: refuses shards of different lengths and too few of them, and otherwise fills in
      the erased and the empty ones. */
  method LibraryReconstruct(code: Code, shards: array<Option<Bytes>>) returns (ok: bool)
    requires code.Shaped() && shards.Length == code.Total()
    modifies shards
    ensures ok <==> Reconstructible(code, old(shards[..]))
    ensures !ok ==> shards[..] == old(shards[..])
    ensures ok ==> forall i | 0 <= i < shards.Length ::
              shards[i] == Some(RebuiltOrKept(code, old(shards[..]), i))
  {
    var given := shards[..];
    EmptyIsNotAvailable(given);
    SizeOfShards(given);
    var size := ShardSize(given);
    if size == 0 || !OneSize(given) || Available(NonEmpty(given)) < code.k { return false; }
    var whole := NonEmpty(given);
    forall i | 0 <= i < shards.Length { shards[i] := whole[i]; }
    assert shards[..] == whole;
    Stream.ReconstructBuffers(code, shards, size);
    return true;
  }

  /** A shard after a reconstruction. */
  function RebuiltOrKept(code: Code, shards: seq<Option<Bytes>>, i: nat): Bytes
    requires i < |shards|
  {
    if shards[i].Some? && shards[i].value != [] then shards[i].value
    else RebuiltFile(code, NonEmpty(shards), ShardSize(shards), i)
  }

  /** Rebuilds the erased shards in place; the others keep their bytes. */
  method ReconstructBytes(code: Code, shards: array<Option<Bytes>>) returns (r: Result<()>)
    requires code.Shaped()
    modifies shards
    ensures r.Success? <==> Reconstructible(code, old(shards[..]))
    ensures r.Failure? ==> shards[..] == old(shards[..])
    ensures r.Success? ==> forall i | 0 <= i < shards.Length ::
              shards[i] == Some(RebuiltOrKept(code, old(shards[..]), i))
  {
    if shards.Length != code.Total() { return Failure("wrong number of shards"); }
    var avail := 0;
    ghost var given := shards[..];
    EmptyIsNotAvailable(given);
    ghost var flags := seq(|given|, i requires 0 <= i < |given| => given[i].Some?);
    for i := 0 to shards.Length
      invariant avail == Count(flags[..i])
    {
      assert flags[..i + 1][..i] == flags[..i];
      if shards[i].Some? { avail := avail + 1; }
    }
    assert flags[..shards.Length] == flags;
    if avail == 0 { return Failure("no shards available"); }
    if avail < code.k { return Failure("too few shards"); }
    var ok := LibraryReconstruct(code, shards);
    if !ok { return Failure("reconstruct stripe"); }
    return Success(());
  }

  /** Cuts every data shard back to its recorded length. */
  method TrimData(shards: array<Bytes>, sizes: seq<nat>)
    modifies shards
    ensures forall i | 0 <= i < shards.Length ::
      shards[i] == if i < |sizes| then Clip(old(shards[i]), sizes[i]) else old(shards[i])
  {
    for i := 0 to |sizes|
      invariant forall j | 0 <= j < shards.Length ::
        shards[j] == if j < i then Clip(old(shards[j]), sizes[j]) else old(shards[j])
    {
      if i < shards.Length && |shards[i]| > sizes[i] {
        shards[i] := shards[i][..sizes[i]];
      }
    }
  }

  // ---- whole files --------------------------------------------------------------------------

  /** The in-memory decoder pads surviving data shards that are shorter than the padded size. */
  function PaddedShards(code: Code, files: Files, paths: seq<Option<Path>>, padded: nat): (s: seq<Option<Bytes>>)
    ensures |s| == |paths|
  {
    var shards := Stream.Shards(files, paths);
    seq(|paths|, i requires 0 <= i < |paths| =>
      if shards[i].Some? && i < code.k then Some(PadTo(shards[i].value, padded)) else shards[i])
  }

  /** What is written at a missing position: data cut to its original size where one is given, parity whole. */
  function WholeFile(code: Code, shards: seq<Option<Bytes>>, sizes: seq<nat>, i: nat): Bytes
    requires i < |shards|
  {
    var b := RebuiltOrKept(code, shards, i);
    if i < code.k && i < |sizes| then Clip(b, sizes[i]) else b
  }

  /** The files after the missing ones among the first positions have been written. */
  function WholeRecovered(code: Code, files: Files, paths: seq<Option<Path>>, sizes: seq<nat>, padded: nat,
                          upTo: nat): Files
    requires upTo <= |paths|
  {
    if upTo == 0 then files
    else
      var i := upTo - 1;
      var before := WholeRecovered(code, files, paths, sizes, padded, i);
      if Stream.Missing(files, paths[i]) && paths[i].Some?
      then before[paths[i].value := WholeFile(code, PaddedShards(code, files, paths, padded), sizes, i)]
      else before
  }

  /** The whole-file repair. */
  method ReconstructStripe(code: Code, disk: Disk, paths: seq<Option<Path>>, originalSizes: seq<nat>, padded: nat)
    returns (r: Result<()>)
    requires code.Shaped()
    modifies disk
    ensures r.Success? <==> ValidShape(code.k, code.m)
                            && Reconstructible(code, PaddedShards(code, old(disk.files), paths, padded))
    ensures r.Failure? ==> disk.files == old(disk.files)
    ensures r.Success? ==>
              disk.files == WholeRecovered(code, old(disk.files), paths, originalSizes, padded, |paths|)
  {
    if !ValidShape(code.k, code.m) { return Failure("invalid ec config"); }
    if |paths| != code.Total() { return Failure("wrong number of files"); }
    ghost var files := disk.files;
    var shards := ReadPadded(code, disk, paths, padded);
    var given := shards[..];
    r := ReconstructBytes(code, shards);
    if r.Failure? { return; }
    var whole := shards[..];
    var data := new Bytes[code.k](i requires 0 <= i < code.k && |whole| == code.Total() =>
      if whole[i].Some? then whole[i].value else []);
    if |originalSizes| > 0 {
      TrimData(data, originalSizes);
    }
    var parts := data[..] + seq(code.m, i requires 0 <= i < code.m && |whole| == code.Total() =>
      if whole[code.k + i].Some? then whole[code.k + i].value else []);
    forall i | 0 <= i < code.Total() ensures parts[i] == WholeFile(code, given, originalSizes, i) {
      assert whole[i] == Some(RebuiltOrKept(code, given, i));
    }
    WriteMissing(code, disk, paths, originalSizes, padded, given, parts);
  }

  /** Reads the surviving shards and pads the data shards. */
  method ReadPadded(code: Code, disk: Disk, paths: seq<Option<Path>>, padded: nat)
    returns (shards: array<Option<Bytes>>)
    ensures fresh(shards) && shards[..] == PaddedShards(code, disk.files, paths, padded)
  {
    shards := new Option<Bytes>[|paths|](_ => None);
    for i := 0 to |paths|
      invariant forall j | 0 <= j < i :: shards[j] == PaddedShards(code, disk.files, paths, padded)[j]
    {
      if paths[i].None? || paths[i].value !in disk.files {
        shards[i] := None;
      } else {
        var b := disk.files[paths[i].value];
        shards[i] := Some(if i < code.k then PadTo(b, padded) else b);
      }
    }
  }

  /** Writes back only the positions that were missing. */
  method WriteMissing(code: Code, disk: Disk, paths: seq<Option<Path>>, ghost sizes: seq<nat>, ghost padded: nat,
                      given: seq<Option<Bytes>>, parts: seq<Bytes>)
    requires |paths| == |parts| && given == PaddedShards(code, disk.files, paths, padded)
    requires forall i | 0 <= i < |paths| :: parts[i] == WholeFile(code, given, sizes, i)
    modifies disk
    ensures disk.files == WholeRecovered(code, old(disk.files), paths, sizes, padded, |paths|)
  {
    for i := 0 to |paths|
      invariant disk.files == WholeRecovered(code, old(disk.files), paths, sizes, padded, i)
    {
      if given[i].None? && paths[i].Some? {
        disk.files := disk.files[paths[i].value := parts[i]];
      }
    }
  }

  /** The files of the stripe that are there have the lengths that encoding leaves: data up to the padded size, parity
      of it. */
  ghost predicate EncodedLengths(code: Code, files: Files, paths: seq<Option<Path>>, padded: nat) {
    forall i | 0 <= i < |paths| && !Stream.Missing(files, paths[i]) ::
      |files[paths[i].value]| <= padded && (i >= code.k ==> |files[paths[i].value]| == padded)
  }

  lemma {:induction false} SizeIs(shards: seq<Option<Bytes>>, n: nat)
    requires n > 0 && forall i | 0 <= i < |shards| && shards[i].Some? :: |shards[i].value| == n
    ensures (exists i :: 0 <= i < |shards| && shards[i].Some?) ==> ShardSize(shards) == n
    ensures OneSize(shards) && NonEmpty(shards) == shards
  {
    if shards != [] && shards[0].None? {
      SizeIs(shards[1..], n);
      assert forall i | 0 < i < |shards| :: shards[i] == shards[1..][i - 1];
    }
    if i :| 0 <= i < |shards| && shards[i].Some? {
      assert shards[0].Some? || shards[1..][i - 1].Some?;
    }
  }

  lemma PaddingKeepsRebuilt(code: Code, files: Files, paths: seq<Option<Path>>, padded: nat, i: nat)
    ensures RebuiltFile(code, PaddedShards(code, files, paths, padded), padded, i)
         == RebuiltFile(code, Stream.Shards(files, paths), padded, i)
    ensures Available(PaddedShards(code, files, paths, padded)) == Available(Stream.Shards(files, paths))
  {
    var a, b := PaddedShards(code, files, paths, padded), Stream.Shards(files, paths);
    forall x ensures Erased(a, x) == Erased(b, x) {
    }
    assert seq(|a|, i requires 0 <= i < |a| => a[i].Some?) == seq(|b|, i requires 0 <= i < |b| => b[i].Some?);
  }

  lemma SomeAvailable(shards: seq<Option<Bytes>>)
    requires Available(shards) > 0
    ensures exists i :: 0 <= i < |shards| && shards[i].Some?
  {
    var flags := seq(|shards|, i requires 0 <= i < |shards| => shards[i].Some?);
    if forall i | 0 <= i < |shards| :: shards[i].None? {
      NoFlags(flags);
    }
  }

  /** Every missing file has a path. */
  predicate MissingAreNamed(files: Files, paths: seq<Option<Path>>) {
    forall i | 0 <= i < |paths| && Stream.Missing(files, paths[i]) :: paths[i].Some?
  }

  lemma NothingAvailable(shards: seq<Option<Bytes>>)
    requires forall i | 0 <= i < |shards| && shards[i].Some? :: shards[i].value == []
    ensures Available(NonEmpty(shards)) == 0
  {
    var given := NonEmpty(shards);
    forall i | 0 <= i < |shards| ensures given[i].None? {
      assert shards[i].Some? ==> shards[i] == Some(shards[i].value);
    }
    NoFlags(seq(|given|, i requires 0 <= i < |given| => given[i].Some?));
  }

  /** On a stripe with the lengths that encoding leaves, the whole-file repair has what it needs exactly when k files
      are left and the padded size is not 0, and it writes what the chunked repair with target "all" writes. Where all
      missing files have paths and the padded size is not 0, both succeed on the same stripes; an empty path fails only
      the chunked repair, a padded size of 0 only the whole-file one. */
  lemma WholeIsChunked(code: Code, files: Files, paths: seq<Option<Path>>, sizes: seq<nat>, padded: nat)
    requires code.Shaped() && |paths| == code.Total() && |sizes| == code.k
    requires EncodedLengths(code, files, paths, padded)
    ensures var whole := Reconstructible(code, PaddedShards(code, files, paths, padded));
            && (whole <==> Available(Stream.Shards(files, paths)) >= code.k && padded > 0)
            && (whole && MissingAreNamed(files, paths) <==> Stream.Repairs(code, files, paths, "all") && padded > 0)
            && (whole ==> WholeRecovered(code, files, paths, sizes, padded, |paths|)
                            == Stream.Recovered(code, files, paths, sizes, padded, "all", |paths|))
  {
    var given := PaddedShards(code, files, paths, padded);
    PaddingKeepsRebuilt(code, files, paths, padded, 0);
    if padded == 0 {
      NothingAvailable(given);
    } else {
      SizeIs(given, padded);
      if Available(Stream.Shards(files, paths)) >= code.k {
        SomeAvailable(given);
        SameRecovered(code, files, paths, sizes, padded, |paths|);
      }
    }
  }

  lemma {:induction false} SameRecovered(code: Code, files: Files, paths: seq<Option<Path>>, sizes: seq<nat>,
                                         padded: nat,
                                         upTo: nat)
    requires |sizes| == code.k && upTo <= |paths|
    requires var given := PaddedShards(code, files, paths, padded);
             NonEmpty(given) == given && ShardSize(given) == padded
    ensures WholeRecovered(code, files, paths, sizes, padded, upTo)
         == Stream.Recovered(code, files, paths, sizes, padded, "all", upTo)
  {
    if upTo > 0 {
      SameRecovered(code, files, paths, sizes, padded, upTo - 1);
      PaddingKeepsRebuilt(code, files, paths, padded, upTo - 1);
      hide NonEmpty, RebuiltFile;
    }
  }

  /** The whole-file check: pads the data shards to the longest shard and verifies. The library refuses an empty stripe
      and one in which a parity shard is not as long as the longest shard. */
  method VerifyStripe(code: Code, disk: Disk, paths: seq<Path>) returns (r: Result<bool>)
    requires code.Shaped()
    ensures r.Success? <==>
              && ValidShape(code.k, code.m) && |paths| == code.Total()
              && (forall p | p in paths :: p in disk.files)
              && var sizes := Sizes(Stream.Contents(disk.files, paths));
                 MaxOf(sizes) > 0 && forall i | code.k <= i < |sizes| :: sizes[i] == MaxOf(sizes)
    ensures r.Success? ==>
              var files := Stream.Contents(disk.files, paths);
              r.value <==> Consistent(code, files, MaxOf(Sizes(files)))
  {
    if !ValidShape(code.k, code.m) { return Failure("invalid ec config"); }
    if |paths| != code.Total() { return Failure("wrong number of files"); }
    for i := 0 to |paths|
      invariant forall j | 0 <= j < i :: paths[j] in disk.files
    {
      if paths[i] !in disk.files { return Failure("read shard"); }
    }
    var files := Stream.Contents(disk.files, paths);
    var maxLen := Stream.LargestSize(Sizes(files));
    MaxOfIsMaximum(Sizes(files));
    var shards := seq(|files|, i requires 0 <= i < |files| => if i < code.k then PadTo(files[i], maxLen) else files[i]);
    ghost var sizes := Sizes(files);
    forall i | 0 <= i < |files| ensures |shards[i]| == if i < code.k then maxLen else sizes[i] {
      assert sizes[i] == |files[i]|;
    }
    if maxLen == 0 || exists i :: 0 <= i < |shards| && |shards[i]| != maxLen { return Failure("shard sizes"); }
    forall x ensures Column(shards, x) == Column(files, x) {
    }
    var ok := Stream.VerifyBuffers(code, shards, maxLen);
    return Success(ok);
  }
}
