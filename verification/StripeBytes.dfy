/** Whole-file meaning of a stripe: byte x of the parity files is the parity of byte x of the
    zero-padded data files. */
module StripeBytes {
  import opened Bytes
  import opened ColumnCode

  /** Byte x of every file, zero where a file has ended. */
  function Column(files: seq<Bytes>, x: int): (c: Bytes)
    ensures |c| == |files|
  {
    seq(|files|, i requires 0 <= i < |files| => At(files[i], x))
  }

  function ParityFile(code: Code, data: seq<Bytes>, n: nat, j: nat): (f: Bytes)
    ensures |f| == n
  {
    seq(n, x => At(code.enc(Column(data, x)), j))
  }

  function ParityFiles(code: Code, data: seq<Bytes>, n: nat): (fs: seq<Bytes>)
    ensures |fs| == code.m
  {
    seq(code.m, j requires 0 <= j < code.m => ParityFile(code, data, n, j))
  }

  /** The first n byte columns of the zero-padded files are codewords. */
  ghost predicate Consistent(code: Code, files: seq<Bytes>, n: nat) {
    |files| == code.Total() && forall x | 0 <= x < n :: code.Codeword(Column(files, x))
  }

  /** Shards with erasures: the symbols of byte column x. */
  function Erased(shards: seq<Option<Bytes>>, x: int): (sym: Symbols)
    ensures |sym| == |shards|
  {
    seq(|shards|, i requires 0 <= i < |shards| =>
      if shards[i].Some? then Some(At(shards[i].value, x)) else None)
  }

  /** What the library puts in an erased position, over n byte columns. */
  function RebuiltFile(code: Code, shards: seq<Option<Bytes>>, n: nat, i: nat): (f: Bytes)
    ensures |f| == n
  {
    seq(n, x => At(code.Word(code.dec(Erased(shards, x))), i))
  }

  function Available(shards: seq<Option<Bytes>>): nat {
    Count(seq(|shards|, i requires 0 <= i < |shards| => shards[i].Some?))
  }

  /** The shards are the files, some of them erased. */
  predicate Survivors(shards: seq<Option<Bytes>>, files: seq<Bytes>) {
    |shards| == |files| && forall i | 0 <= i < |files| && shards[i].Some? :: shards[i].value == files[i]
  }

  lemma ColumnSplits(code: Code, data: seq<Bytes>, parity: seq<Bytes>, x: int)
    ensures Column(data + parity, x) == Column(data, x) + Column(parity, x)
  {
  }

  /** Encoding makes every column a codeword, for any length the columns are taken to. */
  lemma EncodedIsConsistent(code: Code, data: seq<Bytes>, n: nat)
    requires code.Shaped() && |data| == code.k
    ensures Consistent(code, data + ParityFiles(code, data, n), n)
  {
    var parity := ParityFiles(code, data, n);
    forall x | 0 <= x < n ensures code.Codeword(Column(data + parity, x)) {
      ColumnSplits(code, data, parity, x);
      assert Column(parity, x) == code.enc(Column(data, x));
      assert Column(data + parity, x)[..code.k] == Column(data, x);
    }
  }

  /** Conversely the parity files of a consistent stripe are the encoding of its data files. */
  lemma ConsistentIsEncoded(code: Code, files: seq<Bytes>, n: nat)
    requires code.Shaped() && Consistent(code, files, n)
    requires forall j | code.k <= j < code.Total() :: |files[j]| == n
    ensures files[code.k..] == ParityFiles(code, files[..code.k], n)
  {
    forall j | 0 <= j < code.m ensures files[code.k + j] == ParityFile(code, files[..code.k], n, j) {
      forall x | 0 <= x < n
        ensures files[code.k + j][x] == At(code.enc(Column(files[..code.k], x)), j)
      {
        var word := Column(files, x);
        assert word[..code.k] == Column(files[..code.k], x);
        assert code.Codeword(word);
        assert word[code.k + j] == code.enc(word[..code.k])[j];
      }
    }
  }

  lemma AvailableSymbols(shards: seq<Option<Bytes>>, x: int)
    ensures Present(Erased(shards, x)) == Available(shards)
  {
    var sym := Erased(shards, x);
    assert seq(|sym|, i requires 0 <= i < |sym| => sym[i].Some?)
        == seq(|shards|, i requires 0 <= i < |shards| => shards[i].Some?);
  }

  /** With at least k survivors of a consistent stripe every file comes back, padded to n. */
  lemma RebuildRestores(code: Code, shards: seq<Option<Bytes>>, files: seq<Bytes>, n: nat, i: nat)
    requires code.Lawful() && Consistent(code, files, n)
    requires Survivors(shards, files) && Available(shards) >= code.k
    requires i < code.Total()
    ensures RebuiltFile(code, shards, n, i) == Window(files[i], 0, n)
  {
    forall x | 0 <= x < n ensures RebuiltFile(code, shards, n, i)[x] == At(files[i], x) {
      var word := Column(files, x);
      assert code.Codeword(word);
      AvailableSymbols(shards, x);
      DecodeRestores(code, word[..code.k], Erased(shards, x));
      assert word[i] == At(files[i], x);
    }
  }

  /** Cut to its recorded length, a rebuilt file is the original. */
  lemma ClipRestores(b: Bytes, n: nat)
    requires |b| <= n
    ensures Clip(Window(b, 0, n), |b|) == b
  {
    var c := Clip(Window(b, 0, n), |b|);
    forall x | 0 <= x < |b| ensures c[x] == b[x] {
      assert Window(b, 0, n)[x] == At(b, x);
    }
  }

  lemma ParityAppend(code: Code, data: seq<Bytes>, windows: seq<Bytes>, off: nat, n: nat, j: nat)
    requires |windows| == |data|
    requires forall i | 0 <= i < |data| :: windows[i] == Window(data[i], off, n)
    ensures ParityFile(code, data, off, j) + ParityFile(code, windows, n, j) == ParityFile(code, data, off + n, j)
  {
    forall x | 0 <= x < n ensures Column(windows, x) == Column(data, off + x) {
    }
  }

  lemma ConsistentAppend(code: Code, files: seq<Bytes>, windows: seq<Bytes>, off: nat, n: nat)
    requires |windows| == |files|
    requires forall i | 0 <= i < |files| :: windows[i] == Window(files[i], off, n)
    ensures Consistent(code, files, off + n) <==> Consistent(code, files, off) && Consistent(code, windows, n)
  {
    forall x | 0 <= x < n ensures Column(windows, x) == Column(files, off + x) {
    }
    if Consistent(code, files, off + n) {
      forall x | 0 <= x < n ensures code.Codeword(Column(windows, x)) {
        assert code.Codeword(Column(files, off + x));
      }
    }
    if Consistent(code, files, off) && Consistent(code, windows, n) {
      forall x | 0 <= x < off + n ensures code.Codeword(Column(files, x)) {
        if x >= off {
          assert code.Codeword(Column(windows, x - off));
        }
      }
    }
  }

  lemma RebuiltAppend(code: Code, shards: seq<Option<Bytes>>, windows: seq<Option<Bytes>>, off: nat, n: nat, i: nat)
    requires |windows| == |shards|
    requires forall i | 0 <= i < |shards| ::
      windows[i] == if shards[i].Some? then Some(Window(shards[i].value, off, n)) else None
    ensures RebuiltFile(code, shards, off, i) + RebuiltFile(code, windows, n, i)
         == RebuiltFile(code, shards, off + n, i)
  {
    forall x | 0 <= x < n ensures Erased(windows, x) == Erased(shards, off + x) {
    }
  }
}
