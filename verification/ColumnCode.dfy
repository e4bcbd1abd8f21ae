/** The erasure code of one byte column: k data symbols, m parity symbols.
    The Reed-Solomon library is a parameter: `enc` computes the parity of a data column
    and `dec` the data of a column with erasures. */
module ColumnCode {
  import opened Bytes

  type Symbols = seq<Option<byte>>

  function Present(sym: Symbols): nat {
    Count(seq(|sym|, i requires 0 <= i < |sym| => sym[i].Some?))
  }

  /** The symbols that are present are those of the word. */
  ghost predicate Fits(sym: Symbols, word: Bytes) {
    |sym| == |word| && forall i | 0 <= i < |sym| && sym[i].Some? :: sym[i].value == word[i]
  }

  datatype Code = Code(k: nat, m: nat, enc: Bytes -> Bytes, dec: Symbols -> Bytes) {
    function Total(): nat { k + m }

    function Word(data: Bytes): Bytes { data + enc(data) }

    ghost predicate Codeword(word: Bytes) {
      |word| == Total() && Word(word[..k]) == word
    }

    ghost predicate Shaped() {
      && k > 0
      && (forall data: Bytes | |data| == k :: |enc(data)| == m)
      && (forall sym: Symbols | |sym| == Total() :: |dec(sym)| == k)
    }

    ghost predicate Enough(sym: Symbols) {
      |sym| == Total() && Present(sym) >= k
    }

    /** Maximum distance: any k of the k+m symbols determine the column. */
    ghost predicate Determining() {
      forall d: Bytes, e: Bytes, sym: Symbols
        | |d| == k && |e| == k && Enough(sym) && Fits(sym, Word(d)) && Fits(sym, Word(e)) :: d == e
    }

    /** Reconstruct finds a column for the symbols whenever there is one. */
    ghost predicate Solving() {
      forall d: Bytes, sym: Symbols
        | |d| == k && Enough(sym) && Fits(sym, Word(d)) :: Fits(sym, Word(dec(sym)))
    }

    ghost predicate Lawful() {
      Shaped() && Determining() && Solving()
    }
  }

  /** With at most m erasures the whole word comes back. */
  lemma DecodeRestores(code: Code, data: Bytes, sym: Symbols)
    requires code.Lawful() && |data| == code.k
    requires code.Enough(sym) && Fits(sym, code.Word(data))
    ensures code.dec(sym) == data
  {
    assert Fits(sym, code.Word(code.dec(sym)));
  }
}
