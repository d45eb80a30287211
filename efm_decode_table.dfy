/**
 * The reverse table: codeword to data symbol, as the codec builds it by
 * writing every literal's symbol over an array whose only non-zero entry
 * is the invalid code at index 0.
 */
module EfmDecodeTable {
  import opened Bits
  import opened EfmTable

  /** The entry a freshly zero-filled table holds at index c: only index 0 is set to the invalid code. */
  function InitialEntry(c: int): (v: uint16)
    ensures v == InvalidCode <==> c == 0
  {
    if c == 0 then InvalidCode else 0
  }

  /**
   * Entry c of the reverse table after the first n literals have been
   * written into it: the last symbol below n whose codeword is c, and
   * otherwise the entry the table started with.
   */
  function ReverseAfter(n: int, c: int): (v: uint16)
    requires 0 <= n <= 256
    ensures v == InitialEntry(c) || v < n
    decreases n
  {
    if n == 0 then InitialEntry(c)
    else if EfmRawTable(n - 1) == c then n - 1
    else ReverseAfter(n - 1, c)
  }

  /** The reverse table once every literal has been written: each entry is a symbol or its initial value. */
  function DecodeTable(c: int): (v: uint16)
  {
    ReverseAfter(EncodeBufferSize, c)
  }

  lemma {:induction false} ReverseAfterCodeword(n: int, s: int)
    requires 0 <= s < n <= 256
    ensures ReverseAfter(n, EfmRawTable(s)) == s
    decreases n
  {
    if s < n - 1 {
      TableInjective();
      assert EfmRawTable(n - 1) != EfmRawTable(s);
      ReverseAfterCodeword(n - 1, s);
    }
  }

  lemma {:induction false} ReverseAfterMissing(n: int, c: int)
    requires 0 <= n <= 256
    requires forall s :: 0 <= s < n ==> EfmRawTable(s) != c
    ensures ReverseAfter(n, c) == InitialEntry(c)
    decreases n
  {
    if n > 0 {
      ReverseAfterMissing(n - 1, c);
    }
  }

  /** The reverse table inverts the forward table. */
  lemma DecodeTableOfCodeword(s: int)
    requires 0 <= s < 256
    ensures DecodeTable(EfmRawTable(s)) == s
  {
    ReverseAfterCodeword(EncodeBufferSize, s);
  }

  /**
   * Every index that is not a codeword keeps its initial entry: the invalid
   * code at index 0 and symbol 0 everywhere else.
   */
  lemma DecodeTableNonCodeword(c: int)
    requires !IsCodeword(c)
    ensures DecodeTable(c) == InitialEntry(c)
  {
    ReverseAfterMissing(EncodeBufferSize, c);
  }

  /** Index 0, and no other index, holds the invalid code. */
  lemma DecodeTableInvalid(c: int)
    ensures DecodeTable(c) == InvalidCode <==> c == 0
  {
    if IsCodeword(c) {
      var s :| 0 <= s < 256 && EfmRawTable(s) == c;
      TableInRange();
      assert c != 0;
      DecodeTableOfCodeword(s);
      assert DecodeTable(c) == s;
    } else {
      DecodeTableNonCodeword(c);
    }
  }
}
