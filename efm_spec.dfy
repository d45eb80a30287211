/**
 * What the codec computes, as functions of its inputs: the packing of eight
 * codewords into a 112-bit window, the 14-byte big-endian layout of a
 * window, the unpacking of a window through the reverse table, and the
 * chunk-by-chunk block codec built on them.
 */
module EfmSpec {
  import opened Bits
  import opened Radix
  import opened EfmTable
  import opened EfmDecodeTable
  import opened Seqs

  /** The three ways the codec fails; the message texts are not modelled. */
  datatype Error = ShortInput | InvalidLength | InvalidValue

  datatype Result<T> = Ok(value: T) | Err(error: Error)

  // ---------------------------------------------------------------------
  // The 64-bit big-endian reads and writes
  // ---------------------------------------------------------------------

  /** The eight bytes of x, most significant first. */
  function BigEndianBytes(x: uint64): (b: seq<byte>)
    ensures |b| == 8
  {
    ToDigitsAreDigits(x, 0x100, 8);
    ToDigits(x, 0x100, 8)
  }

  /** The 64-bit value of eight bytes read most significant first. */
  function BigEndianValue(b: seq<byte>): (x: uint64)
    requires |b| == 8
  {
    BytesBound(b);
    FromDigits(b, 0x100)
  }

  lemma BytesBound(b: seq<byte>)
    requires |b| == 8
    ensures 0 <= FromDigits(b, 0x100) < TwoTo64
  {
    FromDigitsBound(b, 0x100);
    RadixPowers();
  }

  /** Reading back what was written gives the value, and writing what was read gives the bytes. */
  lemma BigEndianRoundTrip(x: uint64, b: seq<byte>)
    requires |b| == 8
    ensures BigEndianValue(BigEndianBytes(x)) == x
    ensures BigEndianBytes(BigEndianValue(b)) == b
  {
    RadixPowers();
    FromToDigits(x, 0x100, 8);
    ToFromDigits(b, 0x100);
  }

  // ---------------------------------------------------------------------
  // One window: eight data bytes, eight codewords, 112 bits, 14 bytes
  // ---------------------------------------------------------------------

  /** The codewords of the first eight bytes of d. */
  function Codewords(d: seq<byte>): (cs: seq<int>)
    requires |d| >= 8
    ensures |cs| == 8 && IsDigits(cs, 0x4000)
    ensures forall i :: 0 <= i < 8 ==> cs[i] == EfmRawTable(d[i])
  {
    TableInRange();
    seq(8, i requires 0 <= i < 8 => EfmRawTable(d[i]))
  }

  /**
   * The window the first eight bytes of d pack into: codeword i occupies
   * bits 98 - 14 i .. 111 - 14 i, so the window is below 2^112; fewer than
   * eight bytes is an error.
   */
  function EncodeWindow(d: seq<byte>): (r: Result<uint128>)
    ensures r.Err? <==> |d| < 8
    ensures r.Err? ==> r.error == ShortInput
    ensures r.Ok? ==> r.value < TwoTo112
  {
    if |d| < 8 then Err(ShortInput)
    else
      var cs := Codewords(d);
      PackedBound(cs);
      Ok(FromDigits(cs, 0x4000))
  }

  /** Eight codewords pack into 112 bits. */
  lemma PackedBound(cs: seq<int>)
    requires |cs| == 8 && IsDigits(cs, 0x4000)
    ensures 0 <= FromDigits(cs, 0x4000) < TwoTo112
  {
    FromDigitsBound(cs, 0x4000);
    RadixPowers();
  }

  /** Field i of the window is codeword i: the window unpacks to the eight codewords. */
  lemma EncodeWindowDigits(d: seq<byte>)
    requires |d| >= 8
    ensures ToDigits(EncodeWindow(d).value, 0x4000, 8) == Codewords(d)
  {
    ToFromDigits(Codewords(d), 0x4000);
  }

  /** Only the first eight bytes take part. */
  lemma EncodeWindowPrefix(d: seq<byte>)
    requires |d| >= 8
    ensures EncodeWindow(d) == EncodeWindow(d[..8])
  {
    assert Codewords(d) == Codewords(d[..8]);
  }

  /** The 14 bytes a 128-bit window is written as: the low six bytes of H, then the eight bytes of L. */
  function WindowBytes(w: uint128): (b: seq<byte>)
    ensures |b| == 14
  {
    BigEndianBytes(High64(w))[2..] + BigEndianBytes(Low64(w))
  }

  /**
   * Dropping the two high bytes of H loses nothing for a window below
   * 2^112: the 14 bytes are the window written big-endian, and they read
   * back as the window.
   */
  lemma WindowBytesValue(w: uint128)
    requires w < TwoTo112
    ensures FromDigits(WindowBytes(w), 0x100) == w
    ensures WindowBytes(w) == ToDigits(w, 0x100, 14)
  {
    var h, l := High64(w), Low64(w);
    RadixPowers();
    DivBelow(w, TwoTo64, 0x1_0000_0000_0000);
    ToDigitsDropHigh(h, 0x100, 8, 2);
    FromToDigits(h, 0x100, 6);
    FromToDigits(l, 0x100, 8);
    FromDigitsAppend(ToDigits(h, 0x100, 6), ToDigits(l, 0x100, 8), 0x100);
    DivModSplit(w, TwoTo64);
    ToFromDigits(WindowBytes(w), 0x100);
  }

  /**
   * The window the decoder assembles from 14 bytes: H is the first eight
   * bytes shifted right by 16 bits and L is the last eight bytes, so the
   * two reads overlap in bytes 6 and 7.
   */
  function ReadWindow(b: seq<byte>): uint128
    requires |b| == 14
  {
    FromWords(ShiftRight(BigEndianValue(b[..8]), 16), BigEndianValue(b[6..]))
  }

  /** The overlapping reads rebuild exactly the 14 bytes read big-endian. */
  lemma ReadWindowValue(b: seq<byte>)
    requires |b| == 14
    ensures ReadWindow(b) == FromDigits(b, 0x100)
  {
    RadixPowers();
    Pow2To16();
    assert b[..8] == b[..6] + b[6..8];
    assert b == b[..6] + b[6..];
    FromDigitsAppend(b[..6], b[6..8], 0x100);
    FromDigitsAppend(b[..6], b[6..], 0x100);
    FromDigitsBound(b[6..8], 0x100);
    DivModUnique(FromDigits(b[..8], 0x100), 0x1_0000, FromDigits(b[..6], 0x100), FromDigits(b[6..8], 0x100));
  }

  /** Field i of a window, extracted as the decoder does: shift right, keep the low word, mask 14 bits. */
  function Field(w: uint128, i: int): int
    requires 0 <= i < 8
  {
    And(Low64(ShiftRight(w, StartPt - i * 14)), BufferMask)
  }

  /** Masking the low word with 14 one bits keeps the value modulo 2^14. */
  lemma MaskLowWord(x: uint128)
    ensures And(Low64(x), BufferMask) == x % 0x4000
  {
    Pow2To14();
    Pow2To64();
    AndLowMask(x % TwoTo64, 14);
    PowAdd(2, 14, 50);
    ModMod(x, Pow(2, 14), Pow(2, 50));
  }

  /** Field i is digit i of the window written in base 2^14, whatever the window's top 16 bits hold. */
  lemma FieldIsDigit(w: uint128, i: int)
    requires 0 <= i < 8
    ensures Field(w, i) == ToDigits(w, 0x4000, 8)[i]
  {
    var k := 7 - i;
    PowMul(2, 14, k);
    Pow2To14();
    assert ShiftRight(w, StartPt - i * 14) == w / Pow(0x4000, k);
    MaskLowWord(w / Pow(0x4000, k));
    DigitAt(w, 0x4000, 8, i);
  }

  /** Field i is an index into the reverse table. */
  lemma FieldInRange(w: uint128, i: int)
    requires 0 <= i < 8
    ensures Field(w, i) == ToDigits(w, 0x4000, 8)[i] && 0 <= Field(w, i) < 0x4000
  {
    FieldIsDigit(w, i);
    ToDigitsAreDigits(w, 0x4000, 8);
  }

  /**
   * The eight bytes a window decodes to: each field goes through the
   * reverse table and is truncated to a byte; any field the table marks
   * invalid fails the whole window.
   */
  function DecodeWindow(w: uint128): (r: Result<seq<byte>>)
    ensures r.Ok? ==> |r.value| == 8
    ensures r.Err? ==> r.error == InvalidValue
  {
    var fs := ToDigits(w, 0x4000, 8);
    if exists i :: 0 <= i < 8 && DecodeTable(fs[i]) == InvalidCode then Err(InvalidValue)
    else Ok(seq(8, i requires 0 <= i < 8 => DecodeTable(fs[i]) % 0x100))
  }

  /** A window fails exactly when one of its eight fields is zero; no other value is rejected. */
  lemma DecodeWindowFails(w: uint128)
    ensures DecodeWindow(w).Err? <==> exists i :: 0 <= i < 8 && ToDigits(w, 0x4000, 8)[i] == 0
  {
    var fs := ToDigits(w, 0x4000, 8);
    forall i | 0 <= i < 8
      ensures DecodeTable(fs[i]) == InvalidCode <==> fs[i] == 0
    {
      DecodeTableInvalid(fs[i]);
    }
    assert DecodeWindow(w).Err? ==> exists i :: 0 <= i < 8 && fs[i] == 0;
    assert (exists i :: 0 <= i < 8 && fs[i] == 0) ==> DecodeWindow(w).Err?;
    assert forall i :: 0 <= i < 8 ==> fs[i] == ToDigits(w, 0x4000, 8)[i];
  }

  /** The fields of a window that hold the codewords of d unpack to d. */
  lemma DecodeCodewords(w: uint128, d: seq<byte>)
    requires |d| >= 8 && ToDigits(w, 0x4000, 8) == Codewords(d)
    ensures DecodeWindow(w) == Ok(d[..8])
  {
    var fs, cs := ToDigits(w, 0x4000, 8), Codewords(d);
    var v := seq(8, i requires 0 <= i < 8 => DecodeTable(fs[i]) % 0x100);
    forall i | 0 <= i < 8
      ensures DecodeTable(fs[i]) != InvalidCode && v[i] == d[..8][i]
    {
      assert fs[i] == cs[i] == EfmRawTable(d[i]);
      DecodeByte(fs[i], d[i]);
    }
    ExtensionalEquality(v, d[..8]);
  }

  lemma DecodeByte(c: int, s: byte)
    requires c == EfmRawTable(s)
    ensures DecodeTable(c) != InvalidCode && DecodeTable(c) % 0x100 == s
  {
    DecodeTableOfCodeword(s);
    assert DecodeTable(c) == s;
  }

  /** Unpacking a packed window gives back the eight bytes. */
  lemma DecodeEncodeWindow(d: seq<byte>)
    requires |d| >= 8
    ensures DecodeWindow(EncodeWindow(d).value) == Ok(d[..8])
  {
    EncodeWindowDigits(d);
    DecodeCodewords(EncodeWindow(d).value, d);
  }

  /** Written out, read back and unpacked, a window gives back the eight bytes. */
  lemma WindowRoundTrip(d: seq<byte>)
    requires |d| >= 8
    ensures DecodeWindow(ReadWindow(WindowBytes(EncodeWindow(d).value))) == Ok(d[..8])
  {
    var w := EncodeWindow(d).value;
    WindowBytesValue(w);
    ReadWindowValue(WindowBytes(w));
    assert ReadWindow(WindowBytes(w)) == w;
    DecodeEncodeWindow(d);
  }

  // ---------------------------------------------------------------------
  // The block codec: a sequence of windows
  // ---------------------------------------------------------------------

  /** The 14 bytes one eight-byte chunk encodes to. */
  function EncodeBlock(c: seq<byte>): (b: seq<byte>)
    requires |c| == 8
    ensures |b| == 14
  {
    WindowBytes(EncodeWindow(c).value)
  }

  /** The bytes eight-byte chunks encode to, chunk after chunk, 14 bytes each. */
  function EncodeChunks(d: seq<byte>): (out: seq<byte>)
    requires |d| % 8 == 0
    ensures |out| == |d| / 8 * 14 && |out| % 14 == 0
    decreases |d|
  {
    MultipleOf(|d| / 8, 14);
    if |d| == 0 then []
    else EncodeChunks(d[..|d| - 8]) + EncodeBlock(d[|d| - 8..])
  }

  /** The outcome of encoding d: a length error, or the encoded chunks. */
  function Encoding(d: seq<byte>): (r: Result<seq<byte>>)
    ensures r.Err? <==> |d| % 8 != 0
    ensures r.Err? ==> r.error == InvalidLength
    ensures r.Ok? ==> |r.value| == |d| / 8 * 14
  {
    if |d| % 8 != 0 then Err(InvalidLength) else Ok(EncodeChunks(d))
  }

  /** Appending a chunk appends its 14 bytes. */
  lemma EncodeChunksSnoc(p: seq<byte>, c: seq<byte>)
    requires |p| % 8 == 0 && |c| == 8
    ensures EncodeChunks(p + c) == EncodeChunks(p) + EncodeBlock(c)
  {
    SliceOfConcatRight(p, c);
  }

  /** Chunk k of the input becomes bytes 14 k .. 14 k + 13 of the output: its window, big-endian. */
  lemma {:induction false} EncodeChunkAt(d: seq<byte>, k: int)
    requires |d| % 8 == 0 && 0 <= k < |d| / 8
    ensures EncodeChunks(d)[k * 14..(k + 1) * 14] == EncodeBlock(d[k * 8..(k + 1) * 8])
    decreases |d|
  {
    var n := |d| / 8;
    var init, last := d[..|d| - 8], d[|d| - 8..];
    assert |d| == n * 8 && |init| == (n - 1) * 8;
    var e, tail := EncodeChunks(init), EncodeBlock(last);
    assert |e| == (n - 1) * 14;
    assert EncodeChunks(d) == e + tail;
    if k == n - 1 {
      LastSlice(e, tail, k, 14);
      assert k * 8 == |d| - 8 && (k + 1) * 8 == |d|;
      SliceToEnd(d, |d| - 8);
    } else {
      EncodeChunkAt(init, k);
      SliceOfPrefix(d, |d| - 8, k * 8, (k + 1) * 8);
      SliceOfConcatLeft(e, tail, k * 14, (k + 1) * 14);
    }
  }

  /** Chunk k of the input becomes bytes 14 k .. 14 k + 13 of the output: its window, big-endian. */
  lemma ChunkBigEndian(d: seq<byte>, k: int)
    requires |d| % 8 == 0 && 0 <= k < |d| / 8
    ensures EncodeChunks(d)[k * 14..(k + 1) * 14] == ToDigits(EncodeWindow(d[k * 8..(k + 1) * 8]).value, 0x100, 14)
  {
    EncodeChunkAt(d, k);
    WindowBytesValue(EncodeWindow(d[k * 8..(k + 1) * 8]).value);
  }

  /** The 14-byte blocks of d, each read as a window and unpacked, concatenated; the first failing block fails the whole input. */
  function DecodeChunks(d: seq<byte>): (r: Result<seq<byte>>)
    requires |d| % 14 == 0
    ensures r.Ok? ==> |r.value| == |d| / 14 * 8
    ensures r.Err? ==> r.error == InvalidValue
    decreases |d|
  {
    if |d| == 0 then Ok([])
    else
      var front := DecodeChunks(d[..|d| - 14]);
      var last := DecodeWindow(ReadWindow(d[|d| - 14..]));
      if front.Err? then front
      else if last.Err? then last
      else Ok(front.value + last.value)
  }

  /** The outcome of decoding d: a length error, or the decoded blocks, or the error of a block. */
  function Decoding(d: seq<byte>): (r: Result<seq<byte>>)
    ensures |d| % 14 != 0 ==> r == Err(InvalidLength)
    ensures r.Ok? ==> |r.value| == |d| / 14 * 8
  {
    if |d| % 14 != 0 then Err(InvalidLength) else DecodeChunks(d)
  }

  /** Block k of d: bytes 14 k .. 14 k + 13. */
  function Block(d: seq<byte>, k: int): (b: seq<byte>)
    requires 0 <= k < |d| / 14
    ensures |b| == 14
  {
    d[k * 14..(k + 1) * 14]
  }

  /** Appending a block decodes it after the blocks before it. */
  lemma DecodeChunksSnoc(p: seq<byte>, b: seq<byte>)
    requires |p| % 14 == 0 && |b| == 14
    ensures DecodeChunks(p + b) ==
      var front, last := DecodeChunks(p), DecodeWindow(ReadWindow(b));
      if front.Err? then front else if last.Err? then last else Ok(front.value + last.value)
  {
    SliceOfConcatRight(p, b);
  }

  /** The blocks of a prefix are the first blocks of the whole. */
  lemma BlockOfPrefix(d: seq<byte>, m: int, k: int)
    requires 0 <= m <= |d| && 0 <= k < m / 14
    ensures Block(d[..m], k) == Block(d, k)
  {
    SliceOfPrefix(d, m, k * 14, (k + 1) * 14);
  }

  /** When decoding succeeds, block k decodes to bytes 8 k .. 8 k + 7 of the output. */
  lemma {:induction false} DecodeChunkAt(d: seq<byte>, k: int)
    requires |d| % 14 == 0 && 0 <= k < |d| / 14 && DecodeChunks(d).Ok?
    ensures DecodeWindow(ReadWindow(Block(d, k))).Ok?
    ensures DecodeChunks(d).value[k * 8..(k + 1) * 8] == DecodeWindow(ReadWindow(Block(d, k))).value
    decreases |d|
  {
    var n := |d| / 14;
    var init, last := d[..|d| - 14], d[|d| - 14..];
    assert init + last == d;
    DecodeChunksSnoc(init, last);
    var front := DecodeChunks(init).value;
    var tail := DecodeWindow(ReadWindow(last)).value;
    if k == n - 1 {
      assert last == Block(d, k);
      LastSlice(front, tail, k, 8);
    } else {
      DecodeChunkAt(init, k);
      BlockOfPrefix(d, |d| - 14, k);
      SliceOfConcatLeft(front, tail, k * 8, (k + 1) * 8);
    }
  }

  /** A failed decoding has a block whose window fails. */
  lemma {:induction false} FailingBlock(d: seq<byte>) returns (k: int)
    requires |d| % 14 == 0 && DecodeChunks(d).Err?
    ensures 0 <= k < |d| / 14 && DecodeWindow(ReadWindow(Block(d, k))).Err?
    decreases |d|
  {
    assert |d| != 0;
    NextMultiple(0, |d|, 14);
    var n := |d| / 14;
    var init, last := d[..|d| - 14], d[|d| - 14..];
    DivModUnique(|init|, 14, n - 1, 0);
    SplitAt(d, |d| - 14);
    DecodeChunksSnoc(init, last);
    if DecodeChunks(init).Err? {
      k := FailingBlock(init);
      BlockOfPrefix(d, |d| - 14, k);
    } else {
      k := n - 1;
      assert k * 14 == |d| - 14 && (k + 1) * 14 == |d|;
      SliceToEnd(d, |d| - 14);
      assert last == Block(d, k);
    }
  }

  /** Decoding fails exactly when some block fails, so one bad block discards every other. */
  lemma DecodeChunksFails(d: seq<byte>)
    requires |d| % 14 == 0
    ensures DecodeChunks(d).Err? <==> exists k :: 0 <= k < |d| / 14 && DecodeWindow(ReadWindow(Block(d, k))).Err?
  {
    if DecodeChunks(d).Err? {
      var k := FailingBlock(d);
    } else {
      forall k | 0 <= k < |d| / 14
        ensures DecodeWindow(ReadWindow(Block(d, k))).Ok?
      {
        DecodeChunkAt(d, k);
      }
    }
  }

  /** Decoding the encoded chunks gives back the input. */
  lemma {:induction false} DecodeEncodeChunks(d: seq<byte>)
    requires |d| % 8 == 0
    ensures DecodeChunks(EncodeChunks(d)) == Ok(d)
    decreases |d|
  {
    if |d| > 0 {
      NextMultiple(0, |d|, 8);
      var n := |d| / 8;
      var init, last := d[..|d| - 8], d[|d| - 8..];
      assert |d| == n * 8 && |init| == (n - 1) * 8;
      MultipleOf(n - 1, 8);
      SplitAt(d, |d| - 8);
      var e, tail := EncodeChunks(init), EncodeBlock(last);
      EncodeChunksSnoc(init, last);
      DecodeEncodeChunks(init);
      DecodeChunksSnoc(e, tail);
      WindowRoundTrip(last);
      WholePrefix(last);
    }
  }

  /** Encoding then decoding gives back every input whose length is a multiple of eight. */
  lemma RoundTrip(d: seq<byte>)
    requires |d| % 8 == 0
    ensures Decoding(Encoding(d).value) == Ok(d)
  {
    DecodeEncodeChunks(d);
  }
}
