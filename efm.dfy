/**
 * The codec object: the two lookup tables it builds once, and the four
 * operations that use them. Each operation is proved to compute the
 * corresponding function of the specification module.
 */
module Efm {
  import opened Bits
  import opened Radix
  import opened Seqs
  import opened EfmTable
  import opened EfmDecodeTable
  import opened EfmSpec

  class EFM {
    /** Codeword index -> data symbol; InvalidCode marks an index the decoder rejects. */
    const decodeMapping: array<uint16>
    /** Data symbol -> 14-bit codeword. */
    const encodeMapping: array<uint16>

    /** The tables hold the raw codeword table and its reverse. */
    ghost predicate Valid()
      reads encodeMapping, decodeMapping
    {
      encodeMapping.Length == EncodeBufferSize &&
      decodeMapping.Length == DecodeBufferSize &&
      (forall s :: 0 <= s < EncodeBufferSize ==> encodeMapping[s] == EfmRawTable(s)) &&
      (forall c {:trigger DecodeTable(c)} :: 0 <= c < DecodeBufferSize ==> decodeMapping[c] == DecodeTable(c))
    }

    /**
     * Builds the tables. Both start with the invalid code in entry 0 and
     * zero elsewhere; then, symbol by symbol, the encode entry takes the
     * codeword and the decode entry at that codeword takes the symbol.
     */
    constructor ()
      ensures Valid()
      ensures fresh(encodeMapping) && fresh(decodeMapping)
    {
      var enc := new uint16[EncodeBufferSize](InitialEntry);
      var dec := new uint16[DecodeBufferSize](InitialEntry);
      TableInRange();
      var i := 0;
      while i < EncodeBufferSize
        invariant 0 <= i <= EncodeBufferSize
        invariant forall s :: 0 <= s < i ==> enc[s] == EfmRawTable(s)
        invariant forall c :: 0 <= c < DecodeBufferSize ==> dec[c] == ReverseAfter(i, c)
      {
        dec[EfmRawTable(i)] := i;
        enc[i] := EfmRawTable(i);
        i := i + 1;
      }
      encodeMapping := enc;
      decodeMapping := dec;
    }

    /**
     * Packs the codewords of the first eight bytes of data into a window,
     * codeword i shifted left by 98 - 14 i bits and or-ed in; fewer than
     * eight bytes is an error.
     */
    method EncodeQuattuordecuple(data: seq<byte>) returns (r: Result<uint128>)
      requires Valid()
      ensures r == EncodeWindow(data)
    {
      if |data| < Window {
        return Err(ShortInput);
      }
      ghost var cs := Codewords(data);
      var result: nat := 0;
      for i := 0 to Window
        invariant result == FromDigits(cs[..i], 0x4000) * Pow(2, 112 - i * 14)
      {
        var shiftAmount := StartPt - i * QuattuordecupleSize;
        var valAs128: uint128 := encodeMapping[data[i]];
        var shiftedVal := ShiftLeft(valAs128, shiftAmount);
        assert valAs128 == cs[i];
        PackStep(cs, i);
        result := Or(result, shiftedVal);
      }
      assert result == FromDigits(cs[..8], 0x4000) * Pow(2, 0);
      WholePrefix(cs);
      assert result == FromDigits(cs, 0x4000) == EncodeWindow(data).value;
      return Ok(result);
    }

    /**
     * Encodes data chunk by chunk: each eight-byte chunk is packed and its
     * window written as the low six bytes of H followed by the eight bytes
     * of L. A length that is not a multiple of eight is an error.
     */
    method Encode(data: seq<byte>) returns (r: Result<seq<byte>>)
      requires Valid()
      ensures r == Encoding(data)
    {
      if |data| % Window != 0 {
        return Err(InvalidLength);
      }
      var result: seq<byte> := [];
      var i := 0;
      while i < |data|
        invariant 0 <= i <= |data| && i % 8 == 0
        invariant result == EncodeChunks(data[..i])
      {
        NextMultiple(i, |data|, 8);
        var encoded := EncodeQuattuordecuple(data[i..i + Window]);
        var w := encoded.value;
        var high := BigEndianBytes(High64(w));
        result := result + high[2..];
        var low := BigEndianBytes(Low64(w));
        result := result + low;
        EncodeStep(data, i);
        i := i + Window;
      }
      WholePrefix(data);
      return Ok(result);
    }

    /**
     * Unpacks a window: field i is shifted down, masked to 14 bits and looked
     * up in the reverse table; the first field that maps to the invalid code
     * fails the window.
     */
    method DecodeQuattuordecuple(encodedValue: uint128) returns (r: Result<seq<byte>>)
      requires Valid()
      ensures r == DecodeWindow(encodedValue)
    {
      ghost var fs := ToDigits(encodedValue, 0x4000, 8);
      ToDigitsAreDigits(encodedValue, 0x4000, 8);
      var result := new byte[Window];
      for i := 0 to Window
        invariant forall j :: 0 <= j < i ==> decodeMapping[fs[j]] != InvalidCode && result[j] == decodeMapping[fs[j]] % 0x100
      {
        var shiftAmount := StartPt - i * QuattuordecupleSize;
        var field := And(Low64(ShiftRight(encodedValue, shiftAmount)), BufferMask);
        FieldInRange(encodedValue, i);
        assert field == Field(encodedValue, i) == fs[i];
        var decoded := decodeMapping[field];
        if decoded == InvalidCode {
          assert DecodeTable(fs[i]) == InvalidCode;
          return Err(InvalidValue);
        }
        result[i] := decoded % 0x100;
      }
      ghost var v := seq(8, i requires 0 <= i < 8 => DecodeTable(fs[i]) % 0x100);
      ExtensionalEquality(result[..], v);
      return Ok(result[..]);
    }

    /**
     * Decodes data block by block: each 14-byte block is read as a window
     * (H from bytes 0 .. 7 shifted right by 16 bits, L from bytes 6 .. 13)
     * and unpacked; the first failing block fails the whole input, and a
     * length that is not a multiple of 14 is an error.
     */
    method Decode(data: seq<byte>) returns (r: Result<seq<byte>>)
      requires Valid()
      ensures r == Decoding(data)
    {
      var result: seq<byte> := [];
      if |data| % QuattuordecupleSize != 0 {
        return Err(InvalidLength);
      }
      var i := 0;
      while i < |data|
        invariant 0 <= i <= |data| && i % 14 == 0
        invariant DecodeChunks(data[..i]) == Ok(result)
      {
        NextMultiple(i, |data|, 14);
        var h := ShiftRight(BigEndianValue(data[i..i + Window]), 16);
        var l := BigEndianValue(data[i + 6..i + 14]);
        ReadStep(data, i);
        DecodeStep(data, i);
        var decoded := DecodeQuattuordecuple(FromWords(h, l));
        if decoded.Err? {
          DecodePrefixFails(data, i + 14);
          return decoded;
        }
        result := result + decoded.value;
        i := i + QuattuordecupleSize;
      }
      WholePrefix(data);
      return Ok(result);
    }
  }

  /** In a built codec the reverse array undoes the forward array. */
  lemma TablesInverse(e: EFM)
    requires e.Valid()
    ensures forall s :: 0 <= s < EncodeBufferSize ==> 0 <= e.encodeMapping[s] < DecodeBufferSize
    ensures forall s :: 0 <= s < EncodeBufferSize ==> e.decodeMapping[e.encodeMapping[s]] == s
  {
    TableInRange();
    forall s | 0 <= s < EncodeBufferSize
      ensures 0 <= e.encodeMapping[s] < DecodeBufferSize && e.decodeMapping[e.encodeMapping[s]] == s
    {
      DecodeTableOfCodeword(s);
    }
  }

  /**
   * In a built codec the reverse array holds the invalid code at index 0
   * only, and symbol 0 at every index no codeword hits.
   */
  lemma ReverseEntries(e: EFM, c: int)
    requires e.Valid() && 0 <= c < DecodeBufferSize
    ensures e.decodeMapping[c] == InvalidCode <==> c == 0
    ensures !IsCodeword(c) && c != 0 ==> e.decodeMapping[c] == 0
  {
    DecodeTableInvalid(c);
    if !IsCodeword(c) {
      DecodeTableNonCodeword(c);
    }
  }

  /** One step of the packing loop: or-ing in codeword i below the i codewords already packed. */
  lemma PackStep(cs: seq<int>, i: int)
    requires |cs| == 8 && IsDigits(cs, 0x4000) && 0 <= i < 8
    ensures 0 <= FromDigits(cs[..i], 0x4000)
    ensures ShiftLeft(cs[i], 98 - i * 14) == cs[i] * Pow(2, 98 - i * 14)
    ensures Or(FromDigits(cs[..i], 0x4000) * Pow(2, 112 - i * 14), ShiftLeft(cs[i], 98 - i * 14))
         == FromDigits(cs[..i + 1], 0x4000) * Pow(2, 98 - i * 14)
  {
    var k := 98 - i * 14;
    assert IsDigits(cs[..i], 0x4000);
    FromDigitsBound(cs[..i], 0x4000);
    ShiftNoWrap(cs[i], k);
    OrStep(FromDigits(cs[..i], 0x4000), cs[i], k);
    assert cs[..i + 1] == cs[..i] + [cs[i]];
    FromDigitsSnoc(cs[..i], cs[i], 0x4000);
  }

  /** A codeword shifted left by at most 98 bits stays below 2^112, so nothing is lost. */
  lemma ShiftNoWrap(c: int, k: nat)
    requires 0 <= c < 0x4000 && k <= 98
    ensures ShiftLeft(c, k) == c * Pow(2, k)
  {
    var a := Pow(2, k);
    Pow2To14();
    PowAdd(2, k, 14);
    PowTwoAtMost112(k + 14);
    MulMonotone(a, c, 0x4000);
    DivModUnique(c * a, TwoTo128, 0, c * a);
  }

  /** Or-ing a codeword, shifted by k, into a value shifted by k + 14 is writing it as the next digit. */
  lemma OrStep(p: nat, c: int, k: nat)
    requires 0 <= c < 0x4000
    ensures Or(p * Pow(2, k + 14), c * Pow(2, k)) == (p * 0x4000 + c) * Pow(2, k)
  {
    Pow2To14();
    PowAdd(2, k, 14);
    assert p * Pow(2, k + 14) == (p * Pow(2, 14)) * Pow(2, k);
    OrScaled(p * Pow(2, 14), c, k);
    OrDisjoint(p, c, 14);
  }

  /** One step of the encoding loop: the chunk at i appends its block. */
  lemma EncodeStep(data: seq<byte>, i: int)
    requires |data| % 8 == 0 && 0 <= i && i % 8 == 0 && i + 8 <= |data|
    ensures EncodeChunks(data[..i + 8]) == EncodeChunks(data[..i]) + EncodeBlock(data[i..i + 8])
  {
    assert data[..i] + data[i..i + 8] == data[..i + 8];
    EncodeChunksSnoc(data[..i], data[i..i + 8]);
  }

  /** The two overlapping reads of the block at i assemble the window ReadWindow reads from it. */
  lemma ReadStep(data: seq<byte>, i: int)
    requires 0 <= i && i + 14 <= |data|
    ensures ReadWindow(data[i..i + 14]) == FromWords(ShiftRight(BigEndianValue(data[i..i + 8]), 16), BigEndianValue(data[i + 6..i + 14]))
  {
    assert data[i..i + 14][..8] == data[i..i + 8];
    assert data[i..i + 14][6..] == data[i + 6..i + 14];
  }

  /** One step of the decoding loop: the block at i is decoded after the blocks before it. */
  lemma DecodeStep(data: seq<byte>, i: int)
    requires 0 <= i && i % 14 == 0 && i + 14 <= |data|
    ensures DecodeChunks(data[..i + 14]) ==
      var front, last := DecodeChunks(data[..i]), DecodeWindow(ReadWindow(data[i..i + 14]));
      if front.Err? then front else if last.Err? then last else Ok(front.value + last.value)
  {
    assert data[..i] + data[i..i + 14] == data[..i + 14];
    DecodeChunksSnoc(data[..i], data[i..i + 14]);
  }

  /** A failing prefix of whole blocks fails the whole input. */
  lemma DecodePrefixFails(data: seq<byte>, m: int)
    requires |data| % 14 == 0 && 0 <= m <= |data| && m % 14 == 0
    requires DecodeChunks(data[..m]).Err?
    ensures DecodeChunks(data).Err?
  {
    DecodeChunksFails(data[..m]);
    var k :| 0 <= k < m / 14 && DecodeWindow(ReadWindow(Block(data[..m], k))).Err?;
    BlockOfPrefix(data, m, k);
    DecodeChunksFails(data);
  }
}
