/**
 * The codec's test vectors, stated about the specification functions (the
 * codec's methods are proved to compute exactly these functions).
 */
module EfmExamples {
  import opened Bits
  import opened Radix
  import opened Seqs
  import opened EfmTable
  import opened EfmDecodeTable
  import opened EfmSpec

  /** The value of eight base-2^14 digits, written out. */
  lemma FromDigitsEight(cs: seq<int>)
    requires |cs| == 8
    ensures FromDigits(cs, 0x4000) ==
      ((((((cs[0] * 0x4000 + cs[1]) * 0x4000 + cs[2]) * 0x4000 + cs[3]) * 0x4000 + cs[4]) * 0x4000
        + cs[5]) * 0x4000 + cs[6]) * 0x4000 + cs[7]
  {
    var b := 0x4000;
    assert cs[..1][..0] == [];
    var v0 := cs[0];
    assert FromDigits(cs[..1], b) == v0;
    assert cs[..2][..1] == cs[..1];
    var v1 := v0 * b + cs[1];
    assert FromDigits(cs[..2], b) == v1;
    assert cs[..3][..2] == cs[..2];
    var v2 := v1 * b + cs[2];
    assert FromDigits(cs[..3], b) == v2;
    assert cs[..4][..3] == cs[..3];
    var v3 := v2 * b + cs[3];
    assert FromDigits(cs[..4], b) == v3;
    assert cs[..5][..4] == cs[..4];
    var v4 := v3 * b + cs[4];
    assert FromDigits(cs[..5], b) == v4;
    assert cs[..6][..5] == cs[..5];
    var v5 := v4 * b + cs[5];
    assert FromDigits(cs[..6], b) == v5;
    assert cs[..7][..6] == cs[..6];
    var v6 := v5 * b + cs[6];
    assert FromDigits(cs[..7], b) == v6;
    assert cs[..8][..7] == cs[..7];
    var v7 := v6 * b + cs[7];
    assert FromDigits(cs[..8], b) == v7;
    assert cs[..8] == cs;
  }

  /** The bytes 01 23 45 67 89 AB CD EF pack into H = 145137984342281, L = 2486275223393945860. */
  lemma EncodeWindowCounting()
    ensures var r := EncodeWindow([0x01, 0x23, 0x45, 0x67, 0x89, 0xAB, 0xCD, 0xEF]);
      r.Ok? && High64(r.value) == 145137984342281 && Low64(r.value) == 2486275223393945860
  {
    var d: seq<byte> := [0x01, 0x23, 0x45, 0x67, 0x89, 0xAB, 0xCD, 0xEF];
    var cs := Codewords(d);
    assert cs == [0x2100, 0x0920, 0x0024, 0x0922, 0x2041, 0x2249, 0x0101, 0x0904];
    FromDigitsEight(cs);
  }

  /** Eight 0xFF bytes pack into H = 35495776224392, L = 1306123611396147218. */
  lemma EncodeWindowAllOnes()
    ensures var r := EncodeWindow([0xFF, 0xFF, 0xFF, 0xFF, 0xFF, 0xFF, 0xFF, 0xFF]);
      r.Ok? && High64(r.value) == 35495776224392 && Low64(r.value) == 1306123611396147218
  {
    var d: seq<byte> := [0xFF, 0xFF, 0xFF, 0xFF, 0xFF, 0xFF, 0xFF, 0xFF];
    var cs := Codewords(d);
    assert cs == [0x0812, 0x0812, 0x0812, 0x0812, 0x0812, 0x0812, 0x0812, 0x0812];
    FromDigitsEight(cs);
  }

  /** Eight zero bytes pack into H = 79719458703378, L = 2326251190641758752. */
  lemma EncodeWindowAllZeros()
    ensures var r := EncodeWindow([0, 0, 0, 0, 0, 0, 0, 0]);
      r.Ok? && High64(r.value) == 79719458703378 && Low64(r.value) == 2326251190641758752
  {
    var d: seq<byte> := [0, 0, 0, 0, 0, 0, 0, 0];
    var cs := Codewords(d);
    assert cs == [0x1220, 0x1220, 0x1220, 0x1220, 0x1220, 0x1220, 0x1220, 0x1220];
    FromDigitsEight(cs);
  }

  /** Three bytes are too few to pack. */
  lemma EncodeWindowShort()
    ensures EncodeWindow([0x01, 0x23, 0x45]) == Err(ShortInput)
  {
  }

  /** The window H = 145137984342281, L = 2486275223393945860 unpacks to 01 23 45 67 89 AB CD EF. */
  lemma DecodeWindowCounting()
    ensures DecodeWindow(FromWords(145137984342281, 2486275223393945860))
         == Ok([0x01, 0x23, 0x45, 0x67, 0x89, 0xAB, 0xCD, 0xEF])
  {
    var d: seq<byte> := [0x01, 0x23, 0x45, 0x67, 0x89, 0xAB, 0xCD, 0xEF];
    EncodeWindowCounting();
    DecodeEncodeWindow(d);
    assert d[..8] == d;
  }

  /** The window H = 0, L = 2^64 - 1 fails: its first field is zero. */
  lemma DecodeWindowLowOnes()
    ensures DecodeWindow(FromWords(0, 0xFFFF_FFFF_FFFF_FFFF)).Err?
  {
    var w := FromWords(0, 0xFFFF_FFFF_FFFF_FFFF);
    DigitAt(w, 0x4000, 8, 0);
    DecodeWindowFails(w);
  }

  /** The zero window fails: every field is zero, and zero is the invalid index. */
  lemma DecodeWindowZero()
    ensures DecodeWindow(0).Err?
  {
    DigitAt(0, 0x4000, 8, 0);
    DecodeWindowFails(0);
  }

  /** A single chunk encodes to its block. */
  lemma EncodingOneChunk(d: seq<byte>)
    requires |d| == 8
    ensures Encoding(d) == Ok(EncodeBlock(d))
  {
    var e: seq<byte> := [];
    EncodeChunksSnoc(e, d);
    assert e + d == d && EncodeChunks(e) == [];
    assert [] + EncodeBlock(d) == EncodeBlock(d);
  }

  /** A single block decodes as its window. */
  lemma DecodingOneBlock(b: seq<byte>)
    requires |b| == 14
    ensures Decoding(b) == DecodeWindow(ReadWindow(b))
  {
    var e: seq<byte> := [];
    DecodeChunksSnoc(e, b);
    assert e + b == b && DecodeChunks(e) == Ok([]);
    var r := DecodeWindow(ReadWindow(b));
    assert r.Ok? ==> [] + r.value == r.value;
  }

  /** Fourteen bytes that are x written big-endian read as the window x. */
  lemma ReadLiteral(b: seq<byte>, x: int)
    requires |b| == 14 && 0 <= x < TwoTo112 && ToDigits(x, 0x100, 14) == b
    ensures ReadWindow(b) == x
  {
    RadixPowers();
    PowAdd(0x100, 8, 6);
    FromToDigits(x, 0x100, 14);
    ReadWindowValue(b);
  }

  /** The ASCII digits 1 .. 8 pack into H = 143083757388816, L = 9800431234904625672, the window 0x8222_4888_4410_8802_2048_8222_1208. */
  lemma EncodeWindowAscii()
    ensures var r := EncodeWindow([0x31, 0x32, 0x33, 0x34, 0x35, 0x36, 0x37, 0x38]);
      r.Ok? && High64(r.value) == 143083757388816 && Low64(r.value) == 9800431234904625672
      && r.value == 0x8222_4888_4410_8802_2048_8222_1208
  {
    var d: seq<byte> := [0x31, 0x32, 0x33, 0x34, 0x35, 0x36, 0x37, 0x38];
    var cs := Codewords(d);
    assert cs == [0x2088, 0x2488, 0x2110, 0x1088, 0x0088, 0x0488, 0x0888, 0x1208];
    FromDigitsEight(cs);
  }

  /** The window 0x8222_4888_4410_8802_2048_8222_1208, written big-endian. */
  lemma AsciiWindowBytes()
    ensures ToDigits(0x8222_4888_4410_8802_2048_8222_1208, 0x100, 14)
         == [130, 34, 72, 136, 68, 16, 136, 2, 32, 72, 130, 34, 18, 8]
  {
  }

  /** The ASCII digits 1 .. 8 encode to the 14 bytes 130 34 72 136 68 16 136 2 32 72 130 34 18 8. */
  lemma EncodingDigits()
    ensures Encoding([0x31, 0x32, 0x33, 0x34, 0x35, 0x36, 0x37, 0x38])
         == Ok([130, 34, 72, 136, 68, 16, 136, 2, 32, 72, 130, 34, 18, 8])
  {
    var d: seq<byte> := [0x31, 0x32, 0x33, 0x34, 0x35, 0x36, 0x37, 0x38];
    EncodingOneChunk(d);
    EncodeWindowAscii();
    WindowBytesValue(0x8222_4888_4410_8802_2048_8222_1208);
    AsciiWindowBytes();
  }

  /** The 14 bytes 130 34 72 136 68 16 136 2 32 72 130 34 18 8 decode to the ASCII digits 1 .. 8. */
  lemma DecodingDigits()
    ensures Decoding([130, 34, 72, 136, 68, 16, 136, 2, 32, 72, 130, 34, 18, 8])
         == Ok([0x31, 0x32, 0x33, 0x34, 0x35, 0x36, 0x37, 0x38])
  {
    EncodingDigits();
    RoundTrip([0x31, 0x32, 0x33, 0x34, 0x35, 0x36, 0x37, 0x38]);
  }

  /** Every field of the window 2^112 - 1 is 0x3FFF, which is not a codeword; the reverse table holds zero there. */
  lemma DecodeWindowAllOnes()
    ensures DecodeWindow(0xFFFF_FFFF_FFFF_FFFF_FFFF_FFFF_FFFF) == Ok([0, 0, 0, 0, 0, 0, 0, 0])
  {
    var x := 0xFFFF_FFFF_FFFF_FFFF_FFFF_FFFF_FFFF;
    var fs := ToDigits(x, 0x4000, 8);
    assert fs == [0x3FFF, 0x3FFF, 0x3FFF, 0x3FFF, 0x3FFF, 0x3FFF, 0x3FFF, 0x3FFF];
    TableInRange();
    DecodeTableNonCodeword(0x3FFF);
    var v := seq(8, i requires 0 <= i < 8 => DecodeTable(fs[i]) % 0x100);
    assert forall i :: 0 <= i < 8 ==> fs[i] == 0x3FFF;
    ExtensionalEquality(v, [0, 0, 0, 0, 0, 0, 0, 0]);
  }

  /** Fourteen 0xFF bytes decode, without error, to eight zero bytes. */
  lemma DecodingAllOnes()
    ensures Decoding([0xFF, 0xFF, 0xFF, 0xFF, 0xFF, 0xFF, 0xFF, 0xFF, 0xFF, 0xFF, 0xFF, 0xFF, 0xFF, 0xFF])
         == Ok([0, 0, 0, 0, 0, 0, 0, 0])
  {
    var b: seq<byte> := [0xFF, 0xFF, 0xFF, 0xFF, 0xFF, 0xFF, 0xFF, 0xFF, 0xFF, 0xFF, 0xFF, 0xFF, 0xFF, 0xFF];
    var x := 0xFFFF_FFFF_FFFF_FFFF_FFFF_FFFF_FFFF;
    assert ToDigits(x, 0x100, 14) == b;
    ReadLiteral(b, x);
    DecodingOneBlock(b);
    DecodeWindowAllOnes();
  }

  /** A block that fails fails any input it is repeated in twice. */
  lemma RepeatedBlockFails(b: seq<byte>)
    requires |b| == 14 && DecodeWindow(ReadWindow(b)).Err?
    ensures Decoding(b + b) == Err(InvalidValue)
  {
    var d := b + b;
    assert Block(d, 0) == b;
    DecodeChunksFails(d);
  }

  /** A block starting with 00 and a byte below 4 has a zero first field, so it fails to unpack. */
  lemma LeadingZeroFieldFails(b: seq<byte>)
    requires |b| == 14 && b[0] == 0 && b[1] < 4
    ensures DecodeWindow(ReadWindow(b)).Err?
  {
    var x, rest := FromDigits(b, 0x100), FromDigits(b[2..], 0x100);
    var p := 0x1_0000_0000_0000_0000_0000_0000;
    assert Pow(0x100, 12) == p by { RadixPowers(); PowAdd(0x100, 6, 6); }
    assert x == b[1] * p + rest by {
      var hi: seq<int> := [b[0]] + [b[1]];
      assert hi + b[2..] == b;
      FromDigitsAppend(hi, b[2..], 0x100);
      FromDigitsSnoc([], b[0], 0x100);
      FromDigitsSnoc([b[0]], b[1], 0x100);
      assert [] + [b[0]] == [b[0]];
    }
    FromDigitsBound(b[2..], 0x100);
    assert Pow(0x4000, 7) == 4 * p by { RadixPowers(); PowAdd(0x4000, 7, 1); }
    DivModUnique(x, 4 * p, 0, x);
    DigitAt(x, 0x4000, 8, 0);
    ReadWindowValue(b);
    assert ToDigits(ReadWindow(b), 0x4000, 8)[0] == 0;
    DecodeWindowFails(ReadWindow(b));
  }

  /** Two copies of the block 00 01 .. 0D fail to decode with the invalid-value error. */
  lemma DecodingRepeatedBlock()
    ensures var b: seq<byte> := [0x00, 0x01, 0x02, 0x03, 0x04, 0x05, 0x06, 0x07, 0x08, 0x09, 0x0A, 0x0B, 0x0C, 0x0D];
      Decoding(b + b) == Err(InvalidValue)
  {
    LeadingZeroFieldFails([0x00, 0x01, 0x02, 0x03, 0x04, 0x05, 0x06, 0x07, 0x08, 0x09, 0x0A, 0x0B, 0x0C, 0x0D]);
    RepeatedBlockFails([0x00, 0x01, 0x02, 0x03, 0x04, 0x05, 0x06, 0x07, 0x08, 0x09, 0x0A, 0x0B, 0x0C, 0x0D]);
  }

  /** The empty input encodes and decodes to the empty output. */
  lemma EmptyInput()
    ensures Encoding([]) == Ok([]) && Decoding([]) == Ok([])
  {
  }

  /** Five bytes are not whole chunks, and three bytes are not whole blocks. */
  lemma LengthErrors()
    ensures Encoding([0x31, 0x32, 0x33, 0x34, 0x35]) == Err(InvalidLength)
    ensures Decoding([0x01, 0x23, 0x45]) == Err(InvalidLength)
  {
  }
}
