# EFM codec (efm-go), modelled in Dafny

This project models efm-go, a small block codec for Eight-to-Fourteen
Modulation (EFM). The codec maps each data byte to a 14-bit channel
codeword using a fixed 256-entry table. It packs the codewords of eight
bytes back to back into a 112-bit window and writes each window as 14
big-endian bytes. Decoding reverses this through a 16384-entry reverse table.

The model has two layers:

- **Specification functions** (`EfmSpec`, over `EfmTable` and
  `EfmDecodeTable`). They describe what the codec computes:
  - the packed window of eight bytes (`EncodeWindow`);
  - its 14-byte layout (`WindowBytes`);
  - the window rebuilt from 14 bytes (`ReadWindow`);
  - its unpacking through the reverse table (`DecodeWindow`);
  - the whole-buffer results (`Encoding`, `Decoding`).

  The properties the codec promises are proved about these functions:
  exact lengths, error cases, field placement, lossless byte layout,
  all-or-nothing decoding, and the round trips.
- **The codec object** (`Efm.EFM`). It is a class holding the two lookup
  arrays. Its constructor fills them in the loop of `New`. Its four methods
  have the loops of `encodeQuattuordecuple`, `Encode`,
  `decodeQuattuordecuple` and `Decode`. Each method is proved to return
  exactly the corresponding specification function, under the invariant
  `Valid()` that `New` establishes. So every property of the functions
  holds of the methods.

Supporting modules:

- `Bits`: the fixed-width integers, and the 128-bit shift, or, and, and
  word operations, all on unbounded integers.
- `Radix`: fixed-length big-endian digit sequences, in base 256 for bytes
  and base 2^14 for codeword fields.
- `Seqs`: small slicing facts.

The codec's test vectors are lemmas in `EfmExamples`.

The reverse table is modelled as the code builds it, not as a sparse
table of symbols and invalid markers:

- `[decodeBufferSize]uint16{invalidCode}` (efm.go:24) sets only entry 0 to
  0xFFFF; Go zero-fills the rest.
- So after the table loop, index 0 is the only invalid index.
- Every other 14-bit value that is not a codeword decodes silently to
  symbol 0.
- Consequently, a window fails exactly when one of its fields is zero
  (`DecodeWindowFails`). Fourteen 0xFF bytes decode without error to eight
  zero bytes (`DecodingAllOnes`).

The doc comment of `decodeQuattuordecuple` (efm.go:344-345) promises an
error when any segment of the window is invalid. Because of the zero fill,
only a zero segment is invalid in practice. The model follows the code.

## Model

| member | source | states |
|---|---|---|
| EfmTable.TableInRange | efm.go:26-283 | every literal codeword is nonzero, below 0x4000 (fits the reverse array) and different from the mask 0x3FFF |
| EfmTable.TableInjective | efm.go:26-283 | the 256 literal codewords are pairwise distinct |
| EfmTable.EfmRawTable | efm.go:26-283 | entry s is the literal codeword of symbol s; its range and distinctness are stated by TableInRange and TableInjective |
| EfmDecodeTable.InitialEntry | efm.go:24 | a freshly declared table holds the invalid code at index 0 and nowhere else |
| EfmDecodeTable.ReverseAfter | efm.go:285-287 | the reverse entry at c after the first n loop iterations, which is always either the initial entry or a symbol below n |
| EfmDecodeTable.DecodeTable | efm.go:285-288 | the reverse array the finished loop leaves; its entries are stated by the three DecodeTable lemmas below |
| EfmDecodeTable.ReverseAfterCodeword | efm.go:285-287 | once the first n literals are written, the entry at the codeword of any symbol below n is that symbol |
| EfmDecodeTable.ReverseAfterMissing | efm.go:285-287 | an index that none of the first n literals hits still holds its initial entry |
| EfmDecodeTable.DecodeTableOfCodeword | efm.go:285-287 | the finished reverse table maps the codeword of every symbol s back to s |
| EfmDecodeTable.DecodeTableNonCodeword | efm.go:24 | every index that is not a codeword keeps its initial entry: invalid at 0, symbol 0 elsewhere |
| EfmDecodeTable.DecodeTableInvalid | efm.go:351-353 | the reverse table holds the invalid code at exactly one index, 0 |
| EfmSpec.BigEndianBytes | efm.go:334-338 | the big-endian write of a 64-bit word is exactly eight bytes |
| EfmSpec.BigEndianRoundTrip | efm.go:334-338 | the big-endian write and read of a 64-bit word are mutually inverse |
| EfmSpec.Codewords | efm.go:306 | codeword i of a chunk is the table entry of byte i, and each is below 2^14 |
| EfmSpec.EncodeWindow | efm.go:297-313 | packing fails with the short-input error exactly when fewer than eight bytes are given; a packed window is below 2^112 |
| EfmSpec.EncodeWindowDigits | efm.go:303-311 | the window's eight 14-bit fields, most significant first, are the eight codewords, so codeword i sits at bit offset 98 - 14 i |
| EfmSpec.EncodeWindowPrefix | efm.go:303-306 | only the first eight bytes take part in packing |
| EfmSpec.WindowBytes | efm.go:333-339 | a window is written as exactly 14 bytes: the six low bytes of H, then the eight bytes of L |
| EfmSpec.WindowBytesValue | efm.go:333-339 | the six low bytes of H followed by the eight bytes of L are exactly the window written big-endian in 14 bytes, so dropping the top two bytes of H loses nothing |
| EfmSpec.ReadWindow | efm.go:372 | the window Decode assembles from 14 bytes, with H the first eight bytes shifted right by 16 bits and L the last eight; ReadWindowValue states its value |
| EfmSpec.ReadWindowValue | efm.go:372 | H from bytes 0..7 shifted right 16 bits, with L from bytes 6..13, is exactly the 14 bytes read big-endian |
| EfmSpec.Field | efm.go:350-351 | the reverse-table index of field i: the window shifted right by 98 - 14 i, its low word, masked with 0x3FFF; FieldIsDigit states its value |
| EfmSpec.FieldIsDigit | efm.go:350-351 | shifting right by 98 - 14 i, taking the low word and masking with 0x3FFF extracts field i of the window |
| EfmSpec.DecodeWindow | efm.go:346-361 | unpacking yields eight bytes or the invalid-value error |
| EfmSpec.DecodeWindowFails | efm.go:349-355 | unpacking fails if and only if some field of the window is zero |
| EfmSpec.DecodeEncodeWindow | efm.go:346-361 | unpacking a packed window gives back the first eight bytes |
| EfmSpec.WindowRoundTrip | efm.go:330-377 | packed, written as 14 bytes, read back and unpacked, a chunk gives back its eight bytes |
| EfmSpec.EncodeBlock | efm.go:331-339 | each eight-byte chunk encodes to exactly 14 bytes |
| EfmSpec.EncodeChunks | efm.go:330-341 | the chunks of an input of 8 n bytes encode to exactly 14 n bytes |
| EfmSpec.Encoding | efm.go:317-342 | encoding fails with the length error exactly when the length is not a multiple of 8, and otherwise outputs length / 8 * 14 bytes |
| EfmSpec.EncodeChunksSnoc | efm.go:330-340 | appending a chunk to the input appends its 14 bytes to the output |
| EfmSpec.EncodeChunkAt | efm.go:330-340 | output bytes 14 k .. 14 k + 13 are the block of input chunk k |
| EfmSpec.ChunkBigEndian | efm.go:330-340 | output bytes 14 k .. 14 k + 13 are the window of input chunk k written big-endian |
| EfmSpec.DecodeChunks | efm.go:371-379 | decoding whole blocks yields 8 bytes per block or the invalid-value error |
| EfmSpec.Decoding | efm.go:364-382 | a length that is not a multiple of 14 is the length error; a success outputs length / 14 * 8 bytes |
| EfmSpec.DecodeChunksSnoc | efm.go:371-379 | appending a block decodes it after the earlier blocks, and a failure of either fails the result |
| EfmSpec.FailingBlock | efm.go:373-376 | a failed decoding has a block, within range, whose window fails |
| EfmSpec.DecodeChunksFails | efm.go:373-376 | decoding fails if and only if some block's window fails, so one bad field anywhere discards all output |
| EfmSpec.DecodeChunkAt | efm.go:371-379 | when decoding succeeds, output bytes 8 k .. 8 k + 7 are the unpacking of block k |
| EfmSpec.DecodeEncodeChunks | efm.go:330-379 | decoding the encoded chunks gives back the input |
| EfmSpec.RoundTrip | efm.go:317-382 | Decode(Encode(d)) == d for every d whose length is a multiple of 8 |
| Efm.EFM.Valid | efm.go:17-20 | the invariant New establishes: both arrays have their declared lengths, the forward array is the literal table and the reverse array is the table the loop builds |
| Efm.EFM.constructor | efm.go:22-293 | New fills the forward array with the literal table and the reverse array with its inverse over the zero-filled start |
| Efm.EFM.EncodeQuattuordecuple | efm.go:297-313 | the or-and-shift loop computes the packed window, or the short-input error |
| Efm.EFM.Encode | efm.go:317-342 | the chunk loop computes the encoding, or the length error |
| Efm.EFM.DecodeQuattuordecuple | efm.go:346-361 | the field loop with its early return computes the unpacked window, or the invalid-value error |
| Efm.EFM.Decode | efm.go:364-382 | the block loop with its early return computes the decoding, or its error |
| Efm.TablesInverse | efm.go:285-288 | after New, every forward entry indexes the reverse array, and the reverse array maps it back to its symbol |
| Efm.ReverseEntries | efm.go:23-24 | after New, the reverse array holds 0xFFFF at index 0 and nowhere else, and 0 at every other index that no codeword hits |
| EfmExamples.EncodeWindowCounting | efm_test.go:115-119 | 01 23 45 67 89 AB CD EF packs into H = 145137984342281, L = 2486275223393945860 |
| EfmExamples.EncodeWindowShort | efm_test.go:120-124 | three bytes are the short-input error |
| EfmExamples.EncodeWindowAllOnes | efm_test.go:125-129 | eight 0xFF bytes pack into H = 35495776224392, L = 1306123611396147218 |
| EfmExamples.EncodeWindowAllZeros | efm_test.go:130-134 | eight zero bytes pack into H = 79719458703378, L = 2326251190641758752 |
| EfmExamples.DecodeWindowCounting | efm_test.go:15-20 | H = 145137984342281, L = 2486275223393945860 unpacks to 01 23 45 67 89 AB CD EF |
| EfmExamples.DecodeWindowLowOnes | efm_test.go:21-26 | H = 0, L = 2^64 - 1 fails to unpack |
| EfmExamples.DecodeWindowZero | efm_test.go:27-32 | the zero window fails to unpack |
| EfmExamples.EncodingDigits | efm_test.go:59-60 | "12345678" encodes to 130 34 72 136 68 16 136 2 32 72 130 34 18 8, the bytes the decoding test pairs with it (the encoding test at efm_test.go:196-200 only expects no error) |
| EfmExamples.DecodingDigits | efm_test.go:56-62 | 130 34 72 136 68 16 136 2 32 72 130 34 18 8 decodes to "12345678" |
| EfmExamples.DecodingAllOnes | efm.go:349-357 | fourteen 0xFF bytes decode without error to eight zero bytes |
| EfmExamples.LeadingZeroFieldFails | efm.go:349-355 | any block that starts with 00 and then a byte below 4 has a zero first field, so it fails to unpack |
| EfmExamples.DecodingRepeatedBlock | efm_test.go:74-79 | two copies of 00 01 .. 0D fail to decode with the invalid-value error |
| EfmExamples.EmptyInput | efm_test.go:68-73 | the empty input encodes and decodes to the empty output |
| EfmExamples.LengthErrors | efm_test.go:63-67 | "12345" is a length error for encoding and three bytes are a length error for decoding |

## Left out

- The uint128 library and the `encoding/binary` routines are not modelled
  as code. A 128-bit value is an integer below 2^128: `ShiftLeft`
  multiplies by a power of two modulo 2^128, `ShiftRight` divides, `Or` and
  `And` are bitwise on naturals, and `.H`/`.L` are the quotient and
  remainder by 2^64. The big-endian 64-bit read and write are base-256
  digit functions.
- Error message texts are not modelled. The three failures are the variants
  `ShortInput`, `InvalidLength` and `InvalidValue`.
- Efm.EFM.EncodeQuattuordecuple: on the short-input error the Go function
  also returns a zero `Uint128`. That value is not part of the model's
  error result.
- Slice capacity preallocation and reuse of the scratch buffer
  (efm.go:325, 328, 365) are not modelled. `Encode` and `Decode` append to
  a sequence. The big-endian write of H is a fresh eight-byte sequence whose
  last six bytes are appended.
- Efm.EFM.Decode and Efm.EFM.DecodeQuattuordecuple: on an error, the Go
  functions return a nil slice. The model returns only the error.
- `TestNew`'s checks that `New` returns distinct non-nil pointers
  (efm_test.go:148-188) concern Go allocation, not codec behaviour. The
  constructor does ensure that both arrays are freshly allocated.
- The run-length-limited property of the codewords, merging bits and sync
  patterns are not modelled. The code neither checks nor produces them.
- Rejecting every non-table codeword is not modelled, because the code does
  not do it (see above).
