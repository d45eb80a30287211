/**
 * The eight-to-fourteen conversion table the codec is built from, the
 * reverse table it derives from it, and the codec's constants.
 */
module EfmTable {
  import opened Bits

  const InvalidCode: uint16 := 0xFFFF
  const EncodeBufferSize: nat := 256
  const DecodeBufferSize: nat := 0x4000
  const QuattuordecupleSize: nat := 14
  const StartPt: nat := 112 - QuattuordecupleSize
  const BufferMask: nat := 0x3FFF
  const Window: nat := 8

  /** Entry k of the sixteen values a0 .. a15. */
  function Pick(k: int, a0: nat, a1: nat, a2: nat, a3: nat, a4: nat, a5: nat, a6: nat, a7: nat,
                a8: nat, a9: nat, a10: nat, a11: nat, a12: nat, a13: nat, a14: nat, a15: nat): nat
  {
    match k
    case 0 => a0 case 1 => a1 case 2 => a2 case 3 => a3
    case 4 => a4 case 5 => a5 case 6 => a6 case 7 => a7
    case 8 => a8 case 9 => a9 case 10 => a10 case 11 => a11
    case 12 => a12 case 13 => a13 case 14 => a14 case _ => a15
  }

  /**
   * Entry s of the literal codeword list, the 14-bit channel codeword of
   * data symbol s; the list is laid out sixteen symbols to a row.
   */
  function EfmRawTable(s: int): nat
    requires 0 <= s < 256
  {
    match s / 16
    case 0 => Pick(s % 16, 0x1220, 0x2100, 0x2420, 0x2220, 0x1100, 0x0110, 0x0420, 0x0900, 0x1240, 0x2040, 0x2440, 0x2240, 0x1040, 0x0040, 0x0440, 0x0840)
    case 1 => Pick(s % 16, 0x2020, 0x2080, 0x2480, 0x0820, 0x1080, 0x0080, 0x0480, 0x0880, 0x1210, 0x2010, 0x2410, 0x2210, 0x1010, 0x0210, 0x0410, 0x0810)
    case 2 => Pick(s % 16, 0x0020, 0x2108, 0x0220, 0x0920, 0x1108, 0x0108, 0x1020, 0x0908, 0x1248, 0x2048, 0x2448, 0x2248, 0x1048, 0x0048, 0x0448, 0x0848)
    case 3 => Pick(s % 16, 0x0100, 0x2088, 0x2488, 0x2110, 0x1088, 0x0088, 0x0488, 0x0888, 0x1208, 0x2008, 0x2408, 0x2208, 0x1008, 0x0208, 0x0408, 0x0808)
    case 4 => Pick(s % 16, 0x1224, 0x2124, 0x2424, 0x2224, 0x1124, 0x0024, 0x0424, 0x0924, 0x1244, 0x2044, 0x2444, 0x2244, 0x1044, 0x0044, 0x0444, 0x0844)
    case 5 => Pick(s % 16, 0x2024, 0x2084, 0x2484, 0x0824, 0x1084, 0x0084, 0x0484, 0x0884, 0x1204, 0x2004, 0x2404, 0x2204, 0x1004, 0x0204, 0x0404, 0x0804)
    case 6 => Pick(s % 16, 0x1222, 0x2122, 0x2422, 0x2222, 0x1122, 0x0022, 0x1024, 0x0922, 0x1242, 0x2042, 0x2442, 0x2242, 0x1042, 0x0042, 0x0442, 0x0842)
    case 7 => Pick(s % 16, 0x2022, 0x2082, 0x2482, 0x0822, 0x1082, 0x0082, 0x0482, 0x0882, 0x1202, 0x0248, 0x2402, 0x2202, 0x1002, 0x0202, 0x0402, 0x0802)
    case 8 => Pick(s % 16, 0x1221, 0x2121, 0x2421, 0x2221, 0x1121, 0x0021, 0x0421, 0x0921, 0x1241, 0x2041, 0x2441, 0x2241, 0x1041, 0x0041, 0x0441, 0x0841)
    case 9 => Pick(s % 16, 0x2021, 0x2081, 0x2481, 0x0821, 0x1081, 0x0081, 0x0481, 0x0881, 0x1201, 0x2090, 0x2401, 0x2201, 0x1090, 0x0201, 0x0401, 0x0890)
    case 10 => Pick(s % 16, 0x0221, 0x2109, 0x1110, 0x0121, 0x1109, 0x0109, 0x1021, 0x0909, 0x1249, 0x2049, 0x2449, 0x2249, 0x1049, 0x0049, 0x0449, 0x0849)
    case 11 => Pick(s % 16, 0x0120, 0x2089, 0x2489, 0x0910, 0x1089, 0x0089, 0x0489, 0x0889, 0x1209, 0x2009, 0x2409, 0x2209, 0x1009, 0x0209, 0x0409, 0x0809)
    case 12 => Pick(s % 16, 0x1120, 0x2111, 0x2490, 0x0224, 0x1111, 0x0111, 0x0490, 0x0911, 0x0241, 0x2101, 0x0244, 0x0240, 0x1101, 0x0101, 0x0090, 0x0901)
    case 13 => Pick(s % 16, 0x0124, 0x2091, 0x2491, 0x2120, 0x1091, 0x0091, 0x0491, 0x0891, 0x1211, 0x2011, 0x2411, 0x2211, 0x1011, 0x0211, 0x0411, 0x0811)
    case 14 => Pick(s % 16, 0x1102, 0x0102, 0x2112, 0x0902, 0x1112, 0x0112, 0x1022, 0x0912, 0x2102, 0x2104, 0x0249, 0x0242, 0x1104, 0x0104, 0x0422, 0x0904)
    case 15 => Pick(s % 16, 0x0122, 0x2092, 0x2492, 0x0222, 0x1092, 0x0092, 0x0492, 0x0892, 0x1212, 0x2012, 0x2412, 0x2212, 0x1012, 0x0212, 0x0412, 0x0812)
    case _ => 0
  }

  /** A 14-bit value that some data symbol is mapped to. */
  ghost predicate IsCodeword(c: int)
  {
    exists s :: 0 <= s < 256 && EfmRawTable(s) == c
  }

  /**
   * The symbol whose literal is c, or -1 when c is not a literal, with the
   * literals grouped by their high bits; used only to prove the literals distinct.
   */
  ghost function CodewordSymbol(c: int): int
  {
    match c / 256
    case 0 =>
      if c == 0x0020 then 32 else
      if c == 0x0021 then 133 else
      if c == 0x0022 then 101 else
      if c == 0x0024 then 69 else
      if c == 0x0040 then 13 else
      if c == 0x0041 then 141 else
      if c == 0x0042 then 109 else
      if c == 0x0044 then 77 else
      if c == 0x0048 then 45 else
      if c == 0x0049 then 173 else
      if c == 0x0080 then 21 else
      if c == 0x0081 then 149 else
      if c == 0x0082 then 117 else
      if c == 0x0084 then 85 else
      if c == 0x0088 then 53 else
      if c == 0x0089 then 181 else
      if c == 0x0090 then 206 else
      if c == 0x0091 then 213 else
      if c == 0x0092 then 245 else
      -1
    case 1 =>
      if c == 0x0100 then 48 else
      if c == 0x0101 then 205 else
      if c == 0x0102 then 225 else
      if c == 0x0104 then 237 else
      if c == 0x0108 then 37 else
      if c == 0x0109 then 165 else
      if c == 0x0110 then 5 else
      if c == 0x0111 then 197 else
      if c == 0x0112 then 229 else
      if c == 0x0120 then 176 else
      if c == 0x0121 then 163 else
      if c == 0x0122 then 240 else
      if c == 0x0124 then 208 else
      -1
    case 2 =>
      if c == 0x0201 then 157 else
      if c == 0x0202 then 125 else
      if c == 0x0204 then 93 else
      if c == 0x0208 then 61 else
      if c == 0x0209 then 189 else
      if c == 0x0210 then 29 else
      if c == 0x0211 then 221 else
      if c == 0x0212 then 253 else
      if c == 0x0220 then 34 else
      if c == 0x0221 then 160 else
      if c == 0x0222 then 243 else
      if c == 0x0224 then 195 else
      if c == 0x0240 then 203 else
      if c == 0x0241 then 200 else
      if c == 0x0242 then 235 else
      if c == 0x0244 then 202 else
      if c == 0x0248 then 121 else
      if c == 0x0249 then 234 else
      -1
    case 4 =>
      if c == 0x0401 then 158 else
      if c == 0x0402 then 126 else
      if c == 0x0404 then 94 else
      if c == 0x0408 then 62 else
      if c == 0x0409 then 190 else
      if c == 0x0410 then 30 else
      if c == 0x0411 then 222 else
      if c == 0x0412 then 254 else
      if c == 0x0420 then 6 else
      if c == 0x0421 then 134 else
      if c == 0x0422 then 238 else
      if c == 0x0424 then 70 else
      if c == 0x0440 then 14 else
      if c == 0x0441 then 142 else
      if c == 0x0442 then 110 else
      if c == 0x0444 then 78 else
      if c == 0x0448 then 46 else
      if c == 0x0449 then 174 else
      if c == 0x0480 then 22 else
      if c == 0x0481 then 150 else
      if c == 0x0482 then 118 else
      if c == 0x0484 then 86 else
      if c == 0x0488 then 54 else
      if c == 0x0489 then 182 else
      if c == 0x0490 then 198 else
      if c == 0x0491 then 214 else
      if c == 0x0492 then 246 else
      -1
    case 8 =>
      if c == 0x0802 then 127 else
      if c == 0x0804 then 95 else
      if c == 0x0808 then 63 else
      if c == 0x0809 then 191 else
      if c == 0x0810 then 31 else
      if c == 0x0811 then 223 else
      if c == 0x0812 then 255 else
      if c == 0x0820 then 19 else
      if c == 0x0821 then 147 else
      if c == 0x0822 then 115 else
      if c == 0x0824 then 83 else
      if c == 0x0840 then 15 else
      if c == 0x0841 then 143 else
      if c == 0x0842 then 111 else
      if c == 0x0844 then 79 else
      if c == 0x0848 then 47 else
      if c == 0x0849 then 175 else
      if c == 0x0880 then 23 else
      if c == 0x0881 then 151 else
      if c == 0x0882 then 119 else
      if c == 0x0884 then 87 else
      if c == 0x0888 then 55 else
      if c == 0x0889 then 183 else
      if c == 0x0890 then 159 else
      if c == 0x0891 then 215 else
      if c == 0x0892 then 247 else
      -1
    case 9 =>
      if c == 0x0900 then 7 else
      if c == 0x0901 then 207 else
      if c == 0x0902 then 227 else
      if c == 0x0904 then 239 else
      if c == 0x0908 then 39 else
      if c == 0x0909 then 167 else
      if c == 0x0910 then 179 else
      if c == 0x0911 then 199 else
      if c == 0x0912 then 231 else
      if c == 0x0920 then 35 else
      if c == 0x0921 then 135 else
      if c == 0x0922 then 103 else
      if c == 0x0924 then 71 else
      -1
    case 16 =>
      if c == 0x1002 then 124 else
      if c == 0x1004 then 92 else
      if c == 0x1008 then 60 else
      if c == 0x1009 then 188 else
      if c == 0x1010 then 28 else
      if c == 0x1011 then 220 else
      if c == 0x1012 then 252 else
      if c == 0x1020 then 38 else
      if c == 0x1021 then 166 else
      if c == 0x1022 then 230 else
      if c == 0x1024 then 102 else
      if c == 0x1040 then 12 else
      if c == 0x1041 then 140 else
      if c == 0x1042 then 108 else
      if c == 0x1044 then 76 else
      if c == 0x1048 then 44 else
      if c == 0x1049 then 172 else
      if c == 0x1080 then 20 else
      if c == 0x1081 then 148 else
      if c == 0x1082 then 116 else
      if c == 0x1084 then 84 else
      if c == 0x1088 then 52 else
      if c == 0x1089 then 180 else
      if c == 0x1090 then 156 else
      if c == 0x1091 then 212 else
      if c == 0x1092 then 244 else
      -1
    case 17 =>
      if c == 0x1100 then 4 else
      if c == 0x1101 then 204 else
      if c == 0x1102 then 224 else
      if c == 0x1104 then 236 else
      if c == 0x1108 then 36 else
      if c == 0x1109 then 164 else
      if c == 0x1110 then 162 else
      if c == 0x1111 then 196 else
      if c == 0x1112 then 228 else
      if c == 0x1120 then 192 else
      if c == 0x1121 then 132 else
      if c == 0x1122 then 100 else
      if c == 0x1124 then 68 else
      -1
    case 18 =>
      if c == 0x1201 then 152 else
      if c == 0x1202 then 120 else
      if c == 0x1204 then 88 else
      if c == 0x1208 then 56 else
      if c == 0x1209 then 184 else
      if c == 0x1210 then 24 else
      if c == 0x1211 then 216 else
      if c == 0x1212 then 248 else
      if c == 0x1220 then 0 else
      if c == 0x1221 then 128 else
      if c == 0x1222 then 96 else
      if c == 0x1224 then 64 else
      if c == 0x1240 then 8 else
      if c == 0x1241 then 136 else
      if c == 0x1242 then 104 else
      if c == 0x1244 then 72 else
      if c == 0x1248 then 40 else
      if c == 0x1249 then 168 else
      -1
    case 32 =>
      if c == 0x2004 then 89 else
      if c == 0x2008 then 57 else
      if c == 0x2009 then 185 else
      if c == 0x2010 then 25 else
      if c == 0x2011 then 217 else
      if c == 0x2012 then 249 else
      if c == 0x2020 then 16 else
      if c == 0x2021 then 144 else
      if c == 0x2022 then 112 else
      if c == 0x2024 then 80 else
      if c == 0x2040 then 9 else
      if c == 0x2041 then 137 else
      if c == 0x2042 then 105 else
      if c == 0x2044 then 73 else
      if c == 0x2048 then 41 else
      if c == 0x2049 then 169 else
      if c == 0x2080 then 17 else
      if c == 0x2081 then 145 else
      if c == 0x2082 then 113 else
      if c == 0x2084 then 81 else
      if c == 0x2088 then 49 else
      if c == 0x2089 then 177 else
      if c == 0x2090 then 153 else
      if c == 0x2091 then 209 else
      if c == 0x2092 then 241 else
      -1
    case 33 =>
      if c == 0x2100 then 1 else
      if c == 0x2101 then 201 else
      if c == 0x2102 then 232 else
      if c == 0x2104 then 233 else
      if c == 0x2108 then 33 else
      if c == 0x2109 then 161 else
      if c == 0x2110 then 51 else
      if c == 0x2111 then 193 else
      if c == 0x2112 then 226 else
      if c == 0x2120 then 211 else
      if c == 0x2121 then 129 else
      if c == 0x2122 then 97 else
      if c == 0x2124 then 65 else
      -1
    case 34 =>
      if c == 0x2201 then 155 else
      if c == 0x2202 then 123 else
      if c == 0x2204 then 91 else
      if c == 0x2208 then 59 else
      if c == 0x2209 then 187 else
      if c == 0x2210 then 27 else
      if c == 0x2211 then 219 else
      if c == 0x2212 then 251 else
      if c == 0x2220 then 3 else
      if c == 0x2221 then 131 else
      if c == 0x2222 then 99 else
      if c == 0x2224 then 67 else
      if c == 0x2240 then 11 else
      if c == 0x2241 then 139 else
      if c == 0x2242 then 107 else
      if c == 0x2244 then 75 else
      if c == 0x2248 then 43 else
      if c == 0x2249 then 171 else
      -1
    case 36 =>
      if c == 0x2401 then 154 else
      if c == 0x2402 then 122 else
      if c == 0x2404 then 90 else
      if c == 0x2408 then 58 else
      if c == 0x2409 then 186 else
      if c == 0x2410 then 26 else
      if c == 0x2411 then 218 else
      if c == 0x2412 then 250 else
      if c == 0x2420 then 2 else
      if c == 0x2421 then 130 else
      if c == 0x2422 then 98 else
      if c == 0x2424 then 66 else
      if c == 0x2440 then 10 else
      if c == 0x2441 then 138 else
      if c == 0x2442 then 106 else
      if c == 0x2444 then 74 else
      if c == 0x2448 then 42 else
      if c == 0x2449 then 170 else
      if c == 0x2480 then 18 else
      if c == 0x2481 then 146 else
      if c == 0x2482 then 114 else
      if c == 0x2484 then 82 else
      if c == 0x2488 then 50 else
      if c == 0x2489 then 178 else
      if c == 0x2490 then 194 else
      if c == 0x2491 then 210 else
      if c == 0x2492 then 242 else
      -1
    case _ => -1
  }

  lemma Row0()
    ensures forall s :: 0 <= s < 16 ==> CodewordSymbol(EfmRawTable(s)) == s
  {
  }

  lemma Row1()
    ensures forall s :: 16 <= s < 32 ==> CodewordSymbol(EfmRawTable(s)) == s
  {
  }

  lemma Row2()
    ensures forall s :: 32 <= s < 48 ==> CodewordSymbol(EfmRawTable(s)) == s
  {
  }

  lemma Row3()
    ensures forall s :: 48 <= s < 64 ==> CodewordSymbol(EfmRawTable(s)) == s
  {
  }

  lemma Row4()
    ensures forall s :: 64 <= s < 80 ==> CodewordSymbol(EfmRawTable(s)) == s
  {
  }

  lemma Row5()
    ensures forall s :: 80 <= s < 96 ==> CodewordSymbol(EfmRawTable(s)) == s
  {
  }

  lemma Row6()
    ensures forall s :: 96 <= s < 112 ==> CodewordSymbol(EfmRawTable(s)) == s
  {
  }

  lemma Row7()
    ensures forall s :: 112 <= s < 128 ==> CodewordSymbol(EfmRawTable(s)) == s
  {
  }

  lemma Row8()
    ensures forall s :: 128 <= s < 144 ==> CodewordSymbol(EfmRawTable(s)) == s
  {
  }

  lemma Row9()
    ensures forall s :: 144 <= s < 160 ==> CodewordSymbol(EfmRawTable(s)) == s
  {
  }

  lemma Row10()
    ensures forall s :: 160 <= s < 176 ==> CodewordSymbol(EfmRawTable(s)) == s
  {
  }

  lemma Row11()
    ensures forall s :: 176 <= s < 192 ==> CodewordSymbol(EfmRawTable(s)) == s
  {
  }

  lemma Row12()
    ensures forall s :: 192 <= s < 208 ==> CodewordSymbol(EfmRawTable(s)) == s
  {
  }

  lemma Row13()
    ensures forall s :: 208 <= s < 224 ==> CodewordSymbol(EfmRawTable(s)) == s
  {
  }

  lemma Row14()
    ensures forall s :: 224 <= s < 240 ==> CodewordSymbol(EfmRawTable(s)) == s
  {
  }

  lemma Row15()
    ensures forall s :: 240 <= s < 256 ==> CodewordSymbol(EfmRawTable(s)) == s
  {
  }

  lemma InRange0()
    ensures forall s :: 0 <= s < 64 ==> 0 < EfmRawTable(s) < DecodeBufferSize && EfmRawTable(s) != BufferMask
  {
  }

  lemma InRange64()
    ensures forall s :: 64 <= s < 128 ==> 0 < EfmRawTable(s) < DecodeBufferSize && EfmRawTable(s) != BufferMask
  {
  }

  lemma InRange128()
    ensures forall s :: 128 <= s < 192 ==> 0 < EfmRawTable(s) < DecodeBufferSize && EfmRawTable(s) != BufferMask
  {
  }

  lemma InRange192()
    ensures forall s :: 192 <= s < 256 ==> 0 < EfmRawTable(s) < DecodeBufferSize && EfmRawTable(s) != BufferMask
  {
  }

  /**
   * Every literal is a nonzero 14-bit value; none is all ones. Being nonzero
   * is what keeps every table codeword clear of the one invalid entry.
   */
  lemma TableInRange()
    ensures forall s :: 0 <= s < 256 ==> 0 < EfmRawTable(s) < DecodeBufferSize && EfmRawTable(s) != BufferMask
  {
    InRange0();
    InRange64();
    InRange128();
    InRange192();
  }

  /** No two data symbols share a codeword. */
  lemma TableInjective()
    ensures forall s, t :: 0 <= s < 256 && 0 <= t < 256 && s != t ==> EfmRawTable(s) != EfmRawTable(t)
  {
    Row0();
    Row1();
    Row2();
    Row3();
    Row4();
    Row5();
    Row6();
    Row7();
    Row8();
    Row9();
    Row10();
    Row11();
    Row12();
    Row13();
    Row14();
    Row15();
  }
}
