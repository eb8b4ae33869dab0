/**
 The three lookup tables of the field GF(2^8) as the source lists them, sixteen entries to a row,
 and the check of their entries: the antilogarithms step by multiplication by 3, the logarithms
 invert them, and the inverses have opposite logarithms.
 */
module FieldTables {

  type byte = bv8

  const LOG: seq<seq<nat>> := [
    [0x00, 0x00, 0x19, 0x01, 0x32, 0x02, 0x1a, 0xc6, 0x4b, 0xc7, 0x1b, 0x68, 0x33, 0xee, 0xdf, 0x03],
    [0x64, 0x04, 0xe0, 0x0e, 0x34, 0x8d, 0x81, 0xef, 0x4c, 0x71, 0x08, 0xc8, 0xf8, 0x69, 0x1c, 0xc1],
    [0x7d, 0xc2, 0x1d, 0xb5, 0xf9, 0xb9, 0x27, 0x6a, 0x4d, 0xe4, 0xa6, 0x72, 0x9a, 0xc9, 0x09, 0x78],
    [0x65, 0x2f, 0x8a, 0x05, 0x21, 0x0f, 0xe1, 0x24, 0x12, 0xf0, 0x82, 0x45, 0x35, 0x93, 0xda, 0x8e],
    [0x96, 0x8f, 0xdb, 0xbd, 0x36, 0xd0, 0xce, 0x94, 0x13, 0x5c, 0xd2, 0xf1, 0x40, 0x46, 0x83, 0x38],
    [0x66, 0xdd, 0xfd, 0x30, 0xbf, 0x06, 0x8b, 0x62, 0xb3, 0x25, 0xe2, 0x98, 0x22, 0x88, 0x91, 0x10],
    [0x7e, 0x6e, 0x48, 0xc3, 0xa3, 0xb6, 0x1e, 0x42, 0x3a, 0x6b, 0x28, 0x54, 0xfa, 0x85, 0x3d, 0xba],
    [0x2b, 0x79, 0x0a, 0x15, 0x9b, 0x9f, 0x5e, 0xca, 0x4e, 0xd4, 0xac, 0xe5, 0xf3, 0x73, 0xa7, 0x57],
    [0xaf, 0x58, 0xa8, 0x50, 0xf4, 0xea, 0xd6, 0x74, 0x4f, 0xae, 0xe9, 0xd5, 0xe7, 0xe6, 0xad, 0xe8],
    [0x2c, 0xd7, 0x75, 0x7a, 0xeb, 0x16, 0x0b, 0xf5, 0x59, 0xcb, 0x5f, 0xb0, 0x9c, 0xa9, 0x51, 0xa0],
    [0x7f, 0x0c, 0xf6, 0x6f, 0x17, 0xc4, 0x49, 0xec, 0xd8, 0x43, 0x1f, 0x2d, 0xa4, 0x76, 0x7b, 0xb7],
    [0xcc, 0xbb, 0x3e, 0x5a, 0xfb, 0x60, 0xb1, 0x86, 0x3b, 0x52, 0xa1, 0x6c, 0xaa, 0x55, 0x29, 0x9d],
    [0x97, 0xb2, 0x87, 0x90, 0x61, 0xbe, 0xdc, 0xfc, 0xbc, 0x95, 0xcf, 0xcd, 0x37, 0x3f, 0x5b, 0xd1],
    [0x53, 0x39, 0x84, 0x3c, 0x41, 0xa2, 0x6d, 0x47, 0x14, 0x2a, 0x9e, 0x5d, 0x56, 0xf2, 0xd3, 0xab],
    [0x44, 0x11, 0x92, 0xd9, 0x23, 0x20, 0x2e, 0x89, 0xb4, 0x7c, 0xb8, 0x26, 0x77, 0x99, 0xe3, 0xa5],
    [0x67, 0x4a, 0xed, 0xde, 0xc5, 0x31, 0xfe, 0x18, 0x0d, 0x63, 0x8c, 0x80, 0xc0, 0xf7, 0x70, 0x07]]

  const ANTILOG: seq<seq<byte>> := [
    [0x01, 0x03, 0x05, 0x0f, 0x11, 0x33, 0x55, 0xff, 0x1a, 0x2e, 0x72, 0x96, 0xa1, 0xf8, 0x13, 0x35],
    [0x5f, 0xe1, 0x38, 0x48, 0xd8, 0x73, 0x95, 0xa4, 0xf7, 0x02, 0x06, 0x0a, 0x1e, 0x22, 0x66, 0xaa],
    [0xe5, 0x34, 0x5c, 0xe4, 0x37, 0x59, 0xeb, 0x26, 0x6a, 0xbe, 0xd9, 0x70, 0x90, 0xab, 0xe6, 0x31],
    [0x53, 0xf5, 0x04, 0x0c, 0x14, 0x3c, 0x44, 0xcc, 0x4f, 0xd1, 0x68, 0xb8, 0xd3, 0x6e, 0xb2, 0xcd],
    [0x4c, 0xd4, 0x67, 0xa9, 0xe0, 0x3b, 0x4d, 0xd7, 0x62, 0xa6, 0xf1, 0x08, 0x18, 0x28, 0x78, 0x88],
    [0x83, 0x9e, 0xb9, 0xd0, 0x6b, 0xbd, 0xdc, 0x7f, 0x81, 0x98, 0xb3, 0xce, 0x49, 0xdb, 0x76, 0x9a],
    [0xb5, 0xc4, 0x57, 0xf9, 0x10, 0x30, 0x50, 0xf0, 0x0b, 0x1d, 0x27, 0x69, 0xbb, 0xd6, 0x61, 0xa3],
    [0xfe, 0x19, 0x2b, 0x7d, 0x87, 0x92, 0xad, 0xec, 0x2f, 0x71, 0x93, 0xae, 0xe9, 0x20, 0x60, 0xa0],
    [0xfb, 0x16, 0x3a, 0x4e, 0xd2, 0x6d, 0xb7, 0xc2, 0x5d, 0xe7, 0x32, 0x56, 0xfa, 0x15, 0x3f, 0x41],
    [0xc3, 0x5e, 0xe2, 0x3d, 0x47, 0xc9, 0x40, 0xc0, 0x5b, 0xed, 0x2c, 0x74, 0x9c, 0xbf, 0xda, 0x75],
    [0x9f, 0xba, 0xd5, 0x64, 0xac, 0xef, 0x2a, 0x7e, 0x82, 0x9d, 0xbc, 0xdf, 0x7a, 0x8e, 0x89, 0x80],
    [0x9b, 0xb6, 0xc1, 0x58, 0xe8, 0x23, 0x65, 0xaf, 0xea, 0x25, 0x6f, 0xb1, 0xc8, 0x43, 0xc5, 0x54],
    [0xfc, 0x1f, 0x21, 0x63, 0xa5, 0xf4, 0x07, 0x09, 0x1b, 0x2d, 0x77, 0x99, 0xb0, 0xcb, 0x46, 0xca],
    [0x45, 0xcf, 0x4a, 0xde, 0x79, 0x8b, 0x86, 0x91, 0xa8, 0xe3, 0x3e, 0x42, 0xc6, 0x51, 0xf3, 0x0e],
    [0x12, 0x36, 0x5a, 0xee, 0x29, 0x7b, 0x8d, 0x8c, 0x8f, 0x8a, 0x85, 0x94, 0xa7, 0xf2, 0x0d, 0x17],
    [0x39, 0x4b, 0xdd, 0x7c, 0x84, 0x97, 0xa2, 0xfd, 0x1c, 0x24, 0x6c, 0xb4, 0xc7, 0x52, 0xf6, 0x01],
    [0x03, 0x05, 0x0f, 0x11, 0x33, 0x55, 0xff, 0x1a, 0x2e, 0x72, 0x96, 0xa1, 0xf8, 0x13, 0x35, 0x5f],
    [0xe1, 0x38, 0x48, 0xd8, 0x73, 0x95, 0xa4, 0xf7, 0x02, 0x06, 0x0a, 0x1e, 0x22, 0x66, 0xaa, 0xe5],
    [0x34, 0x5c, 0xe4, 0x37, 0x59, 0xeb, 0x26, 0x6a, 0xbe, 0xd9, 0x70, 0x90, 0xab, 0xe6, 0x31, 0x53],
    [0xf5, 0x04, 0x0c, 0x14, 0x3c, 0x44, 0xcc, 0x4f, 0xd1, 0x68, 0xb8, 0xd3, 0x6e, 0xb2, 0xcd, 0x4c],
    [0xd4, 0x67, 0xa9, 0xe0, 0x3b, 0x4d, 0xd7, 0x62, 0xa6, 0xf1, 0x08, 0x18, 0x28, 0x78, 0x88, 0x83],
    [0x9e, 0xb9, 0xd0, 0x6b, 0xbd, 0xdc, 0x7f, 0x81, 0x98, 0xb3, 0xce, 0x49, 0xdb, 0x76, 0x9a, 0xb5],
    [0xc4, 0x57, 0xf9, 0x10, 0x30, 0x50, 0xf0, 0x0b, 0x1d, 0x27, 0x69, 0xbb, 0xd6, 0x61, 0xa3, 0xfe],
    [0x19, 0x2b, 0x7d, 0x87, 0x92, 0xad, 0xec, 0x2f, 0x71, 0x93, 0xae, 0xe9, 0x20, 0x60, 0xa0, 0xfb],
    [0x16, 0x3a, 0x4e, 0xd2, 0x6d, 0xb7, 0xc2, 0x5d, 0xe7, 0x32, 0x56, 0xfa, 0x15, 0x3f, 0x41, 0xc3],
    [0x5e, 0xe2, 0x3d, 0x47, 0xc9, 0x40, 0xc0, 0x5b, 0xed, 0x2c, 0x74, 0x9c, 0xbf, 0xda, 0x75, 0x9f],
    [0xba, 0xd5, 0x64, 0xac, 0xef, 0x2a, 0x7e, 0x82, 0x9d, 0xbc, 0xdf, 0x7a, 0x8e, 0x89, 0x80, 0x9b],
    [0xb6, 0xc1, 0x58, 0xe8, 0x23, 0x65, 0xaf, 0xea, 0x25, 0x6f, 0xb1, 0xc8, 0x43, 0xc5, 0x54, 0xfc],
    [0x1f, 0x21, 0x63, 0xa5, 0xf4, 0x07, 0x09, 0x1b, 0x2d, 0x77, 0x99, 0xb0, 0xcb, 0x46, 0xca, 0x45],
    [0xcf, 0x4a, 0xde, 0x79, 0x8b, 0x86, 0x91, 0xa8, 0xe3, 0x3e, 0x42, 0xc6, 0x51, 0xf3, 0x0e, 0x12],
    [0x36, 0x5a, 0xee, 0x29, 0x7b, 0x8d, 0x8c, 0x8f, 0x8a, 0x85, 0x94, 0xa7, 0xf2, 0x0d, 0x17, 0x39],
    [0x4b, 0xdd, 0x7c, 0x84, 0x97, 0xa2, 0xfd, 0x1c, 0x24, 0x6c, 0xb4, 0xc7, 0x52, 0xf6, 0x01]]

  const INVERSE: seq<seq<byte>> := [
    [0x00, 0x01, 0x8d, 0xf6, 0xcb, 0x52, 0x7b, 0xd1, 0xe8, 0x4f, 0x29, 0xc0, 0xb0, 0xe1, 0xe5, 0xc7],
    [0x74, 0xb4, 0xaa, 0x4b, 0x99, 0x2b, 0x60, 0x5f, 0x58, 0x3f, 0xfd, 0xcc, 0xff, 0x40, 0xee, 0xb2],
    [0x3a, 0x6e, 0x5a, 0xf1, 0x55, 0x4d, 0xa8, 0xc9, 0xc1, 0x0a, 0x98, 0x15, 0x30, 0x44, 0xa2, 0xc2],
    [0x2c, 0x45, 0x92, 0x6c, 0xf3, 0x39, 0x66, 0x42, 0xf2, 0x35, 0x20, 0x6f, 0x77, 0xbb, 0x59, 0x19],
    [0x1d, 0xfe, 0x37, 0x67, 0x2d, 0x31, 0xf5, 0x69, 0xa7, 0x64, 0xab, 0x13, 0x54, 0x25, 0xe9, 0x09],
    [0xed, 0x5c, 0x05, 0xca, 0x4c, 0x24, 0x87, 0xbf, 0x18, 0x3e, 0x22, 0xf0, 0x51, 0xec, 0x61, 0x17],
    [0x16, 0x5e, 0xaf, 0xd3, 0x49, 0xa6, 0x36, 0x43, 0xf4, 0x47, 0x91, 0xdf, 0x33, 0x93, 0x21, 0x3b],
    [0x79, 0xb7, 0x97, 0x85, 0x10, 0xb5, 0xba, 0x3c, 0xb6, 0x70, 0xd0, 0x06, 0xa1, 0xfa, 0x81, 0x82],
    [0x83, 0x7e, 0x7f, 0x80, 0x96, 0x73, 0xbe, 0x56, 0x9b, 0x9e, 0x95, 0xd9, 0xf7, 0x02, 0xb9, 0xa4],
    [0xde, 0x6a, 0x32, 0x6d, 0xd8, 0x8a, 0x84, 0x72, 0x2a, 0x14, 0x9f, 0x88, 0xf9, 0xdc, 0x89, 0x9a],
    [0xfb, 0x7c, 0x2e, 0xc3, 0x8f, 0xb8, 0x65, 0x48, 0x26, 0xc8, 0x12, 0x4a, 0xce, 0xe7, 0xd2, 0x62],
    [0x0c, 0xe0, 0x1f, 0xef, 0x11, 0x75, 0x78, 0x71, 0xa5, 0x8e, 0x76, 0x3d, 0xbd, 0xbc, 0x86, 0x57],
    [0x0b, 0x28, 0x2f, 0xa3, 0xda, 0xd4, 0xe4, 0x0f, 0xa9, 0x27, 0x53, 0x04, 0x1b, 0xfc, 0xac, 0xe6],
    [0x7a, 0x07, 0xae, 0x63, 0xc5, 0xdb, 0xe2, 0xea, 0x94, 0x8b, 0xc4, 0xd5, 0x9d, 0xf8, 0x90, 0x6b],
    [0xb1, 0x0d, 0xd6, 0xeb, 0xc6, 0x0e, 0xcf, 0xad, 0x08, 0x4e, 0xd7, 0xe3, 0x5d, 0x50, 0x1e, 0xb3],
    [0x5b, 0x23, 0x38, 0x34, 0x68, 0x46, 0x03, 0x8c, 0xdd, 0x9c, 0x7d, 0xa0, 0xcd, 0x1a, 0x41, 0x1c]]

  lemma TableShape()
    ensures |LOG| == 16 && forall r :: 0 <= r < 16 ==> |LOG[r]| == 16
    ensures |ANTILOG| == 32 && forall r :: 0 <= r < 32 ==> |ANTILOG[r]| == if r < 31 then 16 else 15
    ensures |INVERSE| == 16 && forall r :: 0 <= r < 16 ==> |INVERSE[r]| == 16
  {
  }

  function XFFlog(x: byte): nat
  {
    TableShape();
    LOG[x as int / 16][x as int % 16]
  }

  function FFantilog(i: nat): byte
    requires i <= 510
  {
    TableShape();
    ANTILOG[i / 16][i % 16]
  }

  function InvVec(x: byte): byte
  {
    TableShape();
    INVERSE[x as int / 16][x as int % 16]
  }

  /** Multiplication by the polynomial x, that is by {02}: section 4.2.1 of FIPS 197. */
  function Xtime(b: byte): byte
  {
    (b << 1) ^ (if b & 0x80 != 0 then 0x1b else 0)
  }

  /** Addition of bytes, and subtraction too. */
  function Add(a: byte, b: byte): byte
  {
    a ^ b
  }

  function Times3(b: byte): byte
  {
    Add(Xtime(b), b)
  }

  /** Entry 16 * r + j of the antilogarithm table is 3 times the entry before it. */
  ghost predicate StepsTo(r: nat, j: nat)
  {
    && r < |ANTILOG| && j < |ANTILOG[r]|
    && if j > 0 then ANTILOG[r][j] == Times3(ANTILOG[r][j - 1])
       else r > 0 && |ANTILOG[r - 1]| == 16 && ANTILOG[r][0] == Times3(ANTILOG[r - 1][15])
  }

  ghost predicate RowSteps(r: nat)
  {
    && (r > 0 ==> StepsTo(r, 0)) && StepsTo(r, 1) && StepsTo(r, 2) && StepsTo(r, 3)
    && StepsTo(r, 4) && StepsTo(r, 5) && StepsTo(r, 6) && StepsTo(r, 7)
    && StepsTo(r, 8) && StepsTo(r, 9) && StepsTo(r, 10) && StepsTo(r, 11)
    && StepsTo(r, 12) && StepsTo(r, 13) && StepsTo(r, 14) && (r < 31 ==> StepsTo(r, 15))
  }

  /** Entry j of row r of the logarithm table names the power of 3 that is the byte 16 * r + j. */
  ghost predicate LogEntry(r: nat, j: nat)
  {
    && r < |LOG| && j < |LOG[r]|
    && var i := LOG[r][j];
       i <= 254 && i / 16 < |ANTILOG| && i % 16 < |ANTILOG[i / 16]| && ANTILOG[i / 16][i % 16] as int == 16 * r + j
  }

  ghost predicate LogLow(r: nat)
  {
    && (r > 0 ==> LogEntry(r, 0)) && LogEntry(r, 1) && LogEntry(r, 2) && LogEntry(r, 3)
    && LogEntry(r, 4) && LogEntry(r, 5) && LogEntry(r, 6) && LogEntry(r, 7)
  }

  ghost predicate LogHigh(r: nat)
  {
    && LogEntry(r, 8) && LogEntry(r, 9) && LogEntry(r, 10) && LogEntry(r, 11)
    && LogEntry(r, 12) && LogEntry(r, 13) && LogEntry(r, 14) && LogEntry(r, 15)
  }

  /** The logarithms of the byte 16 * r + j and of its entry in the inverse table add up to 0 modulo 255. */
  ghost predicate InverseEntry(r: nat, j: nat)
  {
    && r < |LOG| && j < |LOG[r]| && r < |INVERSE| && j < |INVERSE[r]|
    && var x := INVERSE[r][j] as int;
       && x != 0 && x / 16 < |LOG| && x % 16 < |LOG[x / 16]|
       && (LOG[r][j] + LOG[x / 16][x % 16] == 255 || LOG[r][j] == LOG[x / 16][x % 16] == 0)
  }

  ghost predicate InverseRow(r: nat)
  {
    && (r > 0 ==> InverseEntry(r, 0)) && InverseEntry(r, 1) && InverseEntry(r, 2) && InverseEntry(r, 3)
    && InverseEntry(r, 4) && InverseEntry(r, 5) && InverseEntry(r, 6) && InverseEntry(r, 7)
    && InverseEntry(r, 8) && InverseEntry(r, 9) && InverseEntry(r, 10) && InverseEntry(r, 11)
    && InverseEntry(r, 12) && InverseEntry(r, 13) && InverseEntry(r, 14) && InverseEntry(r, 15)
  }

  // The rows, checked one at a time.

  lemma RowSteps0() ensures RowSteps(0) {}
  lemma RowSteps1() ensures RowSteps(1) {}
  lemma RowSteps2() ensures RowSteps(2) {}
  lemma RowSteps3() ensures RowSteps(3) {}
  lemma RowSteps4() ensures RowSteps(4) {}
  lemma RowSteps5() ensures RowSteps(5) {}
  lemma RowSteps6() ensures RowSteps(6) {}
  lemma RowSteps7() ensures RowSteps(7) {}
  lemma RowSteps8() ensures RowSteps(8) {}
  lemma RowSteps9() ensures RowSteps(9) {}
  lemma RowSteps10() ensures RowSteps(10) {}
  lemma RowSteps11() ensures RowSteps(11) {}
  lemma RowSteps12() ensures RowSteps(12) {}
  lemma RowSteps13() ensures RowSteps(13) {}
  lemma RowSteps14() ensures RowSteps(14) {}
  lemma RowSteps15() ensures RowSteps(15) {}
  lemma RowSteps16() ensures RowSteps(16) {}
  lemma RowSteps17() ensures RowSteps(17) {}
  lemma RowSteps18() ensures RowSteps(18) {}
  lemma RowSteps19() ensures RowSteps(19) {}
  lemma RowSteps20() ensures RowSteps(20) {}
  lemma RowSteps21() ensures RowSteps(21) {}
  lemma RowSteps22() ensures RowSteps(22) {}
  lemma RowSteps23() ensures RowSteps(23) {}
  lemma RowSteps24() ensures RowSteps(24) {}
  lemma RowSteps25() ensures RowSteps(25) {}
  lemma RowSteps26() ensures RowSteps(26) {}
  lemma RowSteps27() ensures RowSteps(27) {}
  lemma RowSteps28() ensures RowSteps(28) {}
  lemma RowSteps29() ensures RowSteps(29) {}
  lemma RowSteps30() ensures RowSteps(30) {}
  lemma RowSteps31() ensures RowSteps(31) {}

  lemma LogLow0() ensures LogLow(0) {}
  lemma LogHigh0() ensures LogHigh(0) {}
  lemma LogLow1() ensures LogLow(1) {}
  lemma LogHigh1() ensures LogHigh(1) {}
  lemma LogLow2() ensures LogLow(2) {}
  lemma LogHigh2() ensures LogHigh(2) {}
  lemma LogLow3() ensures LogLow(3) {}
  lemma LogHigh3() ensures LogHigh(3) {}
  lemma LogLow4() ensures LogLow(4) {}
  lemma LogHigh4() ensures LogHigh(4) {}
  lemma LogLow5() ensures LogLow(5) {}
  lemma LogHigh5() ensures LogHigh(5) {}
  lemma LogLow6() ensures LogLow(6) {}
  lemma LogHigh6() ensures LogHigh(6) {}
  lemma LogLow7() ensures LogLow(7) {}
  lemma LogHigh7() ensures LogHigh(7) {}
  lemma LogLow8() ensures LogLow(8) {}
  lemma LogHigh8() ensures LogHigh(8) {}
  lemma LogLow9() ensures LogLow(9) {}
  lemma LogHigh9() ensures LogHigh(9) {}
  lemma LogLow10() ensures LogLow(10) {}
  lemma LogHigh10() ensures LogHigh(10) {}
  lemma LogLow11() ensures LogLow(11) {}
  lemma LogHigh11() ensures LogHigh(11) {}
  lemma LogLow12() ensures LogLow(12) {}
  lemma LogHigh12() ensures LogHigh(12) {}
  lemma LogLow13() ensures LogLow(13) {}
  lemma LogHigh13() ensures LogHigh(13) {}
  lemma LogLow14() ensures LogLow(14) {}
  lemma LogHigh14() ensures LogHigh(14) {}
  lemma LogLow15() ensures LogLow(15) {}
  lemma LogHigh15() ensures LogHigh(15) {}

  lemma InverseRow0() ensures InverseRow(0) {}
  lemma InverseRow1() ensures InverseRow(1) {}
  lemma InverseRow2() ensures InverseRow(2) {}
  lemma InverseRow3() ensures InverseRow(3) {}
  lemma InverseRow4() ensures InverseRow(4) {}
  lemma InverseRow5() ensures InverseRow(5) {}
  lemma InverseRow6() ensures InverseRow(6) {}
  lemma InverseRow7() ensures InverseRow(7) {}
  lemma InverseRow8() ensures InverseRow(8) {}
  lemma InverseRow9() ensures InverseRow(9) {}
  lemma InverseRow10() ensures InverseRow(10) {}
  lemma InverseRow11() ensures InverseRow(11) {}
  lemma InverseRow12() ensures InverseRow(12) {}
  lemma InverseRow13() ensures InverseRow(13) {}
  lemma InverseRow14() ensures InverseRow(14) {}
  lemma InverseRow15() ensures InverseRow(15) {}

  lemma AllRowsStep(r: nat)
    requires r < 32
    ensures RowSteps(r)
  {
    hide RowSteps;
    match r
    case 0 => RowSteps0();
    case 1 => RowSteps1();
    case 2 => RowSteps2();
    case 3 => RowSteps3();
    case 4 => RowSteps4();
    case 5 => RowSteps5();
    case 6 => RowSteps6();
    case 7 => RowSteps7();
    case 8 => RowSteps8();
    case 9 => RowSteps9();
    case 10 => RowSteps10();
    case 11 => RowSteps11();
    case 12 => RowSteps12();
    case 13 => RowSteps13();
    case 14 => RowSteps14();
    case 15 => RowSteps15();
    case 16 => RowSteps16();
    case 17 => RowSteps17();
    case 18 => RowSteps18();
    case 19 => RowSteps19();
    case 20 => RowSteps20();
    case 21 => RowSteps21();
    case 22 => RowSteps22();
    case 23 => RowSteps23();
    case 24 => RowSteps24();
    case 25 => RowSteps25();
    case 26 => RowSteps26();
    case 27 => RowSteps27();
    case 28 => RowSteps28();
    case 29 => RowSteps29();
    case 30 => RowSteps30();
    case _ => RowSteps31();
  }

  lemma LogRows(r: nat)
    requires r < 16
    ensures LogLow(r) && LogHigh(r)
  {
    hide LogLow, LogHigh;
    match r
    case 0 => LogLow0(); LogHigh0();
    case 1 => LogLow1(); LogHigh1();
    case 2 => LogLow2(); LogHigh2();
    case 3 => LogLow3(); LogHigh3();
    case 4 => LogLow4(); LogHigh4();
    case 5 => LogLow5(); LogHigh5();
    case 6 => LogLow6(); LogHigh6();
    case 7 => LogLow7(); LogHigh7();
    case 8 => LogLow8(); LogHigh8();
    case 9 => LogLow9(); LogHigh9();
    case 10 => LogLow10(); LogHigh10();
    case 11 => LogLow11(); LogHigh11();
    case 12 => LogLow12(); LogHigh12();
    case 13 => LogLow13(); LogHigh13();
    case 14 => LogLow14(); LogHigh14();
    case _ => LogLow15(); LogHigh15();
  }

  lemma InverseRows(r: nat)
    requires r < 16
    ensures InverseRow(r)
  {
    hide InverseRow;
    match r
    case 0 => InverseRow0();
    case 1 => InverseRow1();
    case 2 => InverseRow2();
    case 3 => InverseRow3();
    case 4 => InverseRow4();
    case 5 => InverseRow5();
    case 6 => InverseRow6();
    case 7 => InverseRow7();
    case 8 => InverseRow8();
    case 9 => InverseRow9();
    case 10 => InverseRow10();
    case 11 => InverseRow11();
    case 12 => InverseRow12();
    case 13 => InverseRow13();
    case 14 => InverseRow14();
    case _ => InverseRow15();
  }

  lemma StepsToAt(r: nat, j: nat)
    requires r < 32 && j < if r < 31 then 16 else 15
    requires r > 0 || j > 0
    ensures StepsTo(r, j)
  {
    hide StepsTo;
    AllRowsStep(r);
  }

  lemma LogEntryAt(r: nat, j: nat)
    requires r < 16 && j < 16 && (r > 0 || j > 0)
    ensures LogEntry(r, j)
  {
    hide LogEntry;
    LogRows(r);
  }

  lemma InverseEntryAt(r: nat, j: nat)
    requires r < 16 && j < 16 && (r > 0 || j > 0)
    ensures InverseEntry(r, j)
  {
    hide InverseEntry;
    InverseRows(r);
  }

  // What the rest of the model uses of the tables.

  lemma AntilogStart()
    ensures FFantilog(0) == 1
  {
  }

  /** The antilogarithm table steps by multiplication by 3. */
  lemma AntilogStep(i: nat)
    requires i < 510
    ensures FFantilog(i + 1) == Times3(FFantilog(i))
  {
    hide ANTILOG, Times3;
    RowOfStep(i);
    StepsToAt((i + 1) / 16, (i + 1) % 16);
  }

  /** The row and column of the entry after entry i. */
  lemma RowOfStep(i: nat)
    requires i < 510
    ensures var (r, j) := ((i + 1) / 16, (i + 1) % 16);
            && r < 32 && j < (if r < 31 then 16 else 15) && (r > 0 || j > 0)
            && if j > 0 then i / 16 == r && i % 16 == j - 1 else i / 16 == r - 1 && i % 16 == 15
  {
  }

  lemma BytesWithSameValue(x: byte, y: byte)
    requires x as int == y as int
    ensures x == y
  {
  }

  /** On nonzero bytes the logarithm table inverts the antilogarithm table, and stays below 255. */
  lemma AntilogOfLog(x: byte)
    requires x != 0
    ensures XFFlog(x) <= 254 && FFantilog(XFFlog(x)) == x
  {
    hide LOG, ANTILOG, INVERSE;
    var r, j := x as int / 16, x as int % 16;
    LogEntryAt(r, j);
    var i := XFFlog(x);
    assert FFantilog(i) as int == 16 * r + j;
    BytesWithSameValue(FFantilog(i), x);
  }

  lemma LogBound(x: byte)
    ensures XFFlog(x) <= 254
  {
    if x != 0 {
      AntilogOfLog(x);
    }
  }

  /** A nonzero byte and its entry in the inverse table have opposite logarithms. */
  lemma LogOfInverse(x: byte)
    requires x != 0
    ensures InvVec(x) != 0
    ensures XFFlog(x) + XFFlog(InvVec(x)) == 255 || XFFlog(x) == XFFlog(InvVec(x)) == 0
  {
    hide LOG, ANTILOG, INVERSE;
    InverseEntryAt(x as int / 16, x as int % 16);
  }
}
