/**
 The generator both ends draw coding coefficients from, src/util.c: three 32-bit registers, seeded
 with the number of the block plus a byte carried by the packet.
 */
module Random {
  import opened FieldTables

  datatype Registers = Registers(x: bv32, y: bv32, z: bv32)

  function Seeded(seed: bv32): Registers
  {
    Registers((seed >> 16) + 4125832013, (seed & 0xffff) + 814584116, 542)
  }

  function NextX(x: bv32): bv32
  {
    (x * 255519323).RotateLeft(13)
  }

  function NextY(y: bv32): bv32
  {
    (y * 3166389663).RotateLeft(17)
  }

  function NextZ(z: bv32): bv32
  {
    (z - z.RotateLeft(11)).RotateLeft(27)
  }

  function Advance(r: Registers): Registers
  {
    Registers(NextX(r.x), NextY(r.y), NextZ(r.z))
  }

  function Output(r: Registers): bv32
  {
    r.x ^ r.y ^ r.z
  }

  /** A coefficient is the low byte of an output. */
  function LowByteOf(word: bv32): byte
  {
    (word & 0xff) as byte
  }

  /** The next n coefficients from a state of the generator. */
  function Draw(r: Registers, n: nat): (c: seq<byte>)
    ensures |c| == n
    decreases n
  {
    if n == 0 then []
    else [LowByteOf(Output(Advance(r)))] + Draw(Advance(r), n - 1)
  }

  /** The seed of a packet: its coefficient byte plus the block number, in 32 bits. */
  function SeedOf(coeff: byte, blockno: nat): bv32
  {
    coeff as bv32 + (blockno % 0x1_0000_0000) as bv32
  }

  /** The coefficients of a coded packet over n source packets. */
  function Coefficients(coeff: byte, blockno: nat, n: nat): (c: seq<byte>)
    ensures |c| == n
  {
    Draw(Seeded(SeedOf(coeff, blockno)), n)
  }

  /** What 32-bit arithmetic makes of seed 70000: the first three words. */
  lemma FirstWords()
    ensures var r := Advance(Seeded(70000));
            Output(r) == 156307073 && Output(Advance(r)) == 1031568209 && Output(Advance(Advance(r))) == 407106658
  {
  }

  // ---------------------------------------------------------------------------------------------
  // Some seed is of use

  /** The two words differ in their low bytes. */
  predicate LowApart(a: bv32, b: bv32)
  {
    a & 0xff != b & 0xff
  }

  lemma YStepsApart(y: bv32)
    ensures LowApart(NextY(y), NextY(y + 1))
  {
    var p := y * 3166389663;
    assert (y + 1) * 3166389663 == p + 3166389663;
    assert (p + 3166389663).RotateLeft(17) & 0xff != p.RotateLeft(17) & 0xff;
  }

  lemma SameUpperHalf(s: bv32)
    requires s & 0xffff != 0xffff
    ensures (s + 1) >> 16 == s >> 16 && (s + 1) & 0xffff == (s & 0xffff) + 1
  {
  }

  lemma NextSeeded(s: bv32)
    requires s & 0xffff != 0xffff
    ensures Seeded(s + 1) == Seeded(s).(y := Seeded(s).y + 1)
  {
    SameUpperHalf(s);
    var low := s & 0xffff;
    assert low + 1 + 814584116 == low + 814584116 + 1;
  }

  lemma XorKeepsApart(x: bv32, y: bv32, y': bv32, z: bv32)
    requires LowApart(y, y')
    ensures LowByteOf(x ^ y ^ z) != 0 || LowByteOf(x ^ y' ^ z) != 0
  {
    assert (x ^ y ^ z) & 0xff != 0 || (x ^ y' ^ z) & 0xff != 0;
  }

  lemma OutputIs(r: Registers)
    ensures Output(r) == r.x ^ r.y ^ r.z
  {
  }

  lemma OutputsApart(r: Registers, y': bv32)
    requires LowApart(r.y, y')
    ensures LowByteOf(Output(r)) != 0 || LowByteOf(Output(r.(y := y'))) != 0
  {
    hide LowApart, LowByteOf, Output;
    OutputIs(r);
    OutputIs(r.(y := y'));
    XorKeepsApart(r.x, r.y, y', r.z);
  }

  /** The first coefficient drawn from a state. */
  function First(r: Registers): byte
  {
    LowByteOf(Output(Advance(r)))
  }

  lemma OneOfTwoStates(r: Registers, r': Registers)
    requires r' == r.(y := r'.y) && LowApart(NextY(r.y), NextY(r'.y))
    ensures First(r) != 0 || First(r') != 0
  {
    hide NextX, NextY, NextZ, LowByteOf, LowApart, Output;
    assert Advance(r') == Advance(r).(y := NextY(r'.y));
    OutputsApart(Advance(r), NextY(r'.y));
  }

  /** Of two seeds in succession with the same upper half, one gives a first coefficient that is not 0. */
  lemma OneOfTwo(s: bv32)
    requires s & 0xffff != 0xffff
    ensures First(Seeded(s)) != 0 || First(Seeded(s + 1)) != 0
  {
    hide NextX, NextY, NextZ, Seeded, First, LowApart;
    NextSeeded(s);
    YStepsApart(Seeded(s).y);
    OneOfTwoStates(Seeded(s), Seeded(s + 1));
  }

  lemma FirstCoefficient(coeff: byte, blockno: nat, n: nat)
    requires n > 0
    ensures Coefficients(coeff, blockno, n)[0] == First(Seeded(SeedOf(coeff, blockno)))
  {
    hide Output, Advance, Seeded, SeedOf, LowByteOf;
  }

  lemma SeedsInSuccession(blockno: nat)
    ensures SeedOf(1, blockno) == SeedOf(0, blockno) + 1 && SeedOf(2, blockno) == SeedOf(0, blockno) + 2
  {
  }

  /** For every block one of the first three seeds is of use, so that the redrawing of seeds can always end. */
  lemma SomeSeedIsUseful(blockno: nat, n: nat) returns (coeff: byte)
    requires n > 0
    ensures Coefficients(coeff, blockno, n)[0] != 0
  {
    hide First, Seeded, SeedOf, Coefficients;
    SeedsInSuccession(blockno);
    var s := SeedOf(0, blockno);
    assert s & 0xffff == 0xffff ==> (s + 1) & 0xffff != 0xffff;
    var first: byte := if s & 0xffff == 0xffff then 1 else 0;
    FirstCoefficient(first, blockno, n);
    FirstCoefficient(first + 1, blockno, n);
    OneOfTwo(SeedOf(first, blockno));
    assert s + 1 + 1 == s + 2;
    coeff := if First(Seeded(SeedOf(first, blockno))) != 0 then first else first + 1;
  }
}
