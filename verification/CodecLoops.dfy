/**
 The byte loops of the codec, on arrays and with the lookup tables: shift_row, isEmpty and normalize of
 src/clictcp.c, the row subtraction they share with unwrap, and the coefficient drawing and encoding
 loops of bldack and coding_job.
 */
module CodecLoops {
  import opened Config
  import opened FieldTables
  import opened Gf256
  import opened Linear
  import opened Elimination
  import opened Random
  import opened Packets

  // ---------------------------------------------------------------------------------------------
  // The generator

  /** The three registers of the generator, which seedfastrand sets and fastrand steps. */
  class FastRand {
    var x: bv32
    var y: bv32
    var z: bv32

    ghost function State(): Registers
      reads this
    {
      Registers(x, y, z)
    }

    method Seed(seed: bv32)
      modifies this
      ensures State() == Seeded(seed)
    {
      x := (seed >> 16) + 4125832013;
      y := (seed & 0xffff) + 814584116;
      z := 542;
    }

    method Next() returns (word: bv32)
      modifies this
      ensures State() == Advance(old(State())) && word == Output(State())
    {
      hide NextX, NextY, NextZ;
      x := NextX(x);
      y := NextY(y);
      z := NextZ(z);
      word := x ^ y ^ z;
    }
  }

  /** One more draw at the end. */
  lemma {:induction false} DrawLast(r: Registers, n: nat)
    ensures Draw(r, n + 1) == Draw(r, n) + [LowByteOf(Output(AdvanceBy(r, n + 1)))]
    decreases n
  {
    hide Advance, Output, LowByteOf;
    if n > 0 {
      DrawLast(Advance(r), n - 1);
    } else {
      assert Draw(Advance(r), 0) == [];
    }
  }

  function AdvanceBy(r: Registers, n: nat): Registers
    decreases n
  {
    if n == 0 then r else AdvanceBy(Advance(r), n - 1)
  }

  lemma {:induction false} AdvanceByLast(r: Registers, n: nat)
    ensures AdvanceBy(r, n + 1) == Advance(AdvanceBy(r, n))
    decreases n
  {
    hide Advance;
    if n > 0 {
      AdvanceByLast(Advance(r), n - 1);
    }
  }

  /** Seed the generator for a packet and draw its coefficients, as both ends do. */
  method DrawCoefficients(rand: FastRand, packetCoeff: byte, blockno: nat, num: nat, coeff: array<byte>)
    requires num <= coeff.Length
    modifies rand, coeff
    ensures coeff[..num] == Coefficients(packetCoeff, blockno, num)
    ensures coeff[num..] == old(coeff[num..])
  {
    hide Advance, Output, LowByteOf, Seeded, SeedOf;
    var seed := SeedOf(packetCoeff, blockno);
    rand.Seed(seed);
    var i := 0;
    while i < num
      invariant 0 <= i <= num
      invariant rand.State() == AdvanceBy(Seeded(seed), i)
      invariant coeff[..i] == Draw(Seeded(seed), i)
      invariant coeff[num..] == old(coeff[num..])
    {
      AdvanceByLast(Seeded(seed), i);
      DrawLast(Seeded(seed), i);
      var word := rand.Next();
      coeff[i] := LowByteOf(word);
      i := i + 1;
    }
  }

  // ---------------------------------------------------------------------------------------------
  // Windows

  /** isEmpty. */
  method TestEmpty(coeff: array<byte>, size: nat) returns (empty: bool)
    requires size <= coeff.Length
    ensures empty <==> IsEmpty(coeff[..size])
  {
    var result: byte := 0;
    for i := 0 to size
      invariant result == 0 <==> forall k :: 0 <= k < i ==> coeff[k] == 0
    {
      OrIsZero(result, coeff[i]);
      result := result | coeff[i];
    }
    empty := result == 0;
  }

  lemma OrIsZero(a: byte, b: byte)
    ensures a | b == 0 <==> a == 0 && b == 0
  {
  }

  lemma {:induction false} LeadIs(w: seq<byte>, k: nat)
    requires k <= |w| && forall i :: 0 <= i < k ==> w[i] == 0
    requires k < |w| ==> w[k] != 0
    ensures Lead(w) == k
  {
    if k > 0 {
      LeadIs(w[1..], k - 1);
    }
  }

  /** shift_row: move the window to its first nonzero entry. */
  method ShiftRowInPlace(buf: array<byte>, len: nat) returns (shift: nat)
    requires len <= buf.Length
    modifies buf
    ensures shift == Lead(old(buf[..len]))
    ensures buf[..len] == ShiftRow(old(buf[..len]))
    ensures buf[len..] == old(buf[len..])
  {
    ghost var w := buf[..len];
    shift := 0;
    while shift < len && buf[shift] == 0
      invariant 0 <= shift <= len
      invariant forall k :: 0 <= k < shift ==> buf[k] == 0
    {
      shift := shift + 1;
    }
    LeadIs(w, shift);
    if shift == 0 {
      assert w == ShiftRow(w);
      return;
    }
    var i := 0;
    while i < len - shift
      invariant 0 <= i <= len - shift
      invariant forall k :: 0 <= k < i ==> buf[k] == w[shift + k]
      invariant forall k :: i <= k < len ==> buf[k] == w[k]
      invariant buf[len..] == old(buf[len..])
    {
      buf[i] := buf[shift + i];
      i := i + 1;
    }
    forall k | len - shift <= k < len {
      buf[k] := 0;
    }
    assert buf[..len] == w[shift..] + Zeros(shift);
  }

  // ---------------------------------------------------------------------------------------------
  // Multiples of rows

  /** Multiply the first `size` bytes by the byte whose logarithm is looked up. */
  method ScaleInPlace(buf: array<byte>, size: nat, a: byte)
    requires size <= buf.Length && a != 0
    modifies buf
    ensures buf[..size] == Scale(old(buf[..size]), a)
    ensures buf[size..] == old(buf[size..])
  {
    hide FastFFmult, Mul, XFFlog;
    LogBound(a);
    var logA := XFFlog(a);
    var i := 0;
    while i < size
      invariant 0 <= i <= size
      invariant forall k :: 0 <= k < i ==> buf[k] == Mul(old(buf[k]), a)
      invariant forall k :: i <= k < buf.Length ==> buf[k] == old(buf[k])
    {
      FastFFmultIsMul(buf[i], a);
      buf[i] := FastFFmult(buf[i], logA);
      i := i + 1;
    }
  }

  lemma ScaleByOne(v: seq<byte>)
    ensures Scale(v, 1) == v
  {
    hide Mul;
    forall i | 0 <= i < |v| ensures Scale(v, 1)[i] == v[i] {
      MulOne(v[i]);
    }
  }

  /** normalize: divide the window and its payload by the leading coefficient. */
  method NormalizeInPlace(coeff: array<byte>, payload: array<byte>, size: nat)
    requires 1 <= size <= coeff.Length && payload.Length == PAYLOAD_SIZE && coeff != payload && coeff[0] != 0
    modifies coeff, payload
    ensures coeff[..size] == Scale(old(coeff[..size]), InvVec(old(coeff[0])))
    ensures payload[..] == Scale(old(payload[..]), InvVec(old(coeff[0])))
  {
    hide InvVec, Mul;
    if coeff[0] != 1 {
      var pivot := InvVec(coeff[0]);
      MulInverse(coeff[0]);
      ScaleInPlace(coeff, size, pivot);
      ScaleInPlace(payload, PAYLOAD_SIZE, pivot);
      assert payload[..PAYLOAD_SIZE] == payload[..];
    } else {
      InverseOfOne();
      ScaleByOne(coeff[..size]);
      ScaleByOne(payload[..]);
    }
  }

  /** Subtract a multiple of one payload from another. */
  method AddScaledInPlace(p: array<byte>, a: byte, q: array<byte>)
    requires p.Length == q.Length == PAYLOAD_SIZE && p != q && a != 0
    modifies p
    ensures p[..] == AddScaled(old(p[..]), a, q[..])
  {
    hide FastFFmult, Mul, XFFlog, Add;
    LogBound(a);
    var logA := XFFlog(a);
    var i := 0;
    while i < PAYLOAD_SIZE
      invariant 0 <= i <= PAYLOAD_SIZE
      invariant forall k :: 0 <= k < i ==> p[k] == Add(old(p[k]), Mul(q[k], a))
      invariant forall k :: i <= k < PAYLOAD_SIZE ==> p[k] == old(p[k])
    {
      FastFFmultIsMul(q[i], a);
      p[i] := Add(p[i], FastFFmult(q[i], logA));
      i := i + 1;
    }
  }

  // ---------------------------------------------------------------------------------------------
  // The encoder

  /** The sum of the first i multiples of source packets. */
  ghost predicate PartialSum(p: seq<byte>, c: seq<byte>, src: seq<seq<byte>>, i: nat)
    requires i <= |c| && i <= |src| && |p| == PAYLOAD_SIZE
    requires forall k :: 0 <= k < |src| ==> |src[k]| == PAYLOAD_SIZE
  {
    forall j :: 0 <= j < PAYLOAD_SIZE ==> p[j] == Dot(c, src, j, i)
  }

  /** Lines 1755 to 1771 of coding_job: the payload of a coded packet. */
  method EncodePayload(c: seq<byte>, src: seq<seq<byte>>, payload: array<byte>)
    requires |c| == |src| && payload.Length == PAYLOAD_SIZE
    requires forall k :: 0 <= k < |src| ==> |src[k]| == PAYLOAD_SIZE
    modifies payload
    ensures payload[..] == Combine(c, src)
  {
    hide FastFFmult, Mul, XFFlog, Add;
    forall j | 0 <= j < PAYLOAD_SIZE {
      payload[j] := 0;
    }
    var i := 0;
    while i < |c|
      invariant 0 <= i <= |c|
      invariant PartialSum(payload[..], c, src, i)
    {
      if c[i] == 0 {
        SkipZero(payload[..], c, src, i);
      } else {
        LogBound(c[i]);
        var logC := XFFlog(c[i]);
        var j := 0;
        while j < PAYLOAD_SIZE
          invariant 0 <= j <= PAYLOAD_SIZE
          invariant forall k :: 0 <= k < j ==> payload[k] == Dot(c, src, k, i + 1)
          invariant forall k :: j <= k < PAYLOAD_SIZE ==> payload[k] == Dot(c, src, k, i)
        {
          FastFFmultIsMul(src[i][j], c[i]);
          payload[j] := Add(payload[j], FastFFmult(src[i][j], logC));
          j := j + 1;
        }
      }
      i := i + 1;
    }
  }

  lemma SkipZero(p: seq<byte>, c: seq<byte>, src: seq<seq<byte>>, i: nat)
    requires i < |c| && i < |src| && |p| == PAYLOAD_SIZE && c[i] == 0
    requires forall k :: 0 <= k < |src| ==> |src[k]| == PAYLOAD_SIZE
    requires PartialSum(p, c, src, i)
    ensures PartialSum(p, c, src, i + 1)
  {
    hide Mul, Add;
    forall j | 0 <= j < PAYLOAD_SIZE ensures p[j] == Dot(c, src, j, i + 1) {
      MulZeroRight(src[i][j]);
      AddZero(p[j]);
    }
  }

  /** The seeds among these draws of random() that give a block of len packets some coefficient other than 0. */
  function Useful(draws: seq<byte>, blockno: nat, len: nat): seq<byte>
  {
    if draws == [] then []
    else
      (if IsEmpty(Coefficients(draws[0], blockno, len)) then [] else [draws[0]])
      + Useful(draws[1..], blockno, len)
  }

  /** Some coefficient drawn from the seed is not 0. */
  ghost predicate Draws(seed: byte, blockno: nat, len: nat)
  {
    exists j :: 0 <= j < len && Coefficients(seed, blockno, len)[j] != 0
  }

  lemma EmptyMeansNone(seed: byte, blockno: nat, len: nat)
    ensures IsEmpty(Coefficients(seed, blockno, len)) <==> !Draws(seed, blockno, len)
  {
    hide Coefficients;
  }

  ghost predicate Increasing(at: seq<nat>)
  {
    forall k, l :: 0 <= k < l < |at| ==> at[k] < at[l]
  }

  /** `picked` are the draws at these places. */
  ghost predicate Picked(at: seq<nat>, draws: seq<byte>, picked: seq<byte>)
  {
    |at| == |picked| && forall k :: 0 <= k < |at| ==> at[k] < |draws| && picked[k] == draws[at[k]]
  }

  function Later(at: seq<nat>): (later: seq<nat>)
    ensures |later| == |at| && forall k :: 0 <= k < |at| ==> later[k] == at[k] + 1
  {
    seq(|at|, k requires 0 <= k < |at| => at[k] + 1)
  }

  lemma LaterPicked(at: seq<nat>, draws: seq<byte>, picked: seq<byte>)
    requires draws != [] && Increasing(at) && Picked(at, draws[1..], picked)
    ensures Increasing(Later(at)) && Picked(Later(at), draws, picked)
    ensures Increasing([0] + Later(at)) && Picked([0] + Later(at), draws, [draws[0]] + picked)
  {
    forall k | 0 <= k < |at| ensures Later(at)[k] < |draws| && picked[k] == draws[Later(at)[k]] {
      assert draws[1..][at[k]] == draws[at[k] + 1];
    }
  }

  lemma LaterIndices(at: seq<nat>, i: nat)
    requires i > 0
    ensures i in Later(at) <==> i - 1 in at
  {
    if i - 1 in at {
      var k :| 0 <= k < |at| && at[k] == i - 1;
      assert Later(at)[k] == i;
    }
  }

  lemma IndexOf(at: seq<nat>, first: bool, i: nat)
    ensures i in (if first then [0] else []) + Later(at) <==> if i == 0 then first else i - 1 in at
  {
    if i > 0 {
      LaterIndices(at, i);
    }
  }

  /** The useful seeds are, in order, exactly the draws with a coefficient other than 0, wherever it stands. */
  lemma {:induction false} UsefulAreThose(draws: seq<byte>, blockno: nat, len: nat) returns (at: seq<nat>)
    ensures Increasing(at) && Picked(at, draws, Useful(draws, blockno, len))
    ensures forall i :: 0 <= i < |draws| ==> (i in at <==> Draws(draws[i], blockno, len))
  {
    hide IsEmpty, Draws, Picked, Increasing, Coefficients;
    if draws == [] {
      at := [];
      assert Picked(at, draws, []) && Increasing(at) by {
        NonePicked(draws);
      }
    } else {
      var rest := UsefulAreThose(draws[1..], blockno, len);
      LaterPicked(rest, draws, Useful(draws[1..], blockno, len));
      EmptyMeansNone(draws[0], blockno, len);
      at := (if Draws(draws[0], blockno, len) then [0] else []) + Later(rest);
      assert [] + Later(rest) == Later(rest);
      assert [] + Useful(draws[1..], blockno, len) == Useful(draws[1..], blockno, len);
      forall i | 0 <= i < |draws| ensures i in at <==> Draws(draws[i], blockno, len) {
        IndexOf(rest, Draws(draws[0], blockno, len), i);
        if i > 0 {
          assert draws[i] == draws[1..][i - 1];
        }
      }
    }
  }

  lemma NonePicked(draws: seq<byte>)
    ensures Picked([], draws, []) && Increasing([])
  {
  }

  /** The first draws may be passed over. */
  lemma {:induction false} UselessDraws(draws: seq<byte>, blockno: nat, len: nat, n: nat)
    requires n <= |draws| && forall k :: 0 <= k < n ==> IsEmpty(Coefficients(draws[k], blockno, len))
    ensures Useful(draws, blockno, len) == Useful(draws[n..], blockno, len)
  {
    hide IsEmpty;
    if n > 0 {
      UselessDraws(draws[1..], blockno, len, n - 1);
      assert draws[1..][n - 1..] == draws[n..];
    } else {
      assert draws[0..] == draws;
    }
  }

  /**
   Lines 1746 to 1754 of coding_job: draw seeds from random() until some coefficient is not 0. The draws
   are an input, of which one must be of use: otherwise the loop of the source does not end.
   */
  method ChooseSeed(rand: FastRand, blockno: nat, len: nat, draws: seq<byte>, coeff: array<byte>) returns (chosen: nat)
    requires len <= coeff.Length && Useful(draws, blockno, len) != []
    modifies rand, coeff
    ensures chosen < |draws|
    ensures Useful(draws, blockno, len) == [draws[chosen]] + Useful(draws[chosen + 1..], blockno, len)
    ensures coeff[..len] == Coefficients(draws[chosen], blockno, len)
    ensures Draws(draws[chosen], blockno, len)
    ensures forall k :: 0 <= k < chosen ==> !Draws(draws[k], blockno, len)
  {
    hide Coefficients, Draws;
    chosen := 0;
    while true
      invariant chosen <= |draws|
      invariant forall k :: 0 <= k < chosen ==> IsEmpty(Coefficients(draws[k], blockno, len))
      invariant forall k :: 0 <= k < chosen ==> !Draws(draws[k], blockno, len)
      decreases |draws| - chosen
    {
      UselessDraws(draws, blockno, len, chosen);
      assert chosen < |draws|;
      DrawCoefficients(rand, draws[chosen], blockno, len, coeff);
      EmptyMeansNone(draws[chosen], blockno, len);
      var nonzero := 0;
      for i := 0 to len
        invariant nonzero == 0 <==> IsEmpty(coeff[..i])
        invariant nonzero >= 0
      {
        assert coeff[..i + 1] == coeff[..i] + [coeff[i]];
        if coeff[i] != 0 {
          nonzero := nonzero + 1;
          assert coeff[..i + 1][i] != 0;
        }
      }
      if nonzero != 0 {
        assert draws[chosen..][1..] == draws[chosen + 1..];
        return;
      }
      chosen := chosen + 1;
    }
  }
}
