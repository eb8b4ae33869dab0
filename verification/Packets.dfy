/**
 Data packets and acknowledgements, src/util.h, and what it means for a packet to encode a block.
 */
module Packets {
  import opened Config
  import opened FieldTables
  import opened Gf256
  import opened Linear
  import opened Elimination
  import opened Framing
  import opened Random

  datatype Flag = Normal | Coded

  datatype DataPacket = DataPacket(
    flag: Flag, seqno: nat, blockno: nat, start: nat, num: nat, coeff: byte, payload: seq<byte>)

  datatype Ack = Ack(ackno: nat, blockno: nat, dofRec: nat)

  /** What every packet of the sender satisfies, whatever its content. */
  ghost predicate WellFormed(pkt: DataPacket)
  {
    && |pkt.payload| == PAYLOAD_SIZE
    && 1 <= pkt.num && pkt.start + pkt.num <= BLOCK_SIZE
    && (pkt.flag.Normal? ==> pkt.num == 1)
  }

  /** The coefficients a packet stands for: 1 if it is uncoded, else drawn again from its seed. */
  function PacketCoeffs(pkt: DataPacket): (c: seq<byte>)
    ensures |c| == if pkt.flag.Coded? then pkt.num else 1
  {
    if pkt.flag.Coded? then Coefficients(pkt.coeff, pkt.blockno, pkt.num) else [1]
  }

  /** v names the combination of the packets of src that p is, byte for byte. */
  ghost predicate Encodes(v: seq<byte>, p: seq<byte>, src: seq<seq<byte>>)
    requires IsBlock(src)
  {
    && |v| == BLOCK_SIZE && |p| == PAYLOAD_SIZE
    && (forall c :: |src| <= c < BLOCK_SIZE ==> v[c] == 0)
    && (forall j :: 0 <= j < PAYLOAD_SIZE ==> p[j] == Dot(v, src, j, |src|))
  }

  /** The packet is one the sender makes from a block with these source packets. */
  ghost predicate PacketOf(pkt: DataPacket, src: seq<seq<byte>>)
    requires IsBlock(src)
  {
    && WellFormed(pkt)
    && pkt.start + pkt.num <= |src|
    && (pkt.flag.Coded? ==> pkt.start == 0)
    && Encodes(Place(pkt.start, PacketCoeffs(pkt)), pkt.payload, src)
  }

  // ---------------------------------------------------------------------------------------------
  // The encoding relation is linear, and survives the growth of the block

  lemma EncodesAddScaled(v: seq<byte>, p: seq<byte>, a: byte, w: seq<byte>, q: seq<byte>, src: seq<seq<byte>>)
    requires IsBlock(src) && Encodes(v, p, src) && Encodes(w, q, src)
    ensures Encodes(AddScaled(v, a, w), AddScaled(p, a, q), src)
  {
    hide Add, Mul;
    MulZeroLeft(a);
    AddZero(0);
    var u := AddScaled(v, a, w);
    forall j | 0 <= j < PAYLOAD_SIZE ensures AddScaled(p, a, q)[j] == Dot(u, src, j, |src|) {
      DotAddScaled(v, a, w, u, src, j, |src|);
    }
  }

  lemma EncodesScale(v: seq<byte>, p: seq<byte>, a: byte, src: seq<seq<byte>>)
    requires IsBlock(src) && Encodes(v, p, src)
    ensures Encodes(Scale(v, a), Scale(p, a), src)
  {
    hide Add, Mul;
    MulZeroLeft(a);
    forall j | 0 <= j < PAYLOAD_SIZE ensures Scale(p, a)[j] == Dot(Scale(v, a), src, j, |src|) {
      DotScale(v, a, Scale(v, a), src, j, |src|);
    }
  }

  /** A unit vector names a source packet, and only that packet. */
  lemma EncodesUnit(v: seq<byte>, r: nat, p: seq<byte>, src: seq<seq<byte>>)
    requires IsBlock(src) && r < |src| && |v| == BLOCK_SIZE && |p| == PAYLOAD_SIZE
    requires forall c :: 0 <= c < BLOCK_SIZE ==> v[c] == if c == r then 1 else 0
    ensures Encodes(v, p, src) <==> p == src[r]
  {
    hide Add, Mul;
    forall j | 0 <= j < PAYLOAD_SIZE ensures Dot(v, src, j, |src|) == src[r][j] {
      DotUnit(v, src, j, |src|, r);
    }
  }

  lemma EncodesGrow(v: seq<byte>, p: seq<byte>, src: seq<seq<byte>>, src': seq<seq<byte>>)
    requires IsBlock(src) && IsBlock(src') && src <= src' && Encodes(v, p, src)
    ensures Encodes(v, p, src')
  {
    hide Add, Mul;
    forall j | 0 <= j < PAYLOAD_SIZE ensures p[j] == Dot(v, src', j, |src'|) {
      DotExtend(v, src', j, |src|, |src'|);
      DotSame(v, src, v, src', j, |src|);
    }
  }

  lemma PacketOfGrow(pkt: DataPacket, src: seq<seq<byte>>, src': seq<seq<byte>>)
    requires IsBlock(src) && IsBlock(src') && src <= src' && PacketOf(pkt, src)
    ensures PacketOf(pkt, src')
  {
    hide Encodes, Place, PacketCoeffs;
    EncodesGrow(Place(pkt.start, PacketCoeffs(pkt)), pkt.payload, src, src');
  }

  // ---------------------------------------------------------------------------------------------
  // What the sender puts into packets

  /** The payload of a coded packet: the combination of the first |c| source packets. */
  function Combine(c: seq<byte>, src: seq<seq<byte>>): (p: seq<byte>)
    requires |c| <= |src| && forall i :: 0 <= i < |src| ==> |src[i]| == PAYLOAD_SIZE
    ensures |p| == PAYLOAD_SIZE
  {
    seq(PAYLOAD_SIZE, j requires 0 <= j < PAYLOAD_SIZE => Dot(c, src, j, |c|))
  }

  function UncodedPacket(blockno: nat, row: nat, src: seq<seq<byte>>): DataPacket
    requires row < |src|
  {
    DataPacket(Normal, 0, blockno, row, 1, 1, src[row])
  }

  function CodedPacket(blockno: nat, coeff: byte, src: seq<seq<byte>>): DataPacket
    requires forall i :: 0 <= i < |src| ==> |src[i]| == PAYLOAD_SIZE
  {
    DataPacket(Coded, 0, blockno, 0, |src|, coeff, Combine(Coefficients(coeff, blockno, |src|), src))
  }

  lemma UncodedPacketOf(blockno: nat, row: nat, src: seq<seq<byte>>)
    requires IsBlock(src) && row < |src|
    ensures PacketOf(UncodedPacket(blockno, row, src), src)
  {
    EncodesUnit(Place(row, [1]), row, src[row], src);
  }

  /** The receiver's coefficients, drawn from the packet's seed, name the sender's combination. */
  lemma CodedPacketOf(blockno: nat, coeff: byte, src: seq<seq<byte>>)
    requires IsBlock(src) && src != []
    ensures PacketOf(CodedPacket(blockno, coeff, src), src)
  {
    hide Add, Mul, Coefficients;
    var c := Coefficients(coeff, blockno, |src|);
    var v := Place(0, c);
    forall j | 0 <= j < PAYLOAD_SIZE ensures Combine(c, src)[j] == Dot(v, src, j, |src|) {
      DotSame(c, src, v, src, j, |src|);
    }
  }
}
