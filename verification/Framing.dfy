/**
 Length-prefixed payloads: how readBlock of src/srvctcp.c cuts the byte stream into packets and how
 partial_write and writeAndFreeBlock of src/clictcp.c get the bytes back.
 */
module Framing {
  import opened Config
  import opened FieldTables
  import opened Linear

  function ToByte(n: nat): byte
    requires n < 256
  {
    n as byte
  }

  lemma ByteConversion(n: nat)
    requires n < 256
    ensures (n as byte) as int == n
  {
    assert n % 256 == n;
  }

  lemma ToByteValue(n: nat)
    requires n < 256
    ensures ToByte(n) as int == n
  {
    ByteConversion(n);
  }

  function HighByte(n: nat): byte
    requires n < 65536
  {
    ToByte(n / 256)
  }

  function LowByte(n: nat): byte
    requires n < 65536
  {
    ToByte(n % 256)
  }

  /** A 16-bit number from its bytes in network order. */
  function FromNetwork(high: byte, low: byte): nat
  {
    high as int * 256 + low as int
  }

  lemma NetworkOrder(n: nat)
    requires n < 65536
    ensures FromNetwork(HighByte(n), LowByte(n)) == n
  {
    hide ToByte;
    ToByteValue(n / 256);
    ToByteValue(n % 256);
  }

  /** A packet payload: the data behind its length in network byte order, padded with zeros. */
  function Frame(data: seq<byte>): (p: seq<byte>)
    requires |data| <= PAYLOAD_SIZE - 2
    ensures |p| == PAYLOAD_SIZE
  {
    [HighByte(|data|), LowByte(|data|)] + data + Zeros(PAYLOAD_SIZE - 2 - |data|)
  }

  /**
   The data of a payload. The source trusts the length; here it is cut at the end of the payload,
   which no framed payload reaches.
   */
  function Data(p: seq<byte>): (data: seq<byte>)
    requires |p| == PAYLOAD_SIZE
    ensures |data| <= PAYLOAD_SIZE - 2
  {
    var n := FromNetwork(p[0], p[1]);
    if n <= PAYLOAD_SIZE - 2 then p[2..2 + n] else p[2..]
  }

  /** The receiver reads back what the sender framed. */
  lemma DataOfFrame(data: seq<byte>)
    requires |data| <= PAYLOAD_SIZE - 2
    ensures Data(Frame(data)) == data
  {
    hide FromNetwork, HighByte, LowByte;
    NetworkOrder(|data|);
    assert Frame(data)[2..2 + |data|] == data;
  }

  /** A block of at most BLOCK_SIZE payloads. */
  ghost predicate IsBlock(pkts: seq<seq<byte>>)
  {
    |pkts| <= BLOCK_SIZE && forall i :: 0 <= i < |pkts| ==> |pkts[i]| == PAYLOAD_SIZE
  }

  /** The bytes that a sequence of payloads carries. */
  function Bytes(pkts: seq<seq<byte>>): seq<byte>
    requires forall i :: 0 <= i < |pkts| ==> |pkts[i]| == PAYLOAD_SIZE
  {
    if pkts == [] then [] else Bytes(pkts[..|pkts| - 1]) + Data(pkts[|pkts| - 1])
  }

  lemma {:induction false} BytesConcat(a: seq<seq<byte>>, b: seq<seq<byte>>)
    requires forall i :: 0 <= i < |a| ==> |a[i]| == PAYLOAD_SIZE
    requires forall i :: 0 <= i < |b| ==> |b[i]| == PAYLOAD_SIZE
    ensures Bytes(a + b) == Bytes(a) + Bytes(b)
  {
    hide Data;
    if b == [] {
      assert a + b == a;
    } else {
      var b' := b[..|b| - 1];
      BytesConcat(a, b');
      assert (a + b)[..|a + b| - 1] == a + b';
    }
  }

  /** readBlock: append packets until the block is full or the buffer is used up. */
  function ReadBlock(pkts: seq<seq<byte>>, buf: seq<byte>): (r: (seq<seq<byte>>, nat))
    decreases |buf|
  {
    if |pkts| < BLOCK_SIZE && buf != [] then
      var n := if PAYLOAD_SIZE - 2 < |buf| then PAYLOAD_SIZE - 2 else |buf|;
      var (pkts', read) := ReadBlock(pkts + [Frame(buf[..n])], buf[n..]);
      (pkts', n + read)
    else
      (pkts, 0)
  }

  /** The packets appended carry exactly the bytes taken; reading stops only at a full block. */
  lemma {:induction false} ReadBlockKeepsBytes(pkts: seq<seq<byte>>, buf: seq<byte>)
    requires IsBlock(pkts)
    ensures var (pkts', read) := ReadBlock(pkts, buf);
            && IsBlock(pkts') && pkts <= pkts' && read <= |buf|
            && Bytes(pkts') == Bytes(pkts) + buf[..read]
            && (read == |buf| || |pkts'| == BLOCK_SIZE)
            && (read == 0 <==> pkts' == pkts)
            && (read == 0 <==> buf == [] || |pkts| == BLOCK_SIZE)
    decreases |buf|
  {
    hide Frame, Data, Bytes;
    if |pkts| < BLOCK_SIZE && buf != [] {
      var n := if PAYLOAD_SIZE - 2 < |buf| then PAYLOAD_SIZE - 2 else |buf|;
      ReadBlockKeepsBytes(pkts + [Frame(buf[..n])], buf[n..]);
      FrameAddsBytes(pkts, buf[..n]);
      var read := ReadBlock(pkts + [Frame(buf[..n])], buf[n..]).1;
      assert buf[..n] + buf[n..][..read] == buf[..n + read];
      assert Bytes(pkts) + buf[..n] + buf[n..][..read] == Bytes(pkts) + (buf[..n] + buf[n..][..read]);
    }
  }

  /** Data bytes in a full packet. */
  const CAPACITY: nat := PAYLOAD_SIZE - 2

  function Smaller(a: nat, b: nat): nat
  {
    if a < b then a else b
  }

  /** Data bytes in n full packets. */
  function Room(n: nat): nat
  {
    n * CAPACITY
  }

  lemma RoomNext(n: nat)
    ensures Room(n + 1) == Room(n) + CAPACITY && Room(0) == 0
  {
  }

  /** The k-th piece of the first n bytes, when they are cut into pieces of CAPACITY bytes from the front. */
  function Piece(buf: seq<byte>, n: nat, k: nat): (piece: seq<byte>)
    requires Room(k) < n <= |buf|
    ensures 1 <= |piece| <= CAPACITY
    ensures Room(k + 1) <= n ==> |piece| == CAPACITY
  {
    RoomNext(k);
    buf[Room(k)..Smaller(Room(k + 1), n)]
  }

  lemma PieceAfter(buf: seq<byte>, n: nat, k: nat)
    requires Room(k + 1) < n <= |buf| && CAPACITY <= n
    ensures Room(k) < n - CAPACITY
    ensures Piece(buf, n, k + 1) == Piece(buf[CAPACITY..], n - CAPACITY, k)
  {
    hide Room;
    RoomNext(k);
    RoomNext(k + 1);
  }

  lemma FirstPiece(buf: seq<byte>, n: nat)
    requires 0 < n <= |buf|
    ensures Room(0) < n && Piece(buf, n, 0) == buf[..Smaller(CAPACITY, n)]
  {
    hide Room;
    RoomNext(0);
  }

  /** These packets hold the pieces of the first n bytes. */
  ghost predicate Cut(pkts: seq<seq<byte>>, buf: seq<byte>, n: nat)
    requires n <= |buf|
  {
    && n <= Room(|pkts|)
    && forall k :: 0 <= k < |pkts| ==> Room(k) < n && pkts[k] == Frame(Piece(buf, n, k))
  }

  lemma CutNone(buf: seq<byte>)
    ensures Cut([], buf, 0)
  {
  }

  /** A first packet in front of the pieces of the rest. */
  lemma CutFirst(rest: seq<seq<byte>>, buf: seq<byte>, n: nat, read: nat)
    requires n == Smaller(CAPACITY, |buf|) > 0 && n + read <= |buf| && Cut(rest, buf[n..], read)
    requires read > 0 ==> n == CAPACITY
    requires read == 0 ==> rest == []
    ensures Cut([Frame(buf[..n])] + rest, buf, n + read)
  {
    hide Frame, Room, Piece;
    var pkts := [Frame(buf[..n])] + rest;
    RoomNext(0);
    RoomNext(|rest|);
    FirstPiece(buf, n + read);
    forall k | 0 <= k < |pkts| ensures Room(k) < n + read && pkts[k] == Frame(Piece(buf, n + read, k)) {
      if k > 0 {
        RoomNext(k - 1);
        assert pkts[k] == rest[k - 1];
        PieceAfter(buf, n + read, k - 1);
      }
    }
  }

  /**
   readBlock takes all bytes there is room for, and cuts them into as few packets as they need: all
   are full but perhaps the last, which holds the rest.
   */
  lemma {:induction false} ReadBlockFills(pkts: seq<seq<byte>>, buf: seq<byte>)
    requires |pkts| <= BLOCK_SIZE
    ensures var (pkts', read) := ReadBlock(pkts, buf);
            && read == Smaller(|buf|, Room(BLOCK_SIZE - |pkts|))
            && pkts <= pkts' && Cut(pkts'[|pkts|..], buf, read)
    decreases |buf|
  {
    hide Frame, Room, Cut;
    CutNone(buf);
    RoomNext(0);
    var (pkts', read) := ReadBlock(pkts, buf);
    if |pkts| < BLOCK_SIZE && buf != [] {
      var n := Smaller(CAPACITY, |buf|);
      var more := pkts + [Frame(buf[..n])];
      assert (pkts', read - n) == ReadBlock(more, buf[n..]);
      hide ReadBlock;
      ReadBlockFills(more, buf[n..]);
      RoomNext(BLOCK_SIZE - |more|);
      ReadNothing(more, buf[n..]);
      CutFirst(pkts'[|more|..], buf, n, read - n);
      assert pkts'[|pkts|..] == [Frame(buf[..n])] + pkts'[|more|..];
    }
  }

  lemma ReadNothing(pkts: seq<seq<byte>>, buf: seq<byte>)
    requires |pkts| <= BLOCK_SIZE
    ensures ReadBlock(pkts, buf).1 == 0 ==> ReadBlock(pkts, buf).0 == pkts
  {
  }

  /** The layout of a payload: the length in network order, the data, and zeros. */
  lemma FrameLayout(data: seq<byte>, i: nat)
    requires |data| <= CAPACITY && i < PAYLOAD_SIZE
    ensures Frame(data)[i] == if i == 0 then ToByte(|data| / 256) else if i == 1 then ToByte(|data| % 256)
                              else if i < |data| + 2 then data[i - 2] else 0
  {
    hide ToByte;
  }

  lemma FrameAddsBytes(pkts: seq<seq<byte>>, data: seq<byte>)
    requires IsBlock(pkts) && |pkts| < BLOCK_SIZE && |data| <= PAYLOAD_SIZE - 2
    ensures IsBlock(pkts + [Frame(data)]) && Bytes(pkts + [Frame(data)]) == Bytes(pkts) + data
  {
    hide Frame, Data;
    DataOfFrame(data);
    var more := pkts + [Frame(data)];
    assert more[..|more| - 1] == pkts;
  }
}
