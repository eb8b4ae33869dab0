/**
 The receiving end against the sender's history: the bytes pushed to the user are always the bytes of
 whole blocks followed by those of the first packets of the current block.
 */
module Delivery {
  import opened Config
  import opened FieldTables
  import opened Slots
  import opened Elimination
  import opened Framing
  import opened Packets
  import opened Decoder
  import opened Recovery
  import opened Client

  /** The source packets of every block the sender has opened; block numbers index it. */
  ghost predicate IsHistory(hist: seq<seq<seq<byte>>>)
  {
    forall b :: 0 <= b < |hist| ==> IsBlock(hist[b])
  }

  /** The source packets of block b, none if it has not been opened. */
  function Src(hist: seq<seq<seq<byte>>>, b: nat): (src: seq<seq<byte>>)
    ensures IsHistory(hist) ==> IsBlock(src)
  {
    if b < |hist| then hist[b] else []
  }

  /** The bytes of the first n blocks. */
  function Stream(hist: seq<seq<seq<byte>>>, n: nat): seq<byte>
    requires IsHistory(hist) && n <= |hist|
  {
    if n == 0 then [] else Stream(hist, n - 1) + Bytes(hist[n - 1])
  }

  /** Every block of the window holds true equations about the packets of its number. */
  ghost predicate ClientOf(c: State, hist: seq<seq<seq<byte>>>)
  {
    && Valid(c) && IsHistory(hist) && c.curr <= |hist|
    && (forall b :: 1 <= b < c.curr ==> |Src(hist, b)| == BLOCK_SIZE)
    && (forall b :: c.curr <= b < c.curr + NUM_BLOCKS ==> WindowBlock(c, hist, b))
  }

  ghost predicate WindowBlock(c: State, hist: seq<seq<seq<byte>>>, b: nat)
    requires |c.blocks| == NUM_BLOCKS && IsHistory(hist)
  {
    && BlockOf(c.blocks[Slot(b)], Src(hist, b))
    && (b != c.curr ==> c.blocks[Slot(b)].pushed == 0)
  }

  lemma ClientIsValid(c: State, hist: seq<seq<seq<byte>>>)
    requires ClientOf(c, hist)
    ensures Valid(c) && IsHistory(hist)
  {
  }

  /** What the receiver has pushed: the blocks before the current one, and its first packets. */
  function Delivered(c: State, hist: seq<seq<seq<byte>>>): seq<byte>
    requires ClientOf(c, hist)
  {
    assert WindowBlock(c, hist, c.curr);
    PushedBelowTop(c.blocks[Slot(c.curr)]);
    Stream(hist, c.curr) + Bytes(Src(hist, c.curr)[..c.blocks[Slot(c.curr)].pushed])
  }

  /** The packet is one of its block, the block is open and not past the window, and the packet can be reduced. */
  ghost predicate Expected(c: State, hist: seq<seq<seq<byte>>>, pkt: DataPacket)
    requires Valid(c) && IsHistory(hist)
  {
    && pkt.blockno < |hist| && pkt.blockno < c.curr + NUM_BLOCKS
    && PacketOf(pkt, hist[pkt.blockno])
    && (pkt.blockno >= c.curr ==> Covered(c.blocks[Slot(pkt.blockno)], pkt))
  }

  // ---------------------------------------------------------------------------------------------
  // Storing

  lemma StoreBlock(b: Block, pkt: DataPacket, src: seq<seq<byte>>)
    requires IsBlock(src) && BlockOf(b, src) && PacketOf(pkt, src) && Covered(b, pkt)
    ensures ValidBlock(Raise(b, pkt))
    ensures BlockOf(Absorb(Raise(b, pkt), pkt), src)
    ensures Absorb(Raise(b, pkt), pkt).pushed == b.pushed
  {
    RaiseValid(b, pkt);
    hide Encodes, Dense, Reduce;
    AbsorbSound(Raise(b, pkt), pkt, src);
    AbsorbValid(Raise(b, pkt), pkt);
  }

  lemma StoreKeeps(c: State, pkt: DataPacket, hist: seq<seq<seq<byte>>>)
    requires ClientOf(c, hist) && Expected(c, hist, pkt) && WellFormed(pkt)
    ensures var c' := Store(c, pkt); ClientOf(c', hist) && Delivered(c', hist) == Delivered(c, hist)
  {
    WellFormedPacket(pkt, hist[pkt.blockno]);
    hide Raise, Absorb, BlockOf, PacketOf, Stream, Bytes, Slot, Covered;
    var c' := Store(c, pkt);
    assert WindowBlock(c, hist, c.curr);
    if pkt.blockno >= c.curr {
      var n := pkt.blockno;
      assert WindowBlock(c, hist, n);
      assert Valid(c') && IsHistory(hist) && c'.curr <= |hist|;
      StoreBlock(c.blocks[Slot(n)], pkt, hist[n]);
      forall b | c.curr <= b < c.curr + NUM_BLOCKS ensures WindowBlock(c', hist, b) {
        assert WindowBlock(c, hist, b);
        if b != n {
          OtherSlot(c.curr, b, n);
        }
      }
      if c.curr != n {
        OtherSlot(c.curr, c.curr, n);
      }
    }
  }

  lemma WellFormedPacket(pkt: DataPacket, src: seq<seq<byte>>)
    requires IsBlock(src) && PacketOf(pkt, src)
    ensures WellFormed(pkt)
  {
  }

  // ---------------------------------------------------------------------------------------------
  // Pushing early

  lemma PushDelivers(c: State, room: nat, hist: seq<seq<seq<byte>>>)
    requires ClientOf(c, hist)
    ensures var (c', bytes) := Push(c, room);
            ClientOf(c', hist) && Delivered(c', hist) == Delivered(c, hist) + bytes
  {
    hide BlockOf, Stream, Bytes, Slot, PartialWrite;
    var b, src := c.blocks[Slot(c.curr)], Src(hist, c.curr);
    assert WindowBlock(c, hist, c.curr);
    PartialWriteDelivers(b, room, src);
    var c' := Push(c, room).0;
    forall k | c.curr <= k < c.curr + NUM_BLOCKS ensures WindowBlock(c', hist, k) {
      assert WindowBlock(c, hist, k);
      if k != c.curr {
        OtherSlot(c.curr, k, c.curr);
      }
    }
  }

  // ---------------------------------------------------------------------------------------------
  // Decoding full blocks

  lemma EmptyBlockOf(src: seq<seq<byte>>)
    requires IsBlock(src)
    ensures BlockOf(EmptyBlock(), src)
  {
    EmptyBlockValid();
  }

  /** The slot of the block written out is the slot of the block that enters the window. */
  lemma EmptiedWindow(c: State, hist: seq<seq<seq<byte>>>, k: nat)
    requires ClientOf(c, hist) && c.curr < k <= c.curr + NUM_BLOCKS
    ensures WindowBlock(State(c.curr + 1, c.blocks[Slot(c.curr) := EmptyBlock()]), hist, k)
  {
    hide BlockOf, Stream, Bytes, Slot, EmptyBlock;
    if k == c.curr + NUM_BLOCKS {
      SlotWraps(c.curr);
      EmptyBlockOf(Src(hist, k));
      NothingPushedFromEmptyBlock();
    } else {
      assert WindowBlock(c, hist, k);
      OtherSlot(c.curr, k, c.curr);
    }
  }

  /** A full current block holds all its packets; those not pushed yet are what is written out. */
  lemma CurrentWritten(c: State, hist: seq<seq<seq<byte>>>)
    requires ClientOf(c, hist) && Full(c.blocks[Slot(c.curr)])
    ensures var (b, src) := (c.blocks[Slot(c.curr)], Src(hist, c.curr));
            && ValidBlock(b) && c.curr < |hist| && |src| == BLOCK_SIZE && b.pushed <= BLOCK_SIZE
            && Bytes(src) == Bytes(src[..b.pushed]) + WriteBlock(b)
  {
    hide BlockOf, Stream, Bytes, Slot, WriteBlock;
    assert WindowBlock(c, hist, c.curr);
    WriteBlockDelivers(c.blocks[Slot(c.curr)], Src(hist, c.curr));
  }

  lemma EmptiedClient(c: State, hist: seq<seq<seq<byte>>>)
    requires ClientOf(c, hist) && Full(c.blocks[Slot(c.curr)])
    ensures ClientOf(State(c.curr + 1, c.blocks[Slot(c.curr) := EmptyBlock()]), hist)
  {
    hide Slot, EmptyBlock, WindowBlock, ValidBlock, Bytes;
    var d := State(c.curr + 1, c.blocks[Slot(c.curr) := EmptyBlock()]);
    CurrentWritten(c, hist);
    EmptyBlockValid();
    forall k | d.curr <= k < d.curr + NUM_BLOCKS ensures WindowBlock(d, hist, k) {
      EmptiedWindow(c, hist, k);
    }
  }

  /** Writing out a full current block and emptying its slot. */
  lemma DecodeOne(c: State, hist: seq<seq<seq<byte>>>)
    requires ClientOf(c, hist) && Full(c.blocks[Slot(c.curr)])
    ensures var s := Slot(c.curr);
            var d := State(c.curr + 1, c.blocks[s := EmptyBlock()]);
            && ClientOf(d, hist)
            && ValidBlock(c.blocks[s])
            && Delivered(d, hist) == Delivered(c, hist) + WriteBlock(c.blocks[s])
  {
    hide ClientOf, ValidBlock, Stream, Bytes, Slot, WriteBlock, EmptyBlock;
    ClientIsValid(c, hist);
    var d := State(c.curr + 1, c.blocks[Slot(c.curr) := EmptyBlock()]);
    CurrentWritten(c, hist);
    EmptiedClient(c, hist);
    StreamNext(hist, c.curr);
    NothingPushedYet(c, hist);
    BytesOfNone();
    assert Src(hist, d.curr)[..0] == [];
  }

  /** The block after the current one has pushed nothing, also when it takes over the only other slot. */
  lemma NothingPushedYet(c: State, hist: seq<seq<seq<byte>>>)
    requires ClientOf(c, hist)
    ensures c.blocks[Slot(c.curr) := EmptyBlock()][Slot(c.curr + 1)].pushed == 0
  {
    hide BlockOf, Slot;
    OtherSlot(c.curr, c.curr + 1, c.curr);
    assert WindowBlock(c, hist, c.curr + 1);
  }

  lemma NothingPushedFromEmptyBlock()
    ensures EmptyBlock().pushed == 0
  {
  }

  lemma BytesOfNone()
    ensures Bytes([]) == []
  {
  }

  lemma StreamNext(hist: seq<seq<seq<byte>>>, n: nat)
    requires IsHistory(hist) && n < |hist|
    ensures Stream(hist, n + 1) == Stream(hist, n) + Bytes(hist[n])
  {
  }

  lemma {:induction false} DecodeDelivers(c: State, hist: seq<seq<seq<byte>>>)
    requires ClientOf(c, hist)
    ensures var (c', bytes) := Decode(c);
            ClientOf(c', hist) && Delivered(c', hist) == Delivered(c, hist) + bytes
    decreases CountFullBlocks(c.blocks, NUM_BLOCKS)
  {
    hide Delivered, WriteBlock, EmptyBlock, Slot, ValidBlock, WindowBlock;
    ClientIsValid(c, hist);
    hide ClientOf;
    var s := Slot(c.curr);
    if Full(c.blocks[s]) {
      var d := State(c.curr + 1, c.blocks[s := EmptyBlock()]);
      DecodeOne(c, hist);
      ClientIsValid(d, hist);
      EmptyingLowersCount(c.blocks, NUM_BLOCKS, s);
      DecodeDelivers(d, hist);
      var (c', bytes) := Decode(d);
      assert Decode(c) == (c', WriteBlock(c.blocks[s]) + bytes);
    }
  }

  // ---------------------------------------------------------------------------------------------
  // One packet

  lemma ReceiveUnfold(c: State, pkt: DataPacket, room: nat)
    requires Valid(c) && WellFormed(pkt)
    ensures var r := Receive(c, pkt, room);
            var (pushed, bytes) := Push(Store(c, pkt), room);
            var (decoded, more) := Decode(pushed);
            r.client == decoded && r.bytes == bytes + more
  {
    hide Store, Push, Decode, BuildAck, Valid, WellFormed;
  }

  /** Whatever arrives, the receiver extends what it has delivered along the sender's stream. */
  lemma ReceiveDelivers(c: State, pkt: DataPacket, room: nat, hist: seq<seq<seq<byte>>>)
    requires ClientOf(c, hist) && Expected(c, hist, pkt) && WellFormed(pkt)
    ensures var r := Receive(c, pkt, room);
            && ClientOf(r.client, hist) && Waiting(r.client)
            && c.curr <= r.client.curr
            && Delivered(r.client, hist) == Delivered(c, hist) + r.bytes
  {
    hide Delivered, Expected, Valid, Waiting, WellFormed, WindowBlock, Store, Push, Decode, Receive;
    ClientIsValid(c, hist);
    hide ClientOf;
    ReceiveUnfold(c, pkt, room);
    var stored := Store(c, pkt);
    StoreKeeps(c, pkt, hist);
    var (pushed, bytes) := Push(stored, room);
    PushDelivers(stored, room, hist);
    var (decoded, more) := Decode(pushed);
    DecodeDelivers(pushed, hist);
    assert Delivered(c, hist) + bytes + more == Delivered(c, hist) + (bytes + more);
  }

  lemma PushedWithinSource(b: Block, src: seq<seq<byte>>)
    requires IsBlock(src) && BlockOf(b, src)
    ensures b.pushed <= |src|
  {
    PushedBelowTop(b);
  }

  /** Whole blocks followed by the first packets of the next block are a prefix of the stream. */
  lemma PacketsArePrefix(hist: seq<seq<seq<byte>>>, n: nat, pushed: nat)
    requires IsHistory(hist) && n < |hist| && pushed <= |hist[n]|
    ensures Stream(hist, n) + Bytes(hist[n][..pushed]) <= Stream(hist, |hist|)
  {
    hide Bytes, Stream;
    var src := hist[n];
    BytesConcat(src[..pushed], src[pushed..]);
    assert src[..pushed] + src[pushed..] == src;
    StreamNext(hist, n);
    PrefixOfRest(Stream(hist, n), Bytes(src[..pushed]), Bytes(src[pushed..]));
    StreamGrows(hist, n + 1, |hist|);
  }

  /** Delivered bytes are a prefix of the stream. */
  lemma DeliveredIsPrefix(c: State, hist: seq<seq<seq<byte>>>)
    requires ClientOf(c, hist)
    ensures Delivered(c, hist) <= Stream(hist, |hist|)
  {
    hide BlockOf, ValidBlock, Bytes, Stream, Slot;
    assert WindowBlock(c, hist, c.curr);
    var pushed := c.blocks[Slot(c.curr)].pushed;
    PushedWithinSource(c.blocks[Slot(c.curr)], Src(hist, c.curr));
    if c.curr < |hist| {
      PacketsArePrefix(hist, c.curr, pushed);
    } else {
      BytesOfNone();
    }
  }

  lemma PrefixOfRest(a: seq<byte>, b: seq<byte>, c: seq<byte>)
    ensures a + b <= a + (b + c)
  {
    assert a + (b + c) == (a + b) + c;
  }

  lemma {:induction false} StreamGrows(hist: seq<seq<seq<byte>>>, m: nat, n: nat)
    requires IsHistory(hist) && m <= n <= |hist|
    ensures Stream(hist, m) <= Stream(hist, n)
    decreases n
  {
    hide Bytes;
    if m < n {
      StreamGrows(hist, m, n - 1);
    }
  }

  // ---------------------------------------------------------------------------------------------
  // What the sender may rely on afterwards

  lemma DecodeAdvances(c: State)
    requires Valid(c)
    ensures Advanced(c, Decode(c).0)
  {
    DecodeReachesAck(c, c);
  }

  lemma StoreOtherBlocks(c: State, pkt: DataPacket, b: nat)
    requires Valid(c) && WellFormed(pkt) && c.curr <= pkt.blockno < c.curr + NUM_BLOCKS
    requires c.curr <= b < c.curr + NUM_BLOCKS
    ensures Store(c, pkt).blocks[Slot(b)] ==
            if b == pkt.blockno then Absorb(Raise(c.blocks[Slot(b)], pkt), pkt) else c.blocks[Slot(b)]
  {
    hide Raise, Absorb, ValidBlock, Slot;
    if b != pkt.blockno {
      OtherSlot(c.curr, b, pkt.blockno);
    }
  }

  lemma PushOtherBlocks(c: State, room: nat, b: nat)
    requires Valid(c) && c.curr <= b < c.curr + NUM_BLOCKS && (b == c.curr ==> Full(c.blocks[Slot(b)]))
    ensures Push(c, room).0.blocks[Slot(b)] == c.blocks[Slot(b)]
  {
    hide PartialWrite, ValidBlock, Slot;
    if b != c.curr {
      OtherSlot(c.curr, b, c.curr);
    }
  }

  lemma AbsorbCoversAfterRaise(b: Block, pkt: DataPacket, end: nat)
    requires ValidBlock(b) && WellFormed(pkt) && Covered(b, pkt)
    requires Covers(b.rows, end) && end <= BLOCK_SIZE && (pkt.flag.Coded? ==> pkt.start + pkt.num <= end)
    ensures Covers(Absorb(Raise(b, pkt), pkt).rows, end)
  {
    hide Covers, Reduce;
    RaiseValid(b, pkt);
    AbsorbCovers(Raise(b, pkt), pkt, end);
  }

  lemma StoreCovers(c: State, hist: seq<seq<seq<byte>>>, pkt: DataPacket, b: nat, end: nat)
    requires ClientOf(c, hist) && Expected(c, hist, pkt) && WellFormed(pkt)
    requires c.curr <= b < c.curr + NUM_BLOCKS && end <= BLOCK_SIZE && Covers(c.blocks[Slot(b)].rows, end)
    requires pkt.blockno == b && pkt.flag.Coded? ==> pkt.start + pkt.num <= end
    ensures Covers(Store(c, pkt).blocks[Slot(b)].rows, end)
  {
    hide Covers, Absorb, Raise, Slot, ValidBlock, Encodes;
    if pkt.blockno >= c.curr {
      StoreOtherBlocks(c, pkt, b);
      if pkt.blockno == b {
        AbsorbCoversAfterRaise(c.blocks[Slot(b)], pkt, end);
      }
    }
  }

  lemma PushCovers(c: State, room: nat, b: nat, end: nat)
    requires Valid(c) && c.curr <= b < c.curr + NUM_BLOCKS && Covers(c.blocks[Slot(b)].rows, end)
    ensures Covers(Push(c, room).0.blocks[Slot(b)].rows, end)
  {
    hide Covers, PartialWrite, Slot, ValidBlock;
    if b == c.curr {
      PartialWriteCovers(c.blocks[Slot(b)], room, end);
    } else {
      PushOtherBlocks(c, room, b);
    }
  }

  lemma DecodeCovers(c: State, b: nat, end: nat)
    requires Valid(c)
    requires var d := Decode(c).0; d.curr <= b < d.curr + NUM_BLOCKS
    requires c.curr <= b < c.curr + NUM_BLOCKS ==> Covers(c.blocks[Slot(b)].rows, end)
    ensures Covers(Decode(c).0.blocks[Slot(b)].rows, end)
  {
    hide Covers, Decode, Slot, ValidBlock;
    DecodeAdvances(c);
    if b >= c.curr + NUM_BLOCKS {
      SlotWraps(b - NUM_BLOCKS);
      EmptyBlockCovers(end);
    }
  }

  lemma EmptyBlockCovers(end: nat)
    ensures Covers(EmptyBlock().rows, end)
  {
  }

  /** A window width that covered a block still covers it after any packet no wider than that. */
  lemma ReceiveCovers(c: State, hist: seq<seq<seq<byte>>>, pkt: DataPacket, room: nat, b: nat, end: nat)
    requires ClientOf(c, hist) && Expected(c, hist, pkt) && WellFormed(pkt) && end <= BLOCK_SIZE
    requires var d := Receive(c, pkt, room).client; d.curr <= b < d.curr + NUM_BLOCKS
    requires c.curr <= b < c.curr + NUM_BLOCKS ==> Covers(c.blocks[Slot(b)].rows, end)
    requires pkt.blockno == b && pkt.flag.Coded? ==> pkt.start + pkt.num <= end
    ensures Covers(Receive(c, pkt, room).client.blocks[Slot(b)].rows, end)
  {
    hide Covers, Expected, Waiting, WellFormed, WindowBlock, Store, Push, Decode, Receive, Slot, ValidBlock;
    ReceiveUnfold(c, pkt, room);
    hide ClientOf;
    var stored := Store(c, pkt);
    if c.curr <= b < c.curr + NUM_BLOCKS {
      StoreCovers(c, hist, pkt, b, end);
      PushCovers(stored, room, b, end);
    }
    DecodeCovers(Push(stored, room).0, b, end);
  }

  /** The receiver never loses degrees of freedom of its current block. */
  lemma ReceiveKeepsDofs(c: State, hist: seq<seq<seq<byte>>>, pkt: DataPacket, room: nat)
    requires ClientOf(c, hist) && Expected(c, hist, pkt) && WellFormed(pkt)
    ensures var d := Receive(c, pkt, room).client;
            d.curr == c.curr ==> d.blocks[Slot(d.curr)].dofs >= c.blocks[Slot(c.curr)].dofs
  {
    hide Covers, Expected, Waiting, WellFormed, WindowBlock, Store, Push, Decode, Receive, Slot, ValidBlock;
    ReceiveUnfold(c, pkt, room);
    hide ClientOf;
    StoreKeepsDofs(c, hist, pkt);
    var stored := Store(c, pkt);
    PushKeepsDofs(stored, room);
    DecodeAdvances(Push(stored, room).0);
  }

  lemma StoreKeepsDofs(c: State, hist: seq<seq<seq<byte>>>, pkt: DataPacket)
    requires ClientOf(c, hist) && Expected(c, hist, pkt) && WellFormed(pkt)
    ensures Store(c, pkt).blocks[Slot(c.curr)].dofs >= c.blocks[Slot(c.curr)].dofs
  {
    hide Covers, Absorb, Raise, Slot, ValidBlock, Encodes;
    if pkt.blockno >= c.curr {
      StoreOtherBlocks(c, pkt, c.curr);
      if pkt.blockno == c.curr {
        AbsorbKeepsDofs(c.blocks[Slot(c.curr)], pkt);
      }
    }
  }

  lemma AbsorbKeepsDofs(b: Block, pkt: DataPacket)
    requires ValidBlock(b) && WellFormed(pkt)
    ensures Absorb(Raise(b, pkt), pkt).dofs >= b.dofs
  {
    hide Reduce;
    RaiseValid(b, pkt);
    AbsorbValid(Raise(b, pkt), pkt);
  }

  /** The degrees of freedom of a block never exceed the packets the sender has put into it. */
  lemma DofsWithinBlock(c: State, hist: seq<seq<seq<byte>>>, b: nat)
    requires ClientOf(c, hist) && c.curr <= b < c.curr + NUM_BLOCKS
    ensures c.blocks[Slot(b)].dofs <= |Src(hist, b)|
  {
    assert WindowBlock(c, hist, b);
    FullBelowTop(c.blocks[Slot(b)]);
  }

  /** A row of a block is zero beyond the packets the sender has put into it. */
  lemma LengthCovers(c: State, hist: seq<seq<seq<byte>>>, b: nat)
    requires ClientOf(c, hist) && c.curr <= b < c.curr + NUM_BLOCKS
    ensures Covers(c.blocks[Slot(b)].rows, |Src(hist, b)|)
  {
    assert WindowBlock(c, hist, b);
  }
}
