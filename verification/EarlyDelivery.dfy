/**
 Early delivery: what the receiver has pushed after each packet. While it stays at a block, everything it can
 solve of the block is delivered at once; when a packet completes a block, what is already known of the
 next block waits for one more packet, which may never be sent.
 */
module EarlyDelivery {
  import opened Config
  import opened FieldTables
  import opened Slots
  import opened Elimination
  import opened Framing
  import opened Packets
  import opened Decoder
  import opened Recovery
  import opened Client
  import opened Delivery

  // ---------------------------------------------------------------------------------------------
  // One block

  /** Nothing more can be pushed: the next row is not solved, and with as many rows as packets none is left. */
  ghost predicate Exhausted(b: Block)
    requires |b.rows| == BLOCK_SIZE
  {
    && (b.pushed < BLOCK_SIZE ==> !Solved(b.rows[b.pushed]))
    && (b.dofs == b.top ==> b.pushed == b.top)
  }

  /** With room for all packets, partial_write pushes everything it can. */
  lemma PartialWriteExhausts(b: Block, room: nat)
    requires ValidBlock(b) && room >= BLOCK_SIZE
    ensures var b' := PartialWrite(b, room).0; |b'.rows| == BLOCK_SIZE && Exhausted(b')
  {
    hide Unwrap, Solved, Count, Covers, ValidRows;
    UnwrapValid(b);
    PartialWriteValid(b, room);
    PushedBelowTop(PartialWrite(b, room).0);
    RowsAre(PartialWrite(b, room).0);
  }

  lemma RowsAre(b: Block)
    requires ValidBlock(b)
    ensures |b.rows| == BLOCK_SIZE
  {
  }

  // ---------------------------------------------------------------------------------------------
  // One packet

  /** Pushing from a current block that lacks rows exhausts it. */
  lemma PushExhausts(c: State, room: nat)
    requires Valid(c) && !Full(c.blocks[Slot(c.curr)]) && room >= BLOCK_SIZE
    ensures var b := Push(c, room).0.blocks[Slot(c.curr)];
            |b.rows| == BLOCK_SIZE && Exhausted(b) && !Full(b)
  {
    hide PartialWrite, ValidBlock, Exhausted, Slot;
    var b := c.blocks[Slot(c.curr)];
    assert ValidBlock(b);
    DofsBounded(b);
    PartialWriteExhausts(b, room);
    PushKeepsDofs(c, room);
  }

  lemma DecodeStays(c: State)
    requires Valid(c) && !Full(c.blocks[Slot(c.curr)])
    ensures Decode(c).0 == c
  {
  }

  /** Decoding a full block moves on. */
  lemma DecodeMoves(c: State)
    requires Valid(c) && Full(c.blocks[Slot(c.curr)])
    ensures Decode(c).0.curr > c.curr
  {
    hide ValidBlock, EmptyBlock, WriteBlock;
    EmptyBlockValid();
    EmptyingLowersCount(c.blocks, NUM_BLOCKS, Slot(c.curr));
  }

  /** Of a block the receiver moves on to nothing has been pushed. */
  lemma NothingPushedOfNext(c: State, hist: seq<seq<seq<byte>>>)
    requires ClientOf(c, hist)
    ensures Valid(c)
    ensures var d := Decode(c).0; d.curr > c.curr ==> d.blocks[Slot(d.curr)].pushed == 0
  {
    hide Slot, EmptyBlock, BlockOf, ValidBlock;
    ClientIsValid(c, hist);
    DecodeAdvances(c);
    var d := Decode(c).0;
    AdvancedBound(c, d);
    AdvancedCurrent(c, d);
    NothingPushedFromEmptyBlock();
    if c.curr < d.curr < c.curr + NUM_BLOCKS {
      assert WindowBlock(c, hist, d.curr);
    }
  }

  /**
   With room in the user's buffer: the arrival of a packet leaves nothing of the current block that could
   be pushed, if and only if the receiver stays at its block, or knows nothing yet that it could push of
   the block it moves to.
   */
  lemma ReceiveExhausts(c: State, hist: seq<seq<seq<byte>>>, pkt: DataPacket, room: nat)
    requires ClientOf(c, hist) && Expected(c, hist, pkt) && WellFormed(pkt) && room >= BLOCK_SIZE
    ensures Valid(Receive(c, pkt, room).client)
    ensures var d := Receive(c, pkt, room).client;
            var b := d.blocks[Slot(d.curr)];
            && |b.rows| == BLOCK_SIZE && d.curr >= c.curr
            && (d.curr > c.curr ==> b.pushed == 0)
            && (Exhausted(b) <==> d.curr == c.curr || (!Solved(b.rows[0]) && (b.dofs == b.top ==> b.top == 0)))
  {
    hide Slot, Solved, Expected, WellFormed, WindowBlock, Store, Push, Decode, Receive, ValidBlock;
    ClientIsValid(c, hist);
    hide ClientOf;
    ReceiveUnfold(c, pkt, room);
    ReceiveDelivers(c, pkt, room, hist);
    var stored := Store(c, pkt);
    StoreKeeps(c, pkt, hist);
    var pushed := Push(stored, room).0;
    PushDelivers(stored, room, hist);
    NothingPushedOfNext(pushed, hist);
    ClientIsValid(Receive(c, pkt, room).client, hist);
    RowsAre(Receive(c, pkt, room).client.blocks[Slot(Receive(c, pkt, room).client.curr)]);
    PushKeepsDofs(stored, room);
    if Full(pushed.blocks[Slot(pushed.curr)]) {
      DecodeMoves(pushed);
    } else {
      PushExhausts(stored, room);
      DecodeStays(pushed);
    }
  }

  // ---------------------------------------------------------------------------------------------
  // Everything there is

  /** The receiver has as many equations of its current block as the sender has put packets into it. */
  ghost predicate HoldsAll(c: State, hist: seq<seq<seq<byte>>>)
    requires |c.blocks| == NUM_BLOCKS
  {
    c.blocks[Slot(c.curr)].dofs == |Src(hist, c.curr)|
  }

  /** If it holds all of a block that lacks rows, that block is the last there is, and its index of packets is exact. */
  lemma HeldBlock(c: State, hist: seq<seq<seq<byte>>>)
    requires ClientOf(c, hist) && Waiting(c) && HoldsAll(c, hist) && 1 <= c.curr
    requires forall b :: 1 <= b < |hist| - 1 ==> |hist[b]| == BLOCK_SIZE
    ensures var b := c.blocks[Slot(c.curr)];
            && b.dofs == b.top == |Src(hist, c.curr)| < BLOCK_SIZE
            && |hist| - 1 <= c.curr <= |hist|
  {
    hide Slot, SoundRows;
    assert WindowBlock(c, hist, c.curr);
    FullBelowTop(c.blocks[Slot(c.curr)]);
  }

  /** What has been delivered, by how far the last block has been pushed. */
  lemma DeliveredOfLast(c: State, hist: seq<seq<seq<byte>>>, pushed: nat)
    requires ClientOf(c, hist) && 1 <= |hist| && |hist| - 1 <= c.curr <= |hist|
    requires pushed == c.blocks[Slot(c.curr)].pushed && pushed in {0, |Src(hist, c.curr)|}
    ensures Delivered(c, hist) == Stream(hist, |hist|)
            <==> pushed == |Src(hist, c.curr)| || Bytes(Src(hist, c.curr)) == []
  {
    hide Slot, WindowBlock, Stream, Bytes;
    var src := Src(hist, c.curr);
    assert src[..|src|] == src && src[..0] == [];
    assert Delivered(c, hist) == Stream(hist, c.curr) + Bytes(src[..pushed]);
    BytesOfNone();
    if c.curr < |hist| {
      assert |hist| == c.curr + 1;
      StreamNext(hist, c.curr);
      SameSum(Stream(hist, c.curr), Bytes(src[..pushed]), Bytes(src));
      if pushed == |src| {
        assert src[..pushed] == src;
      } else {
        assert src[..pushed] == [];
      }
    } else {
      assert |hist| == c.curr && src == [];
      assert src[..pushed] == [];
      SameSum(Stream(hist, c.curr), Bytes(src[..pushed]), []);
    }
  }

  lemma SameSum(a: seq<byte>, b: seq<byte>, c: seq<byte>)
    ensures a + b == a + c <==> b == c
    ensures a + [] == a
  {
    if a + b == a + c {
      assert (a + b)[|a|..] == b && (a + c)[|a|..] == c;
    }
  }
}
