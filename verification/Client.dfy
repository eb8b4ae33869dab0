/**
 The receiving end on values: unmarshallData and bldack of src/clictcp.c over the ring of blocks.
 */
module Client {
  import opened Config
  import opened FieldTables
  import opened Slots
  import opened Packets
  import opened Decoder

  /** The block the receiver is working on, and the ring of block slots. */
  datatype State = State(curr: nat, blocks: seq<Block>)

  /** create_clictcp_sock. */
  function Initial(): State
  {
    State(1, seq(NUM_BLOCKS, _ => EmptyBlock()))
  }

  ghost predicate Valid(c: State)
  {
    && |c.blocks| == NUM_BLOCKS
    && (forall i :: 0 <= i < NUM_BLOCKS ==> ValidBlock(c.blocks[i]))
  }

  /** Between packets the current block still lacks a row: full blocks have been written out. */
  ghost predicate Waiting(c: State)
    requires |c.blocks| == NUM_BLOCKS
  {
    c.blocks[Slot(c.curr)].dofs < c.blocks[Slot(c.curr)].len
  }

  predicate Full(b: Block)
  {
    b.dofs == b.len
  }

  // ---------------------------------------------------------------------------------------------
  // Storing the packet

  /** unmarshallData, then lines 584 to 707: the packet goes to its block if that is in the window. */
  function Store(c: State, pkt: DataPacket): (c': State)
    requires Valid(c) && WellFormed(pkt)
    ensures Valid(c') && c'.curr == c.curr
  {
    var s := Slot(pkt.blockno);
    if pkt.blockno < c.curr then
      c
    else
      var b := Raise(c.blocks[s], pkt);
      RaiseValid(c.blocks[s], pkt);
      if pkt.blockno >= c.curr + NUM_BLOCKS then
        c.(blocks := c.blocks[s := b])
      else
        AbsorbValid(b, pkt);
        c.(blocks := c.blocks[s := Absorb(b, pkt)])
  }

  /** A packet past the window is heard of, but not stored. */
  lemma StoreBeyond(c: State, pkt: DataPacket)
    requires Valid(c) && WellFormed(pkt) && pkt.blockno >= c.curr + NUM_BLOCKS
    ensures forall i :: 0 <= i < NUM_BLOCKS ==>
              var (b, b') := (c.blocks[i], Store(c, pkt).blocks[i]);
              && b' == b.(top := b'.top)
              && b'.top == if i == Slot(pkt.blockno) && pkt.start + pkt.num > b.top then pkt.start + pkt.num else b.top
  {
    hide Slot, ValidBlock;
  }

  // ---------------------------------------------------------------------------------------------
  // The acknowledgement

  /** The loop of lines 715 to 721: the first block at or after `blockno` that is not full. */
  function AckBlock(c: State, blockno: nat): (b: nat)
    requires |c.blocks| == NUM_BLOCKS && c.curr <= blockno <= c.curr + NUM_BLOCKS
    ensures blockno <= b <= c.curr + NUM_BLOCKS
    ensures forall k :: blockno <= k < b ==> Full(c.blocks[Slot(k)])
    ensures b < c.curr + NUM_BLOCKS ==> !Full(c.blocks[Slot(b)])
    decreases c.curr + NUM_BLOCKS - blockno
  {
    if Full(c.blocks[Slot(blockno)]) && blockno < c.curr + NUM_BLOCKS then AckBlock(c, blockno + 1) else blockno
  }

  /** The ack bldack builds before it decodes, lines 711 to 725. */
  function BuildAck(c: State, ackno: nat): Ack
    requires |c.blocks| == NUM_BLOCKS
  {
    var b := AckBlock(c, c.curr);
    Ack(ackno, b, if b >= c.curr + NUM_BLOCKS then 0 else c.blocks[Slot(b)].dofs)
  }

  // ---------------------------------------------------------------------------------------------
  // Delivery

  /** Lines 747 to 749: push what is solved of a block that still lacks rows. */
  function Push(c: State, room: nat): (r: (State, seq<byte>))
    requires Valid(c)
    ensures Valid(r.0) && r.0.curr == c.curr
  {
    var b := c.blocks[Slot(c.curr)];
    if b.dofs < b.len then
      PartialWriteValid(b, room);
      var (b', bytes) := PartialWrite(b, room);
      (c.(blocks := c.blocks[Slot(c.curr) := b']), bytes)
    else
      (c, [])
  }

  function CountFullBlocks(blocks: seq<Block>, n: nat): nat
    requires n <= |blocks|
  {
    if n == 0 then 0 else CountFullBlocks(blocks, n - 1) + if Full(blocks[n - 1]) then 1 else 0
  }

  lemma {:induction false} EmptyingLowersCount(blocks: seq<Block>, n: nat, s: nat)
    requires n <= |blocks| && s < |blocks| && Full(blocks[s])
    ensures CountFullBlocks(blocks[s := EmptyBlock()], n) == CountFullBlocks(blocks, n) - if s < n then 1 else 0
  {
    if n > 0 {
      EmptyingLowersCount(blocks, n - 1, s);
    }
  }

  /** The loop of lines 752 to 777: write out full blocks, empty their slots, move on. */
  function Decode(c: State): (r: (State, seq<byte>))
    requires Valid(c)
    ensures Valid(r.0) && Waiting(r.0) && c.curr <= r.0.curr
    decreases CountFullBlocks(c.blocks, NUM_BLOCKS)
  {
    var s := Slot(c.curr);
    if Full(c.blocks[s]) then
      EmptyBlockValid();
      EmptyingLowersCount(c.blocks, NUM_BLOCKS, s);
      var (c', bytes) := Decode(State(c.curr + 1, c.blocks[s := EmptyBlock()]));
      (c', WriteBlock(c.blocks[s]) + bytes)
    else
      assert ValidBlock(c.blocks[s]);
      DofsBounded(c.blocks[s]);
      (c, [])
  }

  lemma DofsBounded(b: Block)
    requires ValidBlock(b)
    ensures b.dofs <= b.len
  {
    FullBelowTop(b);
  }

  datatype Reception = Reception(client: State, ack: Ack, bytes: seq<byte>)

  /** What the arrival of one packet does, when the user's buffer has room for `room` more packets. */
  function Receive(c: State, pkt: DataPacket, room: nat): Reception
    requires Valid(c) && WellFormed(pkt)
  {
    var stored := Store(c, pkt);
    var ack := BuildAck(stored, pkt.seqno + 1);
    var (pushed, bytes) := Push(stored, room);
    var (decoded, more) := Decode(pushed);
    Reception(decoded, ack, bytes + more)
  }

  // ---------------------------------------------------------------------------------------------
  // The ack agrees with what is delivered

  /** c' is c after the blocks from c.curr up to c'.curr have been written out and emptied. */
  ghost predicate Advanced(c: State, c': State)
    requires |c.blocks| == |c'.blocks| == NUM_BLOCKS
  {
    && c.curr <= c'.curr <= c.curr + NUM_BLOCKS
    && (forall k :: c.curr <= k < c'.curr ==> c'.blocks[Slot(k)] == EmptyBlock())
    && (forall k :: c'.curr <= k < c.curr + NUM_BLOCKS ==> c'.blocks[Slot(k)] == c.blocks[Slot(k)])
  }

  lemma AdvanceOne(c: State, d: State)
    requires |c.blocks| == |d.blocks| == NUM_BLOCKS && Advanced(c, d) && d.curr < c.curr + NUM_BLOCKS
    ensures Advanced(c, State(d.curr + 1, d.blocks[Slot(d.curr) := EmptyBlock()]))
  {
    hide Slot, EmptyBlock;
    forall k | c.curr <= k < c.curr + NUM_BLOCKS && k != d.curr ensures Slot(k) != Slot(d.curr) {
      OtherSlot(c.curr, k, d.curr);
    }
  }

  /** The current block is as it was, or the ring has come round to a block that has been emptied. */
  lemma AdvancedCurrent(c: State, d: State)
    requires |c.blocks| == |d.blocks| == NUM_BLOCKS && Advanced(c, d)
    ensures d.blocks[Slot(d.curr)] ==
      if d.curr < c.curr + NUM_BLOCKS then c.blocks[Slot(d.curr)] else EmptyBlock()
  {
    SlotWraps(c.curr);
    hide Slot, EmptyBlock;
  }

  lemma AdvancedBound(c: State, d: State)
    requires |c.blocks| == |d.blocks| == NUM_BLOCKS && Advanced(c, d)
    ensures c.curr <= d.curr <= c.curr + NUM_BLOCKS
  {
  }

  /** The decode loop stops where the ack loop stopped, one emptied slot per acknowledged block. */
  lemma {:induction false} DecodeReachesAck(c: State, d: State)
    requires Valid(c) && Valid(d) && Advanced(c, d)
    requires AckBlock(c, c.curr) == AckBlock(c, d.curr)
    ensures var e := Decode(d).0; e.curr == AckBlock(c, c.curr) && Advanced(c, e)
    decreases CountFullBlocks(d.blocks, NUM_BLOCKS)
  {
    hide WriteBlock, EmptyBlock, ValidBlock, Slot, Advanced, CountFullBlocks;
    var s := Slot(d.curr);
    AdvancedCurrent(c, d);
    AdvancedBound(c, d);
    if d.curr == c.curr + NUM_BLOCKS {
      EmptyBlockNotFull();
    } else if Full(d.blocks[s]) {
      EmptyBlockValid();
      EmptyingLowersCount(d.blocks, NUM_BLOCKS, s);
      AdvanceOne(c, d);
      DecodeReachesAck(c, State(d.curr + 1, d.blocks[s := EmptyBlock()]));
    }
  }

  lemma EmptyBlockNotFull()
    ensures !Full(EmptyBlock()) && EmptyBlock().dofs == 0
  {
  }

  /**
   The block number and degrees of freedom acknowledged before decoding are those of the receiver
   after decoding, even when every slot was full and the index wraps.
   */
  lemma AckAgreesWithDelivery(c: State, pkt: DataPacket, room: nat)
    requires Valid(c) && WellFormed(pkt)
    ensures var r := Receive(c, pkt, room);
            && r.ack.ackno == pkt.seqno + 1
            && r.ack.blockno == r.client.curr
            && r.ack.dofRec == r.client.blocks[Slot(r.client.curr)].dofs
  {
    hide Store, PartialWrite, EmptyBlock, ValidBlock;
    var stored := Store(c, pkt);
    var pushed := Push(stored, room).0;
    PushKeepsDofs(stored, room);
    AckBlockSame(stored, pushed, stored.curr);
    DecodeReachesAck(pushed, pushed);
    var b := AckBlock(pushed, pushed.curr);
    if b == pushed.curr + NUM_BLOCKS {
      SlotWraps(pushed.curr);
      EmptyBlockNotFull();
    }
  }

  /** Pushing early changes no counter the ack depends on. */
  lemma PushKeepsDofs(c: State, room: nat)
    requires Valid(c)
    ensures var c' := Push(c, room).0;
            && c'.curr == c.curr
            && forall i :: 0 <= i < NUM_BLOCKS ==>
                c'.blocks[i].dofs == c.blocks[i].dofs && c'.blocks[i].len == c.blocks[i].len
  {
    hide PartialWrite, ValidBlock;
    var b := c.blocks[Slot(c.curr)];
    PartialWriteValid(b, room);
    LenIsBlockSize(b);
    LenIsBlockSize(PartialWrite(b, room).0);
  }

  lemma LenIsBlockSize(b: Block)
    requires ValidBlock(b)
    ensures b.len == BLOCK_SIZE
  {
  }

  lemma {:induction false} AckBlockSame(c: State, c': State, blockno: nat)
    requires |c.blocks| == |c'.blocks| == NUM_BLOCKS && c'.curr == c.curr <= blockno <= c.curr + NUM_BLOCKS
    requires forall i :: 0 <= i < NUM_BLOCKS ==>
        c'.blocks[i].dofs == c.blocks[i].dofs && c'.blocks[i].len == c.blocks[i].len
    ensures AckBlock(c', blockno) == AckBlock(c, blockno)
    decreases c.curr + NUM_BLOCKS - blockno
  {
    if blockno < c.curr + NUM_BLOCKS {
      AckBlockSame(c, c', blockno + 1);
    }
  }
}
