/**
 A run that fills the first block one packet at a time: each packet is accepted, coded, sent, received
 and acknowledged before the next, and the first acknowledgement has a copy that stays in the network.
 */
module FirstBlock {
  import opened Config
  import opened FieldTables
  import opened Slots
  import opened Packets
  import opened Transport
  import opened Invariants
  import opened Reach
  import Delivery
  import EarlyDelivery
  import Framing
  import D = Decoder
  import S = Server
  import C = Client

  // ---------------------------------------------------------------------------------------------
  // The receiver hears the rows of its first block in order

  /** The block has its first k rows and has heard of no others. */
  predicate HasFirst(b: D.Block, k: nat)
  {
    b.dofs == k && b.top == k
  }

  lemma RowAbsorbed(b: D.Block, pkt: DataPacket, k: nat)
    requires D.ValidBlock(b) && HasFirst(b, k) && k < BLOCK_SIZE
    requires WellFormed(pkt) && pkt.flag.Normal? && pkt.start == k
    ensures D.ValidBlock(D.Raise(b, pkt))
    ensures HasFirst(D.Absorb(D.Raise(b, pkt), pkt), k + 1)
  {
    D.RaiseValid(b, pkt);
    assert D.FirstWindow(pkt).start == k && D.FirstWindow(pkt).coeffs == [1];
    assert b.rows[k].Empty?;
  }

  lemma PushKeepsFirst(c: C.State, room: nat, k: nat)
    requires C.Valid(c) && HasFirst(c.blocks[Slot(c.curr)], k)
    ensures HasFirst(C.Push(c, room).0.blocks[Slot(c.curr)], k)
    ensures forall i :: 0 <= i < NUM_BLOCKS && i != Slot(c.curr) ==> C.Push(c, room).0.blocks[i] == c.blocks[i]
  {
    hide D.ValidBlock, D.PartialWrite, Slot;
    D.PartialWriteValid(c.blocks[Slot(c.curr)], room);
  }

  lemma DecodeMovesOn(c: C.State)
    requires C.Valid(c) && C.Full(c.blocks[Slot(c.curr)]) && !C.Full(c.blocks[Slot(c.curr + 1)])
    ensures C.Decode(c).0.curr == c.curr + 1
    ensures C.Decode(c).0.blocks[Slot(c.curr + 1)] == c.blocks[Slot(c.curr + 1)]
  {
    hide Slot;
    OtherSlot(c.curr, c.curr, c.curr + 1);
    C.DecodeReachesAck(c, c);
    assert C.AckBlock(c, c.curr) == C.AckBlock(c, c.curr + 1);
  }

  /** Row k of the current block brings the receiver to row k + 1, or to the next block. */
  lemma RowHeard(c: C.State, pkt: DataPacket, room: nat, k: nat)
    requires C.Valid(c) && HasFirst(c.blocks[Slot(c.curr)], k) && k < BLOCK_SIZE
    requires c.blocks[Slot(c.curr + 1)].dofs < BLOCK_SIZE
    requires WellFormed(pkt) && pkt.flag.Normal? && pkt.start == k && pkt.blockno == c.curr
    ensures var d := C.Receive(c, pkt, room).client;
            && |d.blocks| == NUM_BLOCKS
            && if k + 1 < BLOCK_SIZE then d.curr == c.curr && HasFirst(d.blocks[Slot(d.curr)], k + 1)
               else d.curr == c.curr + 1 && d.blocks[Slot(d.curr)] == c.blocks[Slot(d.curr)]
    ensures var r := C.Receive(c, pkt, room);
            r.ack == Ack(pkt.seqno + 1, r.client.curr, r.client.blocks[Slot(r.client.curr)].dofs)
  {
    hide D.ValidBlock, D.Raise, D.Absorb, C.Store, C.Push, C.Decode, Slot, C.Receive, C.Full;
    Lengths(c);
    RowAbsorbed(c.blocks[Slot(c.curr)], pkt, k);
    Delivery.StoreOtherBlocks(c, pkt, c.curr);
    Delivery.StoreOtherBlocks(c, pkt, c.curr + 1);
    var stored := C.Store(c, pkt);
    PushKeepsFirst(stored, room, k + 1);
    var pushed := C.Push(stored, room).0;
    Lengths(pushed);
    OtherSlot(c.curr, c.curr, c.curr + 1);
    Delivery.ReceiveUnfold(c, pkt, room);
    C.AckAgreesWithDelivery(c, pkt, room);
    if k + 1 < BLOCK_SIZE {
      EarlyDelivery.DecodeStays(pushed);
    } else {
      DecodeMovesOn(pushed);
    }
  }

  /** The first row of the next block is kept there. */
  lemma NextRowHeard(c: C.State, pkt: DataPacket, room: nat, k: nat)
    requires C.Valid(c) && HasFirst(c.blocks[Slot(c.curr)], k) && k < BLOCK_SIZE
    requires HasFirst(c.blocks[Slot(c.curr + 1)], 0)
    requires WellFormed(pkt) && pkt.flag.Normal? && pkt.start == 0 && pkt.blockno == c.curr + 1
    ensures var d := C.Receive(c, pkt, room).client;
            && |d.blocks| == NUM_BLOCKS && d.curr == c.curr
            && HasFirst(d.blocks[Slot(c.curr)], k) && HasFirst(d.blocks[Slot(c.curr + 1)], 1)
  {
    hide D.ValidBlock, D.Raise, D.Absorb, C.Store, C.Push, C.Decode, Slot, C.Receive, C.Full;
    RowAbsorbed(c.blocks[Slot(c.curr + 1)], pkt, 0);
    Delivery.StoreOtherBlocks(c, pkt, c.curr);
    Delivery.StoreOtherBlocks(c, pkt, c.curr + 1);
    var stored := C.Store(c, pkt);
    OtherSlot(c.curr, c.curr, c.curr + 1);
    PushKeepsFirst(stored, room, k);
    var pushed := C.Push(stored, room).0;
    Lengths(pushed);
    Delivery.ReceiveUnfold(c, pkt, room);
    EarlyDelivery.DecodeStays(pushed);
  }

  lemma Lengths(c: C.State)
    requires C.Valid(c)
    ensures forall i :: 0 <= i < NUM_BLOCKS ==> c.blocks[i].len == BLOCK_SIZE
    ensures forall i :: 0 <= i < NUM_BLOCKS ==> (C.Full(c.blocks[i]) <==> c.blocks[i].dofs == BLOCK_SIZE)
  {
    forall i | 0 <= i < NUM_BLOCKS ensures c.blocks[i].len == BLOCK_SIZE {
      assert D.ValidBlock(c.blocks[i]);
    }
  }

  // ---------------------------------------------------------------------------------------------
  // One packet from end to end

  /** The sender has put k packets into block 1, its only one; none is queued or on order. */
  ghost predicate SenderAt(s: S.State, k: nat)
  {
    && S.Shaped(s) && s.curr == 1 && s.maxb == 1 && |s.blocks[Slot(1)]| == k && s.phase.Idle?
    && s.queues[Slot(1)] == [] && s.dofRemain[Slot(1)] == 0 && s.jobs == []
    && forall i :: 0 <= i < NUM_BLOCKS && i != Slot(1) ==> s.packetsSent[i] == 0
  }

  /** Once there has been an ack, a copy of the first stays in the network. */
  predicate Kept(acks: seq<Ack>, k: nat, una: nat)
  {
    if k == 0 then acks == []
    else |acks| == 1 && acks[0].blockno == 1 && acks[0].dofRec == 1 && acks[0].ackno <= una
  }

  /** k packets have been sent, received and acknowledged. */
  ghost predicate Synced(y: System, k: nat)
  {
    var (s, c) := (y.server, y.client);
    && SenderAt(s, k) && s.dofReq == 0 && s.una == s.nxt && y.data == [] && Kept(y.acks, k, s.una)
    && |c.blocks| == NUM_BLOCKS && c.curr == 1 && HasFirst(c.blocks[Slot(1)], k)
  }

  /** k packets have been received; the ack for the last is on its way. */
  ghost predicate Heard(y: System, k: nat)
    requires k > 0
  {
    var (s, c, n) := (y.server, y.client, |y.acks| - 1);
    && SenderAt(s, k) && s.dofReq == 1 && s.una + 1 == s.nxt && y.data == [] && |c.blocks| == NUM_BLOCKS
    && (if k < BLOCK_SIZE then c.curr == 1 && HasFirst(c.blocks[Slot(1)], k) else c.curr == 2)
    && n >= 0 && Kept(y.acks[..n], k - 1, s.una)
    && y.acks[n] == Ack(s.nxt, c.curr, c.blocks[Slot(c.curr)].dofs)
  }

  lemma InitialSynced()
    ensures Synced(Initial(), 0)
  {
  }

  /** The packet the next byte becomes. */
  function NextPacket(s: S.State, k: nat): DataPacket
    requires S.Shaped(s) && |s.blocks[Slot(1)]| == k
  {
    UncodedPacket(1, k, s.blocks[Slot(1)] + [Framing.Frame([0])])
  }

  /** A byte is accepted, and a job ordered for its packet. */
  lemma Enter(y: System, k: nat) returns (y': System)
    requires Reached(y, 0.0, true) && Synced(y, k) && k < BLOCK_SIZE
    ensures Reached(y', 0.0, true) && S.Shaped(y'.server)
    ensures var (s, i) := (y.server, Slot(1));
            var pkts := s.blocks[i] + [Framing.Frame([0])];
            && y' == y.(server := y'.server, hist := y'.hist, accepted := y'.accepted)
            && y'.server == s.(blocks := s.blocks[i := pkts], dofRemain := s.dofRemain[i := 1],
                               jobs := [S.Job(1, k, 1, 0)], dofReq := 1)
  {
    hide Inv, C.Valid, Slot, HasFirst, Kept, Framing.Frame, Reached;
    ReachedInv(y, 0.0, true);
    y' := AcceptByte(y, 0.0, true);
    assert y'.server.jobs == [S.Job(1, k, 1, 0)];
  }

  /** A byte is accepted and its packet queued. */
  lemma Write(y: System, k: nat) returns (y': System)
    requires Reached(y, 0.0, true) && Synced(y, k) && k < BLOCK_SIZE
    ensures Reached(y', 0.0, true) && S.Shaped(y'.server)
    ensures var (s, i) := (y.server, Slot(1));
            var pkts := s.blocks[i] + [Framing.Frame([0])];
            && y' == y.(server := y'.server, hist := y'.hist, accepted := y'.accepted)
            && y'.server == s.(blocks := s.blocks[i := pkts], queues := s.queues[i := [NextPacket(s, k)]],
                               dofRemain := s.dofRemain[i := 1], dofReq := 1)
  {
    hide Inv, C.Valid, Slot, HasFirst, Kept, Framing.Frame, UncodedPacket, Reached, S.JobPackets;
    var y1 := Enter(y, k);
    ReachedInv(y1, 0.0, true);
    NotAVisit(y1, Code(0, []));
    assert S.CodedShare(y1.server.jobs[0], k + 1) == 0;
    y' := Take(y1, 0.0, true, Code(0, []), 0.0);
    OneUncoded(y1.server.blocks[Slot(1)], k);
    assert y.server.queues[Slot(1)] + [NextPacket(y.server, k)] == [NextPacket(y.server, k)];
  }

  lemma OneUncoded(src: seq<seq<byte>>, k: nat)
    requires k + 1 == |src| && forall i :: 0 <= i < |src| ==> |src[i]| == PAYLOAD_SIZE
    ensures S.JobPackets(S.Job(1, k, 1, 0), src, []) == [UncodedPacket(1, k, src)]
  {
  }

  lemma OneNeeded(win: nat)
    requires win >= 1
    ensures S.NeededFor(win, 0.0, 0, 1) == 1
  {
    assert S.MeanOnFly(0.0, 0) == 0.0;
    assert S.Short(0, 0.0, 0.0, 1) && !S.Short(1, 0.0, 0.0, 1);
    assert S.Needed(win, 0.0, 0.0, 1, 1) == 1;
  }

  /** A pass begins and finds one packet needed, which is queued. */
  lemma Begin(y: System) returns (y': System)
    requires Reached(y, 0.0, true) && S.Shaped(y.server) && y.server.phase.Idle? && y.server.curr == 1
    requires y.server.una == y.server.nxt && y.server.dofReq == 1 && y.server.dofRemain[Slot(1)] == 1
    ensures Reached(y', 0.0, true)
    ensures var ph := y'.server.phase;
            && y' == y.(server := y.server.(phase := ph))
            && ph.Sending? && ph.blockno == 1 && ph.left == 1 && ph.win >= 1 && ph.limit == y.server.maxb
  {
    hide Inv, C.Valid, Slot, S.NeededNow, S.Sized;
    ReachedInv(y, 0.0, true);
    RoomToSend(y);
    NotAVisit(y, Start(0.0));
    var y1 := Take(y, 0.0, true, Start(0.0), 0.0);
    NeedsOne(y1.server);
    y' := Take(y1, 0.0, true, Visit(0.0), 0.0);
    VisitAsks(y1.server, 0.0);
    assert y1.server.dofRemain[Slot(1) := 1] == y1.server.dofRemain;
    AskedNothing(y1.server);
  }

  lemma NeedsOne(s: S.State)
    requires S.Shaped(s) && s.phase.Visiting? && s.phase.blockno == s.curr && s.dofReq == 1
    requires s.phase.win >= 1 && s.phase.onFly == 0
    ensures S.NeededNow(s, 0.0) == 1
  {
    OneNeeded(s.phase.win);
  }

  lemma AskedNothing(s: S.State)
    requires S.Shaped(s) && s.phase.Visiting? && S.MayVisit(s)
    requires S.NeededNow(s, 0.0) <= s.dofRemain[Slot(s.phase.blockno)]
    ensures S.VisitBlock(s, 0.0) == s.(phase := S.VisitBlock(s, 0.0).phase)
  {
    hide Slot, S.NeededNow;
  }

  /** The packet is sent. */
  lemma Post(y: System, pkt: DataPacket) returns (y': System)
    requires Reached(y, 0.0, true) && S.Shaped(y.server) && y.data == []
    requires var ph := y.server.phase; ph.Sending? && ph.blockno == 1 && ph.left == 1 && ph.win >= 1
    requires y.server.dofRemain[Slot(1)] == 1 && y.server.queues[Slot(1)] == [pkt]
    ensures Reached(y', 0.0, true) && S.Shaped(y'.server)
    ensures var (s, s', i) := (y.server, y'.server, Slot(1));
            && y' == y.(server := s', data := [pkt.(seqno := s.nxt)])
            && s' == s.(queues := s.queues[i := []], dofRemain := s.dofRemain[i := 0], onFly := s'.onFly,
                        txTime := s'.txTime, packetsSent := s'.packetsSent, nxt := s.nxt + 1,
                        phase := s.phase.(left := 0, win := s.phase.win - 1))
            && forall j :: 0 <= j < NUM_BLOCKS && j != i ==> s'.packetsSent[j] == s.packetsSent[j]
  {
    hide Inv, C.Valid, Slot, S.Sized, Reached;
    ReachedInv(y, 0.0, true);
    NotAVisit(y, Send(0.0));
    y' := Take(y, 0.0, true, Send(0.0), 0.0);
    assert [] + [pkt.(seqno := y.server.nxt)] == [pkt.(seqno := y.server.nxt)];
    assert [pkt][1..] == [];
  }

  lemma RoomToSend(y: System)
    requires Inv(y)
    ensures y.server.una <= y.server.nxt && 2 <= y.server.cwnd && 1 <= y.server.maxb
  {
    hide ClientInv, NetInv, AcksInv, SlotInv, JobInv;
  }

  /** What the receiver knows of the block after the last of the sender. */
  lemma NothingBeyond(y: System)
    requires Inv(y) && y.server.maxb == 1 && y.client.curr == 1
    ensures |y.client.blocks| == NUM_BLOCKS && y.client.blocks[Slot(2)].dofs == 0
  {
    hide NetInv, AcksInv, SlotInv, JobInv, Delivery.WindowBlock;
    Delivery.DofsWithinBlock(y.client, y.hist, 2);
  }

  /** The packet is received and the pass ends. */
  lemma Deliver(y: System, k: nat) returns (y': System)
    requires Reached(y, 0.0, true) && S.Shaped(y.server) && y.server.maxb == 1 && y.server.curr == 1
    requires y.server.phase.Sending? && y.server.phase.left == 0 && y.server.phase.blockno == 1
    requires y.server.phase.limit == 1 && k < BLOCK_SIZE && |y.data| == 1
    requires WellFormed(y.data[0]) && y.data[0].flag.Normal? && y.data[0].start == k && y.data[0].blockno == 1
    requires |y.client.blocks| == NUM_BLOCKS && y.client.curr == 1 && HasFirst(y.client.blocks[Slot(1)], k)
    ensures Reached(y', 0.0, true)
    ensures var c := y'.client;
            && y' == y.(server := y.server.(phase := S.Idle), client := c, data := [], acks := y'.acks,
                        delivered := y'.delivered)
            && |c.blocks| == NUM_BLOCKS
            && y'.acks == y.acks + [Ack(y.data[0].seqno + 1, c.curr, c.blocks[Slot(c.curr)].dofs)]
            && if k + 1 < BLOCK_SIZE then c.curr == 1 && HasFirst(c.blocks[Slot(1)], k + 1) else c.curr == 2
  {
    hide Inv, C.Valid, S.Sized, Slot, HasFirst, WellFormed, C.Receive, Reached;
    ReachedInv(y, 0.0, true);
    NothingBeyond(y);
    RowHeard(y.client, y.data[0], 0, k);
    NotAVisit(y, Receive(0));
    var y1 := Take(y, 0.0, true, Receive(0), 0.0);
    y' := Finish(y1);
  }

  /** The last block is passed. */
  lemma Finish(y: System) returns (y': System)
    requires Reached(y, 0.0, true) && S.Shaped(y.server) && y.server.phase.Sending? && y.server.phase.left == 0
    requires y.server.phase.limit == 1 && y.server.phase.blockno == 1
    ensures Reached(y', 0.0, true) && y' == y.(server := y.server.(phase := S.Idle))
  {
    hide Inv, C.Valid, S.Sized, Slot, Reached;
    ReachedInv(y, 0.0, true);
    NotAVisit(y, Leave);
    var y1 := Take(y, 0.0, true, Leave, 0.0);
    y' := EndPass(y1, 0.0, true);
  }

  /** One round up to the acknowledgement. */
  lemma Hear(y: System, k: nat) returns (y': System)
    requires Reached(y, 0.0, true) && Synced(y, k) && k < BLOCK_SIZE
    ensures Reached(y', 0.0, true) && Heard(y', k + 1)
  {
    hide Reached, HasFirst, Framing.Frame, Slot;
    var y1 := Write(y, k);
    var y2 := Begin(y1);
    var y3 := Post(y2, NextPacket(y.server, k));
    NextWellFormed(y.server, k);
    y' := Deliver(y3, k);
    assert y'.acks[..|y'.acks| - 1] == y.acks;
  }

  lemma NextWellFormed(s: S.State, k: nat)
    requires S.Shaped(s) && |s.blocks[Slot(1)]| == k && k < BLOCK_SIZE
    ensures var pkt := NextPacket(s, k).(seqno := s.nxt);
            WellFormed(pkt) && pkt.flag.Normal? && pkt.start == k && pkt.blockno == 1
  {
    hide Framing.Frame;
  }

  /** The last ack comes to the front; the first one keeps a copy in the network. */
  lemma Arrange(y: System, k: nat) returns (y': System)
    requires 0 < k < BLOCK_SIZE && Reached(y, 0.0, true) && Heard(y, k)
    ensures Reached(y', 0.0, true) && |y'.acks| == 2 && y' == y.(acks := y'.acks)
    ensures y'.acks[0] == y.acks[|y.acks| - 1] && Kept(y'.acks[1..], k, y.server.nxt)
  {
    hide Inv, C.Valid, S.Sized, Slot, Reached;
    ReachedInv(y, 0.0, true);
    var step := if k == 1 then RepeatAck(0) else SwapAcks(0);
    NotAVisit(y, step);
    y' := Take(y, 0.0, true, step, 0.0);
    if k == 1 {
      assert Repeated(y.acks, 0) == [y.acks[0], y.acks[0]];
    } else {
      assert y.acks[..1] == [y.acks[0]];
      assert Swapped(y.acks, 0) == [y.acks[1], y.acks[0]];
    }
  }

  /** The acknowledgement is taken; of the first one a copy is left behind. */
  lemma Sync(y: System, k: nat) returns (y': System)
    requires 0 < k < BLOCK_SIZE && Reached(y, 0.0, true) && Heard(y, k)
    ensures Reached(y', 0.0, true) && Synced(y', k)
  {
    hide Inv, Slot, Reached;
    var y1 := Arrange(y, k);
    y' := TakeInPlace(y1, 0.0, true, 2);
  }

  /** The first packets of block 1 are sent, received and acknowledged. */
  lemma {:induction false} SyncFirst(k: nat) returns (y: System)
    requires k < BLOCK_SIZE
    ensures Reached(y, 0.0, true) && Synced(y, k)
  {
    hide Synced, Heard, Reached;
    if k == 0 {
      InitialReached(0.0, true);
      InitialSynced();
      y := Initial();
    } else {
      var y0 := SyncFirst(k - 1);
      var y1 := Hear(y0, k - 1);
      y := Sync(y1, k);
    }
  }

  /** The receiver has all of block 1, and the sender has not heard of it. */
  lemma FirstBlockHeard() returns (y: System)
    ensures Reached(y, 0.0, true) && Heard(y, BLOCK_SIZE)
  {
    hide Synced, Heard, Reached;
    var y0 := SyncFirst(BLOCK_SIZE - 1);
    y := Hear(y0, BLOCK_SIZE - 1);
  }
}
