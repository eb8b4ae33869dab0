/**
 Whether the last bytes of a stream arrive. A receiver that has everything the sender sent has delivered all
 of it, unless the packet that came last completed a block: then the next block waits for one more
 packet. A run shows that the sender may never send it.
 */
module LastBytes {
  import opened Config
  import opened FieldTables
  import opened Slots
  import opened Framing
  import opened Transport
  import opened Invariants
  import opened Reach
  import Decoder
  import Delivery
  import EarlyDelivery
  import FirstBlock
  import GuardRuns
  import NetworkProofs
  import Packets
  import Safety
  import SenderProofs
  import Windows
  import S = Server
  import C = Client

  // ---------------------------------------------------------------------------------------------
  // Every run

  lemma ReceptionExhausts(y: System, room: nat)
    requires Inv(y) && Enabled(y, Receive(room)) && room >= BLOCK_SIZE
    ensures var (c, d) := (y.client, After(y, Receive(room)).client);
            && C.Valid(d) && d.curr >= c.curr
            && var b := d.blocks[Slot(d.curr)];
            && |b.rows| == BLOCK_SIZE
            && (d.curr == c.curr ==> EarlyDelivery.Exhausted(b)) && (d.curr > c.curr ==> b.pushed == 0)
  {
    hide ServerInv, NetInv, AcksInv, Slot, Delivery.ClientOf, C.Receive, Delivery.Expected, Packets.WellFormed,
      Delivery.Stream, Delivery.Delivered, EarlyDelivery.Exhausted, Decoder.ValidBlock;
    Safety.HistoryShape(y);
    NetworkProofs.ArrivalExpected(y.server, y.client, y.data, y.hist);
    EarlyDelivery.ReceiveExhausts(y.client, y.hist, y.data[0], room);
  }

  /** The bytes delivered and accepted, in a state that satisfies the invariants and holds all that was sent. */
  lemma HeldAndDelivered(y: System)
    requires Inv(y) && |y.client.blocks| == NUM_BLOCKS && EarlyDelivery.HoldsAll(y.client, y.hist)
    ensures var b := y.client.blocks[Slot(y.client.curr)];
            && b.dofs == b.top == |Delivery.Src(y.hist, y.client.curr)|
            && Delivery.IsHistory(y.hist)
            && (b.pushed in {0, b.top} ==>
                 (y.delivered == y.accepted <==> b.pushed == b.top || Bytes(Delivery.Src(y.hist, y.client.curr)) == []))
  {
    hide NetInv, AcksInv, Slot, Delivery.WindowBlock, Delivery.Stream, Bytes, JobInv, SlotInv, C.Valid,
      Delivery.Delivered;
    EarlyDelivery.HeldBlock(y.client, y.hist);
    var b := y.client.blocks[Slot(y.client.curr)];
    if b.pushed == 0 || b.pushed == b.top {
      EarlyDelivery.DeliveredOfLast(y.client, y.hist, b.pushed);
    }
  }

  /**
   In every run, when a packet has been received with room in the user's buffer and the receiver then has all
   that was sent: all bytes accepted have been delivered if and only if the receiver stayed at its block, or the
   block it has moved to carries none.
   */
  lemma EverythingDelivered(run: seq<System>, steps: seq<Step>, i: nat, room: nat)
    requires IsRun(run, steps) && i < |steps| && steps[i] == Receive(room) && room >= BLOCK_SIZE
    requires |run[i + 1].client.blocks| == NUM_BLOCKS && EarlyDelivery.HoldsAll(run[i + 1].client, run[i + 1].hist)
    ensures Delivery.IsHistory(run[i + 1].hist)
    ensures var (y, y') := (run[i], run[i + 1]);
            y'.delivered == y'.accepted
            <==> y'.client.curr == y.client.curr || Bytes(Delivery.Src(y'.hist, y'.client.curr)) == []
  {
    hide Inv, Enabled, Strict, After, Slot, Bytes, EarlyDelivery.HoldsAll;
    Safety.RunKeepsInv(run, steps, i);
    Safety.RunKeepsInv(run, steps, i + 1);
    assert run[i + 1] == After(run[i], steps[i]);
    ReceptionExhausts(run[i], room);
    HeldAndDelivered(run[i + 1]);
    NoBytesOfNone(Delivery.Src(run[i + 1].hist, run[i + 1].client.curr));
  }

  lemma NoBytesOfNone(src: seq<seq<byte>>)
    requires IsBlock(src)
    ensures src == [] ==> Bytes(src) == []
  {
  }

  // ---------------------------------------------------------------------------------------------
  // A run in which the last byte waits

  /** Block 1 is full, its last packet queued; the receiver has all packets but that one, and nothing of block 2. */
  ghost predicate LastQueued(y: System, p1: Packets.DataPacket)
  {
    var (s, c) := (y.server, y.client);
    && S.Shaped(s) && s.curr == 1 && s.dofReq == 1 && s.una == s.nxt && s.phase.Idle? && s.jobs == []
    && |s.blocks[Slot(1)]| == BLOCK_SIZE && s.queues[Slot(1)] == [p1] && s.dofRemain[Slot(1)] == 1
    && Packets.WellFormed(p1) && p1.flag.Normal? && p1.start == BLOCK_SIZE - 1 && p1.blockno == 1
    && y.data == [] && |c.blocks| == NUM_BLOCKS && c.curr == 1
    && FirstBlock.HasFirst(c.blocks[Slot(1)], BLOCK_SIZE - 1) && FirstBlock.HasFirst(c.blocks[Slot(2)], 0)
  }

  lemma QueueLast() returns (y: System, p1: Packets.DataPacket)
    requires BLOCK_SIZE >= 2
    ensures Reached(y, 0.0, true) && LastQueued(y, p1) && y.server.maxb == 1 && |y.acks| == 1
  {
    hide Inv, C.Valid, Slot, Reached, FirstBlock.HasFirst, Packets.WellFormed;
    var y0 := FirstBlock.SyncFirst(BLOCK_SIZE - 1);
    ReachedInv(y0, 0.0, true);
    NothingOfSecond(y0);
    y := FirstBlock.Write(y0, BLOCK_SIZE - 1);
    p1 := FirstBlock.NextPacket(y0.server, BLOCK_SIZE - 1);
    FirstBlock.NextWellFormed(y0.server, BLOCK_SIZE - 1);
    UnnumberedWellFormed(p1, y0.server.nxt);
  }

  lemma UnnumberedWellFormed(pkt: Packets.DataPacket, seqno: nat)
    requires Packets.WellFormed(pkt.(seqno := seqno))
    ensures Packets.WellFormed(pkt)
  {
  }

  /** Before the sender opens block 2 neither end has anything of it. */
  lemma NothingOfSecond(y: System)
    requires Inv(y) && y.server.curr == 1 && y.server.maxb == 1 && y.client.curr == 1
    ensures |y.client.blocks| == NUM_BLOCKS && FirstBlock.HasFirst(y.client.blocks[Slot(2)], 0)
  {
    hide NetInv, AcksInv, SlotInv, JobInv, Slot;
    assert Delivery.WindowBlock(y.client, y.hist, 2);
    Decoder.FullBelowTop(y.client.blocks[Slot(2)]);
  }

  lemma SecondSlotEmpty(y: System)
    requires Inv(y) && y.server.curr == 1 && y.server.maxb == 1 && y.server.jobs == []
    ensures S.Shaped(y.server) && y.server.blocks[Slot(2)] == [] && y.server.queues[Slot(2)] == []
    ensures y.server.dofRemain[Slot(2)] == 0
  {
    hide NetInv, AcksInv, JobInv, ClientInv, Slot;
    assert SlotInv(y.server, y.hist, 2);
    NoneQueued(y.server.queues[Slot(2)], 2);
  }

  lemma NoneQueued(q: seq<Packets.DataPacket>, b: nat)
    requires QueueOf(q, b, [])
    ensures q == []
  {
    if q != [] {
      Windows.NothingOfEmptyBlock(q[0]);
    }
  }

  /** One byte more opens block 2, and is queued for it. */
  lemma QueueSecond(y: System, p1: Packets.DataPacket) returns (y': System, p2: Packets.DataPacket)
    requires Reached(y, 0.0, true) && LastQueued(y, p1) && y.server.maxb == 1
    ensures Reached(y', 0.0, true) && LastQueued(y', p1) && y'.server.maxb == 2 && y'.acks == y.acks
    ensures p2 == Packets.UncodedPacket(2, 0, [Frame([0])]) && y'.server.blocks[Slot(2)] == [Frame([0])]
    ensures y'.server.queues[Slot(2)] == [p2] && y'.server.dofRemain[Slot(2)] == 1
  {
    hide Inv, C.Valid, Slot, Reached, AcceptStep, Frame, FirstBlock.HasFirst, Packets.WellFormed, S.JobPackets;
    ReachedInv(y, 0.0, true);
    SecondSlotEmpty(y);
    OtherSlot(1, 1, 2);
    NotAVisit(y, Accept([0]));
    var y1 := Take(y, 0.0, true, Accept([0]), 0.0);
    GuardRuns.ByteOpens(y);
    ByteAccepted(y.(server := y.server.(maxb := 2), hist := y.hist + [[]]));
    assert y1.server.jobs == [S.Job(2, 0, 1, 0)];
    assert [] + [Frame([0])] == [Frame([0])];
    NotAVisit(y1, Code(0, []));
    y' := Take(y1, 0.0, true, Code(0, []), 0.0);
    p2 := Packets.UncodedPacket(2, 0, [Frame([0])]);
    OneQueued();
    assert y1.server.queues[Slot(2)] + [p2] == [p2];
  }

  lemma OneQueued()
    ensures |Frame([0])| == PAYLOAD_SIZE
    ensures S.JobPackets(S.Job(2, 0, 1, 0), [Frame([0])], []) == [Packets.UncodedPacket(2, 0, [Frame([0])])]
    ensures S.CodedShare(S.Job(2, 0, 1, 0), 1) == 0
    ensures Packets.WellFormed(Packets.UncodedPacket(2, 0, [Frame([0])]))
  {
    hide Frame;
  }

  /** The sender after a turn over block b that sends the one packet queued for it. */
  function TurnedOnce(s: S.State, s': S.State): S.State
    requires S.Shaped(s) && s.phase.Visiting? && s.phase.win >= 1
  {
    var (b, i) := (s.phase.blockno, Slot(s.phase.blockno));
    s.(queues := s.queues[i := []], dofRemain := s.dofRemain[i := 0], onFly := s'.onFly, txTime := s'.txTime,
       packetsSent := s'.packetsSent, nxt := s.nxt + 1,
       phase := S.Visiting(b + 1, s.phase.win - 1, s.phase.limit, S.OnFlyNext(s)))
  }

  /** One packet is asked for, queued and sent. */
  lemma TurnOnce(y: System, pkt: Packets.DataPacket) returns (y': System)
    requires Reached(y, 0.0, true) && S.Shaped(y.server) && y.server.phase.Visiting? && S.MayVisit(y.server)
    requires y.server.phase.blockno < y.server.curr + NUM_BLOCKS
    requires y.server.phase.onFly == 0 && S.RequestNow(y.server) == 1
    requires var i := Slot(y.server.phase.blockno); y.server.dofRemain[i] == 1 && y.server.queues[i] == [pkt]
    ensures Reached(y', 0.0, true) && S.Shaped(y'.server)
    ensures y' == y.(server := y'.server, data := y.data + [pkt.(seqno := y.server.nxt)])
    ensures y'.server == TurnedOnce(y.server, y'.server)
  {
    hide Inv, C.Valid, Slot, Reached, S.OnFlyNext, S.Sized;
    ReachedInv(y, 0.0, true);
    FirstBlock.OneNeeded(y.server.phase.win);
    var y1 := Take(y, 0.0, true, Visit(0.0), 0.0);
    VisitAsks(y.server, 0.0);
    FirstBlock.AskedNothing(y.server);
    NotAVisit(y1, Send(0.0));
    var y2 := Take(y1, 0.0, true, Send(0.0), 0.0);
    assert [pkt][1..] == [];
    NotAVisit(y2, Leave);
    y' := Take(y2, 0.0, true, Leave, 0.0);
  }

  /** Both packets are on their way, the earlier one first, and the pass is over. */
  ghost predicate BothSent(y: System, p1: Packets.DataPacket, p2: Packets.DataPacket)
  {
    var (s, c, n) := (y.server, y.client, y.server.nxt);
    && S.Shaped(s) && s.curr == 1 && s.maxb == 2 && s.dofReq == 1 && s.phase.Idle? && s.jobs == [] && s.nxt >= 2
    && s.queues[Slot(2)] == [] && s.dofRemain[Slot(2)] == 0 && s.blocks[Slot(2)] == [Frame([0])]
    && y.data == [p1.(seqno := n - 2), p2.(seqno := n - 1)]
    && |c.blocks| == NUM_BLOCKS && c.curr == 1
    && FirstBlock.HasFirst(c.blocks[Slot(1)], BLOCK_SIZE - 1) && FirstBlock.HasFirst(c.blocks[Slot(2)], 0)
  }

  lemma BeginPass(y: System) returns (y': System)
    requires Reached(y, 0.0, true) && S.Shaped(y.server) && y.server.phase.Idle? && y.server.una == y.server.nxt
    ensures Reached(y', 0.0, true)
    ensures var (s, ph) := (y.server, y'.server.phase);
            && y' == y.(server := s.(phase := ph))
            && ph.Visiting? && ph.blockno == s.curr && ph.win >= 2 && ph.limit == s.maxb && ph.onFly == 0
  {
    hide Inv, C.Valid, Slot, Reached, S.Sized;
    ReachedInv(y, 0.0, true);
    FirstBlock.RoomToSend(y);
    NotAVisit(y, Start(0.0));
    y' := Take(y, 0.0, true, Start(0.0), 0.0);
  }

  lemma SendBoth(y: System, p1: Packets.DataPacket, p2: Packets.DataPacket) returns (y': System)
    requires Reached(y, 0.0, true) && LastQueued(y, p1) && y.server.maxb == 2
    requires y.server.blocks[Slot(2)] == [Frame([0])]
    requires y.server.queues[Slot(2)] == [p2] && y.server.dofRemain[Slot(2)] == 1
    ensures Reached(y', 0.0, true) && BothSent(y', p1, p2) && y'.acks == y.acks
  {
    hide Inv, C.Valid, Slot, Reached, Frame, FirstBlock.HasFirst, Packets.WellFormed;
    OtherSlot(1, 1, 2);
    var y1 := BeginPass(y);
    var y2 := TurnOnce(y1, p1);
    var y3 := TurnOnce(y2, p2);
    y' := EndPass(y3, 0.0, true);
  }

  /** The two packets have been received in the other order, with room for all they bring. */
  lemma ReceiveBoth(y: System, p1: Packets.DataPacket, p2: Packets.DataPacket) returns (y1: System, y2: System)
    requires BLOCK_SIZE >= 2 && Reached(y, 0.0, true) && BothSent(y, p1, p2)
    requires Packets.WellFormed(p1) && p1.flag.Normal? && p1.start == BLOCK_SIZE - 1 && p1.blockno == 1
    requires Packets.WellFormed(p2) && p2.flag.Normal? && p2.start == 0 && p2.blockno == 2
    ensures Reached(y1, 0.0, true) && y1.client.curr == 1 && Enabled(y1, Receive(BLOCK_SIZE))
    ensures y2 == After(y1, Receive(BLOCK_SIZE)) && Reached(y2, 0.0, true)
    ensures var c := y2.client;
            && y2.server == y.server && y2.hist == y.hist && y2.data == []
            && |c.blocks| == NUM_BLOCKS && c.curr == 2 && FirstBlock.HasFirst(c.blocks[Slot(2)], 1)
            && |y2.acks| == |y.acks| + 2 && y2.acks[|y.acks| + 1] == Packets.Ack(y.server.nxt - 1, 2, 1)
  {
    hide Inv, C.Valid, Slot, Reached, FirstBlock.HasFirst, Packets.WellFormed, C.Receive, S.Sized, Frame;
    ReachedInv(y, 0.0, true);
    NotAVisit(y, SwapData(0));
    var y0 := Take(y, 0.0, true, SwapData(0), 0.0);
    Renumbered(p1, y.server.nxt - 2);
    Renumbered(p2, y.server.nxt - 1);
    assert y0.data == [p2.(seqno := y.server.nxt - 1), p1.(seqno := y.server.nxt - 2)];
    NotAVisit(y0, Receive(BLOCK_SIZE));
    FirstBlock.NextRowHeard(y0.client, y0.data[0], BLOCK_SIZE, BLOCK_SIZE - 1);
    y1 := Take(y0, 0.0, true, Receive(BLOCK_SIZE), 0.0);
    NotAVisit(y1, Receive(BLOCK_SIZE));
    FirstLack(y1.client, 2, 1);
    FirstBlock.RowHeard(y1.client, y1.data[0], BLOCK_SIZE, BLOCK_SIZE - 1);
    y2 := Take(y1, 0.0, true, Receive(BLOCK_SIZE), 0.0);
    FirstDofs(y2.client, 2, 1);
  }

  lemma Renumbered(pkt: Packets.DataPacket, seqno: nat)
    requires Packets.WellFormed(pkt)
    ensures Packets.WellFormed(pkt.(seqno := seqno))
  {
  }

  lemma FirstLack(c: C.State, b: nat, k: nat)
    requires |c.blocks| == NUM_BLOCKS && FirstBlock.HasFirst(c.blocks[Slot(b)], k) && k < BLOCK_SIZE
    ensures c.blocks[Slot(b)].dofs < BLOCK_SIZE
  {
  }

  lemma FirstDofs(c: C.State, b: nat, k: nat)
    requires |c.blocks| == NUM_BLOCKS && FirstBlock.HasFirst(c.blocks[Slot(b)], k)
    ensures c.blocks[Slot(b)].dofs == k
  {
  }

  /**
   A run in which the receiver has all that was sent, with room for it, and has not delivered it: its
   last packet completed block 1 when a byte of block 2 was there already.
   */
  lemma LastByteWaits() returns (y: System, y': System)
    requires BLOCK_SIZE >= 2
    ensures Reached(y, 0.0, true) && Enabled(y, Receive(BLOCK_SIZE)) && y' == After(y, Receive(BLOCK_SIZE))
    ensures Reached(y', 0.0, true) && |y'.client.blocks| == NUM_BLOCKS && EarlyDelivery.HoldsAll(y'.client, y'.hist)
    ensures y'.delivered != y'.accepted
    ensures Settling(y')
  {
    hide Inv, C.Valid, Slot, Reached, Enabled, After, S.Sized, Frame, Bytes, FirstBlock.HasFirst, Packets.WellFormed;
    var y0, p1 := QueueLast();
    var y1, p2 := QueueSecond(y0, p1);
    var y2 := SendBoth(y1, p1, p2);
    OneQueued();
    y, y' := ReceiveBoth(y2, p1, p2);
    ReachedInv(y, 0.0, true);
    ReachedInv(y', 0.0, true);
    FirstDofs(y'.client, 2, 1);
    SecondBlock(y');
    ReceptionExhausts(y, BLOCK_SIZE);
    HeldAndDelivered(y');
    OneByte();
  }

  /** The sender is at block 1, all is received, and the last ack in flight says so. */
  ghost predicate Settling(y: System)
  {
    var (s, n) := (y.server, |y.acks|);
    && S.Shaped(s) && s.curr == 1 && s.maxb == 2 && s.phase.Idle? && s.jobs == []
    && s.queues[Slot(2)] == [] && |s.blocks[Slot(2)]| == 1 && y.data == []
    && n > 0 && y.acks[n - 1].blockno == 2 && y.acks[n - 1].dofRec == 1
  }

  lemma SecondBlock(y: System)
    requires Inv(y) && S.Shaped(y.server) && y.server.curr == 1 && y.server.blocks[Slot(2)] == [Frame([0])]
    ensures Delivery.Src(y.hist, 2) == [Frame([0])]
  {
    hide NetInv, AcksInv, JobInv, ClientInv, Slot, Frame;
    assert SlotInv(y.server, y.hist, 2);
  }

  lemma OneByte()
    ensures |Frame([0])| == PAYLOAD_SIZE && Bytes([Frame([0])]) == [0]
  {
    hide Frame, Data;
    DataOfFrame([0]);
    assert [Frame([0])][..0] == [];
    assert [] + [0] == [0];
  }

  // ---------------------------------------------------------------------------------------------
  // The sender does not send it

  /** Nothing is in flight, queued, ordered or asked for, and there is no later block. */
  ghost predicate Still(y: System)
  {
    var s := y.server;
    && S.Shaped(s) && 1 <= s.curr == s.maxb && s.dofReq == 0 && s.jobs == [] && y.data == [] && y.acks == []
    && match s.phase
       case Idle => true
       case Visiting(b, _, limit, _) => 1 <= limit <= s.curr <= b
       case Sending(_, left, _, limit, _) => left == 0 && 1 <= limit <= s.curr <= s.phase.blockno
  }

  /** While no bytes are accepted, nothing happens any more that the user could notice. */
  lemma StillStays(y: System, step: Step)
    requires Still(y) && Enabled(y, step) && !step.Accept?
    ensures Still(After(y, step)) && After(y, step).delivered == y.delivered
  {
    hide C.Valid, S.Sized, S.CountLive, Slot, S.NeededNow;
    if step.Visit? && S.MayVisit(y.server) {
      NothingAsked(y.server, step.p);
      VisitAsks(y.server, step.p);
    }
  }

  lemma NothingAsked(s: S.State, p: real)
    requires S.Shaped(s) && s.phase.Visiting? && s.phase.blockno == s.curr && s.dofReq == 0 && 0.0 <= p <= 1.0
    ensures S.NeededNow(s, p) == 0
    ensures S.VisitBlock(s, p).jobs == s.jobs
  {
    SenderProofs.NothingNeeded(s, p);
  }

  lemma {:induction false} StillForever(trace: seq<System>, steps: seq<Step>, i: nat)
    requires IsTrace(trace, steps) && i < |trace| && Still(trace[0])
    requires forall k :: 0 <= k < |steps| ==> !steps[k].Accept?
    ensures Still(trace[i]) && trace[i].delivered == trace[0].delivered
  {
    hide Still, Enabled, After;
    if i > 0 {
      StillForever(trace, steps, i - 1);
      StillStays(trace[i - 1], steps[i - 1]);
    }
  }

  /** All acks but the last are lost. */
  lemma {:induction false} LoseEarlier(y: System) returns (y': System)
    requires Reached(y, 0.0, true) && y.acks != []
    ensures Reached(y', 0.0, true) && y' == y.(acks := [y.acks[|y.acks| - 1]])
    decreases |y.acks|
  {
    hide Inv, C.Valid, Reached, S.Sized, S.Shaped;
    if |y.acks| == 1 {
      y' := y;
    } else {
      ReachedInv(y, 0.0, true);
      NotAVisit(y, LoseAck(0));
      var y1 := Take(y, 0.0, true, LoseAck(0), 0.0);
      assert Without(y.acks, 0) == y.acks[1..];
      y' := LoseEarlier(y1);
    }
  }

  /** The last ack is taken: the sender moves on to block 2 and asks for nothing more. */
  lemma Settle(y: System) returns (y': System)
    requires Reached(y, 0.0, true) && Settling(y)
    ensures Reached(y', 0.0, true) && Still(y')
    ensures y'.client == y.client && y'.hist == y.hist && y'.delivered == y.delivered && y'.accepted == y.accepted
  {
    hide Inv, C.Valid, Reached, S.Sized, Slot, S.HandleAck;
    var y1 := LoseEarlier(y);
    ReachedInv(y1, 0.0, true);
    NotAVisit(y1, TakeAck(2));
    y' := Take(y1, 0.0, true, TakeAck(2), 0.0);
    FirstIsFreed(y1.server, y1.acks[0]);
  }

  lemma FirstIsFreed(s: S.State, ack: Packets.Ack)
    requires S.Shaped(s) && s.curr == 1 && s.maxb == 2 && ack.blockno == 2 && ack.dofRec == 1
    requires |s.blocks[Slot(2)]| == 1
    ensures var s' := S.HandleAck(s, ack, 2);
            && S.Shaped(s') && s'.curr == 2 && s'.maxb == 2 && s'.phase == s.phase && s'.dofReq == 0
            && s'.jobs == s.jobs
  {
    hide Slot;
    OtherSlot(1, 1, 2);
    assert S.FreeBlocks(S.FreeOne(s), 2) == S.FreeOne(s);
    S.FreeBlocksUnfold(s, 2);
  }

  /** Steps of all kinds but the accepting of bytes, from state y on. */
  ghost predicate WithoutAccept(trace: seq<System>, steps: seq<Step>, y: System)
  {
    IsTrace(trace, steps) && trace[0] == y && forall k :: 0 <= k < |steps| ==> !steps[k].Accept?
  }

  /**
   For blocks of two packets or more there is a run after which both ends have done all they will do, and bytes
   accepted are not delivered, although the receiver has them and the user has room: only when the sender is given
   more bytes does anything more happen.
   */
  lemma LastBytesStall() returns (y: System)
    requires BLOCK_SIZE >= 2
    ensures Reached(y, 0.0, true) && |y.client.blocks| == NUM_BLOCKS && EarlyDelivery.HoldsAll(y.client, y.hist)
    ensures y.delivered != y.accepted
    ensures forall trace: seq<System>, steps: seq<Step>, i: nat :: WithoutAccept(trace, steps, y) && i < |trace| ==>
              trace[i].delivered == y.delivered
  {
    hide IsTrace, Still, Settling, Reached, EarlyDelivery.HoldsAll, WithoutAccept;
    var _, y0 := LastByteWaits();
    y := Settle(y0);
    forall trace: seq<System>, steps: seq<Step>, i: nat | WithoutAccept(trace, steps, y) && i < |trace|
      ensures trace[i].delivered == y.delivered
    {
      StillWithout(trace, steps, y, i);
    }
  }

  lemma StillWithout(trace: seq<System>, steps: seq<Step>, y: System, i: nat)
    requires WithoutAccept(trace, steps, y) && i < |trace| && Still(y)
    ensures trace[i].delivered == y.delivered
  {
    hide Still, Enabled, After;
    StillForever(trace, steps, i);
  }

  /** Wherever a receiver with room holds all that was sent, the user has it. */
  ghost predicate Arrives(run: seq<System>, steps: seq<Step>)
    requires |run| == |steps| + 1
  {
    forall i :: 0 <= i < |steps| && steps[i].Receive? && steps[i].room >= BLOCK_SIZE
      && |run[i + 1].client.blocks| == NUM_BLOCKS && EarlyDelivery.HoldsAll(run[i + 1].client, run[i + 1].hist)
      ==> run[i + 1].delivered == run[i + 1].accepted
  }

  /** With one packet to a block the receiver never knows part of a block. */
  lemma OnePacketBlocks(y: System)
    requires BLOCK_SIZE == 1 && Inv(y) && |y.client.blocks| == NUM_BLOCKS && EarlyDelivery.HoldsAll(y.client, y.hist)
    ensures Delivery.Src(y.hist, y.client.curr) == []
  {
    hide NetInv, AcksInv, ServerInv, Slot, Delivery.WindowBlock;
    FirstBlock.Lengths(y.client);
  }

  /** All that is sent arrives in every run, without more being sent, if and only if blocks hold a single packet. */
  lemma LastBytesArrive()
    ensures (forall run: seq<System>, steps: seq<Step> | IsRun(run, steps) :: Arrives(run, steps)) <==> BLOCK_SIZE == 1
  {
    hide Inv, Enabled, Strict, After, EarlyDelivery.HoldsAll, Bytes;
    if BLOCK_SIZE == 1 {
      forall run: seq<System>, steps: seq<Step> | IsRun(run, steps) ensures Arrives(run, steps) {
        forall i | 0 <= i < |steps| && steps[i].Receive? && steps[i].room >= BLOCK_SIZE
            && |run[i + 1].client.blocks| == NUM_BLOCKS && EarlyDelivery.HoldsAll(run[i + 1].client, run[i + 1].hist)
          ensures run[i + 1].delivered == run[i + 1].accepted
        {
          EverythingDelivered(run, steps, i, steps[i].room);
          Safety.RunKeepsInv(run, steps, i + 1);
          OnePacketBlocks(run[i + 1]);
          NoBytesOfNone([]);
        }
      }
    } else {
      var run, steps := WaitingRun();
    }
  }

  lemma WaitingRun() returns (run: seq<System>, steps: seq<Step>)
    requires BLOCK_SIZE >= 2
    ensures IsRun(run, steps) && !Arrives(run, steps)
  {
    hide Inv, Enabled, Strict, After, EarlyDelivery.HoldsAll, S.Shaped, Settling;
    var y, y' := LastByteWaits();
    ReachedInv(y, 0.0, true);
    NotAVisit(y, Receive(BLOCK_SIZE));
    var before, earlier :| RunTo(before, earlier, y, 0.0, true);
    run, steps := before + [y'], earlier + [Receive(BLOCK_SIZE)];
    var n := |earlier|;
    assert run[n] == y && run[n + 1] == y' && steps[n] == Receive(BLOCK_SIZE);
  }
}
