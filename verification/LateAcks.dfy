/**
 The late acknowledgement: a run in which it drops the request although the receiver knows nothing of the
 block, what follows from there, and the only size of blocks for which it cannot happen.
 */
module LateAcks {
  import opened Config
  import opened FieldTables
  import opened Slots
  import opened Transport
  import opened Invariants
  import opened Reach
  import opened Requests
  import Delivery
  import FirstBlock
  import Framing
  import NetworkProofs
  import Packets
  import Safety
  import SenderProofs
  import S = Server
  import C = Client

  // ---------------------------------------------------------------------------------------------
  // A run with a late ack

  /**
   Both ends are at block 2, which has one packet; the receiver knows nothing of it, and an ack for block 1
   that claims one degree of freedom is late.
   */
  ghost predicate AckIsLate(y: System)
  {
    var (s, c) := (y.server, y.client);
    && S.Shaped(s) && s.curr == 2 && s.phase.Idle? && s.dofReq == 1 && |Delivery.Src(y.hist, 2)| == 1
    && |s.blocks[Slot(2)]| == 1
    && |c.blocks| == NUM_BLOCKS && c.curr == 2 && CurrentDofs(c) == 0
    && |y.acks| == 1 && y.acks[0].blockno == 1 && y.acks[0].dofRec == 1 && y.acks[0].ackno <= s.nxt
  }

  /** The ack that ends block 1 overtakes a copy of the first ack, and is taken. */
  lemma MoveOn(y: System) returns (y': System)
    requires BLOCK_SIZE >= 2 && Reached(y, 0.0, true) && FirstBlock.Heard(y, BLOCK_SIZE)
    ensures Reached(y', 0.0, true)
    ensures var (s, s') := (y.server, y'.server);
            && S.Shaped(s')
            && y' == y.(server := s', acks := [y.acks[0]], hist := y.hist + [[]])
            && s'.curr == 2 && s'.maxb == 2 && s'.phase.Idle? && s'.dofReq == 0 && s'.blocks[Slot(2)] == []
            && s'.nxt == s.nxt && y.acks[0].ackno <= s.nxt
  {
    hide Inv, C.Valid, S.Sized, Slot, Reached, S.HandleAck;
    ReachedInv(y, 0.0, true);
    NotAVisit(y, SwapAcks(0));
    var y1 := Take(y, 0.0, true, SwapAcks(0), 0.0);
    assert Swapped(y.acks, 0) == [y.acks[1], y.acks[0]];
    NothingOfNext(y);
    SecondFreed(y.server, y1.acks[0]);
    NotAVisit(y1, TakeAck(2));
    y' := Take(y1, 0.0, true, TakeAck(2), 0.0);
  }

  /** The receiver and the sender know nothing of block 2. */
  lemma NothingOfNext(y: System)
    requires Inv(y) && y.server.curr == 1 && y.server.maxb == 1 && y.client.curr == 2
    ensures |y.client.blocks| == NUM_BLOCKS && y.client.blocks[Slot(2)].dofs == 0
    ensures S.Shaped(y.server) && y.server.blocks[Slot(2)] == []
  {
    hide NetInv, AcksInv, JobInv, Delivery.WindowBlock, QueueOf;
    Delivery.DofsWithinBlock(y.client, y.hist, 2);
    assert SlotInv(y.server, y.hist, 2);
  }

  lemma SecondFreed(s: S.State, ack: Packets.Ack)
    requires S.Shaped(s) && s.curr == 1 && s.maxb == 1 && ack.blockno == 2 && ack.dofRec == 0
    requires s.blocks[Slot(2)] == []
    ensures var s' := S.HandleAck(s, ack, 2);
            && s'.curr == 2 && s'.maxb == 2 && s'.phase == s.phase && s'.dofReq == 0 && s'.blocks[Slot(2)] == []
            && s'.nxt == s.nxt
  {
    hide Slot;
    OtherSlot(1, 1, 2);
    assert S.FreeBlocks(S.FreeOne(s), 2) == S.FreeOne(s);
    S.FreeBlocksUnfold(s, 2);
  }

  lemma LateAckReached() returns (y: System)
    requires BLOCK_SIZE >= 2
    ensures Reached(y, 0.0, true) && AckIsLate(y)
  {
    hide Inv, C.Valid, Slot, Reached;
    var y0 := FirstBlock.FirstBlockHeard();
    ReachedInv(y0, 0.0, true);
    NothingOfNext(y0);
    var y1 := MoveOn(y0);
    ReachedInv(y1, 0.0, true);
    y := AcceptByte(y1, 0.0, true);
  }

  /** A run in which a late ack drops the request to 0, although the receiver knows nothing of the block. */
  lemma LateAckDropsRequest(cwnd: nat) returns (y: System)
    requires BLOCK_SIZE >= 2
    ensures Reached(y, 0.0, true) && Enabled(y, TakeAck(cwnd))
    ensures var y' := After(y, TakeAck(cwnd));
            && y.server.curr == y'.server.curr == y.client.curr == 2 && y'.client == y.client
            && |y.client.blocks| == NUM_BLOCKS && CurrentDofs(y.client) == 0
            && |Delivery.Src(y.hist, 2)| == 1 && y'.hist == y.hist
            && y.acks != [] && y.acks[0].blockno == 1
            && y.server.dofReq == 1 && y'.server.dofReq == 0
  {
    hide Inv, C.Valid, Slot, Reached;
    y := LateAckReached();
    ReachedInv(y, 0.0, true);
  }

  /** The step brings no new packets for the current block and no ack for a later one. */
  predicate Quiet(y: System, step: Step)
  {
    && (step.Accept? ==> y.server.maxb > y.server.curr)
    && (step.TakeAck? && y.acks != [] ==> y.acks[0].blockno <= y.server.curr)
  }

  lemma {:induction false} SendCtcpKeepsRequest(s: S.State, buf: seq<byte>)
    requires S.Shaped(s) && S.Sized(s) && s.maxb > s.curr
    ensures var s' := S.SendCtcp(s, buf).0; s'.dofReq == s.dofReq && s'.curr == s.curr
    decreases |buf|, s.curr + NUM_BLOCKS - s.maxb
  {
    hide Slot, Framing.IsBlock, Framing.Bytes, Framing.ReadBlock;
    if buf != [] {
      var last := s.blocks[Slot(s.maxb)];
      assert Framing.IsBlock(last);
      Framing.ReadBlockKeepsBytes(last, buf);
      var (pkts, read) := Framing.ReadBlock(last, buf);
      if read > 0 {
        SendCtcpKeepsRequest(S.AddPackets(s, pkts), buf[read..]);
      } else if s.maxb < s.curr + NUM_BLOCKS {
        SendCtcpKeepsRequest(s.(maxb := s.maxb + 1), buf);
      }
    }
  }

  lemma QuietStep(y: System, step: Step)
    requires Enabled(y, step) && Quiet(y, step) && y.server.dofReq == 0
    ensures After(y, step).server.dofReq == 0 && After(y, step).server.curr == y.server.curr
  {
    hide S.SendCtcp, S.CodingJob, S.VisitBlock, S.CountLive, S.FreeOne, C.Receive, C.Valid, Recorded, Slot,
      Framing.IsBlock;
    match step
    case Accept(buf) => SendCtcpKeepsRequest(y.server, buf);
    case Code(n, seeds) => Safety.CodingJobShape(y.server, n, seeds);
    case Visit(p) => Safety.VisitShape(y.server, p);
    case _ =>
  }

  /**
   A request that has dropped to 0 stays there: whatever is lost, received or acknowledged for the current
   block, send_segs finds that nothing of it needs to be sent, until there are new packets for the
   block or an ack for a later one.
   */
  lemma {:induction false} RequestStaysZero(trace: seq<System>, steps: seq<Step>, i: nat, p: real)
    requires IsTrace(trace, steps) && i < |trace| && 0.0 <= p <= 1.0
    requires forall k :: 0 <= k < |steps| ==> Quiet(trace[k], steps[k])
    requires trace[0].server.dofReq == 0 && S.Shaped(trace[i].server)
    ensures var s := trace[i].server;
            && s.curr == trace[0].server.curr && s.dofReq == 0
            && (s.phase.Visiting? && s.phase.blockno == s.curr ==> S.NeededNow(s, p) == 0)
  {
    hide Enabled, After, Quiet;
    if i > 0 {
      EnabledShape(trace[i - 1], steps[i - 1]);
      RequestStaysZero(trace, steps, i - 1, p);
      QuietStep(trace[i - 1], steps[i - 1]);
    }
    var s := trace[i].server;
    if s.phase.Visiting? && s.phase.blockno == s.curr {
      SenderProofs.NothingNeeded(s, p);
    }
  }

  // ---------------------------------------------------------------------------------------------
  // When it can happen

  /** No ack claims a whole block. */
  ghost predicate AcksLack(acks: seq<Packets.Ack>)
  {
    forall k :: 0 <= k < |acks| ==> acks[k].dofRec < BLOCK_SIZE
  }

  lemma ReceiveLacks(y: System, room: nat)
    requires Inv(y) && Enabled(y, Receive(room)) && AcksLack(y.acks)
    ensures AcksLack(After(y, Receive(room)).acks)
  {
    hide Slot, ServerInv, NetInv, AcksInv, Delivery.ClientOf, C.Receive, Delivery.Stream, Delivery.Delivered,
      Delivery.Expected, C.Valid, Packets.WellFormed;
    Safety.HistoryShape(y);
    NetworkProofs.ArrivalExpected(y.server, y.client, y.data, y.hist);
    Delivery.ReceiveDelivers(y.client, y.data[0], room, y.hist);
    C.AckAgreesWithDelivery(y.client, y.data[0], room);
    var c := C.Receive(y.client, y.data[0], room).client;
    Delivery.ClientIsValid(c, y.hist);
    FirstBlock.Lengths(c);
  }

  lemma StepLacks(y: System, step: Step)
    requires Inv(y) && Enabled(y, step) && AcksLack(y.acks)
    ensures AcksLack(After(y, step).acks)
  {
    hide Inv, C.Valid, S.Sized, S.SendCtcp, Recorded, S.CodingJob, S.VisitBlock, S.HandleAck, Slot, C.Receive,
      S.CountLive, S.MaySend;
    if step.Receive? {
      ReceiveLacks(y, step.room);
    }
  }

  lemma {:induction false} RunLacks(run: seq<System>, steps: seq<Step>, i: nat)
    requires IsRun(run, steps) && i < |run|
    ensures AcksLack(run[i].acks)
  {
    hide Inv, Enabled, Strict, After;
    if i > 0 {
      RunLacks(run, steps, i - 1);
      Safety.RunKeepsInv(run, steps, i - 1);
      StepLacks(run[i - 1], steps[i - 1]);
    }
  }

  /** The request is exact in every state of the run. */
  ghost predicate AlwaysExact(run: seq<System>, steps: seq<Step>)
    requires |run| == |steps| + 1
  {
    forall i :: 0 <= i < |run| ==> Exact(run[i], Best(run, steps, i))
  }

  lemma OnePacketBlocksExact(run: seq<System>, steps: seq<Step>)
    requires BLOCK_SIZE == 1 && IsRun(run, steps)
    ensures AlwaysExact(run, steps)
  {
    hide Inv, Enabled, Strict, After, Exact, Best;
    forall k | 0 <= k < |steps| ensures Harmless(run[k], Best(run, steps, k), steps[k]) {
      RunLacks(run, steps, k);
    }
    RequestIsExact(run, steps, |steps|);
  }

  /** The run with the late ack is not exact after it, or was not before. */
  lemma LateRunIsInexact() returns (run: seq<System>, steps: seq<Step>)
    requires BLOCK_SIZE >= 2
    ensures IsRun(run, steps) && !AlwaysExact(run, steps)
  {
    hide Inv, Enabled, Strict, After, C.Valid, S.Shaped;
    var y := LateAckDropsRequest(2);
    ReachedInv(y, 0.0, true);
    NotAVisit(y, TakeAck(2));
    var y' := Take(y, 0.0, true, TakeAck(2), 0.0);
    var before, earlier :| RunTo(before, earlier, y, 0.0, true);
    run, steps := before + [y'], earlier + [TakeAck(2)];
    var n := |earlier|;
    assert run[n] == y && run[n + 1] == y' && steps[n] == TakeAck(2);
    assert Best(run, steps, n + 1) == BestAfter(run[n], Best(run, steps, n), steps[n]);
    assert !Exact(run[n], Best(run, steps, n)) || !Exact(run[n + 1], Best(run, steps, n + 1));
  }

  /** For blocks of two packets or more, and for these only, there are runs that spoil the request. */
  lemma RequestAlwaysExact()
    ensures (forall run: seq<System>, steps: seq<Step> | IsRun(run, steps) :: AlwaysExact(run, steps))
            <==> BLOCK_SIZE == 1
  {
    hide Enabled, Strict, After, AlwaysExact;
    if BLOCK_SIZE == 1 {
      forall run: seq<System>, steps: seq<Step> | IsRun(run, steps) ensures AlwaysExact(run, steps) {
        OnePacketBlocksExact(run, steps);
      }
    } else {
      var run, steps := LateRunIsInexact();
    }
  }
}
