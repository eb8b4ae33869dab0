/**
 What the sender knows of the receiver. Its request is what the best ack so far left open of the current
 block, however acks are lost, repeated or reordered, until a late ack of a kind described exactly here
 spoils it.
 */
module Requests {
  import opened Config
  import opened FieldTables
  import opened Slots
  import opened Framing
  import opened Packets
  import opened Decoder
  import opened Delivery
  import opened Transport
  import opened Invariants
  import opened SenderProofs
  import opened NetworkProofs
  import opened Safety
  import S = Server
  import C = Client

  /** Lexicographic order on block number and degrees of freedom. */
  predicate NotBehind(b: nat, dofs: nat, b': nat, dofs': nat)
  {
    b < b' || (b == b' && dofs <= dofs')
  }

  predicate AckNotBehind(a: Ack, a': Ack)
  {
    NotBehind(a.blockno, a.dofRec, a'.blockno, a'.dofRec)
  }

  /** The degrees of freedom the receiver has of its current block. */
  function CurrentDofs(c: C.State): nat
    requires |c.blocks| == NUM_BLOCKS
  {
    c.blocks[Slot(c.curr)].dofs
  }

  // ---------------------------------------------------------------------------------------------
  // The receiver's acks only advance

  lemma ReceiveAdvances(c: C.State, hist: seq<seq<seq<byte>>>, pkt: DataPacket, room: nat)
    requires ClientOf(c, hist) && Expected(c, hist, pkt) && WellFormed(pkt)
    ensures var r := C.Receive(c, pkt, room);
            && NotBehind(c.curr, CurrentDofs(c), r.ack.blockno, r.ack.dofRec)
            && r.ack.blockno == r.client.curr && r.ack.dofRec == CurrentDofs(r.client)
  {
    hide C.Receive, Expected, Slot, WellFormed, WindowBlock;
    C.AckAgreesWithDelivery(c, pkt, room);
    ReceiveDelivers(c, pkt, room, hist);
    ReceiveKeepsDofs(c, hist, pkt, room);
  }

  /** The acks to two packets in succession are in order. */
  lemma SuccessiveAcksAdvance(c: C.State, hist: seq<seq<seq<byte>>>, p: DataPacket, room: nat, p': DataPacket,
      room': nat)
    requires ClientOf(c, hist) && Expected(c, hist, p) && WellFormed(p)
    requires var d := C.Receive(c, p, room).client; ClientOf(d, hist) && Expected(d, hist, p')
    requires WellFormed(p')
    ensures var r := C.Receive(c, p, room); AckNotBehind(r.ack, C.Receive(r.client, p', room').ack)
  {
    hide C.Receive, Expected, Slot, WellFormed, ClientOf;
    ClientIsValid(c, hist);
    ReceiveAdvances(c, hist, p, room);
    ReceiveAdvances(C.Receive(c, p, room).client, hist, p', room');
  }

  // ---------------------------------------------------------------------------------------------
  // The request follows the best ack

  /** The largest degrees of freedom acknowledged for the sender's current block, once the step is taken. */
  function BestAfter(y: System, best: nat, step: Step): nat
  {
    if !step.TakeAck? || y.acks == [] || y.acks[0].blockno < y.server.curr then best
    else if y.acks[0].blockno == y.server.curr && y.acks[0].dofRec < best then best
    else y.acks[0].dofRec
  }

  /** The request is what the best ack left open of the current block. */
  ghost predicate Exact(y: System, best: nat)
  {
    y.server.dofReq + best == |Src(y.hist, y.server.curr)|
  }

  /**
   If the step takes an ack for a block already freed, that ack claims no more than is known of the
   current block, or more than the current block holds.
   */
  predicate Harmless(y: System, best: nat, step: Step)
  {
    step.TakeAck? && y.acks != [] && y.acks[0].blockno < y.server.curr ==>
      y.acks[0].dofRec <= best || y.acks[0].dofRec > |Src(y.hist, y.server.curr)|
  }

  /** send_ctcp raises the request with the current block. */
  lemma {:induction false} AcceptOrder(y: System, buf: seq<byte>)
    requires Inv(y)
    ensures S.Shaped(y.server) && S.Sized(y.server) && |y.hist| == y.server.maxb + 1
    ensures var y' := AcceptStep(y, buf);
            && y'.server.curr == y.server.curr && y'.acks == y.acks && y'.client == y.client
            && |Src(y.hist, y.server.curr)| <= |Src(y'.hist, y.server.curr)|
            && y'.server.dofReq - y.server.dofReq == |Src(y'.hist, y.server.curr)| - |Src(y.hist, y.server.curr)|
    decreases |buf|, y.server.curr + NUM_BLOCKS - y.server.maxb
  {
    hide Bytes, Stream, Slot, SlotInv, JobInv, RequestInv, PathInv, ClientInv, NetInv, AcksInv, Delivered, IsBlock;
    var s := y.server;
    if buf == [] {
      assert AcceptStep(y, buf) == y by {
        assert y.accepted + buf[..0] == y.accepted;
      }
    } else {
      var last := s.blocks[Slot(s.maxb)];
      assert IsBlock(last);
      ReadBlockKeepsBytes(last, buf);
      var (pkts, read) := ReadBlock(last, buf);
      LastBlockSlot(s, y.hist);
      if read > 0 {
        var y' := y.(server := S.AddPackets(s, pkts), hist := y.hist[s.maxb := pkts],
          accepted := y.accepted + buf[..read]);
        AddPacketsStep(y, pkts, buf[..read]);
        AddPacketsKeeps(s, y.hist, pkts);
        AcceptUnfold(y, buf, pkts, read);
        AcceptOrder(y', buf[read..]);
      } else if s.maxb < s.curr + NUM_BLOCKS {
        var y' := y.(server := s.(maxb := s.maxb + 1), hist := y.hist + [[]]);
        OpenBlockStep(y);
        AcceptOrder(y', buf);
      } else {
        assert AcceptStep(y, buf) == y by {
          assert y.accepted + buf[..0] == y.accepted;
        }
      }
    }
  }

  /**
   A late ack for a block already freed leaves the request exact if and only if it acknowledges no
   more than is known already, or more than the current block holds.
   */
  lemma StaleAckSpoilsRequest(s: S.State, hist: seq<seq<seq<byte>>>, ack: Ack, cwnd: nat, acked: nat)
    requires ServerInv(s, hist) && s.dofReq + acked == |Src(hist, s.curr)| && ack.blockno < s.curr
    ensures S.Shaped(s)
    ensures S.HandleAck(s, ack, cwnd).dofReq + acked == |Src(hist, s.curr)|
            <==> ack.dofRec <= acked || ack.dofRec > |Src(hist, s.curr)|
  {
    hide SlotInv, JobInv, Slot, Src;
    CurrentLength(s, hist);
  }

  /** The request after an ack, in terms of the history. */
  lemma RequestFromHistory(y: System, cwnd: nat)
    requires Inv(y) && Enabled(y, TakeAck(cwnd)) && y.acks != []
    ensures var (y', ack) := (After(y, TakeAck(cwnd)), y.acks[0]);
            var advanced := ack.blockno > y.server.curr;
            && y'.server.curr == (if advanced then ack.blockno else y.server.curr)
            && (!advanced ==> y'.hist == y.hist)
            && ack.dofRec <= |Src(y'.hist, ack.blockno)|
            && y'.server.dofReq
               == S.UpdatedRequest(y.server.dofReq, |Src(y'.hist, y'.server.curr)|, ack.dofRec, advanced)
  {
    hide S.FreeBlocks, Padded, Slot, ServerInv, ClientInv, NetInv, AcksInv, Stream, Delivered, C.Valid, Core,
      SameStream, S.UpdatedRequest, Enabled, After, Src;
    TakeAckUnfold(y, cwnd);
    AckHead(y);
    InvParts(y);
    var s, ack := y.server, y.acks[0];
    var freed := S.FreeBlocks(s, ack.blockno);
    FreeBlocksCore(s, y.client, y.data, y.acks, y.hist, ack.blockno);
    CoreAck(freed, y.client, y.data, y.acks, Padded(y.hist, freed.maxb + 1));
    HistoryShape(y);
    if ack.blockno <= s.curr {
      NothingFreed(s, y.hist, ack.blockno);
    }
  }

  lemma TakeAckExact(y: System, cwnd: nat, best: nat)
    requires Inv(y) && Enabled(y, TakeAck(cwnd)) && y.acks != [] && Exact(y, best)
    ensures Exact(After(y, TakeAck(cwnd)), BestAfter(y, best, TakeAck(cwnd))) <==> Harmless(y, best, TakeAck(cwnd))
  {
    hide Inv, Enabled, After, Src;
    RequestFromHistory(y, cwnd);
  }

  /** Nothing the order depends on has changed, except that acks may have been lost or repeated. */
  ghost predicate SameKnowledge(y: System, y': System)
  {
    y'.server.curr == y.server.curr && y'.server.dofReq == y.server.dofReq && y'.client == y.client && y'.hist == y.hist
  }

  lemma SenderStepSame(y: System, step: Step)
    requires Enabled(y, step)
    requires step.Code? || step.Start? || step.Visit? || step.Send? || step.Leave? || step.Timeout?
    ensures SameKnowledge(y, After(y, step)) && After(y, step).acks == y.acks
  {
    hide S.CodingJob, S.VisitBlock, C.Valid, S.CountLive;
    match step
    case Code(n, seeds) => CodingJobShape(y.server, n, seeds);
    case Visit(p) => VisitShape(y.server, p);
    case Send(t) => SendShape(y.server, t);
    case _ =>
  }

  lemma DataStepSame(y: System, step: Step)
    requires Enabled(y, step) && (step.LoseData? || step.RepeatData? || step.SwapData?)
    ensures SameKnowledge(y, After(y, step)) && After(y, step).acks == y.acks
  {
    hide C.Valid;
  }

  lemma AckStepSame(y: System, step: Step)
    requires Enabled(y, step) && (step.LoseAck? || step.RepeatAck? || step.SwapAcks?)
    ensures SameKnowledge(y, After(y, step))
  {
    hide C.Valid;
  }

  lemma ReceiveStepSame(y: System, room: nat)
    requires Enabled(y, Receive(room))
    ensures After(y, Receive(room)).server == y.server && After(y, Receive(room)).hist == y.hist
  {
    hide C.Valid, C.Receive;
  }

  /** Whatever the step, it leaves the request exact if and only if it is harmless. */
  lemma StepIsExact(y: System, step: Step, best: nat)
    requires Inv(y) && Enabled(y, step) && Exact(y, best)
    ensures Exact(After(y, step), BestAfter(y, best, step)) <==> Harmless(y, best, step)
  {
    hide Inv, Enabled, After, Src;
    match step
    case Accept(buf) => AcceptExact(y, buf, best);
    case Receive(room) => ReceiveStepSame(y, room);
    case TakeAck(cwnd) =>
      AckWaits(y, cwnd);
      TakeAckExact(y, cwnd, best);
    case LoseData(_) => DataStepSame(y, step);
    case RepeatData(_) => DataStepSame(y, step);
    case SwapData(_) => DataStepSame(y, step);
    case LoseAck(_) => AckStepSame(y, step);
    case RepeatAck(_) => AckStepSame(y, step);
    case SwapAcks(_) => AckStepSame(y, step);
    case _ => SenderStepSame(y, step);
  }

  lemma AckWaits(y: System, cwnd: nat)
    requires Enabled(y, TakeAck(cwnd))
    ensures y.acks != []
  {
    hide C.Valid;
  }

  lemma AcceptExact(y: System, buf: seq<byte>, best: nat)
    requires Inv(y) && Enabled(y, Accept(buf)) && Exact(y, best)
    ensures Exact(After(y, Accept(buf)), best)
  {
    hide Inv, AcceptStep, Src, C.Valid;
    AcceptOrder(y, buf);
  }

  /** The best ack for the block that is current after i steps. */
  function Best(run: seq<System>, steps: seq<Step>, i: nat): nat
    requires i < |run| && |run| == |steps| + 1
  {
    if i == 0 then 0 else BestAfter(run[i - 1], Best(run, steps, i - 1), steps[i - 1])
  }

  /**
   In every run, with acks lost, repeated and reordered at will: the request has been exact in every
   state so far, even as the current block grew, if and only if every step so far was harmless.
   */
  lemma {:induction false} RequestIsExact(run: seq<System>, steps: seq<Step>, i: nat)
    requires IsRun(run, steps) && i < |run|
    ensures (forall k :: 0 <= k <= i ==> Exact(run[k], Best(run, steps, k)))
            <==> forall k :: 0 <= k < i ==> Harmless(run[k], Best(run, steps, k), steps[k])
  {
    hide Inv, Enabled, Strict, After, Exact, Harmless, BestAfter;
    if i == 0 {
      InitialExact();
    } else {
      RequestIsExact(run, steps, i - 1);
      RunKeepsInv(run, steps, i - 1);
      var best := Best(run, steps, i - 1);
      assert run[i] == After(run[i - 1], steps[i - 1]);
      assert Best(run, steps, i) == BestAfter(run[i - 1], best, steps[i - 1]);
      if Exact(run[i - 1], best) {
        StepIsExact(run[i - 1], steps[i - 1], best);
        assert Exact(run[i], Best(run, steps, i)) <==> Harmless(run[i - 1], best, steps[i - 1]);
      }
    }
  }

  lemma InitialExact()
    ensures Exact(Initial(), 0)
  {
  }

  // ---------------------------------------------------------------------------------------------
  // In-order acks

  /**
   `acked` is the degrees of freedom last acknowledged for the sender's current block: the sender, the
   acks in flight and the receiver are in order.
   */
  ghost predicate OrderInv(y: System, acked: nat)
    requires |y.client.blocks| == NUM_BLOCKS
  {
    && (forall i, j :: 0 <= i < j < |y.acks| ==> AckNotBehind(y.acks[i], y.acks[j]))
    && (forall i :: 0 <= i < |y.acks| ==> NotBehind(y.server.curr, acked, y.acks[i].blockno, y.acks[i].dofRec))
    && (forall i :: 0 <= i < |y.acks| ==>
        NotBehind(y.acks[i].blockno, y.acks[i].dofRec, y.client.curr, CurrentDofs(y.client)))
    && NotBehind(y.server.curr, acked, y.client.curr, CurrentDofs(y.client))
  }

  /** What the step makes the last acknowledged degrees of freedom. */
  function AckedAfter(y: System, acked: nat, step: Step): nat
  {
    if step.TakeAck? && y.acks != [] && y.acks[0].blockno >= y.server.curr then y.acks[0].dofRec else acked
  }

  /** The step does not reorder acks. */
  predicate InOrder(step: Step)
  {
    !step.SwapAcks?
  }

  lemma InitialOrder()
    ensures OrderInv(Initial(), 0)
  {
    EmptyBlockValid();
    C.EmptyBlockNotFull();
  }

  lemma AcceptKeepsOrder(y: System, buf: seq<byte>, acked: nat)
    requires Inv(y) && C.Valid(y.client) && OrderInv(y, acked) && Enabled(y, Accept(buf))
    ensures var y' := After(y, Accept(buf)); |y'.client.blocks| == NUM_BLOCKS && OrderInv(y', acked)
  {
    hide Inv, AcceptStep, Src;
    AcceptOrder(y, buf);
  }

  lemma ReceiveKeepsOrder(y: System, room: nat, acked: nat)
    requires Inv(y) && C.Valid(y.client) && OrderInv(y, acked) && Enabled(y, Receive(room))
    ensures var y' := After(y, Receive(room)); |y'.client.blocks| == NUM_BLOCKS && OrderInv(y', acked)
  {
    hide Inv, C.Receive, Src, ServerInv, NetInv, ClientInv, Slot, CurrentDofs;
    var r := C.Receive(y.client, y.data[0], room);
    ArrivalAdvances(y, room);
    var y' := After(y, Receive(room));
    assert y'.acks == y.acks + [r.ack];
  }

  lemma ArrivalAdvances(y: System, room: nat)
    requires Inv(y) && C.Valid(y.client) && y.data != [] && WellFormed(y.data[0])
    ensures var r := C.Receive(y.client, y.data[0], room);
            && |r.client.blocks| == NUM_BLOCKS
            && NotBehind(y.client.curr, CurrentDofs(y.client), r.ack.blockno, r.ack.dofRec)
            && r.ack.blockno == r.client.curr && r.ack.dofRec == CurrentDofs(r.client)
  {
    hide ServerInv, NetInv, ClientOf, C.Receive, Slot, CurrentDofs, Stream, Delivered, Expected;
    HistoryShape(y);
    ArrivalExpected(y.server, y.client, y.data, y.hist);
    ReceiveAdvances(y.client, y.hist, y.data[0], room);
    ReceiveDelivers(y.client, y.data[0], room, y.hist);
    ClientIsValid(C.Receive(y.client, y.data[0], room).client, y.hist);
  }

  lemma TakeAckKeepsOrder(y: System, cwnd: nat, acked: nat)
    requires Inv(y) && C.Valid(y.client) && OrderInv(y, acked) && Enabled(y, TakeAck(cwnd))
    ensures var y' := After(y, TakeAck(cwnd));
            |y'.client.blocks| == NUM_BLOCKS && OrderInv(y', AckedAfter(y, acked, TakeAck(cwnd)))
  {
    hide Inv, S.HandleAck, S.FreeBlocks, Padded, Slot, CurrentDofs, Enabled, After;
    TakeAckUnfold(y, cwnd);
    HandleAckShape(y.server, y.acks[0], cwnd);
    var y' := After(y, TakeAck(cwnd));
    assert y'.acks == y.acks[1..];
  }

  /** With acks in order, the next ack is the best one. */
  lemma NextAckIsBest(y: System, step: Step, acked: nat)
    requires C.Valid(y.client) && OrderInv(y, acked)
    ensures BestAfter(y, acked, step) == AckedAfter(y, acked, step) && Harmless(y, acked, step)
  {
    hide C.Valid, CurrentDofs, Src;
  }

  lemma SameKeepsOrder(y: System, y': System, acked: nat)
    requires C.Valid(y.client) && OrderInv(y, acked) && SameKnowledge(y, y') && y'.acks == y.acks
    ensures OrderInv(y', acked)
  {
    hide C.Valid, CurrentDofs, Src;
  }

  lemma LossKeepsOrder(y: System, i: nat, acked: nat)
    requires C.Valid(y.client) && OrderInv(y, acked) && i < |y.acks|
    ensures OrderInv(y.(acks := Without(y.acks, i)), acked)
  {
    hide C.Valid, CurrentDofs, Src, NotBehind;
    var r := Without(y.acks, i);
    assert forall k :: 0 <= k < |r| ==> r[k] == y.acks[if k < i then k else k + 1];
  }

  lemma AckNotBehindItself(a: Ack)
    ensures AckNotBehind(a, a)
  {
  }

  lemma RepetitionKeepsOrder(y: System, i: nat, acked: nat)
    requires C.Valid(y.client) && OrderInv(y, acked) && i < |y.acks|
    ensures OrderInv(y.(acks := Repeated(y.acks, i)), acked)
  {
    hide C.Valid, CurrentDofs, Src, NotBehind, AckNotBehind;
    var r := Repeated(y.acks, i);
    assert forall k :: 0 <= k < |r| ==> r[k] == y.acks[if k <= i then k else k - 1];
    AckNotBehindItself(y.acks[i]);
  }

  lemma OtherStepKeepsOrder(y: System, step: Step, acked: nat)
    requires C.Valid(y.client) && OrderInv(y, acked) && Enabled(y, step) && InOrder(step)
    requires !step.Accept? && !step.Receive? && !step.TakeAck?
    ensures var y' := After(y, step); |y'.client.blocks| == NUM_BLOCKS && OrderInv(y', acked)
  {
    hide OrderInv, C.Valid, SameKnowledge;
    InOrderClient(y);
    if step.LoseAck? {
      LossKeepsOrder(y, step.i, acked);
    } else if step.RepeatAck? {
      RepetitionKeepsOrder(y, step.i, acked);
    } else {
      hide Enabled, After;
      if step.LoseData? || step.RepeatData? || step.SwapData? {
        DataStepSame(y, step);
      } else {
        SenderStepSame(y, step);
      }
      SameClient(y, After(y, step));
      SameKeepsOrder(y, After(y, step), acked);
    }
  }

  lemma InOrderClient(y: System)
    requires C.Valid(y.client)
    ensures |y.client.blocks| == NUM_BLOCKS
  {
  }

  lemma SameClient(y: System, y': System)
    requires SameKnowledge(y, y') && C.Valid(y.client)
    ensures |y'.client.blocks| == NUM_BLOCKS
  {
  }

  lemma StepKeepsOrder(y: System, step: Step, acked: nat)
    requires Inv(y) && C.Valid(y.client) && OrderInv(y, acked) && Enabled(y, step) && InOrder(step)
    ensures var y' := After(y, step); |y'.client.blocks| == NUM_BLOCKS && OrderInv(y', AckedAfter(y, acked, step))
  {
    hide Inv, OrderInv, Enabled, C.Valid, After;
    match step
    case Accept(buf) => AcceptKeepsOrder(y, buf, acked);
    case Receive(room) => ReceiveKeepsOrder(y, room, acked);
    case TakeAck(cwnd) => TakeAckKeepsOrder(y, cwnd, acked);
    case _ => OtherStepKeepsOrder(y, step, acked);
  }

  /** The degrees of freedom last acknowledged for the current block after i steps. */
  function LastAcked(run: seq<System>, steps: seq<Step>, i: nat): nat
    requires i < |run| && |run| == |steps| + 1
  {
    if i == 0 then 0 else AckedAfter(run[i - 1], LastAcked(run, steps, i - 1), steps[i - 1])
  }

  lemma {:induction false} RunKeepsOrder(run: seq<System>, steps: seq<Step>, i: nat)
    requires IsRun(run, steps) && i < |run| && forall k :: 0 <= k < |steps| ==> InOrder(steps[k])
    ensures Inv(run[i]) && C.Valid(run[i].client) && OrderInv(run[i], LastAcked(run, steps, i))
    ensures Best(run, steps, i) == LastAcked(run, steps, i)
  {
    hide Inv, Enabled, Strict, After, OrderInv, InOrder, BestAfter, AckedAfter, C.Valid;
    RunKeepsInv(run, steps, i);
    InvClientValid(run[i]);
    if i == 0 {
      InitialOrder();
    } else {
      assert run[i] == After(run[i - 1], steps[i - 1]);
      RunKeepsOrder(run, steps, i - 1);
      NextAckIsBest(run[i - 1], steps[i - 1], LastAcked(run, steps, i - 1));
      StepKeepsOrder(run[i - 1], steps[i - 1], LastAcked(run, steps, i - 1));
    }
  }

  lemma InvClientValid(y: System)
    requires Inv(y)
    ensures C.Valid(y.client)
  {
  }

  /**
   With acks in order every step is harmless: the request always equals the packets of the current block less
   the degrees of freedom last acknowledged for it, and no ack in flight is for a block the sender has freed.
   */
  lemma InOrderRequest(run: seq<System>, steps: seq<Step>, i: nat)
    requires IsRun(run, steps) && i < |run| && forall k :: 0 <= k < |steps| ==> InOrder(steps[k])
    ensures var y := run[i];
            && y.server.dofReq == |Src(y.hist, y.server.curr)| - LastAcked(run, steps, i)
            && forall k :: 0 <= k < |y.acks| ==> y.server.curr <= y.acks[k].blockno <= y.client.curr
  {
    hide Inv, InOrder, Harmless, BestAfter, AckedAfter, C.Valid, CurrentDofs, Enabled, Strict, After, LastAcked, Best;
    forall k | 0 <= k < i ensures Harmless(run[k], Best(run, steps, k), steps[k]) {
      RunKeepsOrder(run, steps, k);
      NextAckIsBest(run[k], steps[k], LastAcked(run, steps, k));
    }
    RequestIsExact(run, steps, i);
    RunKeepsOrder(run, steps, i);
    assert Exact(run[i], Best(run, steps, i));
  }
}
