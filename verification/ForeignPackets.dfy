/**
 What the guard of send_segs does: from every state in which it lets through the block one ring past the
 current one and finds packets missing, the receiver may be sent a packet that breaks its equations.
 Such states are in some run if and only if the congestion window may exceed the size of a block.
 */
module ForeignPackets {
  import opened Config
  import opened FieldTables
  import opened Slots
  import opened Packets
  import opened Transport
  import opened Invariants
  import opened Reach
  import Delivery
  import Elimination
  import Framing
  import GuardRuns
  import NetworkProofs
  import Random
  import Safety
  import SmallWindows
  import Windows
  import S = Server
  import C = Client

  /** The next packet can be received; the equations the receiver holds are true before it, and not after. */
  ghost predicate NextPacketBreaks(y: System)
  {
    && Enabled(y, Receive(0)) && Delivery.ClientOf(y.client, y.hist)
    && !Delivery.ClientOf(C.Store(y.client, y.data[0]), y.hist)
  }

  /** What every step needs, also outside the invariants. */
  ghost predicate Whole(y: System)
  {
    S.Shaped(y.server) && S.Sized(y.server) && C.Valid(y.client) && |y.hist| == y.server.maxb + 1
  }

  /** Everything in flight is lost. */
  lemma {:induction false} LoseAll(x: System, y: System)
    requires Leads(x, y) && Whole(y)
    ensures Leads(x, y.(data := []))
    decreases |y.data|
  {
    hide Leads, Whole;
    if y.data != [] {
      LossEnabled(y, 0);
      LeadsOn(x, y, LoseData(0));
      assert Without(y.data, 0) == y.data[1..];
      LoseAll(x, y.(data := y.data[1..]));
    } else {
      assert y.(data := []) == y;
    }
  }

  lemma LossEnabled(y: System, i: nat)
    requires Whole(y) && i < |y.data|
    ensures Enabled(y, LoseData(i)) && After(y, LoseData(i)) == y.(data := Without(y.data, i))
    ensures Whole(y.(data := Without(y.data, i)))
  {
    hide C.Valid;
  }

  // ---------------------------------------------------------------------------------------------
  // The packet is coded

  /** The guard has let through the block one ring on, and packets of it are missing. */
  ghost predicate Missing(y: System, p: real)
  {
    var s := y.server;
    && S.Shaped(s) && s.phase.Visiting? && s.phase.blockno == s.curr + NUM_BLOCKS && S.MayVisit(s)
    && 0.0 <= p <= 1.0 && s.dofRemain[Slot(s.phase.blockno)] < S.NeededNow(s, p)
  }

  /** The packet that will be made of the current block under the later number. */
  function Foreign(s: S.State, seed: byte): DataPacket
    requires S.Shaped(s) && S.Sized(s) && s.phase.Visiting?
  {
    var i := Slot(s.phase.blockno);
    assert Framing.IsBlock(s.blocks[i]);
    CodedPacket(s.phase.blockno, seed, s.blocks[i])
  }

  /** k packets will be sent before this one. */
  ghost predicate Ripe(y: System, b: nat, pkt: DataPacket, k: nat)
  {
    var (s, i) := (y.server, Slot(b));
    && Whole(y) && y.data == []
    && s.phase.Sending? && s.phase.blockno == b && k < s.phase.left <= s.phase.win
    && k < s.dofRemain[i] && k < |s.queues[i]| && s.queues[i][k] == pkt
  }

  /** With the ring full, the slot of the block one ring on holds the current block, which is full. */
  lemma SlotIsTaken(y: System, p: real)
    requires Inv(y) && Missing(y, p)
    ensures Whole(y) && y.server.maxb == y.server.curr + NUM_BLOCKS
    ensures |y.server.blocks[Slot(y.server.phase.blockno)]| == BLOCK_SIZE
    ensures |y.server.queues[Slot(y.server.phase.blockno)]| <= y.server.dofRemain[Slot(y.server.phase.blockno)]
    ensures Delivery.Src(y.hist, y.server.phase.blockno) == []
    ensures Delivery.ClientOf(y.client, y.hist) && y.client.curr <= y.server.phase.blockno
  {
    hide NetInv, AcksInv, JobInv, QueueOf, Slot, S.NeededNow, Delivery.WindowBlock, Pending;
    SlotWraps(y.server.curr);
    assert SlotInv(y.server, y.hist, y.server.curr);
  }

  lemma VisitOrders(y: System, p: real)
    requires Whole(y) && Missing(y, p)
    ensures Enabled(y, Visit(p))
    ensures var (s, b) := (y.server, y.server.phase.blockno);
            var (n, s') := (S.NeededNow(s, p), After(y, Visit(p)).server);
            && After(y, Visit(p)) == y.(server := s')
            && s' == s.(jobs := s.jobs + [S.Job(b, 0, n - s.dofRemain[Slot(b)], MAX_CODING_WND)],
                        dofRemain := s.dofRemain[Slot(b) := n],
                        phase := S.Sending(b, n, s.phase.win, s.phase.limit, S.OnFlyNext(s)))
  {
    hide C.Valid, Slot, S.NeededNow, S.OnFlyNext;
  }

  lemma OrderIsMet(y: System, b: nat, m: nat, seed: byte)
    requires Whole(y) && y.server.jobs != [] && b >= y.server.curr && m > 0 && y.server.blocks[Slot(b)] != []
    requires y.server.jobs[|y.server.jobs| - 1] == S.Job(b, 0, m, MAX_CODING_WND)
    ensures var (s, n, seeds) := (y.server, |y.server.jobs| - 1, seq(m, _ => seed));
            && Framing.IsBlock(s.blocks[Slot(b)])
            && Enabled(y, Code(n, seeds))
            && var (s', pkt) := (After(y, Code(n, seeds)).server, CodedPacket(b, seed, s.blocks[Slot(b)]));
            && After(y, Code(n, seeds)) == y.(server := s')
            && s' == s.(jobs := s'.jobs, queues := s'.queues) && S.Shaped(s')
            && |s'.queues[Slot(b)]| > |s.queues[Slot(b)]|
            && s'.queues[Slot(b)][|s.queues[Slot(b)]|] == pkt
  {
    hide C.Valid, Slot, CodedPacket;
    var s, n, seeds := y.server, |y.server.jobs| - 1, seq(m, _ => seed);
    assert Framing.IsBlock(s.blocks[Slot(b)]);
    Safety.CodingJobShape(s, n, seeds);
    assert S.JobPackets(s.jobs[n], s.blocks[Slot(b)], seeds)[0] == CodedPacket(b, seed, s.blocks[Slot(b)]);
  }

  /** The visit and the job it orders make the packet ripe. */
  lemma Ripen(x: System, y: System, p: real, seed: byte) returns (y': System, k: nat)
    requires Leads(x, y) && Inv(y) && Missing(y, p)
    ensures Whole(y) && Leads(x, y') && Ripe(y', y.server.phase.blockno, Foreign(y.server, seed), k)
    ensures y'.client == y.client && y'.hist == y.hist
  {
    hide Leads, Inv, C.Valid, Slot, S.NeededNow, CodedPacket, S.OnFlyNext, Enabled, After, S.Sized;
    SlotIsTaken(y, p);
    var y1 := y.(data := []);
    LoseAll(x, y);
    var s, b := y.server, y.server.phase.blockno;
    VisitOrders(y1, p);
    LeadsOn(x, y1, Visit(p));
    var y2 := After(y1, Visit(p));
    SizedStill(s, y2.server);
    var m := S.NeededNow(s, p) - s.dofRemain[Slot(b)];
    OrderIsMet(y2, b, m, seed);
    var step := Code(|y2.server.jobs| - 1, seq(m, _ => seed));
    LeadsOn(x, y2, step);
    y', k := After(y2, step), |s.queues[Slot(b)]|;
    SizedStill(s, y'.server);
  }

  lemma SizedStill(s: S.State, s': S.State)
    requires S.Shaped(s) && S.Sized(s) && S.Shaped(s') && s'.blocks == s.blocks
    ensures S.Sized(s')
  {
  }

  // ---------------------------------------------------------------------------------------------
  // The packet is sent

  lemma SendRipe(y: System, b: nat, pkt: DataPacket, k: nat)
    requires Ripe(y, b, pkt, k)
    ensures Enabled(y, Send(0.0))
    ensures var (y', head) := (After(y, Send(0.0)), y.server.queues[Slot(b)][0].(seqno := y.server.nxt));
            && y' == y.(server := y'.server, data := [head]) && Whole(y')
            && (k > 0 ==> Ripe(y'.(data := []), b, pkt, k - 1))
  {
    hide C.Valid, Slot;
    assert [] + [y.server.queues[Slot(b)][0].(seqno := y.server.nxt)]
        == [y.server.queues[Slot(b)][0].(seqno := y.server.nxt)];
  }

  /** What is queued before the packet is sent and lost; then the packet is on its way. */
  lemma {:induction false} SendUpTo(x: System, y: System, b: nat, pkt: DataPacket, k: nat) returns (y': System)
    requires Leads(x, y) && Ripe(y, b, pkt, k)
    ensures Leads(x, y') && Whole(y') && |y'.data| == 1 && y'.data[0] == pkt.(seqno := y'.data[0].seqno)
    ensures y'.client == y.client && y'.hist == y.hist
    decreases k
  {
    hide Leads, Enabled, After, Slot, C.Valid, S.Sized, S.Shaped;
    SendRipe(y, b, pkt, k);
    LeadsOn(x, y, Send(0.0));
    var y1 := After(y, Send(0.0));
    if k == 0 {
      y' := y1;
    } else {
      LoseAll(x, y1);
      y' := SendUpTo(x, y1.(data := []), b, pkt, k - 1);
    }
  }

  /**
   The guard does harm: wherever it lets through the block one ring on, packets are missing, and the receiver is
   ahead of the sender, looking at that block may make the sender send a packet that breaks the receiver.
   This holds for every seed that coding_job can settle on.
   */
  lemma GuardBreaksReceiver(x: System, y: System, p: real, seed: byte) returns (y': System)
    requires Leads(x, y) && Inv(y) && Missing(y, p) && y.client.curr > y.server.curr
    requires !Elimination.IsEmpty(Random.Coefficients(seed, y.server.phase.blockno, BLOCK_SIZE))
    ensures Leads(x, y') && NextPacketBreaks(y')
  {
    hide Leads, Inv, C.Valid, Slot, S.NeededNow, Delivery.ClientOf, C.Store, S.Sized, S.MayVisit;
    SlotIsTaken(y, p);
    var y1, k := Ripen(x, y, p, seed);
    y' := SendUpTo(x, y1, y.server.phase.blockno, Foreign(y.server, seed), k);
    ForeignIsWellFormed(y.server, seed, y'.data[0].seqno);
    Windows.ForeignPacketBreaksReceiver(y'.client, y'.hist, y'.data[0]);
  }

  lemma ForeignIsWellFormed(s: S.State, seed: byte, seqno: nat)
    requires S.Shaped(s) && S.Sized(s) && s.phase.Visiting? && |s.blocks[Slot(s.phase.blockno)]| == BLOCK_SIZE
    ensures var pkt := Foreign(s, seed).(seqno := seqno);
            && WellFormed(pkt) && pkt.blockno == s.phase.blockno
            && PacketCoeffs(pkt) == Random.Coefficients(seed, s.phase.blockno, BLOCK_SIZE)
  {
    hide Combine, Random.Coefficients, Slot;
    assert Framing.IsBlock(s.blocks[Slot(s.phase.blockno)]);
  }

  // ---------------------------------------------------------------------------------------------
  // Which sizes are safe

  /** From the start a packet that breaks the receiver can be reached. */
  lemma BreakReached(steady: bool) returns (y: System, y': System)
    requires BLOCK_SIZE >= 2 && GuardRuns.Level(1, steady) < MAX_CWND
    ensures Reached(y, 0.0, steady) && Missing(y, 0.0)
    ensures Leads(y, y') && NextPacketBreaks(y')
    ensures Leads(Initial(), y) && Inv(y) && y.client.curr > y.server.curr
  {
    hide Reached, Leads, Inv, Slot, S.NeededNow, C.Valid, NextPacketBreaks, S.Sized, Random.Coefficients;
    y := GuardRuns.GuardReached(steady);
    ReachedInv(y, 0.0, steady);
    ReachedLeads(y, 0.0, steady);
    LeadsNowhere(y);
    var seed := Random.SomeSeedIsUseful(y.server.phase.blockno, BLOCK_SIZE);
    y' := GuardBreaksReceiver(y, y, 0.0, seed);
  }

  /**
   With one loss estimate throughout each pass, a run breaks the receiver if the window may hold a packet for
   each slot of the ring beside a block. The sizes of the source, 32 packets to a block, 100 blocks and
   1000 packets in the window, are among these.
   */
  lemma SteadyRunBreaks() returns (y: System, y': System)
    requires 2 <= BLOCK_SIZE && BLOCK_SIZE + NUM_BLOCKS - 2 < MAX_CWND
    ensures Reached(y, 0.0, true) && Missing(y, 0.0) && Leads(y, y') && NextPacketBreaks(y')
  {
    hide Reached, Leads, NextPacketBreaks, Missing;
    y, y' := BreakReached(true);
  }

  /** In a run no packet breaks the receiver. */
  lemma RunsAreSafe(y: System)
    requires Inv(y)
    ensures !NextPacketBreaks(y)
  {
    hide ServerInv, NetInv, AcksInv, Slot, Delivery.ClientOf, C.Store, WellFormed, Delivery.Stream, Delivery.Delivered;
    if Enabled(y, Receive(0)) {
      Safety.HistoryShape(y);
      NetworkProofs.ArrivalExpected(y.server, y.client, y.data, y.hist);
      Delivery.StoreKeeps(y.client, y.data[0], y.hist);
    }
  }

  /**
   For blocks of two packets or more: no step from the start ever leads to a packet that breaks the
   receiver, whatever the guard lets through, if and only if the window never exceeds a block.
   */
  lemma GuardIsHarmless()
    requires BLOCK_SIZE >= 2
    ensures (forall y | Leads(Initial(), y) :: !NextPacketBreaks(y)) <==> MAX_CWND <= BLOCK_SIZE
  {
    hide Leads, Reached, NextPacketBreaks, Inv, S.NeededNow, Slot, Random.Coefficients;
    if MAX_CWND <= BLOCK_SIZE {
      forall y | Leads(Initial(), y) ensures !NextPacketBreaks(y) {
        SmallWindows.LeadsToInv(y);
        RunsAreSafe(y);
      }
    } else {
      var y0, _ := BreakReached(false);
      var seed := Random.SomeSeedIsUseful(y0.server.phase.blockno, BLOCK_SIZE);
      var y := GuardBreaksReceiver(Initial(), y0, 0.0, seed);
    }
  }
}
