/**
 The two block windows and the window of packets in flight: what keeps them apart in every run, and
 what goes wrong when send_segs reaches one block further than the ring is long.
 */
module Windows {
  import opened Config
  import opened FieldTables
  import opened Slots
  import opened Elimination
  import opened Framing
  import opened Packets
  import opened Decoder
  import opened Delivery
  import opened Transport
  import opened Invariants
  import opened SenderProofs
  import opened Safety
  import S = Server
  import C = Client

  // ---------------------------------------------------------------------------------------------
  // Every run

  /**
   The sender never frees a block the receiver still needs: acks never name a block the receiver has
   not reached, the receiver is between the sender's current block and the one after its last, and
   every block before the last is full and still in its slot.
   */
  lemma WindowsOverlap(run: seq<System>, steps: seq<Step>, i: nat)
    requires IsRun(run, steps) && i < |run|
    ensures var (s, c) := (run[i].server, run[i].client);
            && (forall k :: 0 <= k < |run[i].acks| ==> run[i].acks[k].blockno <= c.curr)
            && s.curr <= c.curr <= s.maxb + 1
            && s.curr <= s.maxb <= s.curr + NUM_BLOCKS
            && S.Shaped(s)
            && (forall b :: s.curr <= b < s.maxb ==> |s.blocks[Slot(b)]| == BLOCK_SIZE)
  {
    RunKeepsInv(run, steps, i);
    hide IsRun, NetInv, Stream, Delivered, ClientOf, C.Waiting, PathInv, RequestInv, QueueOf, Pending, Slot;
    var s := run[i].server;
    forall b | s.curr <= b < s.maxb ensures |s.blocks[Slot(b)]| == BLOCK_SIZE {
      assert SlotInv(s, run[i].hist, b);
    }
    forall k | 0 <= k < |run[i].acks| ensures run[i].acks[k].blockno <= run[i].client.curr {
      assert AckInv(run[i].acks[k], s, run[i].client, run[i].hist);
    }
  }

  /** Whatever the sender has freed has been given to the user in full. */
  lemma FreedIsDelivered(run: seq<System>, steps: seq<Step>, i: nat)
    requires IsRun(run, steps) && i < |run|
    ensures IsHistory(run[i].hist) && run[i].server.curr <= |run[i].hist|
    ensures Stream(run[i].hist, run[i].server.curr) <= run[i].delivered
  {
    RunKeepsInv(run, steps, i);
    hide IsRun, NetInv, AcksInv, Stream, WindowBlock, C.Waiting, PathInv, RequestInv, SlotInv, JobInv, Slot, Bytes;
    ClientIsValid(run[i].client, run[i].hist);
    StreamGrows(run[i].hist, run[i].server.curr, run[i].client.curr);
  }

  /** No data packet ever reaches the receiver's branch for blocks that do not exist yet. */
  lemma NoPacketBeyondWindow(run: seq<System>, steps: seq<Step>, i: nat, k: nat)
    requires IsRun(run, steps) && i < |run| && k < |run[i].data|
    ensures run[i].data[k].blockno < run[i].client.curr + NUM_BLOCKS
    ensures WellFormed(run[i].data[k])
  {
    RunKeepsInv(run, steps, i);
    hide IsRun, ServerInv, AcksInv, Stream, Delivered, ClientOf, C.Waiting, PathInv, RequestInv, PipeInv, Encodes;
    assert InFlight(run[i].data[k], run[i].server, run[i].hist);
  }

  /** The receiver's degrees of freedom never exceed what the sender has put into the block. */
  lemma DofsNeverExceedLength(run: seq<System>, steps: seq<Step>, i: nat, b: nat)
    requires IsRun(run, steps) && i < |run|
    requires run[i].client.curr <= b < run[i].client.curr + NUM_BLOCKS
    ensures |run[i].client.blocks| == NUM_BLOCKS
    ensures run[i].client.blocks[Slot(b)].dofs <= |Src(run[i].hist, b)|
  {
    RunKeepsInv(run, steps, i);
    hide IsRun, ServerInv, NetInv, AcksInv, Stream, Delivered, C.Waiting, PathInv, RequestInv, WindowBlock;
    DofsWithinBlock(run[i].client, run[i].hist, b);
  }

  // ---------------------------------------------------------------------------------------------
  // The guard of send_segs

  /**
   send_segs looks at blocks up to curr_block + NUM_BLOCKS. When it has a block coded, the packets
   made encode the block they name if and only if that block is before the end of the ring.
   */
  lemma GuardAdmitsForeignBlock(y: System, p: real, seeds: seq<byte>)
    requires Inv(y) && y.server.phase.Visiting? && 0.0 <= p <= 1.0 && S.MayVisit(y.server)
    requires S.Shaped(y.server) && IsHistory(y.hist)
    requires var (s, b) := (y.server, y.server.phase.blockno);
             s.dofRemain[Slot(b)] < S.NeededNow(s, p)
             && |seeds| == S.NeededNow(s, p) - s.dofRemain[Slot(b)]
    ensures var (s, b) := (y.server, y.server.phase.blockno);
            var job := S.Job(b, 0, |seeds|, MAX_CODING_WND);
            && job in S.VisitBlock(s, p).jobs
            && IsBlock(s.blocks[Slot(b)])
            && (QueueOf(S.JobPackets(job, s.blocks[Slot(b)], seeds), b, Src(y.hist, b)) <==> b < s.curr + NUM_BLOCKS)
  {
    hide ServerInv, RequestInv, NetInv, ClientInv, AcksInv, Stream, Delivered, Slot, S.NeededNow, IsBlock, QueueOf,
      S.JobPackets, S.VisitBlock;
    var s, b := y.server, y.server.phase.blockno;
    VisitOrders(s, p, |seeds|);
    BlockInSlot(s, y.hist, b);
    if b < s.curr + NUM_BLOCKS {
      OwnJobEncodes(s, y.hist, p, seeds);
    } else {
      ForeignJobFails(s, y.hist, b, seeds);
    }
  }

  /** A visit that finds too few packets orders the rest. */
  lemma VisitOrders(s: S.State, p: real, n: nat)
    requires S.Shaped(s) && s.phase.Visiting? && S.MayVisit(s)
    requires s.dofRemain[Slot(s.phase.blockno)] < S.NeededNow(s, p)
    requires n == S.NeededNow(s, p) - s.dofRemain[Slot(s.phase.blockno)]
    ensures S.Job(s.phase.blockno, 0, n, MAX_CODING_WND) in S.VisitBlock(s, p).jobs
  {
    hide Slot, S.NeededNow;
  }

  lemma BlockInSlot(s: S.State, hist: seq<seq<seq<byte>>>, b: nat)
    requires ServerInv(s, hist)
    ensures S.Shaped(s) && IsHistory(hist) && IsBlock(s.blocks[Slot(b)])
  {
    hide SlotInv, JobInv, Slot, IsBlock;
  }

  lemma OwnJobEncodes(s: S.State, hist: seq<seq<seq<byte>>>, p: real, seeds: seq<byte>)
    requires ServerInv(s, hist) && s.phase.Visiting? && 0.0 <= p <= 1.0
    requires s.curr <= s.phase.blockno < s.curr + NUM_BLOCKS && S.NeededNow(s, p) > 0 && RequestInv(s, hist)
    ensures var b := s.phase.blockno;
            && IsBlock(s.blocks[Slot(b)])
            && QueueOf(S.JobPackets(S.Job(b, 0, |seeds|, MAX_CODING_WND), s.blocks[Slot(b)], seeds), b, Src(hist, b))
  {
    hide JobInv, Pending, Slot, S.NeededNow, S.JobPackets, QueueOf, Stream;
    var b := s.phase.blockno;
    assert SlotInv(s, hist, b);
    CurrentLength(s, hist);
    if S.RequestNow(s) == 0 {
      NothingNeeded(s, p);
    }
    JobPacketsEncode(S.Job(b, 0, |seeds|, MAX_CODING_WND), s.blocks[Slot(b)], seeds);
  }

  lemma ForeignJobFails(s: S.State, hist: seq<seq<seq<byte>>>, b: nat, seeds: seq<byte>)
    requires ServerInv(s, hist) && s.curr + NUM_BLOCKS <= b && seeds != []
    ensures IsBlock(s.blocks[Slot(b)])
    ensures !QueueOf(S.JobPackets(S.Job(b, 0, |seeds|, MAX_CODING_WND), s.blocks[Slot(b)], seeds), b, Src(hist, b))
  {
    hide SlotInv, JobInv, Slot, PacketOf, CodedPacket, IsBlock;
    BlockInSlot(s, hist, b);
    BlockSized(s.blocks[Slot(b)]);
    var q := S.JobPackets(S.Job(b, 0, |seeds|, MAX_CODING_WND), s.blocks[Slot(b)], seeds);
    assert Src(hist, b) == [];
    assert |q| >= 1;
    NothingOfEmptyBlock(q[0]);
  }

  lemma BlockSized(src: seq<seq<byte>>)
    requires IsBlock(src)
    ensures forall i :: 0 <= i < |src| ==> |src[i]| == PAYLOAD_SIZE
  {
  }

  lemma NothingOfEmptyBlock(pkt: DataPacket)
    ensures !PacketOf(pkt, [])
  {
  }

  /**
   A coded packet labelled with a block that holds nothing yet is stored all the same, if the receiver
   is far enough ahead: the block then claims a degree of freedom the sender never gave it, and no
   equation about it holds.
   */
  lemma ForeignPacketBreaksReceiver(c: C.State, hist: seq<seq<seq<byte>>>, pkt: DataPacket)
    requires ClientOf(c, hist) && WellFormed(pkt) && !IsEmpty(PacketCoeffs(pkt))
    requires c.curr <= pkt.blockno < c.curr + NUM_BLOCKS && Src(hist, pkt.blockno) == []
    ensures C.Valid(c)
    ensures C.Store(c, pkt).blocks[Slot(pkt.blockno)].dofs == 1
    ensures !ClientOf(C.Store(c, pkt), hist)
  {
    hide Slot, Encodes, PacketCoeffs, C.Store;
    ClientIsValid(c, hist);
    var b := pkt.blockno;
    assert WindowBlock(c, hist, b);
    var blk := c.blocks[Slot(b)];
    StoreOtherBlocks(c, pkt, b);
    EmptyBlockAbsorbs(blk, pkt);
    var d := C.Store(c, pkt);
    if ClientOf(d, hist) {
      DofsWithinBlock(d, hist, b);
    }
  }

  lemma EmptyBlockAbsorbs(b: Block, pkt: DataPacket)
    requires ValidBlock(b) && b.top == 0 && WellFormed(pkt) && !IsEmpty(PacketCoeffs(pkt))
    ensures Absorb(Raise(b, pkt), pkt).dofs == 1
  {
    hide PacketCoeffs, Covers;
    FullBelowTop(b);
    var r := Raise(b, pkt);
    var win := FirstWindow(pkt);
    ShiftKeepsNonzero(PacketCoeffs(pkt));
    assert win.coeffs == ShiftRow(PacketCoeffs(pkt));
    assert win.start < BLOCK_SIZE && r.rows[win.start].Empty?;
  }

  lemma ShiftKeepsNonzero(w: seq<byte>)
    requires !IsEmpty(w)
    ensures !IsEmpty(ShiftRow(w)) && ShiftRow(w)[0] != 0
  {
    assert Lead(w) < |w|;
    assert ShiftRow(w)[0] == w[Lead(w)];
  }

  // ---------------------------------------------------------------------------------------------
  // Packets in flight

  /**
   What block packet number k was sent for, until when it counts as being on its way, and what block it is of:
   a visit one ring past the current block sends packets of the current one.
   */
  datatype Flight = Flight(block: nat, deadline: real, origin: nat)

  /** `log` lists packets 0, 1, ... as they were sent; the ring remembers the outstanding ones. */
  ghost predicate FlightInv(s: S.State, log: seq<Flight>)
    requires S.Shaped(s)
  {
    && |log| == s.nxt
    && forall k :: s.una <= k < s.nxt ==>
         s.onFly[k % MAX_CWND] == log[k].block && s.txTime[k % MAX_CWND] == log[k].deadline
  }

  function LogAfter(y: System, log: seq<Flight>, step: Step): seq<Flight>
  {
    if step.Send? && S.Shaped(y.server) && S.MaySend(y.server) then
      var b := y.server.phase.blockno;
      log + [Flight(b, step.deadline, y.server.queues[Slot(b)][0].blockno)]
    else log
  }

  lemma FlightSlotsDistinct(a: nat, b: nat)
    requires a < b < a + MAX_CWND
    ensures a % MAX_CWND != b % MAX_CWND
  {
    if a % MAX_CWND == b % MAX_CWND {
      SameRemainder(a, b, MAX_CWND);
      NonzeroMultiple(MAX_CWND, b / MAX_CWND - a / MAX_CWND);
      assert false;
    }
  }

  /** Sending overwrites no slot of an outstanding packet, because the window is never longer than the ring. */
  lemma SendKeepsFlight(s: S.State, t: real, log: seq<Flight>, origin: nat)
    requires S.Shaped(s) && PathInv(s) && S.MaySend(s) && FlightInv(s, log)
    ensures FlightInv(S.SendOne(s, t).0, log + [Flight(s.phase.blockno, t, origin)])
  {
    var s', log' := S.SendOne(s, t).0, log + [Flight(s.phase.blockno, t, origin)];
    forall k | s'.una <= k < s'.nxt
      ensures s'.onFly[k % MAX_CWND] == log'[k].block && s'.txTime[k % MAX_CWND] == log'[k].deadline
    {
      if k < s.nxt {
        FlightSlotsDistinct(k, s.nxt);
      }
    }
  }

  /** Packets of block b among those numbered from `from` on whose deadline has not passed. */
  function CountLogged(log: seq<Flight>, b: nat, now: real, from: nat): nat
    decreases |log| - from
  {
    if from >= |log| then 0
    else (if log[from].block == b && log[from].deadline >= now then 1 else 0) + CountLogged(log, b, now, from + 1)
  }

  /** The count send_segs makes over the ring is the number of outstanding packets of the block in time. */
  lemma {:induction false} CountIsExact(s: S.State, log: seq<Flight>, b: nat, now: real, from: nat)
    requires S.Shaped(s) && FlightInv(s, log) && s.una <= from
    ensures S.CountLive(s, b, now, from) == CountLogged(log, b, now, from)
    decreases s.nxt - from
  {
    if from < s.nxt {
      CountIsExact(s, log, b, now, from + 1);
    }
  }

  lemma StepKeepsFlight(y: System, step: Step, log: seq<Flight>)
    requires Inv(y) && Enabled(y, step) && S.Shaped(y.server) && FlightInv(y.server, log)
    ensures S.Shaped(After(y, step).server) && FlightInv(After(y, step).server, LogAfter(y, log, step))
  {
    hide ServerInv, ClientInv, NetInv, AcksInv, Stream, Delivered, S.CodingJob, S.VisitBlock, S.FreeBlocks, Slot,
      S.SendCtcp, Recorded, S.UpdatedRequest, C.Receive;
    match step
    case Accept(buf) => SendCtcpShape(y.server, buf);
    case Code(n, seeds) => CodingJobShape(y.server, n, seeds);
    case Visit(p) => VisitShape(y.server, p);
    case Send(t) =>
      SendKeepsFlight(y.server, t, log, y.server.queues[Slot(y.server.phase.blockno)][0].blockno);
    case TakeAck(cwnd) =>
      HandleAckShape(y.server, y.acks[0], cwnd);
      FreeBlocksRaise(y.server, y.acks[0].blockno);
    case _ =>
  }

  lemma {:induction false} SendCtcpShape(s: S.State, buf: seq<byte>)
    requires S.Shaped(s) && S.Sized(s)
    ensures var s' := S.SendCtcp(s, buf).0;
            S.Shaped(s') && s'.nxt == s.nxt && s'.una == s.una && s'.onFly == s.onFly && s'.txTime == s.txTime
            && s'.cwnd == s.cwnd
    decreases |buf|, s.curr + NUM_BLOCKS - s.maxb
  {
    hide Slot, IsBlock, Bytes, ReadBlock;
    if buf != [] {
      var last := s.blocks[Slot(s.maxb)];
      assert IsBlock(last);
      ReadBlockKeepsBytes(last, buf);
      var (pkts, read) := ReadBlock(last, buf);
      if read > 0 {
        SendCtcpShape(S.AddPackets(s, pkts), buf[read..]);
      } else if s.maxb < s.curr + NUM_BLOCKS {
        SendCtcpShape(s.(maxb := s.maxb + 1), buf);
      }
    }
  }

  /** The packets sent in the first i steps; number 0 is never sent. */
  function SendLog(run: seq<System>, steps: seq<Step>, i: nat): seq<Flight>
    requires i < |run| && |run| == |steps| + 1
  {
    if i == 0 then [Flight(0, 0.0, 0)] else LogAfter(run[i - 1], SendLog(run, steps, i - 1), steps[i - 1])
  }

  lemma {:induction false} FlightHolds(run: seq<System>, steps: seq<Step>, i: nat)
    requires IsRun(run, steps) && i < |run|
    ensures S.Shaped(run[i].server) && FlightInv(run[i].server, SendLog(run, steps, i))
  {
    hide Inv, Enabled, Strict, After, LogAfter, FlightInv;
    RunKeepsInv(run, steps, i);
    InvShape(run[i]);
    if i == 0 {
      InitialFlight();
    } else {
      RunKeepsInv(run, steps, i - 1);
      FlightHolds(run, steps, i - 1);
      StepKeepsFlight(run[i - 1], steps[i - 1], SendLog(run, steps, i - 1));
    }
  }

  /**
   In every run the congestion window bounds what is outstanding, outstanding packets have slots of
   their own, and counting the slots of a block counts its outstanding packets.
   */
  lemma FlightIsExact(run: seq<System>, steps: seq<Step>, i: nat)
    requires IsRun(run, steps) && i < |run|
    ensures var s := run[i].server;
            && 2 <= s.cwnd <= MAX_CWND && s.una <= s.nxt <= s.una + MAX_CWND
            && S.Shaped(s) && FlightInv(s, SendLog(run, steps, i))
            && (forall j, k :: s.una <= j < k < s.nxt ==> j % MAX_CWND != k % MAX_CWND)
            && (forall b: nat, now: real ::
                  S.CountLive(s, b, now, s.una) == CountLogged(SendLog(run, steps, i), b, now, s.una))
  {
    hide Enabled, Strict, After, Inv, SendLog, FlightInv, S.CountLive, CountLogged;
    RunKeepsInv(run, steps, i);
    InvShape(run[i]);
    FlightHolds(run, steps, i);
    var s := run[i].server;
    forall j, k | s.una <= j < k < s.nxt ensures j % MAX_CWND != k % MAX_CWND {
      FlightSlotsDistinct(j, k);
    }
    forall b: nat, now: real
      ensures S.CountLive(s, b, now, s.una) == CountLogged(SendLog(run, steps, i), b, now, s.una)
    {
      CountIsExact(s, SendLog(run, steps, i), b, now, s.una);
    }
  }

  lemma InitialFlight()
    ensures S.Shaped(Initial().server) && FlightInv(Initial().server, [Flight(0, 0.0, 0)])
  {
  }

  lemma InvShape(y: System)
    requires Inv(y)
    ensures S.Shaped(y.server) && 2 <= y.server.cwnd <= MAX_CWND
    ensures y.server.una <= y.server.nxt <= y.server.una + MAX_CWND
  {
  }
}
