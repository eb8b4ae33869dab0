/**
 When the congestion window never exceeds a block, send_segs never gets as far as the block one ring past the
 current one: the block after the current one takes all the window there is.
 */
module SmallWindows {
  import opened Config
  import opened FieldTables
  import opened Slots
  import opened Transport
  import opened Invariants
  import opened Reach
  import Framing
  import Packets
  import Safety
  import S = Server
  import C = Client

  /**
   A pass that may go beyond the block after the current one uses up its window there: the packets counted
   against that block are on their way, and what they leave of the window is no more than it asks for.
   */
  ghost predicate Squeezed(s: S.State)
    requires S.Shaped(s)
  {
    match s.phase
    case Idle => true
    case Visiting(b, win, limit, onFly) =>
      if b <= s.curr + 1 then onFly <= s.nxt - s.una else limit <= s.curr + 1 || win == 0
    case Sending(b, left, win, limit, onFly) =>
      && b <= s.curr + 1 && left <= s.dofRemain[Slot(b)]
      && (b == s.curr ==> onFly <= s.nxt - s.una)
      && (b == s.curr + 1 && limit > s.curr + 1 ==> left == win)
  }

  lemma {:induction false} AllIsShort(win: nat, p: real, onFly: nat, request: nat, n: nat)
    requires 0.0 <= p <= 1.0 && win + onFly <= request && n <= win
    ensures S.Needed(win, p, S.MeanOnFly(p, onFly), request, n) == win
    decreases win - n
  {
    if n < win {
      ShortOfBlock(n, p, onFly, request);
      AllIsShort(win, p, onFly, request, n + 1);
    }
  }

  lemma ShortOfBlock(n: nat, p: real, onFly: nat, request: nat)
    requires 0.0 <= p <= 1.0 && n + onFly < request
    ensures S.Short(n, p, S.MeanOnFly(p, onFly), request)
  {
    Distributes(n as real, onFly as real, 1.0 - p);
    NoMore(n as real + onFly as real, 1.0 - p);
  }

  lemma Distributes(x: real, y: real, q: real)
    ensures x * q + q * y == (x + y) * q
  {
  }

  lemma NoMore(x: real, q: real)
    requires 0.0 <= x && q <= 1.0
    ensures x * q <= x
  {
    assert x * (1.0 - q) == x - x * q;
    Product(x, 1.0 - q);
  }

  lemma Product(x: real, y: real)
    requires 0.0 <= x && 0.0 <= y
    ensures 0.0 <= x * y
  {
  }

  lemma {:induction false} CountAtMost(s: S.State, b: nat, now: real, from: nat)
    requires S.Shaped(s) && s.una <= from <= s.nxt
    ensures S.CountLive(s, b, now, from) <= s.nxt - from
    decreases s.nxt - from
  {
    if from < s.nxt {
      CountAtMost(s, b, now, from + 1);
    }
  }

  lemma VisitSqueezed(y: System, p: real)
    requires MAX_CWND <= BLOCK_SIZE && Inv(y) && S.Shaped(y.server) && y.server.phase.Visiting? && 0.0 <= p <= 1.0
    requires Squeezed(y.server)
    ensures Squeezed(S.VisitBlock(y.server, p))
    ensures S.MayVisit(y.server) ==> y.server.phase.blockno < y.server.curr + NUM_BLOCKS
  {
    hide ServerInv, ClientInv, NetInv, AcksInv, RequestInv, Slot, S.NeededNow;
    var s := y.server;
    if S.MayVisit(s) {
      VisitAsks(s, p);
      if s.phase.blockno == s.curr + 1 && s.phase.limit > s.curr + 1 {
        NextIsFull(y);
        NeedsWindow(s, p);
      }
    }
  }

  lemma NextIsFull(y: System)
    requires Inv(y) && y.server.maxb > y.server.curr + 1
    ensures S.Shaped(y.server) && |y.server.blocks[Slot(y.server.curr + 1)]| == BLOCK_SIZE
  {
    hide ClientInv, NetInv, AcksInv, JobInv, QueueOf, Slot;
    assert SlotInv(y.server, y.hist, y.server.curr + 1);
  }

  lemma NeedsWindow(s: S.State, p: real)
    requires S.Shaped(s) && s.phase.Visiting? && s.phase.blockno != s.curr && 0.0 <= p <= 1.0
    requires s.phase.win + s.phase.onFly <= |s.blocks[Slot(s.phase.blockno)]|
    ensures S.NeededNow(s, p) == s.phase.win
  {
    hide Slot;
    AllIsShort(s.phase.win, p, s.phase.onFly, |s.blocks[Slot(s.phase.blockno)]|, 0);
  }

  /** Within a pass bytes may be accepted, which lowers no counter. */
  lemma {:induction false} AcceptSqueezed(s: S.State, buf: seq<byte>)
    requires S.Shaped(s) && S.Sized(s) && Squeezed(s)
    ensures var s' := S.SendCtcp(s, buf).0; S.Shaped(s') && Squeezed(s')
    decreases |buf|, s.curr + NUM_BLOCKS - s.maxb
  {
    hide Slot, Framing.IsBlock, Framing.Bytes, Framing.ReadBlock;
    if buf != [] {
      var last := s.blocks[Slot(s.maxb)];
      assert Framing.IsBlock(last);
      Framing.ReadBlockKeepsBytes(last, buf);
      var (pkts, read) := Framing.ReadBlock(last, buf);
      if read > 0 {
        AcceptSqueezed(S.AddPackets(s, pkts), buf[read..]);
      } else if s.maxb < s.curr + NUM_BLOCKS {
        AcceptSqueezed(s.(maxb := s.maxb + 1), buf);
      }
    }
  }

  lemma StepSqueezed(y: System, step: Step)
    requires MAX_CWND <= BLOCK_SIZE && Inv(y) && Enabled(y, step) && Squeezed(y.server)
    ensures Strict(y, step)
    ensures S.Shaped(After(y, step).server) && Squeezed(After(y, step).server)
  {
    hide Inv, C.Valid, S.SendCtcp, Recorded, S.CodingJob, S.VisitBlock, S.HandleAck, S.CountLive, C.Receive, Slot,
      S.NeededNow;
    match step
    case Accept(buf) => AcceptSqueezed(y.server, buf);
    case Code(n, seeds) => Safety.CodingJobShape(y.server, n, seeds);
    case Start(now) => CountAtMost(y.server, y.server.curr, now, y.server.una);
    case Visit(p) => VisitSqueezed(y, p);
    case Send(t) => SendSqueezed(y.server, t);
    case Leave =>
      Safety.InvParts(y);
      LeaveSqueezed(y.server);
    case TakeAck(cwnd) => AckPhase(y.server, y.acks[0], cwnd);
    case _ =>
  }

  lemma SendSqueezed(s: S.State, t: real)
    requires S.Shaped(s) && S.MaySend(s) && Squeezed(s)
    ensures Squeezed(S.SendOne(s, t).0)
  {
    hide Slot;
  }

  lemma LeaveSqueezed(s: S.State)
    requires S.Shaped(s) && PathInv(s) && S.MayLeave(s) && Squeezed(s)
    ensures Squeezed(S.LeaveBlock(s))
  {
    hide Slot;
  }

  lemma AckPhase(s: S.State, ack: Packets.Ack, cwnd: nat)
    requires S.Shaped(s)
    ensures S.HandleAck(s, ack, cwnd).phase == s.phase
  {
    hide S.FreeBlocks, S.HandleAck;
    Safety.HandleAckShape(s, ack, cwnd);
    Safety.FreeBlocksRaise(s, ack.blockno);
  }

  /** With windows no longer than a block every trace from the start is a run. */
  lemma {:induction false} TraceIsRun(trace: seq<System>, steps: seq<Step>, i: nat)
    requires MAX_CWND <= BLOCK_SIZE && IsTrace(trace, steps) && trace[0] == Initial() && i <= |steps|
    ensures Inv(trace[i]) && S.Shaped(trace[i].server) && Squeezed(trace[i].server)
    ensures IsRun(trace[..i + 1], steps[..i])
  {
    hide Inv, Enabled, After, Strict, Squeezed;
    if i == 0 {
      Safety.InitialInv();
      InitialSqueezed();
    } else {
      TraceIsRun(trace, steps, i - 1);
      EnabledShape(trace[i - 1], steps[i - 1]);
      StepSqueezed(trace[i - 1], steps[i - 1]);
      Safety.StepKeeps(trace[i - 1], steps[i - 1]);
    }
  }

  lemma InitialSqueezed()
    ensures Squeezed(Initial().server)
  {
  }

  lemma LeadsToInv(y: System)
    requires MAX_CWND <= BLOCK_SIZE && Leads(Initial(), y)
    ensures Inv(y)
  {
    hide Inv, IsRun, Enabled, After;
    var trace, steps :| TraceTo(trace, steps, Initial(), y);
    TraceIsRun(trace, steps, |steps|);
  }

  /** With windows no longer than a block, delivery is safe in every trace, without any premise on the guard. */
  lemma DeliveryIsSafe(y: System)
    requires MAX_CWND <= BLOCK_SIZE && Leads(Initial(), y)
    ensures y.delivered <= y.accepted
  {
    hide Inv, Leads;
    LeadsToInv(y);
    DeliveredPrefixOfAccepted(y);
  }
}
