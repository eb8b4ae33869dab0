/**
 The sender's path in every run, in terms of what has happened to it: what a pass of send_segs starts from,
 how it weighs each block, what acks and timeouts make of the window, and what they tell of losses.
 */
module PathHistory {
  import opened Config
  import opened FieldTables
  import opened Slots
  import opened Packets
  import opened Transport
  import opened Invariants
  import opened SenderProofs
  import opened Safety
  import opened Windows
  import Delivery
  import Framing
  import LossEstimator
  import Reach
  import SmallWindows
  import S = Server
  import C = Client

  // ---------------------------------------------------------------------------------------------
  // How many packets of a block have been sent

  function SentOf(log: seq<Flight>, b: nat): nat
  {
    if log == [] then 0 else SentOf(log[..|log| - 1], b) + if log[|log| - 1].origin == b then 1 else 0
  }

  lemma SentNext(log: seq<Flight>, f: Flight, b: nat)
    ensures SentOf(log + [f], b) == SentOf(log, b) + if f.origin == b then 1 else 0
  {
    assert (log + [f])[..|log|] == log;
  }

  /** The counters of the slots count the packets of their blocks; of blocks past the ring none has been sent. */
  ghost predicate SentInv(s: S.State, log: seq<Flight>)
    requires S.Shaped(s)
  {
    && (forall b :: s.curr <= b < s.curr + NUM_BLOCKS ==> s.packetsSent[Slot(b)] == SentOf(log, b))
    && (forall b: nat :: s.curr + NUM_BLOCKS <= b ==> SentOf(log, b) == 0)
  }

  lemma SendCounts(y: System, t: real, log: seq<Flight>)
    requires Inv(y) && Enabled(y, Send(t)) && SentInv(y.server, log)
    ensures var s' := S.SendOne(y.server, t).0; S.Shaped(s') && SentInv(s', LogAfter(y, log, Send(t)))
  {
    hide ClientInv, NetInv, AcksInv, Slot, ServerInv, C.Valid, S.Sized, SentOf;
    var s := y.server;
    InvParts(y);
    SendKeeps(s, t, y.hist);
    var own := Owner(s.curr, s.phase.blockno);
    OwnerSlot(s.curr, s.phase.blockno);
    var f := Flight(s.phase.blockno, t, own);
    assert s.queues[Slot(s.phase.blockno)][0].blockno == own;
    assert LogAfter(y, log, Send(t)) == log + [f];
    var s' := S.SendOne(s, t).0;
    OwnerInRing(y);
    forall b | s.curr <= b < s.curr + NUM_BLOCKS ensures s'.packetsSent[Slot(b)] == SentOf(log + [f], b) {
      SentNext(log, f, b);
      if b != own {
        OtherSlot(s.curr, b, own);
      }
    }
    forall b: nat | s.curr + NUM_BLOCKS <= b ensures SentOf(log + [f], b) == 0 {
      SentNext(log, f, b);
    }
  }

  lemma OwnerInRing(y: System)
    requires Inv(y) && y.server.phase.Sending?
    ensures var s := y.server; s.curr <= Owner(s.curr, s.phase.blockno) < s.curr + NUM_BLOCKS
  {
    hide ClientInv, NetInv, AcksInv, SlotInv, JobInv;
  }

  lemma FreeOneCounts(s: S.State, log: seq<Flight>)
    requires S.Shaped(s) && SentInv(s, log)
    ensures SentInv(S.FreeOne(s), log)
  {
    hide Slot, SentOf;
    var s' := S.FreeOne(s);
    forall b | s'.curr <= b < s'.curr + NUM_BLOCKS ensures s'.packetsSent[Slot(b)] == SentOf(log, b) {
      if b == s.curr + NUM_BLOCKS {
        SlotWraps(s.curr);
      } else {
        OtherSlot(s.curr, b, s.curr);
      }
    }
  }

  lemma {:induction false} FreeBlocksCounts(s: S.State, blockno: nat, log: seq<Flight>)
    requires S.Shaped(s) && SentInv(s, log)
    ensures SentInv(S.FreeBlocks(s, blockno), log)
    decreases blockno - s.curr
  {
    hide SentInv, S.FreeOne;
    if blockno > s.curr {
      FreeOneCounts(s, log);
      S.FreeBlocksUnfold(s, blockno);
      FreeBlocksCounts(S.FreeOne(s), blockno, log);
    }
  }

  lemma SameCounts(s: S.State, s': S.State, log: seq<Flight>)
    requires S.Shaped(s) && SentInv(s, log) && S.Shaped(s')
    requires s'.curr == s.curr && s'.packetsSent == s.packetsSent
    ensures SentInv(s', log)
  {
  }

  lemma {:induction false} AcceptSameCounts(s: S.State, buf: seq<byte>)
    requires S.Shaped(s) && S.Sized(s)
    ensures var s' := S.SendCtcp(s, buf).0;
            S.Shaped(s') && s'.curr == s.curr && s'.packetsSent == s.packetsSent && s'.phase == s.phase
    decreases |buf|, s.curr + NUM_BLOCKS - s.maxb
  {
    hide Slot, Framing.IsBlock, Framing.Bytes, Framing.ReadBlock;
    if buf != [] {
      var last := s.blocks[Slot(s.maxb)];
      assert Framing.IsBlock(last);
      Framing.ReadBlockKeepsBytes(last, buf);
      var (pkts, read) := Framing.ReadBlock(last, buf);
      if read > 0 {
        AcceptSameCounts(S.AddPackets(s, pkts), buf[read..]);
      } else if s.maxb < s.curr + NUM_BLOCKS {
        AcceptSameCounts(s.(maxb := s.maxb + 1), buf);
      }
    }
  }

  lemma StepCounts(y: System, step: Step, log: seq<Flight>)
    requires Inv(y) && Enabled(y, step) && S.Shaped(y.server) && SentInv(y.server, log)
    ensures S.Shaped(After(y, step).server) && SentInv(After(y, step).server, LogAfter(y, log, step))
  {
    hide Inv, C.Valid, S.Sized, S.SendCtcp, Recorded, S.CodingJob, S.VisitBlock, S.HandleAck, S.CountLive, C.Receive,
      Slot, SentInv, S.NeededNow;
    match step
    case Accept(buf) =>
      AcceptSameCounts(y.server, buf);
      SameCounts(y.server, After(y, step).server, log);
    case Code(n, seeds) =>
      CodingJobShape(y.server, n, seeds);
      SameCounts(y.server, After(y, step).server, log);
    case Visit(p) =>
      VisitShape(y.server, p);
      SameCounts(y.server, After(y, step).server, log);
    case Send(t) => SendCounts(y, t, log);
    case TakeAck(cwnd) =>
      FreeBlocksCounts(y.server, y.acks[0].blockno, log);
      HandleAckShape(y.server, y.acks[0], cwnd);
      SameCounts(S.FreeBlocks(y.server, y.acks[0].blockno), After(y, step).server, log);
    case Start(now) => SameCounts(y.server, After(y, step).server, log);
    case Leave => SameCounts(y.server, After(y, step).server, log);
    case Timeout => SameCounts(y.server, After(y, step).server, log);
    case _ =>
  }

  /** In every run the counter of a slot is the number of packets of its block that have been sent. */
  lemma {:induction false} SentCounts(run: seq<System>, steps: seq<Step>, i: nat)
    requires IsRun(run, steps) && i < |run|
    ensures S.Shaped(run[i].server) && SentInv(run[i].server, SendLog(run, steps, i))
  {
    hide Inv, Enabled, Strict, After, LogAfter, SentInv;
    RunKeepsInv(run, steps, i);
    Windows.InvShape(run[i]);
    if i == 0 {
      NoneSent();
    } else {
      RunKeepsInv(run, steps, i - 1);
      SentCounts(run, steps, i - 1);
      assert run[i] == After(run[i - 1], steps[i - 1]);
      StepCounts(run[i - 1], steps[i - 1], SendLog(run, steps, i - 1));
    }
  }

  lemma NoneSent()
    ensures S.Shaped(Initial().server) && SentInv(Initial().server, [Flight(0, 0.0, 0)])
  {
    hide Slot;
    forall b: nat | b > 0 ensures SentOf([Flight(0, 0.0, 0)], b) == 0 {
      SentNext([], Flight(0, 0.0, 0), b);
      assert [] + [Flight(0, 0.0, 0)] == [Flight(0, 0.0, 0)];
    }
  }

  // ---------------------------------------------------------------------------------------------
  // A pass of send_segs

  /**
   A pass begins at the current block, with the window less what is outstanding, up to the newest block, and
   counts the outstanding packets sent for the current block whose deadline has not passed.
   */
  lemma PassBegins(run: seq<System>, steps: seq<Step>, i: nat, now: real)
    requires IsRun(run, steps) && i < |steps| && steps[i] == Start(now)
    ensures var (s, log) := (run[i].server, SendLog(run, steps, i));
            && s.phase.Idle? && s.una <= s.nxt == |log| && s.nxt - s.una < s.cwnd
            && run[i + 1] == run[i].(server := s.(phase :=
                 S.Visiting(s.curr, s.cwnd - (s.nxt - s.una), s.maxb, CountLogged(log, s.curr, now, s.una))))
  {
    hide Inv, C.Valid, S.Sized, S.CountLive, CountLogged, SendLog, Strict;
    FlightHolds(run, steps, i);
    var s := run[i].server;
    CountIsExact(s, SendLog(run, steps, i), s.curr, now, s.una);
  }

  /**
   What the request for the next block is weighed against: the packets of the current block on their way when
   the pass began, until a later block has been visited; then the packets of that block sent before its visit.
   */
  ghost function Weighed(run: seq<System>, steps: seq<Step>, i: nat): nat
    requires IsRun(run, steps) && i < |run|
  {
    if i == 0 then 0
    else
      var (s, log) := (run[i - 1].server, SendLog(run, steps, i - 1));
      if steps[i - 1].Start? then CountLogged(log, s.curr, steps[i - 1].now, s.una)
      else if steps[i - 1].Visit? && s.phase.Visiting? && S.MayVisit(s) && s.phase.blockno != s.curr then
        SentOf(log, Owner(s.curr, s.phase.blockno))
      else Weighed(run, steps, i - 1)
  }

  /** The phase carries that count. */
  ghost predicate Weighs(s: S.State, n: nat)
  {
    match s.phase
    case Idle => true
    case Visiting(_, _, _, onFly) => onFly == n
    case Sending(_, _, _, _, onFly) => onFly == n
  }

  lemma OtherStepWeighs(y: System, step: Step, n: nat)
    requires Enabled(y, step) && Weighs(y.server, n) && !step.Start? && !step.Visit?
    ensures Weighs(After(y, step).server, n)
  {
    hide C.Valid, S.Sized, S.SendCtcp, Recorded, S.CodingJob, S.HandleAck, C.Receive, Slot;
    match step
    case Accept(buf) => AcceptSameCounts(y.server, buf);
    case Code(n, seeds) => CodingJobShape(y.server, n, seeds);
    case TakeAck(cwnd) =>
      HandleAckShape(y.server, y.acks[0], cwnd);
      FreeBlocksRaise(y.server, y.acks[0].blockno);
    case _ =>
  }

  lemma {:induction false} PhaseWeighs(run: seq<System>, steps: seq<Step>, i: nat)
    requires IsRun(run, steps) && i < |run|
    ensures Weighs(run[i].server, Weighed(run, steps, i))
  {
    hide Inv, Enabled, Strict, After, SendLog, SentOf, CountLogged;
    if i > 0 {
      var step := steps[i - 1];
      PhaseWeighs(run, steps, i - 1);
      assert run[i] == After(run[i - 1], step);
      if step.Start? {
        PassBegins(run, steps, i - 1, step.now);
      } else if step.Visit? {
        VisitWeighs(run, steps, i - 1, step.p);
      } else {
        OtherStepWeighs(run[i - 1], step, Weighed(run, steps, i - 1));
      }
    }
  }

  lemma VisitWeighs(run: seq<System>, steps: seq<Step>, i: nat, p: real)
    requires IsRun(run, steps) && i < |steps| && steps[i] == Visit(p)
    requires Weighs(run[i].server, Weighed(run, steps, i))
    ensures Weighs(run[i + 1].server, Weighed(run, steps, i + 1))
  {
    hide Inv, Strict, SendLog, SentOf, CountLogged, S.NeededNow, Slot, C.Valid, S.Sized;
    var s := run[i].server;
    RunKeepsInv(run, steps, i);
    SentCounts(run, steps, i);
    if S.MayVisit(s) {
      Reach.VisitAsks(s, p);
      CountOfVisited(run[i], SendLog(run, steps, i));
    }
  }

  lemma CountOfVisited(y: System, log: seq<Flight>)
    requires Inv(y) && S.Shaped(y.server) && SentInv(y.server, log) && y.server.phase.Visiting? && S.MayVisit(y.server)
    ensures var s := y.server;
            S.OnFlyNext(s) == if s.phase.blockno == s.curr then s.phase.onFly
                              else SentOf(log, Owner(s.curr, s.phase.blockno))
  {
    hide ClientInv, NetInv, AcksInv, Slot, SlotInv, JobInv;
    OwnerSlot(y.server.curr, y.server.phase.blockno);
  }

  /**
   n is the least number of packets, within the window, with which as many are expected to arrive at loss rate p as
   are requested, of those sent now and those counted already.
   */
  ghost predicate IsLeast(n: nat, win: nat, p: real, counted: nat, request: nat)
  {
    && n <= win
    && (n == win || Expected(n, counted, p) >= request as real)
    && forall k: nat :: k < n ==> Expected(k, counted, p) < request as real
  }

  function Expected(sent: nat, counted: nat, p: real): real
  {
    (sent + counted) as real * (1.0 - p)
  }

  lemma ShortIs(n: nat, p: real, onFly: nat, request: nat)
    ensures S.Short(n, p, S.MeanOnFly(p, onFly), request) <==> Expected(n, onFly, p) < request as real
  {
    SmallWindows.Distributes(n as real, onFly as real, 1.0 - p);
  }

  lemma {:induction false} NeededIsLeast(win: nat, p: real, onFly: nat, request: nat, n: nat)
    requires n <= win && forall k: nat :: k < n ==> Expected(k, onFly, p) < request as real
    ensures IsLeast(S.Needed(win, p, S.MeanOnFly(p, onFly), request, n), win, p, onFly, request)
    decreases win - n
  {
    hide S.Short, S.MeanOnFly;
    ShortIs(n, p, onFly, request);
    if n < win && S.Short(n, p, S.MeanOnFly(p, onFly), request) {
      NeededIsLeast(win, p, onFly, request, n + 1);
    }
  }

  /**
   A visit sends the least number of packets that meets the request: for the current block what handle_ack left,
   for a later one its packets. What is not queued is ordered, at the front for the current block.
   */
  lemma VisitMeetsRequest(run: seq<System>, steps: seq<Step>, i: nat, p: real)
    requires IsRun(run, steps) && i < |steps| && steps[i] == Visit(p)
    ensures var (s, s', hist) := (run[i].server, run[i + 1].server, run[i].hist);
            && S.Shaped(s) && S.Shaped(s') && s.phase.Visiting? && run[i + 1] == run[i].(server := s')
            && var (b, win, limit) := (s.phase.blockno, s.phase.win, s.phase.limit);
            if win == 0 || b > s.curr + NUM_BLOCKS || b > limit then s' == s.(phase := S.Idle)
            else
              && s'.phase.Sending? && s'.phase.blockno == b && s'.phase.win == win && s'.phase.limit == limit
              && var n := s'.phase.left;
              && IsLeast(n, win, p, Weighed(run, steps, i),
                         if b == s.curr then s.dofReq else |Delivery.Src(hist, Owner(s.curr, b))|)
              && Ordered(s, s', b, n)
  {
    hide Inv, Strict, SendLog, SentOf, CountLogged, Slot, C.Valid, S.Sized, IsLeast, S.Needed, S.MeanOnFly;
    RunKeepsInv(run, steps, i);
    PhaseWeighs(run, steps, i);
    var s := run[i].server;
    if S.MayVisit(s) {
      RequestIs(run[i]);
      NeededIsLeast(s.phase.win, p, s.phase.onFly, S.RequestNow(s), 0);
      VisitOrdered(s, p);
    }
    LimitIsSet(run[i]);
  }

  lemma LimitIsSet(y: System)
    requires Inv(y)
    ensures y.server.phase.Visiting? ==> y.server.phase.limit >= 1
  {
    hide ClientInv, NetInv, AcksInv, ServerInv;
  }

  lemma RequestIs(y: System)
    requires Inv(y) && S.Shaped(y.server) && y.server.phase.Visiting? && S.MayVisit(y.server)
    ensures var (s, b) := (y.server, y.server.phase.blockno);
            S.RequestNow(s) == if b == s.curr then s.dofReq else |Delivery.Src(y.hist, Owner(s.curr, b))|
  {
    hide ClientInv, NetInv, AcksInv, Slot, QueueOf, Pending, JobInv;
    var (s, b) := (y.server, y.server.phase.blockno);
    OwnerSlot(s.curr, b);
    assert SlotInv(s, y.hist, Owner(s.curr, b));
  }

  lemma VisitOrdered(s: S.State, p: real)
    requires S.Shaped(s) && s.phase.Visiting? && S.MayVisit(s)
    ensures var (s', b) := (S.VisitBlock(s, p), s.phase.blockno);
            && s'.phase == S.Sending(b, S.NeededNow(s, p), s.phase.win, s.phase.limit, S.OnFlyNext(s))
            && Ordered(s, s', b, S.NeededNow(s, p))
  {
    hide Slot, S.NeededNow;
  }

  /** Packets of block b are ordered so that n are queued or on order. */
  ghost predicate Ordered(s: S.State, s': S.State, b: nat, n: nat)
    requires S.Shaped(s)
  {
    var i := Slot(b);
    if n <= s.dofRemain[i] then s' == s.(phase := s'.phase)
    else
      var job := S.Job(b, 0, n - s.dofRemain[i], MAX_CODING_WND);
      s' == s.(phase := s'.phase, dofRemain := s.dofRemain[i := n],
               jobs := if b == s.curr then [job] + s.jobs else s.jobs + [job])
  }

  /** The packets still to be sent of the block are queued or on order. */
  ghost predicate Stocked(s: S.State)
    requires S.Shaped(s)
  {
    s.phase.Sending? ==> s.phase.left <= s.dofRemain[Slot(s.phase.blockno)]
  }

  lemma {:induction false} AcceptStocked(s: S.State, buf: seq<byte>)
    requires S.Shaped(s) && S.Sized(s) && Stocked(s)
    ensures var s' := S.SendCtcp(s, buf).0; S.Shaped(s') && Stocked(s')
    decreases |buf|, s.curr + NUM_BLOCKS - s.maxb
  {
    hide Slot, Framing.IsBlock, Framing.Bytes, Framing.ReadBlock;
    if buf != [] {
      var last := s.blocks[Slot(s.maxb)];
      assert Framing.IsBlock(last);
      Framing.ReadBlockKeepsBytes(last, buf);
      var (pkts, read) := Framing.ReadBlock(last, buf);
      if read > 0 {
        AcceptStocked(S.AddPackets(s, pkts), buf[read..]);
      } else if s.maxb < s.curr + NUM_BLOCKS {
        AcceptStocked(s.(maxb := s.maxb + 1), buf);
      }
    }
  }

  lemma StepStocked(y: System, step: Step)
    requires Enabled(y, step) && Stocked(y.server)
    ensures S.Shaped(After(y, step).server) && Stocked(After(y, step).server)
  {
    hide C.Valid, S.Sized, S.SendCtcp, Recorded, S.CodingJob, S.VisitBlock, S.HandleAck, S.CountLive, C.Receive, Slot,
      S.NeededNow;
    match step
    case Accept(buf) => AcceptStocked(y.server, buf);
    case Code(n, seeds) => CodingJobShape(y.server, n, seeds);
    case Visit(p) =>
      VisitShape(y.server, p);
      if S.MayVisit(y.server) {
        Reach.VisitAsks(y.server, p);
      }
    case TakeAck(cwnd) => AckMovesWindow(y.server, y.acks[0], cwnd);
    case _ =>
  }

  /**
   In every run the loop over the packets of a block ends exactly when all that were needed have been sent: its
   other condition, that packets are queued or on order, never ends it.
   */
  lemma {:induction false} LeavesWhenSent(run: seq<System>, steps: seq<Step>, i: nat)
    requires IsRun(run, steps) && i < |run|
    ensures S.Shaped(run[i].server) && Stocked(run[i].server)
    ensures var s := run[i].server; s.phase.Sending? ==> (S.MayLeave(s) <==> s.phase.left == 0)
  {
    hide Inv, Enabled, Strict, After, Slot;
    if i > 0 {
      LeavesWhenSent(run, steps, i - 1);
      assert run[i] == After(run[i - 1], steps[i - 1]);
      StepStocked(run[i - 1], steps[i - 1]);
    }
  }

  // ---------------------------------------------------------------------------------------------
  // Acks and timeouts

  function Larger(a: nat, b: nat): nat
  {
    if a < b then b else a
  }

  /** A window of at least 2 and at most MAX_CWND packets. */
  function Clipped(w: nat): nat
  {
    if w < 2 then 2 else if w > MAX_CWND then MAX_CWND else w
  }

  /**
   What handle_ack does with any ack to what is outstanding: it is acknowledged up to the ack's number, if that is
   news, and the window is the one decided on, clipped, unless the number has not been sent.
   */
  lemma AckMovesWindow(s: S.State, ack: Ack, decided: nat)
    requires S.Shaped(s)
    ensures var s' := S.HandleAck(s, ack, decided);
            && s'.una == Larger(s.una, ack.ackno) && s'.nxt == s.nxt
            && s'.cwnd == (if ack.ackno > s.nxt then s.cwnd else Clipped(decided))
            && s'.onFly == s.onFly && s'.txTime == s.txTime && s'.phase == s.phase
            && s'.curr == Larger(s.curr, ack.blockno)
  {
    hide S.FreeBlocks, S.UpdatedRequest, Slot;
    FreeBlocksRaise(s, ack.blockno);
  }

  lemma TimeoutDropsWindow(s: S.State)
    ensures var s' := S.Timeout(s);
            && s'.una == s'.nxt == s.nxt
            && s'.cwnd == (if s.una == s.nxt then s.cwnd else INIT_SEGS)
            && s' == s.(una := s'.una, cwnd := s'.cwnd)
  {
  }

  /** The congestion window by history: the last decision, clipped, or INIT_SEGS if a timeout came after it. */
  function WindowAfter(run: seq<System>, steps: seq<Step>, i: nat): nat
    requires i < |run| && |run| == |steps| + 1
  {
    if i == 0 then INIT_SEGS
    else
      match steps[i - 1]
      case TakeAck(decided) => Clipped(decided)
      case Timeout =>
        if run[i - 1].server.una == run[i - 1].server.nxt then WindowAfter(run, steps, i - 1) else INIT_SEGS
      case _ => WindowAfter(run, steps, i - 1)
  }

  ghost function NumberAcked(y: System, step: Step): nat
    requires Enabled(y, step) && step.TakeAck?
  {
    y.acks[0].ackno
  }

  /** What is no longer outstanding: packets up to the largest number acked, and all sent before a timeout. */
  ghost function DoneWith(run: seq<System>, steps: seq<Step>, i: nat): nat
    requires IsRun(run, steps) && i < |run|
  {
    if i == 0 then 1
    else
      match steps[i - 1]
      case TakeAck(_) => Larger(DoneWith(run, steps, i - 1), NumberAcked(run[i - 1], steps[i - 1]))
      case Timeout => |SendLog(run, steps, i - 1)|
      case _ => DoneWith(run, steps, i - 1)
  }

  lemma AckIsNoNews(y: System, cwnd: nat)
    requires Inv(y) && Enabled(y, TakeAck(cwnd))
    ensures y.acks != [] && y.acks[0].ackno <= y.server.nxt
  {
    hide ServerInv, ClientInv, NetInv, C.Valid;
    assert AckInv(y.acks[0], y.server, y.client, y.hist);
  }

  lemma OtherStepKeepsPath(y: System, step: Step)
    requires Enabled(y, step) && !step.TakeAck? && !step.Timeout?
    ensures After(y, step).server.una == y.server.una && After(y, step).server.cwnd == y.server.cwnd
  {
    hide C.Valid, S.Sized, S.SendCtcp, Recorded, S.CodingJob, S.VisitBlock, C.Receive, Slot, S.CountLive;
    match step
    case Accept(buf) => SendCtcpShape(y.server, buf);
    case Code(n, seeds) => CodingJobShape(y.server, n, seeds);
    case Visit(p) => VisitShape(y.server, p);
    case _ =>
  }

  lemma AckUnfolds(y: System, cwnd: nat)
    requires Enabled(y, TakeAck(cwnd))
    ensures S.Shaped(y.server) && y.acks != []
    ensures After(y, TakeAck(cwnd)).server == S.HandleAck(y.server, y.acks[0], cwnd)
  {
    hide C.Valid, S.Sized, S.HandleAck;
  }

  /** In every run the window and what is outstanding are those of the history. */
  lemma {:induction false} PathFollowsHistory(run: seq<System>, steps: seq<Step>, i: nat)
    requires IsRun(run, steps) && i < |run|
    ensures run[i].server.cwnd == WindowAfter(run, steps, i) && run[i].server.una == DoneWith(run, steps, i)
  {
    hide Inv, Enabled, Strict, After, SendLog, S.HandleAck;
    if i > 0 {
      var y, step := run[i - 1], steps[i - 1];
      PathFollowsHistory(run, steps, i - 1);
      assert run[i] == After(y, step);
      RunKeepsInv(run, steps, i - 1);
      if step.TakeAck? {
        AckIsNoNews(y, step.cwnd);
        AckUnfolds(y, step.cwnd);
        AckMovesWindow(y.server, y.acks[0], step.cwnd);
      } else if step.Timeout? {
        FlightHolds(run, steps, i - 1);
        TimeoutUnfolds(y);
        TimeoutDropsWindow(y.server);
      } else {
        OtherStepKeepsPath(y, step);
      }
    }
  }

  lemma TimeoutUnfolds(y: System)
    requires Enabled(y, Timeout)
    ensures After(y, Timeout).server == S.Timeout(y.server)
  {
    hide C.Valid, S.Sized;
  }

  // ---------------------------------------------------------------------------------------------
  // Losses

  /** What handle_ack and timeout tell the loss estimator; an ack that is no news tells nothing. */
  ghost function LossEvents(run: seq<System>, steps: seq<Step>, i: nat): seq<LossEstimator.Event>
    requires IsRun(run, steps) && i < |run|
  {
    if i == 0 then []
    else LossEvents(run, steps, i - 1) + EventsOf(run[i - 1], steps[i - 1])
  }

  ghost function EventsOf(y: System, step: Step): seq<LossEstimator.Event>
    requires Enabled(y, step)
  {
    match step
    case TakeAck(_) =>
      if y.server.una < y.acks[0].ackno then [LossEstimator.Acked(y.acks[0].ackno - (y.server.una + 1))] else []
    case Timeout => [LossEstimator.TimedOut]
    case _ => []
  }

  /** The packets given up by timeouts. */
  ghost function GivenUp(run: seq<System>, steps: seq<Step>, i: nat): int
    requires IsRun(run, steps) && i < |run|
  {
    if i == 0 then 0
    else
      var more := if steps[i - 1].Timeout? then |SendLog(run, steps, i - 1)| - DoneWith(run, steps, i - 1) else 0;
      GivenUp(run, steps, i - 1) + more
  }

  lemma EventsCount(y: System, step: Step, events: seq<LossEstimator.Event>)
    requires Enabled(y, step)
    ensures |LossEstimator.Outcomes(events + EventsOf(y, step))| - |LossEstimator.Outcomes(events)|
            == if step.TakeAck? then Larger(y.server.una, y.acks[0].ackno) - y.server.una else 0
  {
    hide C.Valid, S.Sized, LossEstimator.Outcomes;
    assert events + [] == events;
    if step.TakeAck? && y.server.una < y.acks[0].ackno {
      LossEstimator.OutcomesNext(events, y.acks[0].ackno - (y.server.una + 1));
    } else if step.Timeout? {
      LossEstimator.OutcomesNext(events, 0);
    }
  }

  /**
   In every run each packet that is no longer outstanding has been counted exactly once: as having come through
   or lost, by the ack that was news of it, or as given up by a timeout.
   */
  lemma {:induction false} EveryPacketCounted(run: seq<System>, steps: seq<Step>, i: nat)
    requires IsRun(run, steps) && i < |run|
    ensures |LossEstimator.Outcomes(LossEvents(run, steps, i))| + GivenUp(run, steps, i) == run[i].server.una - 1
  {
    hide Inv, Enabled, Strict, After, SendLog, EventsOf, LossEstimator.Outcomes, S.HandleAck;
    PathFollowsHistory(run, steps, i);
    if i == 0 {
      NoOutcomes();
    } else {
      EveryPacketCounted(run, steps, i - 1);
      PathFollowsHistory(run, steps, i - 1);
      EventsCount(run[i - 1], steps[i - 1], LossEvents(run, steps, i - 1));
    }
  }

  lemma NoOutcomes()
    ensures LossEstimator.Outcomes([]) == []
  {
  }
}
