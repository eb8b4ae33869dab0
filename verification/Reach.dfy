/**
 Runs built step by step, to show what the transport can get into: any state the sender is in can be
 led through a turn of send_segs, with its packets lost.
 */
module Reach {
  import opened Config
  import opened FieldTables
  import opened Slots
  import opened Transport
  import opened Invariants
  import Framing
  import QueueBounds
  import Safety
  import Windows
  import S = Server
  import C = Client

  // ---------------------------------------------------------------------------------------------
  // Reachable states

  /** The loss estimate is p, and each pass of send_segs used one estimate throughout. */
  ghost predicate Steady(steps: seq<Step>, p: real)
    decreases |steps|
  {
    if steps == [] then true
    else
      var before, last := steps[..|steps| - 1], steps[|steps| - 1];
      if last.Start? then exists q: real :: Steady(before, q)
      else (last.Visit? ==> last.p == p) && Steady(before, p)
  }

  /** The run ends in y, in a pass with estimate p if the run is to be steady. */
  ghost predicate RunTo(run: seq<System>, steps: seq<Step>, y: System, p: real, steady: bool)
  {
    IsRun(run, steps) && run[|steps|] == y && (steady ==> Steady(steps, p))
  }

  ghost predicate Reached(y: System, p: real, steady: bool)
  {
    exists run: seq<System>, steps: seq<Step> :: RunTo(run, steps, y, p, steady)
  }

  lemma InitialReached(p: real, steady: bool)
    ensures Reached(Initial(), p, steady)
  {
    assert RunTo([Initial()], [], Initial(), p, steady);
  }

  lemma ReachedInv(y: System, p: real, steady: bool)
    requires Reached(y, p, steady)
    ensures Inv(y) && S.Shaped(y.server) && S.Sized(y.server) && C.Valid(y.client) && |y.hist| == y.server.maxb + 1
  {
    hide Inv, IsRun;
    var run, steps :| RunTo(run, steps, y, p, steady);
    RunEnds(run, steps);
    Safety.RunKeepsInv(run, steps, |steps|);
    InvShape(y);
  }

  lemma RunEnds(run: seq<System>, steps: seq<Step>)
    requires IsRun(run, steps)
    ensures |run| == |steps| + 1
  {
  }

  lemma InvShape(y: System)
    requires Inv(y)
    ensures S.Shaped(y.server) && S.Sized(y.server) && C.Valid(y.client) && |y.hist| == y.server.maxb + 1
  {
  }

  /** One more step; a new pass may begin with a new estimate. */
  lemma Take(y: System, p: real, steady: bool, step: Step, p': real) returns (y': System)
    requires Reached(y, p, steady) && Enabled(y, step) && Strict(y, step)
    requires steady ==> (step.Start? || p' == p) && (step.Visit? ==> step.p == p)
    ensures y' == After(y, step) && Reached(y', p', steady)
    ensures Inv(y') && S.Shaped(y'.server) && S.Sized(y'.server) && C.Valid(y'.client)
    ensures |y'.hist| == y'.server.maxb + 1
  {
    hide Inv, Enabled, Strict, After, C.Valid, S.Shaped, S.Sized;
    y' := After(y, step);
    var run, steps :| RunTo(run, steps, y, p, steady);
    assert (steps + [step])[..|steps|] == steps;
    assert RunTo(run + [y'], steps + [step], y', p', steady);
    ReachedInv(y', p', steady);
  }

  /** Steps from any state, among them visits that a run excludes. */
  ghost predicate IsTrace(trace: seq<System>, steps: seq<Step>)
  {
    && |trace| == |steps| + 1
    && forall i :: 0 <= i < |steps| ==> Enabled(trace[i], steps[i]) && trace[i + 1] == After(trace[i], steps[i])
  }

  lemma EnabledShape(y: System, step: Step)
    requires Enabled(y, step)
    ensures S.Shaped(y.server)
  {
  }

  /** Some trace leads from x to y. */
  ghost predicate Leads(x: System, y: System)
  {
    exists trace: seq<System>, steps: seq<Step> :: TraceTo(trace, steps, x, y)
  }

  ghost predicate TraceTo(trace: seq<System>, steps: seq<Step>, x: System, y: System)
  {
    IsTrace(trace, steps) && trace[0] == x && trace[|steps|] == y
  }

  lemma LeadsNowhere(x: System)
    ensures Leads(x, x)
  {
    assert TraceTo([x], [], x, x);
  }

  lemma LeadsOn(x: System, y: System, step: Step)
    requires Leads(x, y) && Enabled(y, step)
    ensures Leads(x, After(y, step))
  {
    hide Enabled, After;
    var trace, steps :| TraceTo(trace, steps, x, y);
    assert TraceTo(trace + [After(y, step)], steps + [step], x, After(y, step));
  }

  lemma ReachedLeads(y: System, p: real, steady: bool)
    requires Reached(y, p, steady)
    ensures Leads(Initial(), y)
  {
    hide Enabled, After, Strict;
    var run, steps :| RunTo(run, steps, y, p, steady);
    assert TraceTo(run, steps, Initial(), y);
  }

  // ---------------------------------------------------------------------------------------------
  // A turn of send_segs

  /** Everything outstanding was sent for block b and still counts as on its way at time 0. */
  ghost predicate AllFor(s: S.State, b: nat)
    requires S.Shaped(s)
  {
    forall k :: s.una <= k < s.nxt ==> s.onFly[k % MAX_CWND] == b && s.txTime[k % MAX_CWND] >= 0.0
  }

  lemma {:induction false} AllCounted(s: S.State, b: nat, from: nat)
    requires S.Shaped(s) && AllFor(s, b) && s.una <= from <= s.nxt
    ensures S.CountLive(s, b, 0.0, from) == s.nxt - from
    decreases s.nxt - from
  {
    if from < s.nxt {
      AllCounted(s, b, from + 1);
    }
  }

  /** The queue that send_one waits for is filled. */
  lemma FillQueue(y: System, p: real, steady: bool) returns (y': System)
    requires Reached(y, p, steady) && y.server.phase.Sending? && S.Shaped(y.server)
    requires y.server.dofRemain[Slot(y.server.phase.blockno)] > 0
    ensures y' == y.(server := y.server.(queues := y'.server.queues, jobs := y'.server.jobs))
    ensures Reached(y', p, steady) && S.Shaped(y'.server)
    ensures y'.server.queues[Slot(y.server.phase.blockno)] != []
  {
    hide Inv, Enabled, Strict, S.CodingJob, S.CodedShare, C.Valid, S.Sized, Slot;
    ReachedInv(y, p, steady);
    if y.server.queues[Slot(y.server.phase.blockno)] != [] {
      y' := y;
    } else {
      var n := QueueBounds.PendingJobFills(y);
      var job := y.server.jobs[n];
      var seeds: seq<byte> := seq(S.CodedShare(job, |y.server.blocks[Slot(job.blockno)]|), _ => 0);
      assert Enabled(y, Code(n, seeds));
      NotAVisit(y, Code(n, seeds));
      y' := Take(y, p, steady, Code(n, seeds), p);
      CodeAfter(y, n, seeds);
      Safety.CodingJobShape(y.server, n, seeds);
    }
  }

  lemma NotAVisit(y: System, step: Step)
    requires S.Shaped(y.server) && !step.Visit?
    ensures Strict(y, step)
  {
  }

  lemma CodeAfter(y: System, n: nat, seeds: seq<byte>)
    requires Enabled(y, Code(n, seeds))
    ensures n < |y.server.jobs| && S.Shaped(y.server) && S.Sized(y.server)
    ensures After(y, Code(n, seeds)) == y.(server := S.CodingJob(y.server, n, seeds))
  {
    hide S.CodingJob, C.Valid;
  }

  /** The window leaves slots enough for what is outstanding. */
  lemma SendingWithin(y: System)
    requires Inv(y) && y.server.phase.Sending? && y.server.phase.left >= 1
    ensures y.server.una <= y.server.nxt < y.server.una + MAX_CWND && y.server.phase.win >= 1
  {
    hide ServerInv, ClientInv, NetInv, AcksInv;
  }

  /** One packet is sent and lost. */
  lemma SendInVain(y: System, p: real, steady: bool) returns (y': System)
    requires Reached(y, p, steady) && S.Shaped(y.server) && S.MaySend(y.server)
    ensures Reached(y', p, steady)
    ensures y' == y.(server := S.SendOne(y.server, 0.0).0)
    ensures var b := y.server.phase.blockno; S.Shaped(y'.server) && (AllFor(y.server, b) ==> AllFor(y'.server, b))
  {
    hide Inv, C.Valid, S.Sized, Slot, Strict;
    ReachedInv(y, p, steady);
    NotAVisit(y, Send(0.0));
    var y1 := Take(y, p, steady, Send(0.0), p);
    assert Enabled(y1, LoseData(|y.data|));
    NotAVisit(y1, LoseData(|y.data|));
    y' := Take(y1, p, steady, LoseData(|y.data|), p);
    assert Without(y.data + [S.SendOne(y.server, 0.0).1], |y.data|) == y.data;
    SendingWithin(y);
    SentForBlock(y.server);
  }

  lemma SentForBlock(s: S.State)
    requires S.Shaped(s) && S.MaySend(s) && s.una <= s.nxt < s.una + MAX_CWND
    ensures var s' := S.SendOne(s, 0.0).0; AllFor(s, s.phase.blockno) ==> AllFor(s', s.phase.blockno)
  {
    hide Slot;
    var s' := S.SendOne(s, 0.0).0;
    if AllFor(s, s.phase.blockno) {
      forall k | s'.una <= k < s'.nxt
        ensures s'.onFly[k % MAX_CWND] == s.phase.blockno && s'.txTime[k % MAX_CWND] >= 0.0
      {
        if k < s.nxt {
          Windows.FlightSlotsDistinct(k, s.nxt);
        }
      }
    }
  }

  /** The fields that sending n packets of block b changes; what is queued and on order is left open. */
  function Sent(s: S.State, s': S.State, i: nat, n: nat, phase: S.Phase): S.State
    requires S.Shaped(s) && i < NUM_BLOCKS && n <= s.dofRemain[i]
  {
    s.(queues := s'.queues, jobs := s'.jobs, onFly := s'.onFly, txTime := s'.txTime, nxt := s.nxt + n,
       dofRemain := s.dofRemain[i := s.dofRemain[i] - n], packetsSent := s.packetsSent[i := s.packetsSent[i] + n],
       phase := phase)
  }

  /** The inner loop of send_segs runs to its end. */
  lemma {:induction false} SendAll(y: System, p: real, steady: bool) returns (y': System)
    requires Reached(y, p, steady) && S.Shaped(y.server) && y.server.phase.Sending?
    requires y.server.phase.left <= y.server.dofRemain[Slot(y.server.phase.blockno)]
    requires y.server.phase.left <= y.server.phase.win
    ensures Reached(y', p, steady)
    ensures var (s, ph) := (y.server, y.server.phase);
            && S.Shaped(y'.server)
            && y' == y.(server := y'.server)
            && y'.server == Sent(s, y'.server, Slot(ph.blockno), ph.left, ph.(left := 0, win := ph.win - ph.left))
            && (AllFor(s, ph.blockno) ==> AllFor(y'.server, ph.blockno))
    decreases y.server.phase.left
  {
    hide Inv, Slot;
    var s, i := y.server, Slot(y.server.phase.blockno);
    if s.phase.left == 0 {
      y' := y;
      assert s.dofRemain[i := s.dofRemain[i] - 0] == s.dofRemain;
      assert s.packetsSent[i := s.packetsSent[i] + 0] == s.packetsSent;
    } else {
      var y1 := FillQueue(y, p, steady);
      var y2 := SendInVain(y1, p, steady);
      y' := SendAll(y2, p, steady);
    }
  }

  /** The state after a visit of block b, which finds n packets needed. */
  function Turned(s: S.State, s': S.State, n: nat): S.State
    requires S.Shaped(s) && s.phase.Visiting? && n <= s.phase.win
  {
    var i := Slot(s.phase.blockno);
    s.(queues := s'.queues, jobs := s'.jobs, onFly := s'.onFly, txTime := s'.txTime, nxt := s.nxt + n,
       dofRemain := s.dofRemain[i := if s.dofRemain[i] < n then 0 else s.dofRemain[i] - n],
       packetsSent := s.packetsSent[i := s.packetsSent[i] + n],
       phase := S.Visiting(s.phase.blockno + 1, s.phase.win - n, s.phase.limit, S.OnFlyNext(s)))
  }

  /** A turn of send_segs inside the ring: the packets needed are sent, and lost, and the next block is due. */
  lemma Turn(y: System, p: real, steady: bool, q: real) returns (y': System)
    requires Reached(y, p, steady) && S.Shaped(y.server) && y.server.phase.Visiting? && S.MayVisit(y.server)
    requires 0.0 <= q <= 1.0 && (steady ==> q == p)
    requires y.server.phase.blockno < y.server.curr + NUM_BLOCKS
    ensures Reached(y', p, steady)
    ensures var (s, b) := (y.server, y.server.phase.blockno);
            && S.Shaped(y'.server)
            && y' == y.(server := y'.server)
            && y'.server == Turned(s, y'.server, S.NeededNow(s, q))
            && (AllFor(s, b) ==> AllFor(y'.server, b))
  {
    hide Inv, Slot, S.NeededNow, S.OnFlyNext, C.Valid, S.Sized, AllFor;
    ReachedInv(y, p, steady);
    var s, i, n := y.server, Slot(y.server.phase.blockno), S.NeededNow(y.server, q);
    var y1 := Take(y, p, steady, Visit(q), p);
    VisitAsks(s, q);
    SameFlight(s, y1.server, s.phase.blockno);
    var y2 := SendAll(y1, p, steady);
    ReachedInv(y2, p, steady);
    NotAVisit(y2, Leave);
    y' := Take(y2, p, steady, Leave, p);
    SameFlight(y2.server, y'.server, s.phase.blockno);
  }

  lemma VisitAsks(s: S.State, q: real)
    requires S.Shaped(s) && s.phase.Visiting? && S.MayVisit(s)
    ensures var (s', i, n) := (S.VisitBlock(s, q), Slot(s.phase.blockno), S.NeededNow(s, q));
            s' == s.(jobs := s'.jobs, dofRemain := s.dofRemain[i := if s.dofRemain[i] < n then n else s.dofRemain[i]],
                     phase := S.Sending(s.phase.blockno, n, s.phase.win, s.phase.limit, S.OnFlyNext(s)))
  {
    hide Slot, S.NeededNow, S.OnFlyNext;
    var i := Slot(s.phase.blockno);
    assert s.dofRemain[i := s.dofRemain[i]] == s.dofRemain;
  }

  lemma SameFlight(s: S.State, s': S.State, b: nat)
    requires S.Shaped(s) && S.Shaped(s')
    requires s'.una == s.una && s'.nxt == s.nxt && s'.onFly == s.onFly && s'.txTime == s.txTime
    ensures AllFor(s', b) == AllFor(s, b)
  {
  }

  /** The pass ends when the window is used up, or the last block is passed. */
  lemma EndPass(y: System, p: real, steady: bool) returns (y': System)
    requires Reached(y, p, steady) && 0.0 <= p <= 1.0 && y.server.phase.Visiting? && !S.MayVisit(y.server)
    ensures y' == y.(server := y.server.(phase := S.Idle)) && Reached(y', p, steady)
  {
    hide Inv, C.Valid, S.Sized;
    ReachedInv(y, p, steady);
    y' := Take(y, p, steady, Visit(p), p);
  }

  /** A byte for a block with room becomes one packet. */
  lemma ReadByte(pkts: seq<seq<byte>>)
    requires |pkts| <= BLOCK_SIZE
    ensures Framing.ReadBlock(pkts, [0])
         == if |pkts| < BLOCK_SIZE then (pkts + [Framing.Frame([0])], 1) else (pkts, 0)
  {
    hide Framing.Frame;
    var buf: seq<byte> := [0];
    assert buf[..1] == buf && buf[1..] == [];
    if |pkts| < BLOCK_SIZE {
      assert Framing.ReadBlock(pkts + [Framing.Frame(buf[..1])], buf[1..]).1 == 0;
    }
  }

  lemma AcceptByte(y: System, p: real, steady: bool) returns (y': System)
    requires Reached(y, p, steady) && S.Shaped(y.server) && |y.server.blocks[Slot(y.server.maxb)]| < BLOCK_SIZE
    requires |y.hist| == y.server.maxb + 1
    ensures var (s, pkts) := (y.server, y.server.blocks[Slot(y.server.maxb)] + [Framing.Frame([0])]);
            && y'.server == S.AddPackets(s, pkts) && Reached(y', p, steady)
            && y' == y.(server := y'.server, hist := y.hist[s.maxb := pkts], accepted := y'.accepted)
  {
    hide Inv, C.Valid, Slot, AcceptStep;
    ReachedInv(y, p, steady);
    NotAVisit(y, Accept([0]));
    y' := Take(y, p, steady, Accept([0]), p);
    ByteAccepted(y);
  }

  lemma ByteAccepted(y: System)
    requires S.Shaped(y.server) && S.Sized(y.server) && |y.hist| == y.server.maxb + 1
    requires |y.server.blocks[Slot(y.server.maxb)]| < BLOCK_SIZE
    ensures var (s, pkts) := (y.server, y.server.blocks[Slot(y.server.maxb)] + [Framing.Frame([0])]);
            var y' := AcceptStep(y, [0]);
            y' == y.(server := S.AddPackets(s, pkts), hist := y.hist[s.maxb := pkts], accepted := y'.accepted)
  {
    hide Slot, Framing.Frame, Framing.ReadBlock;
    var s := y.server;
    var last := s.blocks[Slot(s.maxb)];
    var pkts := last + [Framing.Frame([0])];
    ReadByte(last);
    Framing.ReadBlockKeepsBytes(last, [0]);
    S.SendCtcpTakes(s, [0]);
    Safety.RecordedUnfold(s, y.hist, [0], pkts, 1);
    assert S.SendCtcp(S.AddPackets(s, pkts), []).0 == S.AddPackets(s, pkts);
  }

  /** Taking an ack for the current block, or a late one, frees nothing. */
  lemma TakeInPlace(y: System, p: real, steady: bool, cwnd: nat) returns (y': System)
    requires Reached(y, p, steady) && S.Shaped(y.server) && y.server.phase.Idle? && y.acks != []
    requires y.acks[0].blockno <= y.server.curr && y.acks[0].ackno <= y.server.nxt && 2 <= cwnd <= MAX_CWND
    ensures Reached(y', p, steady)
    ensures var (s, ack) := (y.server, y.acks[0]);
            y' == y.(acks := y.acks[1..],
                     server := s.(una := if s.una < ack.ackno then ack.ackno else s.una, cwnd := cwnd,
                                  dofReq := S.UpdatedRequest(s.dofReq, |s.blocks[Slot(s.curr)]|, ack.dofRec, false)))
  {
    hide Inv, C.Valid, S.Sized, Slot, S.UpdatedRequest;
    ReachedInv(y, p, steady);
    NotAVisit(y, TakeAck(cwnd));
    y' := Take(y, p, steady, TakeAck(cwnd), p);
  }
}
