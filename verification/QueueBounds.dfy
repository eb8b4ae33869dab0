/** The queues of coded packets: how far send_segs overshoots a request, and when they can overflow. */
module QueueBounds {
  import opened Config
  import opened FieldTables
  import opened Slots
  import opened Framing
  import opened Packets
  import opened Delivery
  import opened Transport
  import opened Invariants
  import opened SenderProofs
  import opened Safety
  import S = Server

  // ---------------------------------------------------------------------------------------------
  // The number of packets needed

  lemma ShortMeansBelowTwice(n: nat, p: real, mean: real, request: nat)
    requires 0.0 <= p <= 0.5 && 0.0 <= mean && S.Short(n, p, mean, request)
    ensures n < 2 * request
  {
    var x := n as real;
    assert x * (1.0 - p) - x * 0.5 == x * (0.5 - p);
    assert x * 0.5 < request as real;
  }

  lemma {:induction false} NeededAtMostTwice(win: nat, p: real, mean: real, request: nat, n: nat)
    requires 0.0 <= p <= 0.5 && 0.0 <= mean && n <= win && n <= 2 * request
    ensures S.Needed(win, p, mean, request, n) <= 2 * request
    decreases win - n
  {
    hide S.Short;
    if n < win && S.Short(n, p, mean, request) {
      ShortMeansBelowTwice(n, p, mean, request);
      NeededAtMostTwice(win, p, mean, request, n + 1);
    }
  }

  lemma NeededForAtMostTwice(win: nat, p: real, onFly: nat, request: nat)
    requires 0.0 <= p <= 0.5
    ensures S.NeededFor(win, p, onFly, request) <= 2 * request
  {
    NeededAtMostTwice(win, p, S.MeanOnFly(p, onFly), request, 0);
  }

  /** At a loss rate above a half, three packets are sent for one. */
  lemma ThreeForOne(p: real)
    requires 0.5 < p <= 1.0
    ensures S.NeededFor(3, p, 0, 1) == 3
  {
    var mean := (1.0 - p) * 0 as real;
    assert mean == 0.0;
    assert S.Needed(3, p, mean, 1, 3) == 3;
    assert S.Needed(3, p, mean, 1, 2) == 3;
    assert S.Needed(3, p, mean, 1, 1) == 3;
    assert S.Needed(3, p, mean, 1, 0) == 3;
  }

  /** Never more than two packets for each one requested, exactly when the scaled loss rate is at most a half. */
  lemma OvershootBound(p: real)
    requires 0.0 <= p <= 1.0
    ensures (forall win: nat, onFly: nat, request: nat :: S.NeededFor(win, p, onFly, request) <= 2 * request)
            <==> p <= 0.5
  {
    if p <= 0.5 {
      forall win: nat, onFly: nat, request: nat ensures S.NeededFor(win, p, onFly, request) <= 2 * request {
        NeededForAtMostTwice(win, p, onFly, request);
      }
    } else {
      ThreeForOne(p);
    }
  }

  // ---------------------------------------------------------------------------------------------
  // The counters of the slots

  /** No slot counts more than two packets for each packet of its block. */
  ghost predicate TwiceInv(s: S.State)
    requires S.Shaped(s)
  {
    forall i :: 0 <= i < NUM_BLOCKS ==> s.dofRemain[i] <= 2 * |s.blocks[i]|
  }

  ghost predicate LowLoss(step: Step)
  {
    step.Visit? ==> step.p <= 0.5
  }

  lemma AddPacketsTwice(s: S.State, pkts: seq<seq<byte>>)
    requires S.Shaped(s) && TwiceInv(s) && |s.blocks[Slot(s.maxb)]| <= |pkts|
    ensures TwiceInv(S.AddPackets(s, pkts))
  {
  }

  lemma {:induction false} SendCtcpTwice(s: S.State, buf: seq<byte>)
    requires S.Shaped(s) && S.Sized(s) && TwiceInv(s)
    ensures var s' := S.SendCtcp(s, buf).0; S.Shaped(s') && TwiceInv(s')
    decreases |buf|, s.curr + NUM_BLOCKS - s.maxb
  {
    hide Slot, IsBlock, Bytes, ReadBlock, TwiceInv;
    if buf != [] {
      var last := s.blocks[Slot(s.maxb)];
      assert IsBlock(last);
      ReadBlockKeepsBytes(last, buf);
      var (pkts, read) := ReadBlock(last, buf);
      if read > 0 {
        AddPacketsTwice(s, pkts);
        SendCtcpTwice(S.AddPackets(s, pkts), buf[read..]);
      } else if s.maxb < s.curr + NUM_BLOCKS {
        MaxbTwice(s);
        SendCtcpTwice(s.(maxb := s.maxb + 1), buf);
      }
    }
  }

  lemma MaxbTwice(s: S.State)
    requires S.Shaped(s) && TwiceInv(s)
    ensures TwiceInv(s.(maxb := s.maxb + 1))
  {
  }

  lemma {:induction false} FreeBlocksTwice(s: S.State, blockno: nat)
    requires S.Shaped(s) && TwiceInv(s)
    ensures TwiceInv(S.FreeBlocks(s, blockno))
    decreases blockno - s.curr
  {
    hide Slot;
    if blockno > s.curr {
      S.FreeBlocksUnfold(s, blockno);
      assert TwiceInv(S.FreeOne(s));
      FreeBlocksTwice(S.FreeOne(s), blockno);
    }
  }

  lemma VisitTwice(s: S.State, hist: seq<seq<seq<byte>>>, p: real)
    requires ServerInv(s, hist) && RequestInv(s, hist) && s.phase.Visiting? && 0.0 <= p <= 0.5
    requires s.phase.blockno >= s.curr && TwiceInv(s)
    ensures S.Shaped(s) && TwiceInv(S.VisitBlock(s, p))
  {
    hide Slot, SlotInv, JobInv, S.NeededFor;
    CurrentLength(s, hist);
    if S.MayVisit(s) {
      NeededForAtMostTwice(s.phase.win, p, s.phase.onFly, S.RequestNow(s));
    }
  }

  lemma StepTwice(y: System, step: Step)
    requires Inv(y) && Enabled(y, step) && LowLoss(step) && TwiceInv(y.server)
    ensures S.Shaped(After(y, step).server) && TwiceInv(After(y, step).server)
  {
    hide ServerInv, ClientInv, NetInv, AcksInv, Stream, Delivered, S.VisitBlock, S.FreeBlocks, Slot, S.JobPackets,
      S.SendCtcp, Recorded, S.UpdatedRequest;
    match step
    case Accept(buf) =>
      SendCtcpTwice(y.server, buf);
    case Visit(p) =>
      VisitTwice(y.server, y.hist, p);
    case TakeAck(cwnd) =>
      FreeBlocksTwice(y.server, y.acks[0].blockno);
      HandleAckShape(y.server, y.acks[0], cwnd);
    case _ =>
  }

  /** Throughout a run at scaled loss rates up to a half, no slot counts more than twice its packets. */
  lemma {:induction false} RunTwice(run: seq<System>, steps: seq<Step>, i: nat)
    requires IsRun(run, steps) && i < |run| && forall k :: 0 <= k < |steps| ==> LowLoss(steps[k])
    ensures S.Shaped(run[i].server) && TwiceInv(run[i].server)
  {
    if i > 0 {
      hide Inv, Enabled, Strict, After, TwiceInv, LowLoss;
      RunKeepsInv(run, steps, i - 1);
      RunTwice(run, steps, i - 1);
      StepTwice(run[i - 1], steps[i - 1]);
    }
  }

  // ---------------------------------------------------------------------------------------------
  // The queues

  lemma {:induction false} PendingAtLeast(jobs: seq<S.Job>, n: nat, b: nat)
    requires n < |jobs| && jobs[n].blockno == b
    ensures Pending(jobs, b) >= jobs[n].dofs
  {
    PendingRemove(jobs, n, b);
  }

  /**
   A coding job never finds its queue full: in every run at scaled loss rates up to a half, whatever
   job is run next, its packets fit beside those queued, within the 2 * BLOCK_SIZE the queue has.
   */
  lemma CodingNeverBlocks(run: seq<System>, steps: seq<Step>, i: nat, n: nat, seeds: seq<byte>)
    requires IsRun(run, steps) && i < |run| && forall k :: 0 <= k < |steps| ==> LowLoss(steps[k])
    requires Enabled(run[i], Code(n, seeds))
    ensures var s := run[i].server;
            var slot := Slot(s.jobs[n].blockno);
            !S.JobIsIdle(s, s.jobs[n]) ==>
              |s.queues[slot]| + |S.JobPackets(s.jobs[n], s.blocks[slot], seeds)| <= 2 * BLOCK_SIZE
  {
    RunKeepsInv(run, steps, i);
    RunTwice(run, steps, i);
    hide IsRun, ClientInv, NetInv, AcksInv, Stream, Delivered, Slot, S.JobPackets, QueueOf, Pending;
    var s, hist := run[i].server, run[i].hist;
    var job := s.jobs[n];
    if !S.JobIsIdle(s, job) {
      assert JobInv(job, s.curr, hist);
      assert SlotInv(s, hist, job.blockno);
      JobPacketsEncode(job, s.blocks[Slot(job.blockno)], seeds);
      PendingAtLeast(s.jobs, n, job.blockno);
      assert IsBlock(s.blocks[Slot(job.blockno)]);
    }
  }

  /**
   The counter of a slot is what is queued for its block plus what pending jobs will add; everything
   queued for a block encodes that block, and its coded packets are in order of their widths.
   */
  lemma CountersConserved(run: seq<System>, steps: seq<Step>, i: nat, b: nat)
    requires IsRun(run, steps) && i < |run|
    requires run[i].server.curr <= b < run[i].server.curr + NUM_BLOCKS
    ensures var s := run[i].server;
            && S.Shaped(s) && IsHistory(run[i].hist)
            && s.dofRemain[Slot(b)] == |s.queues[Slot(b)]| + Pending(s.jobs, b)
            && (forall k :: 0 <= k < |s.queues[Slot(b)]| ==>
                  s.queues[Slot(b)][k].blockno == b && PacketOf(s.queues[Slot(b)][k], Src(run[i].hist, b)))
            && Sorted(s.queues[Slot(b)], b)
  {
    RunKeepsInv(run, steps, i);
    hide IsRun, ClientOf, AcksInv, Stream, Delivered, Slot, Pending, PacketOf, CoversAll, C.Valid, C.Waiting, Sorted;
    var y := run[i];
    ClientIsValid(y.client, y.hist);
    assert SlotInv(y.server, y.hist, b);
    assert PipeInv(y.server, y.client, y.data, b);
    SortedSuffix(y.data, y.server.queues[Slot(b)], b);
  }

  lemma SortedSuffix(q: seq<DataPacket>, r: seq<DataPacket>, b: nat)
    requires Sorted(q + r, b)
    ensures Sorted(r, b)
  {
    forall i, j | 0 <= i < j < |r| && CodedFor(r[i], b) && CodedFor(r[j], b) ensures r[i].num <= r[j].num {
      assert (q + r)[|q| + i] == r[i] && (q + r)[|q| + j] == r[j];
    }
  }

  lemma {:induction false} SomeJobPending(jobs: seq<S.Job>, b: nat) returns (n: nat)
    requires Pending(jobs, b) > 0
    ensures n < |jobs| && jobs[n].blockno == b && jobs[n].dofs > 0
  {
    var last := |jobs| - 1;
    if jobs[last].blockno == b && jobs[last].dofs > 0 {
      n := last;
    } else {
      n := SomeJobPending(jobs[..last], b);
    }
  }

  /**
   While send_one waits on an empty queue a job for it is pending: running that job, whatever seeds its
   draws settle on, puts a packet into the queue.
   */
  lemma PendingJobFills(y: System) returns (n: nat)
    requires Inv(y) && S.Shaped(y.server) && y.server.phase.Sending?
    requires var (s, i) := (y.server, Slot(y.server.phase.blockno)); s.dofRemain[i] > 0 && s.queues[i] == []
    ensures var s := y.server;
            && n < |s.jobs| && S.Sized(s)
            && forall seeds | |seeds| == S.CodedShare(s.jobs[n], |s.blocks[Slot(s.jobs[n].blockno)]|) ::
                 Enabled(y, Code(n, seeds)) && S.CodingJob(s, n, seeds).queues[Slot(s.phase.blockno)] != []
  {
    hide NetInv, AcksInv, Stream, Delivered, Slot, Pending, PacketOf, S.JobPackets, C.Waiting, WindowBlock;
    var s, hist := y.server, y.hist;
    var b := Owner(s.curr, s.phase.blockno);
    OwnerSlot(s.curr, s.phase.blockno);
    assert SlotInv(s, hist, b);
    n := SomeJobPending(s.jobs, b);
    assert JobInv(s.jobs[n], s.curr, hist);
    forall seeds | |seeds| == S.CodedShare(s.jobs[n], |s.blocks[Slot(s.jobs[n].blockno)]|)
      ensures Enabled(y, Code(n, seeds)) && S.CodingJob(s, n, seeds).queues[Slot(s.phase.blockno)] != []
    {
      JobPacketsEncode(s.jobs[n], s.blocks[Slot(b)], seeds);
    }
  }

  /** In every run the wait of send_one on an empty queue ends. */
  lemma WaitForPacketEnds(run: seq<System>, steps: seq<Step>, i: nat) returns (n: nat)
    requires IsRun(run, steps) && i < |run|
    requires var s := run[i].server;
             S.Shaped(s) && s.phase.Sending?
             && s.dofRemain[Slot(s.phase.blockno)] > 0 && s.queues[Slot(s.phase.blockno)] == []
    ensures var s := run[i].server;
            && n < |s.jobs| && S.Sized(s)
            && forall seeds | |seeds| == S.CodedShare(s.jobs[n], |s.blocks[Slot(s.jobs[n].blockno)]|) ::
                 Enabled(run[i], Code(n, seeds)) && S.CodingJob(s, n, seeds).queues[Slot(s.phase.blockno)] != []
  {
    hide Inv, IsRun, Enabled, S.CodingJob, Slot;
    RunKeepsInv(run, steps, i);
    n := PendingJobFills(run[i]);
  }
}
