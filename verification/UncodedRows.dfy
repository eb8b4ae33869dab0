/**
 What coding_job queues: the rows a job asks for, each as it is, then coded packets of the whole block; and
 that every row of a block is queued uncoded exactly once.
 */
module UncodedRows {
  import opened Config
  import opened FieldTables
  import opened Slots
  import opened Packets
  import opened Transport
  import opened Invariants
  import opened Delivery
  import opened SenderProofs
  import opened Safety
  import Framing
  import Linear
  import Random
  import S = Server
  import C = Client

  // ---------------------------------------------------------------------------------------------
  // One job

  /** How many rows of a block of len packets a job queues uncoded: those it asks for that exist. */
  function RowsOf(job: S.Job, len: nat): nat
  {
    if job.wnd != 0 || job.start >= len then 0
    else if job.start + job.dofs <= len then job.dofs
    else len - job.start
  }

  /** Packet k of a job asked to queue the rows from `start` on is that row, as it is. */
  ghost predicate IsRow(pkt: DataPacket, b: nat, row: nat, src: seq<seq<byte>>)
  {
    && pkt.flag.Normal? && pkt.blockno == b && pkt.start == row && pkt.num == 1 && pkt.coeff == 1
    && row < |src| && pkt.payload == src[row]
  }

  /** The packet carries the combination of all packets of the block that its seed draws. */
  ghost predicate IsCombination(pkt: DataPacket, b: nat, seed: byte, src: seq<seq<byte>>)
    requires Framing.IsBlock(src)
  {
    && pkt.flag.Coded? && pkt.blockno == b && pkt.start == 0 && pkt.num == |src| && pkt.coeff == seed
    && |pkt.payload| == PAYLOAD_SIZE
    && forall j :: 0 <= j < PAYLOAD_SIZE ==>
         pkt.payload[j] == Linear.Dot(Random.Coefficients(seed, b, |src|), src, j, |src|)
  }

  /** The rows a job asks for in order, then one coded packet for each seed in order. */
  ghost predicate Serves(added: seq<DataPacket>, job: S.Job, src: seq<seq<byte>>, seeds: seq<byte>)
    requires Framing.IsBlock(src)
  {
    var rows := RowsOf(job, |src|);
    && |added| == rows + |seeds|
    && (forall k :: 0 <= k < rows ==> IsRow(added[k], job.blockno, job.start + k, src))
    && (forall k :: 0 <= k < |seeds| ==> IsCombination(added[rows + k], job.blockno, seeds[k], src))
  }

  lemma JobPacketsServe(job: S.Job, src: seq<seq<byte>>, seeds: seq<byte>)
    requires Framing.IsBlock(src) && src != []
    ensures Serves(S.JobPackets(job, src, seeds), job, src, seeds)
  {
    hide Linear.Dot, Random.Coefficients;
    var added, rows := S.JobPackets(job, src, seeds), RowsOf(job, |src|);
    assert rows == S.UncodedShare(job, |src|);
    forall k | 0 <= k < rows ensures IsRow(added[k], job.blockno, job.start + k, src) {
      assert added[k] == UncodedPacket(job.blockno, job.start + k, src);
    }
    forall k | 0 <= k < |seeds| ensures IsCombination(added[rows + k], job.blockno, seeds[k], src) {
      assert added[rows + k] == CodedPacket(job.blockno, seeds[k], src);
    }
  }

  /**
   A job for the block in its slot queues what it asks for behind what is there: as many packets as it asks
   for in all, or more if it starts beyond the end of the block. Nothing else changes but that it is done.
   */
  lemma JobQueues(s: S.State, n: nat, seeds: seq<byte>)
    requires S.Shaped(s) && S.Sized(s) && n < |s.jobs| && !S.JobIsIdle(s, s.jobs[n])
    requires |seeds| == S.CodedShare(s.jobs[n], |s.blocks[Slot(s.jobs[n].blockno)]|)
    ensures Framing.IsBlock(s.blocks[Slot(s.jobs[n].blockno)])
    ensures var (job, i) := (s.jobs[n], Slot(s.jobs[n].blockno));
            var (src, q, q') := (s.blocks[i], s.queues[i], S.CodingJob(s, n, seeds).queues[i]);
            && S.CodingJob(s, n, seeds) == s.(jobs := s.jobs[..n] + s.jobs[n + 1..], queues := s.queues[i := q'])
            && q <= q' && Serves(q'[|q|..], job, src, seeds)
            && (job.wnd != 0 || job.start <= |src| ==> |q'| == |q| + job.dofs)
  {
    hide Slot, S.JobPackets;
    var job, i := s.jobs[n], Slot(s.jobs[n].blockno);
    assert Framing.IsBlock(s.blocks[i]);
    JobPacketsServe(job, s.blocks[i], seeds);
    var q' := s.queues[i] + S.JobPackets(job, s.blocks[i], seeds);
    assert q'[|s.queues[i]|..] == S.JobPackets(job, s.blocks[i], seeds);
  }

  /** The block of a job that does nothing is done, or holds nothing. */
  lemma IdleJob(s: S.State, n: nat, seeds: seq<byte>)
    requires S.Shaped(s) && S.Sized(s) && n < |s.jobs| && S.JobIsIdle(s, s.jobs[n])
    ensures S.CodingJob(s, n, seeds) == s.(jobs := s.jobs[..n] + s.jobs[n + 1..])
  {
  }

  // ---------------------------------------------------------------------------------------------
  // Counting rows

  /** How often row r of block b is among these packets, uncoded. */
  function RowCount(q: seq<DataPacket>, b: nat, r: nat): nat
  {
    if q == [] then 0
    else
      var last := q[|q| - 1];
      RowCount(q[..|q| - 1], b, r) + if last.flag.Normal? && last.blockno == b && last.start == r then 1 else 0
  }

  /** How many pending jobs will queue row r of block b uncoded. */
  function RowPending(jobs: seq<S.Job>, b: nat, r: nat): nat
  {
    if jobs == [] then 0 else RowPending(jobs[..|jobs| - 1], b, r) + JobCount(jobs[|jobs| - 1], b, r)
  }

  function JobCount(job: S.Job, b: nat, r: nat): nat
  {
    if job.blockno == b && job.wnd == 0 && job.start <= r < job.start + job.dofs then 1 else 0
  }

  lemma RowPendingAppend(jobs: seq<S.Job>, job: S.Job, b: nat, r: nat)
    ensures RowPending(jobs + [job], b, r) == RowPending(jobs, b, r) + JobCount(job, b, r)
  {
    assert (jobs + [job])[..|jobs|] == jobs;
  }

  lemma {:induction false} RowPendingPrepend(jobs: seq<S.Job>, job: S.Job, b: nat, r: nat)
    ensures RowPending([job] + jobs, b, r) == RowPending(jobs, b, r) + JobCount(job, b, r)
  {
    hide JobCount;
    if jobs == [] {
      assert [job] + jobs == [] + [job];
      RowPendingAppend([], job, b, r);
    } else {
      var init, last := jobs[..|jobs| - 1], jobs[|jobs| - 1];
      RowPendingPrepend(init, job, b, r);
      assert [job] + jobs == ([job] + init) + [last];
      RowPendingAppend([job] + init, last, b, r);
    }
  }

  lemma {:induction false} RowPendingRemove(jobs: seq<S.Job>, n: nat, b: nat, r: nat)
    requires n < |jobs|
    ensures RowPending(jobs, b, r) == RowPending(jobs[..n] + jobs[n + 1..], b, r) + JobCount(jobs[n], b, r)
  {
    hide JobCount;
    var init, last := jobs[..|jobs| - 1], jobs[|jobs| - 1];
    if n == |jobs| - 1 {
      assert jobs[..n] + jobs[n + 1..] == init;
    } else {
      RowPendingRemove(init, n, b, r);
      assert init[..n] == jobs[..n];
      assert (init[..n] + init[n + 1..]) + [last] == jobs[..n] + jobs[n + 1..];
      RowPendingAppend(init[..n] + init[n + 1..], last, b, r);
    }
  }

  lemma {:induction false} NoRowCounted(q: seq<DataPacket>, b: nat, r: nat)
    requires forall k :: 0 <= k < |q| ==> q[k].flag.Coded? || q[k].blockno != b || q[k].start != r
    ensures RowCount(q, b, r) == 0
  {
    if q != [] {
      NoRowCounted(q[..|q| - 1], b, r);
    }
  }

  /** Rows in succession, then coded packets: a row is counted once if it is among them. */
  lemma {:induction false} RowsCounted(q: seq<DataPacket>, b: nat, start: nat, rows: nat, r: nat)
    requires rows <= |q|
    requires forall k :: 0 <= k < rows ==> q[k].flag.Normal? && q[k].blockno == b && q[k].start == start + k
    requires forall k :: rows <= k < |q| ==> q[k].flag.Coded?
    ensures RowCount(q, b, r) == if start <= r < start + rows then 1 else 0
    decreases |q|
  {
    if q != [] {
      var init := q[..|q| - 1];
      if rows == |q| {
        RowsCounted(init, b, start, rows - 1, r);
      } else {
        RowsCounted(init, b, start, rows, r);
      }
    }
  }

  // ---------------------------------------------------------------------------------------------
  // Every run

  /** What has come into the queue of block b. */
  function Appended(s: S.State, s': S.State, b: nat): seq<DataPacket>
    requires S.Shaped(s) && S.Shaped(s')
  {
    var q, q' := s.queues[Slot(b)], s'.queues[Slot(b)];
    if |q| <= |q'| then q'[|q|..] else []
  }

  /** How often the first i steps have queued row r of block b uncoded. */
  ghost function TimesQueued(run: seq<System>, steps: seq<Step>, i: nat, b: nat, r: nat): nat
    requires IsRun(run, steps) && i < |run|
  {
    if i == 0 then 0
    else
      TimesQueued(run, steps, i - 1, b, r) + QueuedBy(run[i - 1], steps[i - 1], b, r)
  }

  ghost function QueuedBy(y: System, step: Step, b: nat, r: nat): nat
    requires Enabled(y, step)
  {
    if step.Code? then RowCount(Appended(y.server, S.CodingJob(y.server, step.job, step.seeds), b), b, r) else 0
  }

  /** Row r of block b exists. */
  function Exists(hist: seq<seq<seq<byte>>>, b: nat, r: nat): nat
  {
    if r < |Src(hist, b)| then 1 else 0
  }

  lemma AddedRows(s: S.State, hist: seq<seq<seq<byte>>>, pkts: seq<seq<byte>>, b: nat, r: nat)
    requires ServerInv(s, hist) && s.maxb < s.curr + NUM_BLOCKS && |s.blocks[Slot(s.maxb)]| <= |pkts|
    ensures var (s', hist') := (S.AddPackets(s, pkts), hist[s.maxb := pkts]);
            RowPending(s'.jobs, b, r) - RowPending(s.jobs, b, r) == Exists(hist', b, r) - Exists(hist, b, r)
  {
    hide Slot, SlotInv, JobInv;
    LastBlockSlot(s, hist);
    var first := |s.blocks[Slot(s.maxb)]|;
    RowPendingAppend(s.jobs, S.Job(s.maxb, first, |pkts| - first, 0), b, r);
  }

  /** send_ctcp orders each new row once. */
  lemma {:induction false} AcceptRows(y: System, buf: seq<byte>, b: nat, r: nat)
    requires Inv(y)
    ensures S.Shaped(y.server) && S.Sized(y.server) && |y.hist| == y.server.maxb + 1
    ensures var y' := AcceptStep(y, buf);
            && y'.server.curr == y.server.curr
            && RowPending(y'.server.jobs, b, r) - RowPending(y.server.jobs, b, r)
               == Exists(y'.hist, b, r) - Exists(y.hist, b, r)
    decreases |buf|, y.server.curr + NUM_BLOCKS - y.server.maxb
  {
    hide Framing.Bytes, Stream, Slot, SlotInv, JobInv, RequestInv, PathInv, ClientInv, NetInv, AcksInv, Delivered,
      Framing.IsBlock, Exists, RowPending;
    var s := y.server;
    if buf == [] {
      assert AcceptStep(y, buf) == y by {
        assert y.accepted + buf[..0] == y.accepted;
      }
    } else {
      var last := s.blocks[Slot(s.maxb)];
      assert Framing.IsBlock(last);
      Framing.ReadBlockKeepsBytes(last, buf);
      var (pkts, read) := Framing.ReadBlock(last, buf);
      LastBlockSlot(s, y.hist);
      if read > 0 {
        var y' := y.(server := S.AddPackets(s, pkts), hist := y.hist[s.maxb := pkts],
          accepted := y.accepted + buf[..read]);
        AddPacketsStep(y, pkts, buf[..read]);
        AddPacketsKeeps(s, y.hist, pkts);
        AddedRows(s, y.hist, pkts, b, r);
        AcceptUnfold(y, buf, pkts, read);
        AcceptRows(y', buf[read..], b, r);
      } else if s.maxb < s.curr + NUM_BLOCKS {
        var y' := y.(server := s.(maxb := s.maxb + 1), hist := y.hist + [[]]);
        OpenBlockStep(y);
        OpenedExists(y.hist, b, r);
        AcceptRows(y', buf, b, r);
      } else {
        assert AcceptStep(y, buf) == y by {
          assert y.accepted + buf[..0] == y.accepted;
        }
      }
    }
  }

  lemma OpenedExists(hist: seq<seq<seq<byte>>>, b: nat, r: nat)
    ensures Exists(hist + [[]], b, r) == Exists(hist, b, r)
  {
  }

  lemma PaddedExists(hist: seq<seq<seq<byte>>>, n: nat, b: nat, r: nat)
    ensures Exists(Padded(hist, n), b, r) == Exists(hist, b, r)
  {
  }

  /** Running a job queues the rows it was pending for. */
  lemma CodeRows(y: System, n: nat, seeds: seq<byte>, b: nat, r: nat)
    requires Inv(y) && Enabled(y, Code(n, seeds)) && y.server.curr <= b
    ensures var s' := S.CodingJob(y.server, n, seeds);
            && S.Shaped(s')
            && RowCount(Appended(y.server, s', b), b, r) + RowPending(s'.jobs, b, r)
               == RowPending(y.server.jobs, b, r)
  {
    hide Slot, ClientInv, NetInv, AcksInv, SlotInv, Serves, C.Valid;
    var s, job := y.server, y.server.jobs[n];
    assert JobInv(job, s.curr, y.hist);
    RowPendingRemove(s.jobs, n, b, r);
    if S.JobIsIdle(s, job) {
      IdleJob(s, n, seeds);
      JobIsOld(y, n);
    } else {
      JobQueues(s, n, seeds);
      NewRows(y, n, seeds, b, r);
    }
  }

  lemma JobIsOld(y: System, n: nat)
    requires Inv(y) && S.Shaped(y.server) && n < |y.server.jobs| && S.JobIsIdle(y.server, y.server.jobs[n])
    ensures y.server.jobs[n].blockno < y.server.curr
  {
    hide Slot, ClientInv, NetInv, AcksInv, QueueOf;
    var s, job := y.server, y.server.jobs[n];
    assert JobInv(job, s.curr, y.hist);
    assert job.blockno >= s.curr ==> SlotInv(s, y.hist, job.blockno);
  }

  lemma NewRows(y: System, n: nat, seeds: seq<byte>, b: nat, r: nat)
    requires Inv(y) && Enabled(y, Code(n, seeds)) && y.server.curr <= b
    requires !S.JobIsIdle(y.server, y.server.jobs[n])
    ensures S.Shaped(S.CodingJob(y.server, n, seeds))
    ensures RowCount(Appended(y.server, S.CodingJob(y.server, n, seeds), b), b, r)
            == JobCount(y.server.jobs[n], b, r)
  {
    hide Slot, ClientInv, NetInv, AcksInv, C.Valid, S.CodingJob;
    var s, job := y.server, y.server.jobs[n];
    var s' := S.CodingJob(s, n, seeds);
    JobQueues(s, n, seeds);
    assert JobInv(job, s.curr, y.hist);
    BlockOfJob(y, n);
    var src := s.blocks[Slot(job.blockno)];
    var added := s'.queues[Slot(job.blockno)][|s.queues[Slot(job.blockno)]|..];
    if Slot(b) == Slot(job.blockno) {
      assert Appended(s, s', b) == added;
      ServedRows(added, job, src, seeds, b, r);
    } else {
      assert Appended(s, s', b) == [];
    }
  }

  lemma BlockOfJob(y: System, n: nat)
    requires Inv(y) && S.Shaped(y.server) && n < |y.server.jobs| && !S.JobIsIdle(y.server, y.server.jobs[n])
    ensures var job := y.server.jobs[n];
            job.wnd == 0 ==> job.start + job.dofs <= |y.server.blocks[Slot(job.blockno)]|
  {
    hide Slot, ClientInv, NetInv, AcksInv, QueueOf;
    var s, job := y.server, y.server.jobs[n];
    assert JobInv(job, s.curr, y.hist);
    assert SlotInv(s, y.hist, job.blockno);
  }

  lemma ServedRows(added: seq<DataPacket>, job: S.Job, src: seq<seq<byte>>, seeds: seq<byte>, b: nat, r: nat)
    requires Framing.IsBlock(src) && Serves(added, job, src, seeds)
    requires job.wnd == 0 ==> job.start + job.dofs <= |src|
    ensures RowCount(added, b, r) == JobCount(job, b, r)
  {
    var rows := RowsOf(job, |src|);
    forall k | rows <= k < |added| ensures added[k].flag.Coded? {
      assert IsCombination(added[rows + (k - rows)], job.blockno, seeds[k - rows], src);
    }
    if job.blockno == b {
      RowsCounted(added, b, job.start, rows, r);
    } else {
      forall k | 0 <= k < |added| ensures added[k].flag.Coded? || added[k].blockno != b {
        if k < rows {
          assert IsRow(added[k], job.blockno, job.start + k, src);
        }
      }
      NoRowCounted(added, b, r);
    }
  }

  lemma StepRows(y: System, step: Step, b: nat, r: nat)
    requires Inv(y) && Enabled(y, step) && After(y, step).server.curr <= b
    ensures y.server.curr <= b
    ensures QueuedBy(y, step, b, r) + RowPending(After(y, step).server.jobs, b, r) - RowPending(y.server.jobs, b, r)
            == Exists(After(y, step).hist, b, r) - Exists(y.hist, b, r)
  {
    hide Inv, C.Valid, S.Sized, AcceptStep, S.CodingJob, S.VisitBlock, S.HandleAck, S.CountLive, C.Receive, Slot,
      Exists, RowPending, RowCount, S.NeededNow, Padded, S.MaySend;
    match step
    case Accept(buf) => AcceptRows(y, buf, b, r);
    case Code(n, seeds) =>
      CodingJobShape(y.server, n, seeds);
      CodeRows(y, n, seeds, b, r);
    case Visit(p) => VisitRows(y.server, p, b, r);
    case TakeAck(cwnd) => AckRows(y, cwnd, b, r);
    case _ =>
  }

  /** send_segs orders coded packets only. */
  lemma VisitRows(s: S.State, p: real, b: nat, r: nat)
    requires S.Shaped(s) && s.phase.Visiting?
    ensures S.VisitBlock(s, p).curr == s.curr
    ensures RowPending(S.VisitBlock(s, p).jobs, b, r) == RowPending(s.jobs, b, r)
  {
    hide Slot, S.NeededNow, RowPending;
    if S.MayVisit(s) {
      var i, needed := Slot(s.phase.blockno), S.NeededNow(s, p);
      if s.dofRemain[i] < needed {
        var job := S.Job(s.phase.blockno, 0, needed - s.dofRemain[i], MAX_CODING_WND);
        RowPendingAppend(s.jobs, job, b, r);
        RowPendingPrepend(s.jobs, job, b, r);
      }
    }
  }

  lemma AckRows(y: System, cwnd: nat, b: nat, r: nat)
    requires Inv(y) && Enabled(y, TakeAck(cwnd))
    ensures var y' := After(y, TakeAck(cwnd));
            && y'.server.curr >= y.server.curr && y'.server.jobs == y.server.jobs
            && Exists(y'.hist, b, r) == Exists(y.hist, b, r)
  {
    hide Inv, Exists, Padded, S.HandleAck, S.FreeBlocks, Enabled, After, Slot;
    TakeAckUnfold(y, cwnd);
    HandleAckShape(y.server, y.acks[0], cwnd);
    FreeBlocksRaise(y.server, y.acks[0].blockno);
    PaddedExists(y.hist, S.FreeBlocks(y.server, y.acks[0].blockno).maxb + 1, b, r);
  }

  /**
   In every run, for every block not yet done: each of its rows has been queued uncoded exactly once, or one
   pending job will queue it; rows that do not exist have not been and will not be.
   */
  lemma {:induction false} RowsOnce(run: seq<System>, steps: seq<Step>, i: nat, b: nat, r: nat)
    requires IsRun(run, steps) && i < |run| && run[i].server.curr <= b
    ensures TimesQueued(run, steps, i, b, r) + RowPending(run[i].server.jobs, b, r)
            == if r < |Src(run[i].hist, b)| then 1 else 0
  {
    hide Inv, Enabled, Strict, After, QueuedBy, RowPending;
    if i == 0 {
      NoRowsAtFirst(b, r);
    } else {
      RunKeepsInv(run, steps, i - 1);
      assert run[i] == After(run[i - 1], steps[i - 1]);
      StepRows(run[i - 1], steps[i - 1], b, r);
      RowsOnce(run, steps, i - 1, b, r);
    }
  }

  lemma NoRowsAtFirst(b: nat, r: nat)
    ensures RowPending(Initial().server.jobs, b, r) == 0 && Exists(Initial().hist, b, r) == 0
  {
  }
}
