/** The steps of the sender keep its invariants. */
module SenderProofs {
  import opened Config
  import opened FieldTables
  import opened Slots
  import opened Framing
  import opened Packets
  import opened Delivery
  import opened Invariants
  import S = Server

  // ---------------------------------------------------------------------------------------------
  // Pending jobs

  lemma PendingAppend(jobs: seq<S.Job>, job: S.Job, b: nat)
    ensures Pending(jobs + [job], b) == Pending(jobs, b) + if job.blockno == b then job.dofs else 0
  {
    assert (jobs + [job])[..|jobs|] == jobs;
  }

  lemma {:induction false} PendingPrepend(jobs: seq<S.Job>, job: S.Job, b: nat)
    ensures Pending([job] + jobs, b) == Pending(jobs, b) + if job.blockno == b then job.dofs else 0
  {
    if jobs == [] {
      assert [job] + jobs == [] + [job];
      PendingAppend([], job, b);
    } else {
      var init, last := jobs[..|jobs| - 1], jobs[|jobs| - 1];
      PendingPrepend(init, job, b);
      assert jobs == init + [last];
      assert [job] + jobs == ([job] + init) + [last];
      PendingAppend([job] + init, last, b);
    }
  }

  lemma {:induction false} PendingRemove(jobs: seq<S.Job>, n: nat, b: nat)
    requires n < |jobs|
    ensures Pending(jobs, b) == Pending(jobs[..n] + jobs[n + 1..], b) + if jobs[n].blockno == b then jobs[n].dofs else 0
  {
    var init, last := jobs[..|jobs| - 1], jobs[|jobs| - 1];
    if n == |jobs| - 1 {
      assert jobs[..n] + jobs[n + 1..] == init;
    } else {
      PendingRemove(init, n, b);
      assert init[..n] == jobs[..n];
      assert (init[..n] + init[n + 1..]) + [last] == jobs[..n] + jobs[n + 1..];
      PendingAppend(init[..n] + init[n + 1..], last, b);
    }
  }

  lemma {:induction false} PendingNone(jobs: seq<S.Job>, b: nat)
    requires forall k :: 0 <= k < |jobs| ==> jobs[k].blockno != b
    ensures Pending(jobs, b) == 0
  {
    if jobs != [] {
      PendingNone(jobs[..|jobs| - 1], b);
    }
  }

  // ---------------------------------------------------------------------------------------------
  // send_ctcp

  /** Each old block is the start of the new one. */
  ghost predicate Grows(hist: seq<seq<seq<byte>>>, hist': seq<seq<seq<byte>>>)
  {
    |hist| <= |hist'| && forall b :: 0 <= b < |hist| ==> hist[b] <= hist'[b]
  }

  lemma QueueOfGrow(queue: seq<DataPacket>, b: nat, src: seq<seq<byte>>, src': seq<seq<byte>>)
    requires IsBlock(src) && IsBlock(src') && src <= src' && QueueOf(queue, b, src)
    ensures QueueOf(queue, b, src')
  {
    hide PacketOf;
    forall k | 0 <= k < |queue| ensures PacketOf(queue[k], src') {
      PacketOfGrow(queue[k], src, src');
    }
  }

  lemma JobGrow(job: S.Job, curr: nat, hist: seq<seq<seq<byte>>>, hist': seq<seq<seq<byte>>>)
    requires Grows(hist, hist') && JobInv(job, curr, hist)
    ensures JobInv(job, curr, hist')
  {
  }

  /** The last block has a slot of its own unless the ring is full, and then that slot is full. */
  lemma LastBlockSlot(s: S.State, hist: seq<seq<seq<byte>>>)
    requires ServerInv(s, hist)
    ensures s.maxb < s.curr + NUM_BLOCKS ==> s.blocks[Slot(s.maxb)] == hist[s.maxb]
    ensures s.maxb == s.curr + NUM_BLOCKS ==> |s.blocks[Slot(s.maxb)]| == BLOCK_SIZE
  {
    hide QueueOf, Slot;
    if s.maxb == s.curr + NUM_BLOCKS {
      SlotWraps(s.curr);
      assert SlotInv(s, hist, s.curr);
    } else {
      assert SlotInv(s, hist, s.maxb);
    }
  }

  lemma AddPacketsKeeps(s: S.State, hist: seq<seq<seq<byte>>>, pkts: seq<seq<byte>>)
    requires ServerInv(s, hist) && RequestInv(s, hist)
    requires s.blocks[Slot(s.maxb)] <= pkts && s.blocks[Slot(s.maxb)] != pkts && IsBlock(pkts)
    ensures s.maxb < s.curr + NUM_BLOCKS && hist[s.maxb] <= pkts
    ensures ServerInv(S.AddPackets(s, pkts), hist[s.maxb := pkts])
    ensures RequestInv(S.AddPackets(s, pkts), hist[s.maxb := pkts])
    ensures Grows(hist, hist[s.maxb := pkts])
  {
    hide QueueOf, Slot, Pending, IsBlock;
    LastBlockSlot(s, hist);
    assert s.maxb < s.curr + NUM_BLOCKS by {
      FullBlockCannotGrow(s.blocks[Slot(s.maxb)], pkts);
    }
    var s', hist' := S.AddPackets(s, pkts), hist[s.maxb := pkts];
    var i := Slot(s.maxb);
    var job := S.Job(s.maxb, |s.blocks[i]|, |pkts| - |s.blocks[i]|, 0);
    forall b | s.curr <= b < s.curr + NUM_BLOCKS ensures SlotInv(s', hist', b) {
      assert SlotInv(s, hist, b);
      PendingAppend(s.jobs, job, b);
      if b == s.maxb {
        QueueOfGrow(s.queues[i], b, hist[b], pkts);
      } else {
        OtherSlot(s.curr, b, s.maxb);
      }
    }
    forall k | 0 <= k < |s'.jobs| ensures JobInv(s'.jobs[k], s'.curr, hist') {
      if k < |s.jobs| {
        assert JobInv(s.jobs[k], s.curr, hist);
        JobGrow(s.jobs[k], s.curr, hist, hist');
      }
    }
  }

  lemma FullBlockCannotGrow(src: seq<seq<byte>>, pkts: seq<seq<byte>>)
    requires src <= pkts && src != pkts && IsBlock(pkts)
    ensures |src| < BLOCK_SIZE
  {
  }

  lemma OpenBlockKeeps(s: S.State, hist: seq<seq<seq<byte>>>)
    requires ServerInv(s, hist) && RequestInv(s, hist)
    requires s.maxb < s.curr + NUM_BLOCKS && |s.blocks[Slot(s.maxb)]| == BLOCK_SIZE
    ensures ServerInv(s.(maxb := s.maxb + 1), hist + [[]])
    ensures RequestInv(s.(maxb := s.maxb + 1), hist + [[]])
    ensures Grows(hist, hist + [[]])
  {
    hide QueueOf, Slot, Pending;
    LastBlockSlot(s, hist);
    var s', hist' := s.(maxb := s.maxb + 1), hist + [[]];
    forall b | s.curr <= b < s.curr + NUM_BLOCKS ensures SlotInv(s', hist', b) {
      assert SlotInv(s, hist, b);
      assert Src(hist', b) == Src(hist, b);
    }
    forall k | 0 <= k < |s'.jobs| ensures JobInv(s'.jobs[k], s'.curr, hist') {
      assert JobInv(s.jobs[k], s.curr, hist);
      JobGrow(s.jobs[k], s.curr, hist, hist');
    }
  }

  // ---------------------------------------------------------------------------------------------
  // coding_job

  /** A job makes exactly as many packets as it was asked for, each one of its block. */
  lemma JobPacketsEncode(job: S.Job, src: seq<seq<byte>>, seeds: seq<byte>)
    requires IsBlock(src) && src != [] && (job.wnd == 0 ==> job.start + job.dofs <= |src|)
    requires |seeds| == S.CodedShare(job, |src|)
    ensures |S.JobPackets(job, src, seeds)| == job.dofs
    ensures QueueOf(S.JobPackets(job, src, seeds), job.blockno, src)
    ensures forall k :: 0 <= k < job.dofs && S.JobPackets(job, src, seeds)[k].flag.Coded? ==>
              S.JobPackets(job, src, seeds)[k].num == |src|
  {
    hide PacketOf, UncodedPacket, CodedPacket;
    var q := S.JobPackets(job, src, seeds);
    forall k | 0 <= k < |q|
      ensures q[k].blockno == job.blockno && PacketOf(q[k], src) && (q[k].flag.Coded? ==> q[k].num == |src|)
    {
      if job.wnd == 0 {
        assert q[k] == UncodedPacket(job.blockno, job.start + k, src);
        UncodedPacketOf(job.blockno, job.start + k, src);
        UncodedHeader(job.blockno, job.start + k, src);
      } else {
        assert q[k] == CodedPacket(job.blockno, seeds[k], src);
        CodedPacketOf(job.blockno, seeds[k], src);
        CodedHeader(job.blockno, seeds[k], src);
      }
    }
  }

  lemma UncodedHeader(blockno: nat, row: nat, src: seq<seq<byte>>)
    requires row < |src|
    ensures UncodedPacket(blockno, row, src).blockno == blockno && UncodedPacket(blockno, row, src).flag.Normal?
  {
  }

  lemma CodedHeader(blockno: nat, coeff: byte, src: seq<seq<byte>>)
    requires IsBlock(src)
    ensures CodedPacket(blockno, coeff, src).blockno == blockno && CodedPacket(blockno, coeff, src).num == |src|
  {
  }

  lemma CodingJobKeeps(s: S.State, hist: seq<seq<seq<byte>>>, n: nat, seeds: seq<byte>)
    requires ServerInv(s, hist) && n < |s.jobs|
    requires |seeds| == S.CodedShare(s.jobs[n], |s.blocks[Slot(s.jobs[n].blockno)]|)
    ensures ServerInv(S.CodingJob(s, n, seeds), hist)
  {
    hide QueueOf, Slot, Pending, S.JobPackets, S.CodedShare;
    var job := s.jobs[n];
    var i := Slot(job.blockno);
    var s' := S.CodingJob(s, n, seeds);
    assert JobInv(job, s.curr, hist);
    if job.blockno >= s.curr {
      assert SlotInv(s, hist, job.blockno);
      JobPacketsEncode(job, s.blocks[i], seeds);
    }
    forall b | s.curr <= b < s.curr + NUM_BLOCKS ensures SlotInv(s', hist, b) {
      assert SlotInv(s, hist, b);
      PendingRemove(s.jobs, n, b);
      if job.blockno == b {
        QueueOfConcat(s.queues[i], S.JobPackets(job, s.blocks[i], seeds), b, Src(hist, b));
      } else if job.blockno >= s.curr {
        OtherSlot(s.curr, b, job.blockno);
      }
    }
    forall k | 0 <= k < |s'.jobs| ensures JobInv(s'.jobs[k], s.curr, hist) {
      assert s'.jobs[k] == if k < n then s.jobs[k] else s.jobs[k + 1];
    }
  }

  lemma QueueOfConcat(q: seq<DataPacket>, r: seq<DataPacket>, b: nat, src: seq<seq<byte>>)
    requires IsBlock(src) && QueueOf(q, b, src) && QueueOf(r, b, src)
    ensures QueueOf(q + r, b, src)
  {
    hide PacketOf;
  }

  // ---------------------------------------------------------------------------------------------
  // send_segs

  /** With nothing requested nothing is sent. */
  lemma NothingNeeded(s: S.State, p: real)
    requires S.Shaped(s) && s.phase.Visiting? && 0.0 <= p <= 1.0 && S.RequestNow(s) == 0
    ensures S.NeededNow(s, p) == 0
  {
  }

  /** Only the packets, the counters and the jobs matter. */
  lemma SamePacketsKeep(s: S.State, s': S.State, hist: seq<seq<seq<byte>>>)
    requires ServerInv(s, hist) && S.Shaped(s')
    requires s'.curr == s.curr && s'.maxb == s.maxb && s'.blocks == s.blocks && s'.queues == s.queues
    requires s'.dofRemain == s.dofRemain && s'.jobs == s.jobs
    ensures ServerInv(s', hist)
  {
    hide QueueOf, Slot, Pending, JobInv;
    forall b | s.curr <= b < s.curr + NUM_BLOCKS ensures SlotInv(s', hist, b) {
      assert SlotInv(s, hist, b);
    }
  }

  lemma AskForKeeps(s: S.State, hist: seq<seq<seq<byte>>>, b: nat, needed: nat)
    requires ServerInv(s, hist) && s.curr <= b < s.curr + NUM_BLOCKS
    requires Src(hist, b) != [] || needed == 0
    ensures ServerInv(S.AskFor(s, b, needed), hist)
  {
    hide QueueOf, Slot, Pending;
    var i, s' := Slot(b), S.AskFor(s, b, needed);
    if s.dofRemain[i] < needed {
      var job := S.Job(b, 0, needed - s.dofRemain[i], MAX_CODING_WND);
      forall k | s.curr <= k < s.curr + NUM_BLOCKS ensures SlotInv(s', hist, k) {
        assert SlotInv(s, hist, k);
        PendingAppend(s.jobs, job, k);
        PendingPrepend(s.jobs, job, k);
        if k != b {
          OtherSlot(s.curr, k, b);
        }
      }
      assert JobInv(job, s.curr, hist);
      forall k | 0 <= k < |s'.jobs| ensures JobInv(s'.jobs[k], s.curr, hist) {
        if b == s.curr {
          assert s'.jobs[k] == if k == 0 then job else s.jobs[k - 1];
        } else {
          assert s'.jobs[k] == if k == |s.jobs| then job else s.jobs[k];
        }
      }
    }
  }

  lemma VisitKeeps(s: S.State, hist: seq<seq<seq<byte>>>, p: real)
    requires ServerInv(s, hist) && RequestInv(s, hist) && s.phase.Visiting? && 0.0 <= p <= 1.0
    requires s.phase.blockno >= s.curr
    requires S.MayVisit(s) ==>
      s.phase.blockno < s.curr + NUM_BLOCKS || S.NeededNow(s, p) <= s.dofRemain[Slot(s.phase.blockno)]
    ensures ServerInv(S.VisitBlock(s, p), hist)
    ensures RequestInv(S.VisitBlock(s, p), hist)
  {
    hide QueueOf, Slot, Pending, S.NeededNow, S.AskFor;
    var s1 := s;
    if S.MayVisit(s) && s.phase.blockno < s.curr + NUM_BLOCKS {
      var b := s.phase.blockno;
      assert SlotInv(s, hist, b);
      if S.RequestNow(s) == 0 {
        NothingNeeded(s, p);
      }
      s1 := S.AskFor(s, b, S.NeededNow(s, p));
      AskForKeeps(s, hist, b, S.NeededNow(s, p));
      AskForOnlyAsks(s, b, S.NeededNow(s, p));
    }
    AskForNothing(s, s.phase.blockno, S.NeededNow(s, p));
    SamePacketsKeep(s1, S.VisitBlock(s, p), hist);
  }

  /** With enough packets queued or on order nothing is asked for. */
  lemma AskForNothing(s: S.State, b: nat, needed: nat)
    requires S.Shaped(s)
    ensures needed <= s.dofRemain[Slot(b)] ==> S.AskFor(s, b, needed) == s
  {
    hide Slot;
  }

  lemma AskForOnlyAsks(s: S.State, b: nat, needed: nat)
    requires S.Shaped(s)
    ensures var s' := S.AskFor(s, b, needed); s' == s.(dofRemain := s'.dofRemain, jobs := s'.jobs)
  {
  }

  /** The block whose packets are in the slot of block b: the block one ring on shares it with the current one. */
  function Owner(curr: nat, b: nat): nat
  {
    if b == curr + NUM_BLOCKS then curr else b
  }

  lemma OwnerSlot(curr: nat, b: nat)
    ensures Slot(Owner(curr, b)) == Slot(b)
  {
    SlotWraps(curr);
  }

  lemma SendKeeps(s: S.State, t: real, hist: seq<seq<seq<byte>>>)
    requires ServerInv(s, hist) && PathInv(s) && S.MaySend(s)
    ensures ServerInv(S.SendOne(s, t).0, hist)
    ensures var pkt := S.SendOne(s, t).1;
            InFlight(pkt, S.SendOne(s, t).0, hist) && pkt.blockno == Owner(s.curr, s.phase.blockno)
  {
    hide Slot, Pending, JobInv, PacketOf;
    var s', b := S.SendOne(s, t).0, Owner(s.curr, s.phase.blockno);
    OwnerSlot(s.curr, s.phase.blockno);
    var i := Slot(b);
    assert SlotInv(s, hist, b);
    forall k | s.curr <= k < s.curr + NUM_BLOCKS ensures SlotInv(s', hist, k) {
      assert SlotInv(s, hist, k);
      if k != b {
        OtherSlot(s.curr, k, b);
      }
    }
    RenumberedPacketOf(s.queues[i][0], s.nxt, Src(hist, b));
  }

  /** Numbering a packet as it is sent does not change what it encodes; its block is open. */
  lemma RenumberedPacketOf(pkt: DataPacket, seqno: nat, src: seq<seq<byte>>)
    requires IsBlock(src) && PacketOf(pkt, src)
    ensures PacketOf(pkt.(seqno := seqno), src) && src != []
  {
    assert PacketCoeffs(pkt.(seqno := seqno)) == PacketCoeffs(pkt);
  }

  // ---------------------------------------------------------------------------------------------
  // handle_ack

  /** The history when the current block is freed: the block after it is opened if need be. */
  function Opened(s: S.State, hist: seq<seq<seq<byte>>>): seq<seq<seq<byte>>>
  {
    if s.curr + 1 > s.maxb then hist + [[]] else hist
  }

  lemma FreeOneKeeps(s: S.State, hist: seq<seq<seq<byte>>>)
    requires ServerInv(s, hist) && |hist[s.curr]| == BLOCK_SIZE
    ensures ServerInv(S.FreeOne(s), Opened(s, hist))
  {
    hide Slot, Pending, PacketOf;
    var s' := S.FreeOne(s);
    var hist' := Opened(s, hist);
    forall b | s'.curr <= b < s'.curr + NUM_BLOCKS ensures SlotInv(s', hist', b) {
      assert Src(hist', b) == Src(hist, b);
      if b == s.curr + NUM_BLOCKS {
        SlotWraps(s.curr);
        forall k | 0 <= k < |s.jobs| ensures s.jobs[k].blockno != b {
          assert JobInv(s.jobs[k], s.curr, hist);
        }
        PendingNone(s.jobs, b);
      } else {
        assert SlotInv(s, hist, b);
        OtherSlot(s.curr, b, s.curr);
      }
    }
    forall k | 0 <= k < |s'.jobs| ensures JobInv(s'.jobs[k], s'.curr, hist') {
      assert JobInv(s.jobs[k], s.curr, hist);
    }
  }
}
