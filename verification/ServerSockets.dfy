/**
 srvctcp_sock and its one path as the loops of src/srvctcp.c update them: reading the user's bytes into
 blocks, running coding jobs, deciding how much to send, sending, and taking acks. Every method is
 proved against the function of Server that says what it does.
 */
module ServerSockets {
  import opened Config
  import opened FieldTables
  import opened Slots
  import opened Framing
  import opened Linear
  import opened Random
  import opened Packets
  import opened CodecLoops
  import S = Server

  /** readBlock. */
  method FillBlock(pkts: seq<seq<byte>>, buf: seq<byte>) returns (filled: seq<seq<byte>>, read: nat)
    ensures (filled, read) == ReadBlock(pkts, buf)
  {
    hide Frame;
    filled := pkts;
    read := 0;
    while |filled| < BLOCK_SIZE && read < |buf|
      invariant read <= |buf|
      invariant var (rest, more) := ReadBlock(filled, buf[read..]); ReadBlock(pkts, buf) == (rest, read + more)
      decreases |buf| - read
    {
      var left := buf[read..];
      var n := if PAYLOAD_SIZE - 2 < |left| then PAYLOAD_SIZE - 2 else |left|;
      assert left[n..] == buf[read + n..];
      filled := filled + [Frame(left[..n])];
      read := read + n;
    }
  }

  /** The loop of line 1113. */
  method DofNeeded(win: nat, p: real, mean: real, request: nat) returns (needed: nat)
    ensures needed == S.Needed(win, p, mean, request, 0)
  {
    hide S.Short;
    needed := 0;
    while needed < win && S.Short(needed, p, mean, request)
      invariant needed <= win
      invariant S.Needed(win, p, mean, request, needed) == S.Needed(win, p, mean, request, 0)
    {
      needed := needed + 1;
    }
  }

  /** The queues after packets have been added to the end of one. */
  function Longer(queues: seq<seq<DataPacket>>, i: nat, more: seq<DataPacket>): seq<seq<DataPacket>>
    requires i < |queues|
  {
    queues[i := queues[i] + more]
  }

  lemma LongerByNone(queues: seq<seq<DataPacket>>, i: nat)
    requires i < |queues|
    ensures Longer(queues, i, []) == queues
  {
    assert queues[i] + [] == queues[i];
  }

  lemma LongerTwice(queues: seq<seq<DataPacket>>, i: nat, p: seq<DataPacket>, q: seq<DataPacket>)
    requires i < |queues|
    ensures Longer(Longer(queues, i, p), i, q) == Longer(queues, i, p + q)
  {
    assert (queues[i] + p) + q == queues[i] + (p + q);
  }

  lemma BlockSizes(src: seq<seq<byte>>)
    requires IsBlock(src)
    ensures |src| <= BLOCK_SIZE && forall i :: 0 <= i < |src| ==> |src[i]| == PAYLOAD_SIZE
  {
  }

  lemma NoneCoded(blockno: nat, src: seq<seq<byte>>, seeds: seq<byte>)
    requires seeds == [] && forall i :: 0 <= i < |src| ==> |src[i]| == PAYLOAD_SIZE
    ensures S.CodedRun(blockno, src, seeds) == []
  {
  }

  class ServerSocket {
    var curr: nat
    var maxb: nat
    var dofReq: nat
    var blocks: seq<seq<seq<byte>>>
    var queues: seq<seq<DataPacket>>
    var dofRemain: seq<nat>
    var jobs: seq<S.Job>
    var nxt: nat
    var una: nat
    var cwnd: nat
    const onFly: array<nat>
    const txTime: array<real>
    var packetsSent: seq<nat>
    var phase: S.Phase

    ghost function Abs(): S.State
      reads this, onFly, txTime
    {
      S.State(curr, maxb, dofReq, blocks, queues, dofRemain, jobs,
        nxt, una, cwnd, onFly[..], txTime[..], packetsSent, phase)
    }

    ghost predicate Valid()
      reads this, onFly, txTime
    {
      S.Shaped(Abs()) && S.Sized(Abs())
    }

    /** create_srvctcp_sock and init_stream. */
    constructor ()
      ensures Valid() && Abs() == S.Initial() && fresh(onFly) && fresh(txTime)
    {
      curr, maxb, dofReq := 1, 1, 0;
      blocks := seq(NUM_BLOCKS, _ => []);
      queues := seq(NUM_BLOCKS, _ => []);
      dofRemain := seq(NUM_BLOCKS, _ => 0);
      jobs := [];
      nxt, una, cwnd := 1, 1, INIT_SEGS;
      onFly := new nat[MAX_CWND](_ => 0);
      txTime := new real[MAX_CWND](_ => 0.0);
      packetsSent := seq(NUM_BLOCKS, _ => 0);
      phase := S.Idle;
    }

    /** One turn of the loop of send_ctcp: new packets for the newest block, if it has room. */
    method TakeIn(buf: seq<byte>) returns (read: nat)
      requires Valid() && buf != []
      modifies this
      ensures Valid() && onFly[..] == old(onFly[..]) && txTime[..] == old(txTime[..])
      ensures var (pkts, n) := ReadBlock(old(blocks)[Slot(old(maxb))], buf);
        && read == n <= |buf| && |old(blocks)[Slot(old(maxb))]| <= |pkts|
        && Abs() == if read > 0 then S.AddPackets(old(Abs()), pkts) else old(Abs())
    {
      hide IsBlock, ReadBlock, Slot, Bytes;
      var i := Slot(maxb);
      var first := |blocks[i]|;
      assert IsBlock(Abs().blocks[i]);
      ReadBlockKeepsBytes(blocks[i], buf);
      var filled;
      filled, read := FillBlock(blocks[i], buf);
      if read > 0 {
        var request := |filled| - first;
        blocks := blocks[i := filled];
        dofRemain := dofRemain[i := dofRemain[i] + request];
        jobs := jobs + [S.Job(maxb, first, request, 0)];
        if maxb == curr {
          dofReq := dofReq + request;
        }
      }
    }

    /** send_ctcp, up to the wait for a free slot: the bytes accepted. */
    method Accept(buf: seq<byte>) returns (n: nat)
      requires Valid()
      modifies this
      ensures Valid() && (Abs(), n) == S.SendCtcp(old(Abs()), buf)
    {
      hide S.SendCtcp, S.AddPackets, IsBlock, ReadBlock, Slot;
      n := 0;
      ghost var whole := S.SendCtcp(Abs(), buf);
      while n < |buf|
        invariant Valid() && n <= |buf|
        invariant whole == (S.SendCtcp(Abs(), buf[n..]).0, n + S.SendCtcp(Abs(), buf[n..]).1)
        decreases |buf| - n, curr + NUM_BLOCKS - maxb
      {
        ghost var s := Abs();
        AcceptStops(s, buf[n..]);
        var read := TakeIn(buf[n..]);
        if read > 0 {
          S.SendCtcpTakes(s, buf[n..]);
          assert buf[n..][read..] == buf[n + read..];
          n := n + read;
        } else if maxb < curr + NUM_BLOCKS {
          maxb := maxb + 1;
        } else {
          return;
        }
      }
      AcceptNothing(Abs(), buf[n..]);
    }

    // -------------------------------------------------------------------------------------------
    // Coding

    /** Lines 1703 to 1718 of coding_job: queue rows start to end - 1 as they are. */
    method QueueUncoded(blockno: nat, start: nat, end: nat)
      requires Valid() && start <= end <= |blocks[Slot(blockno)]|
      modifies this`queues
      ensures Valid()
      ensures var i := Slot(blockno); queues == Longer(old(queues), i, S.Uncoded(blockno, blocks[i], start, end))
    {
      hide Slot;
      var i := Slot(blockno);
      var row := start;
      LongerByNone(queues, i);
      while row < end
        invariant Valid() && start <= row <= end
        invariant queues == Longer(old(queues), i, S.Uncoded(blockno, blocks[i], start, row))
      {
        queues := queues[i := queues[i] + [UncodedPacket(blockno, row, blocks[i])]];
        assert S.Uncoded(blockno, blocks[i], start, row + 1)
            == S.Uncoded(blockno, blocks[i], start, row) + [UncodedPacket(blockno, row, blocks[i])];
        LongerTwice(old(queues), i, S.Uncoded(blockno, blocks[i], start, row), [UncodedPacket(blockno, row,
          blocks[i])]);
        row := row + 1;
      }
    }

    /**
     Lines 1737 to 1771: one coded packet. The seed is the first draw of random() of any use; coefficients
     are drawn and the payload is summed in arrays.
     */
    method MakeCoded(rand: FastRand, blockno: nat, draws: seq<byte>) returns (pkt: DataPacket, used: nat)
      requires Valid() && Useful(draws, blockno, |blocks[Slot(blockno)]|) != []
      modifies rand
      ensures IsBlock(blocks[Slot(blockno)]) && 0 < used <= |draws|
      ensures pkt == CodedPacket(blockno, draws[used - 1], blocks[Slot(blockno)])
      ensures var len := |blocks[Slot(blockno)]|;
              Useful(draws, blockno, len) == [draws[used - 1]] + Useful(draws[used..], blockno, len)
    {
      hide Coefficients, Slot, Dot, Useful;
      var src := blocks[Slot(blockno)];
      assert IsBlock(Abs().blocks[Slot(blockno)]);
      var coeff := new byte[|src|];
      var chosen := ChooseSeed(rand, blockno, |src|, draws, coeff);
      var payload := new byte[PAYLOAD_SIZE];
      EncodePayload(coeff[..|src|], src, payload);
      pkt := DataPacket(Coded, 0, blockno, 0, |src|, draws[chosen], payload[..]);
      used := chosen + 1;
    }

    /** Lines 1735 to 1775: the coded packets of a job, one for each of the first useful draws of random(). */
    method QueueCoded(rand: FastRand, blockno: nat, request: nat, draws: seq<byte>)
      requires Valid() && request <= |Useful(draws, blockno, |blocks[Slot(blockno)]|)|
      modifies this`queues, rand
      ensures Valid() && IsBlock(blocks[Slot(blockno)])
      ensures var (i, src) := (Slot(blockno), blocks[Slot(blockno)]);
              queues == Longer(old(queues), i, S.CodedRun(blockno, src, Useful(draws, blockno, |src|)[..request]))
    {
      hide Slot, CodedPacket, IsBlock, Useful;
      var i := Slot(blockno);
      assert IsBlock(Abs().blocks[i]);
      ghost var src := blocks[i];
      ghost var seeds := Useful(draws, blockno, |src|);
      LongerByNone(queues, i);
      BlockSizes(src);
      var n, at := 0, 0;
      while n < request
        invariant Valid() && n <= request && at <= |draws|
        invariant Useful(draws[at..], blockno, |src|) == seeds[n..]
        invariant queues == Longer(old(queues), i, S.CodedRun(blockno, src, seeds[..n]))
      {
        var pkt, used := MakeCoded(rand, blockno, draws[at..]);
        assert draws[at..][used..] == draws[at + used..];
        assert seeds[n..][0] == seeds[n] && seeds[n..][1..] == seeds[n + 1..];
        queues := queues[i := queues[i] + [pkt]];
        assert S.CodedRun(blockno, src, seeds[..n + 1]) == S.CodedRun(blockno, src, seeds[..n]) + [pkt];
        LongerTwice(old(queues), i, S.CodedRun(blockno, src, seeds[..n]), [pkt]);
        n, at := n + 1, at + used;
      }
    }

    /** How many coded packets the n-th job in line makes, and the seeds for them among the draws of random(). */
    ghost function Share(n: nat): nat
      reads this, onFly, txTime
      requires Valid() && n < |jobs|
    {
      S.CodedShare(jobs[n], |blocks[Slot(jobs[n].blockno)]|)
    }

    ghost function Seeds(n: nat, draws: seq<byte>): seq<byte>
      reads this, onFly, txTime
      requires Valid() && n < |jobs|
    {
      Useful(draws, jobs[n].blockno, |blocks[Slot(jobs[n].blockno)]|)
    }

    /** coding_job, for the n-th job in line. */
    method Code(rand: FastRand, n: nat, draws: seq<byte>)
      requires Valid() && n < |jobs| && Share(n) <= |Seeds(n, draws)|
      modifies this, rand
      ensures Valid() && Abs() == S.CodingJob(old(Abs()), n, old(Seeds(n, draws)[..Share(n)]))
    {
      hide Slot, S.Uncoded, S.CodedRun, IsBlock, Useful;
      ghost var seeds := Seeds(n, draws)[..Share(n)];
      var job := jobs[n];
      var i := Slot(job.blockno);
      jobs := jobs[..n] + jobs[n + 1..];
      if job.blockno < curr || |blocks[i]| == 0 {
        return;
      }
      assert IsBlock(Abs().blocks[i]);
      BlockSizes(blocks[i]);
      var request := job.dofs;
      ghost var before := queues;
      if job.wnd == 0 {
        var end := if job.start + request < |blocks[i]| then job.start + request else |blocks[i]|;
        if job.start < end {
          QueueUncoded(job.blockno, job.start, end);
        }
        request := if request + job.start > |blocks[i]| then request + job.start - |blocks[i]| else 0;
      }
      ghost var uncoded :=
        if S.UncodedShare(job, |blocks[i]|) > 0
        then S.Uncoded(job.blockno, blocks[i], job.start, job.start + S.UncodedShare(job, |blocks[i]|)) else [];
      LongerByNone(before, i);
      assert queues == Longer(before, i, uncoded);
      LongerTwice(before, i, uncoded, S.CodedRun(job.blockno, blocks[i], seeds));
      if request > 0 {
        QueueCoded(rand, job.blockno, request, draws);
      } else {
        NoneCoded(job.blockno, blocks[i], seeds);
        LongerByNone(queues, i);
      }
    }

    // -------------------------------------------------------------------------------------------
    // Sending

    /** Lines 1035 to 1041: outstanding packets of the current block that may still arrive. */
    method CurrOnFly(now: real) returns (n: nat)
      requires Valid() && una <= nxt
      ensures n == S.CountLive(Abs(), curr, now, una)
    {
      n := 0;
      var k := una;
      while k < nxt
        invariant una <= k <= nxt
        invariant n + S.CountLive(Abs(), curr, now, k) == S.CountLive(Abs(), curr, now, una)
      {
        if onFly[k % MAX_CWND] == curr && txTime[k % MAX_CWND] >= now {
          n := n + 1;
        }
        k := k + 1;
      }
    }

    /** Lines 1012 to 1055: a pass begins, if the window has room. */
    method Start(now: real) returns (started: bool)
      requires Valid() && phase.Idle? && una <= nxt
      modifies this`phase
      ensures Valid() && started == S.HasWindow(old(Abs()))
      ensures Abs() == if started then S.StartSending(old(Abs()), now) else old(Abs())
    {
      if cwnd <= nxt - una {
        return false;
      }
      var win := cwnd - (nxt - una);
      var n := CurrOnFly(now);
      phase := S.Visiting(curr, win, maxb, n);
      return true;
    }

    /** Line 1194: the next block is due. */
    method Leave()
      requires Valid() && S.MayLeave(Abs())
      modifies this`phase
      ensures Valid() && Abs() == S.LeaveBlock(old(Abs()))
    {
      phase := S.Visiting(phase.blockno + 1, phase.win, phase.limit, phase.onFly);
    }

    /** One turn of the loop over blocks, lines 1056 to 1178. */
    method Visit(p: real)
      requires Valid() && phase.Visiting?
      modifies this
      ensures Valid() && Abs() == S.VisitBlock(old(Abs()), p)
    {
      hide Slot, IsBlock, S.Needed, S.MeanOnFly;
      var b, win, limit := phase.blockno, phase.win, phase.limit;
      if !(win > 0 && b <= curr + NUM_BLOCKS && (limit == 0 || b <= limit)) {
        phase := S.Idle;
        return;
      }
      var i := Slot(b);
      var onFlyCount := phase.onFly;
      var mean := S.MeanOnFly(p, onFlyCount);
      var request;
      if b == curr {
        request := dofReq;
      } else {
        request := |blocks[i]|;
        onFlyCount := packetsSent[i];
      }
      var needed := DofNeeded(win, p, mean, request);
      if dofRemain[i] < needed {
        var job := S.Job(b, 0, needed - dofRemain[i], MAX_CODING_WND);
        dofRemain := dofRemain[i := dofRemain[i] + job.dofs];
        jobs := if b == curr then [job] + jobs else jobs + [job];
      }
      phase := S.Sending(b, needed, win, limit, onFlyCount);
    }

    /** send_one and the counters around it, lines 1180 to 1191; the deadline comes from the clock. */
    method Send(deadline: real) returns (pkt: DataPacket)
      requires Valid() && S.MaySend(Abs())
      modifies this, onFly, txTime
      ensures Valid() && (Abs(), pkt) == S.SendOne(old(Abs()), deadline)
    {
      hide Slot, IsBlock;
      var b := phase.blockno;
      var i := Slot(b);
      pkt := queues[i][0].(seqno := nxt);
      queues := queues[i := queues[i][1..]];
      onFly[nxt % MAX_CWND] := b;
      txTime[nxt % MAX_CWND] := deadline;
      nxt := nxt + 1;
      phase := phase.(left := phase.left - 1, win := phase.win - 1);
      dofRemain := dofRemain[i := dofRemain[i] - 1];
      packetsSent := packetsSent[i := packetsSent[i] + 1];
    }

    // -------------------------------------------------------------------------------------------
    // Acknowledgements

    /** Lines 1347 to 1389: free every block before the one acknowledged. */
    method Free(blockno: nat)
      requires Valid()
      modifies this`curr, this`maxb, this`blocks, this`queues, this`dofRemain, this`packetsSent
      ensures Valid() && Abs() == S.FreeBlocks(old(Abs()), blockno)
    {
      hide Slot, IsBlock, S.FreeBlocks;
      while blockno > curr
        invariant Valid()
        invariant S.FreeBlocks(Abs(), blockno) == S.FreeBlocks(old(Abs()), blockno)
        decreases blockno - curr
      {
        NoBlockIsBlock();
        S.FreeBlocksUnfold(Abs(), blockno);
        var i := Slot(curr);
        blocks := blocks[i := []];
        packetsSent := packetsSent[i := 0];
        dofRemain := dofRemain[i := 0];
        queues := queues[i := []];
        curr := curr + 1;
        maxb := if curr > maxb then curr else maxb;
      }
      FreeNone(Abs(), blockno);
    }

    /** handle_ack; `decided` is the window advance_cwnd chooses before it constrains it. */
    method HandleAck(ack: Ack, decided: nat)
      requires Valid()
      modifies this
      ensures Valid() && Abs() == S.HandleAck(old(Abs()), ack, decided)
    {
      hide Slot, S.FreeBlocks;
      var currBefore := curr;
      Free(ack.blockno);
      var len := |blocks[Slot(curr)]|;
      if currBefore == curr {
        // MIN of unsigned numbers: a negative difference wraps and loses.
        if ack.dofRec <= len && len - ack.dofRec < dofReq {
          dofReq := len - ack.dofRec;
        }
      } else {
        dofReq := if ack.dofRec <= len then len - ack.dofRec else 0;
      }
      if ack.ackno > nxt {
        if una < ack.ackno {
          una := ack.ackno;
        }
      } else {
        if ack.ackno > una {
          una := ack.ackno;
        }
        cwnd := if decided > MAX_CWND then MAX_CWND else if decided < 2 then 2 else decided;
      }
    }

    /** timeout. */
    method Timeout()
      requires Valid()
      modifies this
      ensures Valid() && Abs() == S.Timeout(old(Abs()))
    {
      if nxt != una {
        cwnd := INIT_SEGS;
        una := nxt;
      }
    }
  }

  lemma AcceptStops(s: S.State, buf: seq<byte>)
    requires S.Shaped(s) && S.Sized(s) && buf != []
    ensures ReadBlock(s.blocks[Slot(s.maxb)], buf).1 == 0 ==>
      S.SendCtcp(s, buf) == if s.maxb < s.curr + NUM_BLOCKS then S.SendCtcp(s.(maxb := s.maxb + 1), buf) else (s, 0)
  {
    hide IsBlock, ReadBlock, Slot, Bytes, S.AddPackets;
    assert IsBlock(s.blocks[Slot(s.maxb)]);
    ReadBlockKeepsBytes(s.blocks[Slot(s.maxb)], buf);
  }

  lemma NoBlockIsBlock()
    ensures IsBlock([])
  {
  }

  lemma FreeNone(s: S.State, blockno: nat)
    requires S.Shaped(s) && blockno <= s.curr
    ensures S.FreeBlocks(s, blockno) == s
  {
  }

  lemma AcceptNothing(s: S.State, buf: seq<byte>)
    requires S.Shaped(s) && S.Sized(s) && buf == []
    ensures S.SendCtcp(s, buf) == (s, 0)
  {
  }
}
