/** What the network does keeps the order and the meaning of packets. */
module NetworkProofs {
  import opened Config
  import opened FieldTables
  import opened Slots
  import opened Elimination
  import opened Framing
  import opened Packets
  import opened Decoder
  import opened Delivery
  import opened Transport
  import opened Invariants
  import opened SenderProofs
  import S = Server
  import C = Client

  // ---------------------------------------------------------------------------------------------
  // Losing, repeating and reordering

  lemma SortedWithout(q: seq<DataPacket>, i: nat, b: nat)
    requires i < |q| && Sorted(q, b)
    ensures Sorted(Without(q, i), b)
  {
    var r := Without(q, i);
    assert forall k :: 0 <= k < |r| ==> r[k] == q[if k < i then k else k + 1];
  }

  lemma SortedRepeated(q: seq<DataPacket>, i: nat, b: nat)
    requires i < |q| && Sorted(q, b)
    ensures Sorted(Repeated(q, i), b)
  {
    var r := Repeated(q, i);
    assert forall k :: 0 <= k < |r| ==> r[k] == q[if k <= i then k else k - 1];
  }

  lemma SortedSwapped(q: seq<DataPacket>, i: nat, b: nat)
    requires i + 1 < |q| && Sorted(q, b) && MaySwap(q[i], q[i + 1])
    ensures Sorted(Swapped(q, i), b)
  {
    var r := Swapped(q, i);
    assert forall k :: 0 <= k < |r| && k != i && k != i + 1 ==> r[k] == q[k];
  }

  /** Every packet of r is one of q. */
  ghost predicate Within(r: seq<DataPacket>, q: seq<DataPacket>)
  {
    forall k :: 0 <= k < |r| ==> r[k] in q
  }

  lemma CoversWithin(rows: seq<Row>, r: seq<DataPacket>, q: seq<DataPacket>, b: nat)
    requires |rows| == BLOCK_SIZE && CoversAll(rows, q, b) && Within(r, q)
    ensures CoversAll(rows, r, b)
  {
    hide Covers;
    forall k | 0 <= k < |r| && CodedFor(r[k], b) ensures Covers(rows, r[k].num) {
      var l :| 0 <= l < |q| && q[l] == r[k];
    }
  }

  /** The network may turn data into data' if it makes up nothing and keeps coded packets in order. */
  ghost predicate Carries(data: seq<DataPacket>, data': seq<DataPacket>)
  {
    && Within(data', data)
    && forall b: nat, q: seq<DataPacket> :: Sorted(data + q, b) ==> Sorted(data' + q, b)
  }

  lemma LossCarries(data: seq<DataPacket>, i: nat)
    requires i < |data|
    ensures Carries(data, Without(data, i))
  {
    hide Sorted;
    forall b: nat, q: seq<DataPacket> | Sorted(data + q, b) ensures Sorted(Without(data, i) + q, b) {
      SortedWithout(data + q, i, b);
      assert Without(data + q, i) == Without(data, i) + q;
    }
  }

  lemma RepetitionCarries(data: seq<DataPacket>, i: nat)
    requires i < |data|
    ensures Carries(data, Repeated(data, i))
  {
    hide Sorted;
    forall b: nat, q: seq<DataPacket> | Sorted(data + q, b) ensures Sorted(Repeated(data, i) + q, b) {
      SortedRepeated(data + q, i, b);
      assert Repeated(data + q, i) == Repeated(data, i) + q;
    }
  }

  lemma SwapCarries(data: seq<DataPacket>, i: nat)
    requires i + 1 < |data| && MaySwap(data[i], data[i + 1])
    ensures Carries(data, Swapped(data, i))
  {
    hide Sorted, MaySwap;
    forall b: nat, q: seq<DataPacket> | Sorted(data + q, b) ensures Sorted(Swapped(data, i) + q, b) {
      SortedSwapped(data + q, i, b);
      assert Swapped(data + q, i) == Swapped(data, i) + q;
    }
  }

  lemma CarriedNet(s: S.State, c: C.State, data: seq<DataPacket>, data': seq<DataPacket>, hist: seq<seq<seq<byte>>>)
    requires S.Shaped(s) && C.Valid(c) && IsHistory(hist)
    requires NetInv(s, c, data, hist) && Carries(data, data')
    ensures NetInv(s, c, data', hist)
  {
    hide PacketOf, Sorted, CoversAll, ValidBlock, Slot, Queue;
    forall k | 0 <= k < |data'| ensures InFlight(data'[k], s, hist) {
      assert data'[k] in data;
    }
    forall b: nat ensures PipeInv(s, c, data', b) {
      assert PipeInv(s, c, data, b);
      if c.curr <= b < c.curr + NUM_BLOCKS {
        assert C.Valid(c) && |c.blocks[Slot(b)].rows| == BLOCK_SIZE by {
          RowsOfBlock(c, b);
        }
        CoversWithin(c.blocks[Slot(b)].rows, data' + Queue(s, b), data + Queue(s, b), b);
      }
    }
  }

  lemma RowsOfBlock(c: C.State, b: nat)
    requires C.Valid(c)
    ensures |c.blocks[Slot(b)].rows| == BLOCK_SIZE && ValidBlock(c.blocks[Slot(b)])
  {
  }

  // ---------------------------------------------------------------------------------------------
  // The sender's steps

  /** Steps that leave the queues alone. */
  lemma SameQueuesNet(s: S.State, s': S.State, c: C.State, data: seq<DataPacket>, hist: seq<seq<seq<byte>>>,
      hist': seq<seq<seq<byte>>>)
    requires S.Shaped(s) && S.Shaped(s') && C.Valid(c) && IsHistory(hist) && IsHistory(hist')
    requires NetInv(s, c, data, hist) && Grows(hist, hist')
    requires s'.curr == s.curr && s'.queues == s.queues && s'.nxt == s.nxt
    ensures NetInv(s', c, data, hist')
  {
    hide PacketOf, Sorted, CoversAll, ValidBlock, Slot;
    forall k | 0 <= k < |data| ensures InFlight(data[k], s', hist') {
      assert InFlight(data[k], s, hist);
      PacketOfGrow(data[k], hist[data[k].blockno], hist'[data[k].blockno]);
    }
    forall b: nat ensures PipeInv(s', c, data, b) {
      assert PipeInv(s, c, data, b);
      assert Queue(s', b) == Queue(s, b);
    }
  }

  /** Packets at least as wide as any before them may be queued. */
  lemma SortedAppend(q: seq<DataPacket>, r: seq<DataPacket>, b: nat, n: nat)
    requires Sorted(q, b)
    requires forall k :: 0 <= k < |q| && CodedFor(q[k], b) ==> q[k].num <= n
    requires forall k :: 0 <= k < |r| && CodedFor(r[k], b) ==> r[k].num == n
    ensures Sorted(q + r, b)
  {
  }

  lemma CoversAppend(rows: seq<Row>, q: seq<DataPacket>, r: seq<DataPacket>, b: nat, n: nat)
    requires |rows| == BLOCK_SIZE && CoversAll(rows, q, b) && Covers(rows, n)
    requires forall k :: 0 <= k < |r| && CodedFor(r[k], b) ==> r[k].num == n
    ensures CoversAll(rows, q + r, b)
  {
    hide Covers;
    var t := q + r;
    forall k | 0 <= k < |t| && CodedFor(t[k], b) ensures Covers(rows, t[k].num) {
      if k >= |q| {
        assert t[k] == r[k - |q|];
      }
    }
  }

  lemma NumWithinBlock(p: DataPacket, src: seq<seq<byte>>)
    requires IsBlock(src) && PacketOf(p, src) && p.flag.Coded?
    ensures p.num <= |src|
  {
  }

  lemma QueueGrowsNet(s: S.State, c: C.State, data: seq<DataPacket>, hist: seq<seq<seq<byte>>>, b: nat,
      r: seq<DataPacket>)
    requires ServerInv(s, hist) && ClientInv(s, c, hist) && NetInv(s, c, data, hist)
    requires s.curr <= b < s.curr + NUM_BLOCKS
    requires forall k :: 0 <= k < |r| && r[k].flag.Coded? ==> r[k].num == |Src(hist, b)|
    ensures Sorted(data + (s.queues[Slot(b)] + r), b)
    ensures c.curr <= b < c.curr + NUM_BLOCKS ==>
              |c.blocks[Slot(b)].rows| == BLOCK_SIZE &&
              CoversAll(c.blocks[Slot(b)].rows, data + (s.queues[Slot(b)] + r), b)
  {
    hide PacketOf, Sorted, CoversAll, ValidBlock, Slot, Covers, WindowBlock, Pending, JobInv;
    var queue, n := s.queues[Slot(b)], |Src(hist, b)|;
    var q := data + queue;
    assert SlotInv(s, hist, b) && PipeInv(s, c, data, b);
    forall k | 0 <= k < |q| && CodedFor(q[k], b) ensures q[k].num <= n {
      if k < |data| {
        assert InFlight(data[k], s, hist);
        NumWithinBlock(data[k], hist[b]);
      } else {
        NumWithinBlock(queue[k - |data|], Src(hist, b));
      }
    }
    SortedAppend(q, r, b, n);
    assert q + r == data + (queue + r);
    if c.curr <= b < c.curr + NUM_BLOCKS {
      RowsOfBlock(c, b);
      LengthCovers(c, hist, b);
      CoversAppend(c.blocks[Slot(b)].rows, q, r, b, n);
    }
  }

  lemma CodingJobNet(s: S.State, c: C.State, data: seq<DataPacket>, hist: seq<seq<seq<byte>>>, n: nat, seeds: seq<byte>)
    requires ServerInv(s, hist) && ClientInv(s, c, hist) && NetInv(s, c, data, hist) && n < |s.jobs|
    requires |seeds| == S.CodedShare(s.jobs[n], |s.blocks[Slot(s.jobs[n].blockno)]|)
    ensures NetInv(S.CodingJob(s, n, seeds), c, data, hist)
  {
    hide PacketOf, Sorted, CoversAll, ValidBlock, Slot, S.JobPackets, S.CodedShare, Pending, ClientOf;
    ClientIsValid(c, hist);
    var job := s.jobs[n];
    var i := Slot(job.blockno);
    var s' := S.CodingJob(s, n, seeds);
    if S.JobIsIdle(s, job) {
      assert s'.queues == s.queues;
      SameQueuesNet(s, s', c, data, hist, hist);
    } else {
      assert JobInv(job, s.curr, hist);
      assert SlotInv(s, hist, job.blockno);
      JobPacketsEncode(job, s.blocks[i], seeds);
      QueueGrowsNet(s, c, data, hist, job.blockno, S.JobPackets(job, s.blocks[i], seeds));
      forall k | 0 <= k < |data| ensures InFlight(data[k], s', hist) {
        assert InFlight(data[k], s, hist);
      }
      forall b: nat ensures PipeInv(s', c, data, b) {
        assert PipeInv(s, c, data, b);
        if s.curr <= b < s.curr + NUM_BLOCKS && b != job.blockno {
          OtherSlot(s.curr, b, job.blockno);
        }
      }
    }
  }

  /** Numbering a packet changes nothing the order depends on. */
  lemma SameHeaders(q: seq<DataPacket>, q': seq<DataPacket>, b: nat)
    requires |q| == |q'|
    requires forall k :: 0 <= k < |q| ==>
      q'[k].flag == q[k].flag && q'[k].blockno == q[k].blockno && q'[k].num == q[k].num
    ensures Sorted(q, b) ==> Sorted(q', b)
    ensures forall rows: seq<Row> | |rows| == BLOCK_SIZE :: CoversAll(rows, q, b) ==> CoversAll(rows, q', b)
  {
    hide Covers;
  }

  lemma SendNet(s: S.State, t: real, c: C.State, data: seq<DataPacket>, hist: seq<seq<seq<byte>>>)
    requires ServerInv(s, hist) && PathInv(s) && C.Valid(c) && NetInv(s, c, data, hist) && S.MaySend(s)
    ensures var (s', pkt) := S.SendOne(s, t); NetInv(s', c, data + [pkt], hist)
  {
    SendKeeps(s, t, hist);
    SendShape(s, t);
    hide PacketOf, Sorted, CoversAll, ValidBlock, Slot, ServerInv, PathInv, S.SendOne, S.MaySend, Queue;
    var (s', pkt) := S.SendOne(s, t);
    var data' := data + [pkt];
    forall k | 0 <= k < |data'| ensures InFlight(data'[k], s', hist) {
      if k < |data| {
        assert InFlight(data[k], s, hist);
      }
    }
    forall b: nat ensures PipeInv(s', c, data', b) {
      assert PipeInv(s, c, data, b);
      RowsOfBlock(c, b);
      SendPipe(s, t, hist, data, b);
    }
  }

  lemma SendShape(s: S.State, t: real)
    requires S.Shaped(s) && S.MaySend(s)
    ensures var s' := S.SendOne(s, t).0;
            s'.curr == s.curr && s'.maxb == s.maxb && s'.nxt == s.nxt + 1 && s'.una == s.una && s'.cwnd == s.cwnd
            && s'.dofReq == s.dofReq
  {
  }

  /** Sending moves the front of the queue to the back of the network. */
  lemma SendPipe(s: S.State, t: real, hist: seq<seq<seq<byte>>>, data: seq<DataPacket>, b: nat)
    requires ServerInv(s, hist) && PathInv(s) && S.MaySend(s)
    ensures var (s', pkt) := S.SendOne(s, t);
            && (Sorted(data + Queue(s, b), b) ==> Sorted(data + [pkt] + Queue(s', b), b))
            && forall rows: seq<Row> | |rows| == BLOCK_SIZE ::
                 CoversAll(rows, data + Queue(s, b), b) ==> CoversAll(rows, data + [pkt] + Queue(s', b), b)
  {
    hide PacketOf, Pending, JobInv, Slot, Covers;
    var (s', pkt) := S.SendOne(s, t);
    var n := Owner(s.curr, s.phase.blockno);
    OwnerSlot(s.curr, s.phase.blockno);
    var q, q' := data + Queue(s, b), data + [pkt] + Queue(s', b);
    assert SlotInv(s, hist, n);
    if b == n {
      assert forall k :: 0 <= k < |q'| && k != |data| ==> q'[k] == q[k];
      SameHeaders(q, q', b);
    } else {
      if s.curr <= b < s.curr + NUM_BLOCKS {
        OtherSlot(s.curr, b, n);
      }
      assert Queue(s', b) == Queue(s, b);
      assert pkt.blockno == n;
      assert q' == data + ([pkt] + Queue(s, b));
      OtherBlockInserted(data, pkt, Queue(s, b), b);
    }
  }

  lemma OtherBlockInserted(p: seq<DataPacket>, pkt: DataPacket, q: seq<DataPacket>, b: nat)
    requires pkt.blockno != b
    ensures Sorted(p + q, b) ==> Sorted(p + ([pkt] + q), b)
    ensures forall rows: seq<Row> | |rows| == BLOCK_SIZE :: CoversAll(rows, p + q, b) ==>
        CoversAll(rows, p + ([pkt] + q), b)
  {
    hide Covers;
    var t := p + ([pkt] + q);
    assert forall k :: 0 <= k < |t| && k != |p| ==> t[k] == (p + q)[if k < |p| then k else k - 1];
  }

  /** Freeing the current block: what is in flight stays, what was queued for it is gone. */
  lemma FreeNet(s: S.State, s': S.State, c: C.State, data: seq<DataPacket>, hist: seq<seq<seq<byte>>>,
      hist': seq<seq<seq<byte>>>)
    requires S.Shaped(s) && S.Shaped(s') && C.Valid(c) && IsHistory(hist) && IsHistory(hist')
    requires NetInv(s, c, data, hist) && Grows(hist, hist')
    requires s'.curr == s.curr + 1 && s'.nxt == s.nxt && s'.queues == s.queues[Slot(s.curr) := []]
    ensures NetInv(s', c, data, hist')
  {
    hide PacketOf, Sorted, CoversAll, ValidBlock, Slot;
    forall k | 0 <= k < |data| ensures InFlight(data[k], s', hist') {
      assert InFlight(data[k], s, hist);
      PacketOfGrow(data[k], hist[data[k].blockno], hist'[data[k].blockno]);
    }
    forall b: nat ensures PipeInv(s', c, data, b) {
      assert PipeInv(s, c, data, b);
      RowsOfBlock(c, b);
      if b == s.curr + NUM_BLOCKS {
        SlotWraps(s.curr);
        assert Queue(s', b) == Queue(s, b) == [];
      } else if s.curr < b < s.curr + NUM_BLOCKS {
        OtherSlot(s.curr, b, s.curr);
        assert Queue(s', b) == Queue(s, b);
      } else {
        assert Queue(s', b) == [];
        PrefixPipe(data, Queue(s, b), b);
        assert data + [] == data;
      }
    }
  }

  lemma PrefixPipe(data: seq<DataPacket>, q: seq<DataPacket>, b: nat)
    ensures Sorted(data + q, b) ==> Sorted(data, b)
    ensures forall rows: seq<Row> | |rows| == BLOCK_SIZE :: CoversAll(rows, data + q, b) ==> CoversAll(rows, data, b)
  {
    hide Covers;
    assert forall k :: 0 <= k < |data| ==> data[k] == (data + q)[k];
  }

  // ---------------------------------------------------------------------------------------------
  // Receiving

  /** Every packet that arrives is one the receiver can use: none is beyond its window. */
  lemma ArrivalExpected(s: S.State, c: C.State, data: seq<DataPacket>, hist: seq<seq<seq<byte>>>)
    requires S.Shaped(s) && ClientInv(s, c, hist) && NetInv(s, c, data, hist) && data != []
    ensures WellFormed(data[0]) && Expected(c, hist, data[0])
  {
    hide ValidBlock, Slot, Sorted, WindowBlock, PacketOf, WellFormed, Covers, Queue, C.Waiting;
    var p := data[0];
    assert InFlight(p, s, hist);
    PacketFacts(p, hist[p.blockno]);
    if p.blockno >= c.curr && p.flag.Coded? {
      assert PipeInv(s, c, data, p.blockno);
      assert (data + Queue(s, p.blockno))[0] == p;
      assert CodedFor((data + Queue(s, p.blockno))[0], p.blockno);
      RowsOfBlock(c, p.blockno);
    }
  }

  lemma PacketFacts(p: DataPacket, src: seq<seq<byte>>)
    requires IsBlock(src) && PacketOf(p, src)
    ensures WellFormed(p) && (p.flag.Coded? ==> p.start == 0)
  {
  }

  lemma ReceiveNet(s: S.State, c: C.State, data: seq<DataPacket>, hist: seq<seq<seq<byte>>>, room: nat)
    requires ServerInv(s, hist) && ClientInv(s, c, hist) && NetInv(s, c, data, hist) && data != []
    requires C.Valid(c) && WellFormed(data[0])
    ensures var r := C.Receive(c, data[0], room); NetInv(s, r.client, data[1..], hist)
  {
    hide PacketOf, Sorted, CoversAll, ValidBlock, Slot, WellFormed, C.Receive, Queue, SlotInv, JobInv, Expected,
      WindowBlock;
    ArrivalExpected(s, c, data, hist);
    var d, rest := C.Receive(c, data[0], room).client, data[1..];
    ReceiveDelivers(c, data[0], room, hist);
    ClientIsValid(d, hist);
    forall k | 0 <= k < |rest| ensures InFlight(rest[k], s, hist) {
      assert InFlight(data[k + 1], s, hist);
    }
    forall b: nat ensures PipeInv(s, d, rest, b) {
      ReceivePipe(s, c, data, hist, room, b);
    }
  }

  lemma ReceivePipe(s: S.State, c: C.State, data: seq<DataPacket>, hist: seq<seq<seq<byte>>>, room: nat, b: nat)
    requires ServerInv(s, hist) && ClientInv(s, c, hist) && NetInv(s, c, data, hist) && data != []
    requires C.Valid(c) && WellFormed(data[0]) && Expected(c, hist, data[0])
    ensures PipeInv(s, C.Receive(c, data[0], room).client, data[1..], b)
  {
    hide PacketOf, Covers, ValidBlock, Slot, WellFormed, C.Receive, JobInv, Expected, WindowBlock, Queue, InFlight,
      SlotInv;
    var p, d := data[0], C.Receive(c, data[0], room).client;
    var q, q' := data + Queue(s, b), data[1..] + Queue(s, b);
    ReceiveDelivers(c, p, room, hist);
    assert PipeInv(s, c, data, b);
    assert forall k :: 0 <= k < |q'| ==> q'[k] == q[k + 1];
    if d.curr <= b < d.curr + NUM_BLOCKS {
      RowsOfBlock(d, b);
      forall k | 0 <= k < |q'| && CodedFor(q'[k], b) ensures Covers(d.blocks[Slot(b)].rows, q'[k].num) {
        ReceiveKeepsCovering(s, c, data, hist, room, b, k + 1);
      }
    }
  }

  /** A packet further back in the pipe stays covered when the first one has been received. */
  lemma ReceiveKeepsCovering(s: S.State, c: C.State, data: seq<DataPacket>, hist: seq<seq<seq<byte>>>, room: nat,
      b: nat, k: nat)
    requires ServerInv(s, hist) && ClientInv(s, c, hist) && NetInv(s, c, data, hist) && data != []
    requires C.Valid(c) && WellFormed(data[0]) && Expected(c, hist, data[0])
    requires var d := C.Receive(c, data[0], room).client;
             C.Valid(d) && c.curr <= d.curr <= b < d.curr + NUM_BLOCKS && |d.blocks[Slot(b)].rows| == BLOCK_SIZE
    requires 0 < k < |data + Queue(s, b)| && CodedFor((data + Queue(s, b))[k], b)
    ensures Covers(C.Receive(c, data[0], room).client.blocks[Slot(b)].rows, (data + Queue(s, b))[k].num)
  {
    hide PacketOf, Covers, ValidBlock, Slot, WellFormed, C.Receive, JobInv, Expected, WindowBlock, Queue, InFlight,
      SlotInv;
    var p, q := data[0], data + Queue(s, b);
    assert PipeInv(s, c, data, b);
    RowsOfBlock(c, b);
    PipedPacket(s, data, hist, b, k);
    if p.blockno == b && p.flag.Coded? {
      StartOfCoded(p, s, hist, data);
      assert CodedFor(q[0], b);
    }
    ReceiveCovers(c, hist, p, room, b, q[k].num);
  }

  lemma PipedPacket(s: S.State, data: seq<DataPacket>, hist: seq<seq<seq<byte>>>, b: nat, k: nat)
    requires ServerInv(s, hist)
    requires forall i :: 0 <= i < |data| ==> InFlight(data[i], s, hist)
    requires k < |data + Queue(s, b)|
    ensures (data + Queue(s, b))[k].num <= BLOCK_SIZE
  {
    hide Pending, JobInv, Slot, Encodes;
    if k >= |data| {
      assert SlotInv(s, hist, b);
    }
  }

  lemma StartOfCoded(p: DataPacket, s: S.State, hist: seq<seq<seq<byte>>>, data: seq<DataPacket>)
    requires IsHistory(hist) && data != [] && p == data[0]
    requires forall i :: 0 <= i < |data| ==> InFlight(data[i], s, hist)
    ensures p.flag.Coded? ==> p.start == 0
  {
    assert InFlight(data[0], s, hist);
  }
}
