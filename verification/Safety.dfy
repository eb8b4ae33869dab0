/** Every step keeps the invariants, so every run delivers a prefix of what was accepted. */
module Safety {
  import opened Config
  import opened FieldTables
  import opened Slots
  import opened Framing
  import opened Packets
  import opened Decoder
  import opened Recovery
  import opened Delivery
  import opened Transport
  import opened Invariants
  import opened SenderProofs
  import opened NetworkProofs
  import S = Server
  import C = Client

  // ---------------------------------------------------------------------------------------------
  // The history grows

  lemma SrcGrows(hist: seq<seq<seq<byte>>>, hist': seq<seq<seq<byte>>>, b: nat)
    requires Grows(hist, hist')
    ensures Src(hist, b) <= Src(hist', b)
  {
  }

  /** Full blocks cannot change, and the receiver uses only the start of the others. */
  lemma ClientGrows(c: C.State, hist: seq<seq<seq<byte>>>, hist': seq<seq<seq<byte>>>)
    requires ClientOf(c, hist) && IsHistory(hist') && Grows(hist, hist')
    requires |hist| > 0 && hist[0] == hist'[0]
    ensures ClientOf(c, hist') && Delivered(c, hist') == Delivered(c, hist)
  {
    hide BlockOf, ValidBlock, Slot, Bytes, Stream;
    forall b | 1 <= b < c.curr ensures |Src(hist', b)| == BLOCK_SIZE {
      SrcGrows(hist, hist', b);
      assert IsBlock(Src(hist', b));
    }
    forall b | c.curr <= b < c.curr + NUM_BLOCKS ensures WindowBlock(c, hist', b) {
      assert WindowBlock(c, hist, b);
      SrcGrows(hist, hist', b);
      BlockOfGrow(c.blocks[Slot(b)], Src(hist, b), Src(hist', b));
    }
    forall b | 0 <= b < c.curr ensures hist'[b] == hist[b] {
      if b > 0 {
        assert |Src(hist, b)| == BLOCK_SIZE && |Src(hist', b)| == BLOCK_SIZE;
      }
    }
    StreamSame(hist, hist', c.curr);
    assert WindowBlock(c, hist, c.curr);
    PushedWithinSource(c.blocks[Slot(c.curr)], Src(hist, c.curr));
    SrcGrows(hist, hist', c.curr);
    var n := c.blocks[Slot(c.curr)].pushed;
    assert Src(hist', c.curr)[..n] == Src(hist, c.curr)[..n];
  }

  lemma {:induction false} StreamSame(hist: seq<seq<seq<byte>>>, hist': seq<seq<seq<byte>>>, n: nat)
    requires IsHistory(hist) && IsHistory(hist') && n <= |hist| && n <= |hist'|
    requires forall b :: 0 <= b < n ==> hist'[b] == hist[b]
    ensures Stream(hist', n) == Stream(hist, n)
  {
    hide Bytes;
    if n > 0 {
      StreamSame(hist, hist', n - 1);
    }
  }

  lemma AcksGrow(s: S.State, s': S.State, c: C.State, acks: seq<Ack>, hist: seq<seq<seq<byte>>>,
      hist': seq<seq<seq<byte>>>)
    requires AcksInv(s, c, acks, hist) && Grows(hist, hist') && s.nxt <= s'.nxt
    ensures AcksInv(s', c, acks, hist')
  {
    forall k | 0 <= k < |acks| ensures AckInv(acks[k], s', c, hist') {
      assert AckInv(acks[k], s, c, hist);
      SrcGrows(hist, hist', acks[k].blockno);
    }
  }

  lemma StreamExtended(hist: seq<seq<seq<byte>>>, pkts: seq<seq<byte>>, more: seq<byte>)
    requires IsHistory(hist) && hist != [] && IsBlock(pkts)
    requires Bytes(pkts) == Bytes(hist[|hist| - 1]) + more
    ensures IsHistory(hist[|hist| - 1 := pkts])
    ensures Stream(hist[|hist| - 1 := pkts], |hist|) == Stream(hist, |hist|) + more
  {
    hide Bytes, IsBlock;
    var hist' := hist[|hist| - 1 := pkts];
    StreamSame(hist, hist', |hist| - 1);
    StreamNext(hist, |hist| - 1);
    StreamNext(hist', |hist| - 1);
  }

  lemma StreamOpened(hist: seq<seq<seq<byte>>>)
    requires IsHistory(hist)
    ensures IsHistory(hist + [[]]) && Stream(hist + [[]], |hist| + 1) == Stream(hist, |hist|)
  {
    hide Bytes;
    StreamSame(hist, hist + [[]], |hist|);
    BytesOfNone();
    StreamNext(hist + [[]], |hist|);
  }

  // ---------------------------------------------------------------------------------------------
  // send_ctcp

  lemma AddPacketsStep(y: System, pkts: seq<seq<byte>>, more: seq<byte>)
    requires Inv(y) && IsBlock(pkts)
    requires var last := y.server.blocks[Slot(y.server.maxb)];
             last <= pkts && last != pkts && Bytes(pkts) == Bytes(last) + more
    ensures Inv(y.(server := S.AddPackets(y.server, pkts), hist := y.hist[y.server.maxb := pkts],
                   accepted := y.accepted + more))
  {
    hide Bytes, Stream, IsBlock, Slot, SlotInv, JobInv, ClientOf, NetInv, AcksInv, Delivered, C.Waiting;
    var s, hist := y.server, y.hist;
    AddPacketsKeeps(s, hist, pkts);
    LastBlockSlot(s, hist);
    StreamExtended(hist, pkts, more);
    var s', hist' := S.AddPackets(s, pkts), hist[s.maxb := pkts];
    ClientIsValid(y.client, hist);
    ClientGrows(y.client, hist, hist');
    SameQueuesNet(s, s', y.client, y.data, hist, hist');
    AcksGrow(s, s', y.client, y.acks, hist, hist');
  }

  lemma OpenBlockStep(y: System)
    requires Inv(y) && y.server.maxb < y.server.curr + NUM_BLOCKS
    requires |y.server.blocks[Slot(y.server.maxb)]| == BLOCK_SIZE
    ensures Inv(y.(server := y.server.(maxb := y.server.maxb + 1), hist := y.hist + [[]]))
  {
    hide Bytes, Stream, IsBlock, Slot, SlotInv, JobInv, ClientOf, NetInv, AcksInv, Delivered, C.Waiting;
    var s, hist := y.server, y.hist;
    OpenBlockKeeps(s, hist);
    StreamOpened(hist);
    var s', hist' := s.(maxb := s.maxb + 1), hist + [[]];
    ClientIsValid(y.client, hist);
    ClientGrows(y.client, hist, hist');
    SameQueuesNet(s, s', y.client, y.data, hist, hist');
    AcksGrow(s, s', y.client, y.acks, hist, hist');
  }

  lemma {:induction false} AcceptKeeps(y: System, buf: seq<byte>)
    requires Inv(y)
    ensures S.Shaped(y.server) && S.Sized(y.server) && |y.hist| == y.server.maxb + 1
    ensures Inv(AcceptStep(y, buf))
    decreases |buf|, y.server.curr + NUM_BLOCKS - y.server.maxb
  {
    hide Bytes, Stream, Slot, SlotInv, JobInv, RequestInv, PathInv, ClientInv, NetInv, AcksInv, Delivered, IsBlock;
    var s := y.server;
    if buf == [] {
      assert y.accepted + buf[..0] == y.accepted;
      assert AcceptStep(y, buf) == y;
    } else {
      var last := s.blocks[Slot(s.maxb)];
      assert IsBlock(last);
      ReadBlockKeepsBytes(last, buf);
      var (pkts, read) := ReadBlock(last, buf);
      if read > 0 {
        var y' := y.(server := S.AddPackets(s, pkts), hist := y.hist[s.maxb := pkts],
          accepted := y.accepted + buf[..read]);
        AddPacketsStep(y, pkts, buf[..read]);
        AcceptKeeps(y', buf[read..]);
        AcceptUnfold(y, buf, pkts, read);
      } else if s.maxb < s.curr + NUM_BLOCKS {
        var y' := y.(server := s.(maxb := s.maxb + 1), hist := y.hist + [[]]);
        OpenBlockStep(y);
        AcceptKeeps(y', buf);
      } else {
        assert y.accepted + buf[..0] == y.accepted;
        assert AcceptStep(y, buf) == y;
      }
    }
  }

  lemma AcceptUnfold(y: System, buf: seq<byte>, pkts: seq<seq<byte>>, read: nat)
    requires S.Shaped(y.server) && S.Sized(y.server) && |y.hist| == y.server.maxb + 1
    requires buf != [] && 0 < read <= |buf| && ReadBlock(y.server.blocks[Slot(y.server.maxb)], buf) == (pkts, read)
    requires |y.server.blocks[Slot(y.server.maxb)]| <= |pkts|
    requires S.Sized(S.AddPackets(y.server, pkts)) && S.AddPackets(y.server, pkts).maxb == y.server.maxb
    ensures AcceptStep(y, buf) ==
            AcceptStep(y.(server := S.AddPackets(y.server, pkts), hist := y.hist[y.server.maxb := pkts],
                          accepted := y.accepted + buf[..read]), buf[read..])
  {
    hide ReadBlock, S.SendCtcp, Recorded, S.AddPackets, Slot, IsBlock;
    S.SendCtcpTakes(y.server, buf);
    RecordedUnfold(y.server, y.hist, buf, pkts, read);
    var n := S.SendCtcp(S.AddPackets(y.server, pkts), buf[read..]).1;
    assert buf[..read] + buf[read..][..n] == buf[..read + n];
    assert y.accepted + buf[..read] + buf[read..][..n] == y.accepted + (buf[..read] + buf[read..][..n]);
  }

  lemma RecordedUnfold(s: S.State, hist: seq<seq<seq<byte>>>, buf: seq<byte>, pkts: seq<seq<byte>>, read: nat)
    requires S.Shaped(s) && S.Sized(s) && |hist| == s.maxb + 1 && buf != [] && 0 < read <= |buf|
    requires ReadBlock(s.blocks[Slot(s.maxb)], buf) == (pkts, read) && |s.blocks[Slot(s.maxb)]| <= |pkts|
    requires S.Sized(S.AddPackets(s, pkts)) && S.AddPackets(s, pkts).maxb == s.maxb
    ensures Recorded(s, hist, buf) == Recorded(S.AddPackets(s, pkts), hist[s.maxb := pkts], buf[read..])
  {
    hide ReadBlock, S.AddPackets, Slot, IsBlock;
  }

  // ---------------------------------------------------------------------------------------------
  // The other steps of the sender

  lemma CodeKeeps(y: System, n: nat, seeds: seq<byte>)
    requires Inv(y) && Enabled(y, Code(n, seeds))
    ensures Inv(After(y, Code(n, seeds)))
  {
    hide Stream, Slot, SlotInv, JobInv, ClientOf, NetInv, AcksInv, Delivered, C.Waiting, S.CodingJob, S.CodedShare;
    CodingJobKeeps(y.server, y.hist, n, seeds);
    CodingJobNet(y.server, y.client, y.data, y.hist, n, seeds);
    CodingJobShape(y.server, n, seeds);
    AcksGrow(y.server, S.CodingJob(y.server, n, seeds), y.client, y.acks, y.hist, y.hist);
  }

  lemma CodingJobShape(s: S.State, n: nat, seeds: seq<byte>)
    requires S.Shaped(s) && S.Sized(s) && n < |s.jobs|
    ensures var s' := S.CodingJob(s, n, seeds); s' == s.(jobs := s'.jobs, queues := s'.queues)
  {
  }

  lemma StartKeeps(y: System, now: real)
    requires Inv(y) && Enabled(y, Start(now))
    ensures Inv(After(y, Start(now)))
  {
    hide Stream, Slot, SlotInv, JobInv, ClientOf, NetInv, AcksInv, Delivered, C.Waiting;
    var s' := S.StartSending(y.server, now);
    SamePacketsKeep(y.server, s', y.hist);
    SameQueuesNet(y.server, s', y.client, y.data, y.hist, y.hist);
    AcksGrow(y.server, s', y.client, y.acks, y.hist, y.hist);
  }

  lemma VisitShape(s: S.State, p: real)
    requires S.Shaped(s) && s.phase.Visiting?
    ensures var s' := S.VisitBlock(s, p);
            && s' == s.(dofRemain := s'.dofRemain, jobs := s'.jobs, phase := s'.phase)
            && if S.MayVisit(s) then
                 s'.phase.Sending? && s'.phase.blockno == s.phase.blockno && s'.phase.left <= s'.phase.win
                 && s'.phase.left == S.NeededNow(s, p)
                 && s'.phase.win == s.phase.win && s'.phase.limit == s.phase.limit
               else s'.phase.Idle?
  {
    hide S.NeededNow, Slot;
  }

  lemma VisitStep(y: System, p: real)
    requires Inv(y) && Enabled(y, Visit(p)) && Strict(y, Visit(p))
    ensures Inv(After(y, Visit(p)))
  {
    hide Stream, Slot, SlotInv, JobInv, ClientOf, NetInv, AcksInv, Delivered, C.Waiting, S.VisitBlock;
    var s' := S.VisitBlock(y.server, p);
    VisitKeeps(y.server, y.hist, p);
    VisitShape(y.server, p);
    SameQueuesNet(y.server, s', y.client, y.data, y.hist, y.hist);
    AcksGrow(y.server, s', y.client, y.acks, y.hist, y.hist);
  }

  lemma SendStep(y: System, t: real)
    requires Inv(y) && Enabled(y, Send(t))
    ensures Inv(After(y, Send(t)))
  {
    hide Stream, Slot, SlotInv, JobInv, ClientOf, NetInv, AcksInv, Delivered, C.Waiting, InFlight;
    ClientIsValid(y.client, y.hist);
    SendKeeps(y.server, t, y.hist);
    SendNet(y.server, t, y.client, y.data, y.hist);
    AcksGrow(y.server, S.SendOne(y.server, t).0, y.client, y.acks, y.hist, y.hist);
  }

  lemma LeaveKeeps(y: System)
    requires Inv(y) && Enabled(y, Leave)
    ensures Inv(After(y, Leave))
  {
    hide Stream, Slot, SlotInv, JobInv, ClientOf, NetInv, AcksInv, Delivered, C.Waiting;
    var s' := S.LeaveBlock(y.server);
    SamePacketsKeep(y.server, s', y.hist);
    SameQueuesNet(y.server, s', y.client, y.data, y.hist, y.hist);
    AcksGrow(y.server, s', y.client, y.acks, y.hist, y.hist);
  }

  lemma TimeoutKeeps(y: System)
    requires Inv(y) && Enabled(y, Timeout)
    ensures Inv(After(y, Timeout))
  {
    hide Stream, Slot, SlotInv, JobInv, ClientOf, NetInv, AcksInv, Delivered, C.Waiting;
    var s' := S.Timeout(y.server);
    SamePacketsKeep(y.server, s', y.hist);
    SameQueuesNet(y.server, s', y.client, y.data, y.hist, y.hist);
    AcksGrow(y.server, s', y.client, y.acks, y.hist, y.hist);
  }

  // ---------------------------------------------------------------------------------------------
  // The network

  lemma DataKeeps(y: System, data: seq<DataPacket>)
    requires Inv(y) && Carries(y.data, data)
    ensures Inv(y.(data := data))
  {
    hide ServerInv, ClientOf, NetInv, AcksInv, Delivered, C.Waiting, Carries, Stream;
    ClientIsValid(y.client, y.hist);
    HistoryShape(y);
    CarriedNet(y.server, y.client, y.data, data, y.hist);
  }

  lemma HistoryShape(y: System)
    requires Inv(y)
    ensures IsHistory(y.hist) && S.Shaped(y.server) && |y.hist| == y.server.maxb + 1
  {
  }

  lemma AcksKeep(y: System, acks: seq<Ack>)
    requires Inv(y) && forall k :: 0 <= k < |acks| ==> acks[k] in y.acks
    ensures Inv(y.(acks := acks))
  {
    hide ServerInv, ClientOf, NetInv, Delivered, C.Waiting, Stream, AckInv;
    HistoryShape(y);
    forall k | 0 <= k < |acks| ensures AckInv(acks[k], y.server, y.client, y.hist) {
      assert acks[k] in y.acks;
      AckOfOne(y, acks[k]);
    }
  }

  lemma AckOfOne(y: System, a: Ack)
    requires AcksInv(y.server, y.client, y.acks, y.hist) && a in y.acks
    ensures AckInv(a, y.server, y.client, y.hist)
  {
  }

  // ---------------------------------------------------------------------------------------------
  // The receiver

  lemma ReceiveKeeps(y: System, room: nat)
    requires Inv(y) && Enabled(y, Receive(room))
    ensures Inv(After(y, Receive(room)))
  {
    hide Stream, Delivered, C.Waiting, ServerInv, NetInv, C.Receive, Expected, WellFormed, ClientOf, AckInv, PathInv;
    HistoryShape(y);
    ArrivalExpected(y.server, y.client, y.data, y.hist);
    ReceiveDelivers(y.client, y.data[0], room, y.hist);
    ReceiveNet(y.server, y.client, y.data, y.hist, room);
    ClientWithin(C.Receive(y.client, y.data[0], room).client, y.hist);
    AckSound(y, room);
  }

  lemma ClientWithin(c: C.State, hist: seq<seq<seq<byte>>>)
    requires ClientOf(c, hist)
    ensures c.curr <= |hist|
  {
  }

  /** The ack the receiver answers with is within what the sender has sent. */
  lemma AckSound(y: System, room: nat)
    requires Inv(y) && Enabled(y, Receive(room))
    ensures var r := C.Receive(y.client, y.data[0], room);
            AcksInv(y.server, r.client, y.acks + [r.ack], y.hist)
  {
    hide Stream, Delivered, C.Waiting, C.Receive, WellFormed, ClientOf, WindowBlock, PipeInv, PacketOf, Expected,
      SlotInv, JobInv;
    var c, r := y.client, C.Receive(y.client, y.data[0], room);
    ArrivalExpected(y.server, c, y.data, y.hist);
    ReceiveDelivers(c, y.data[0], room, y.hist);
    C.AckAgreesWithDelivery(c, y.data[0], room);
    DofsWithinBlock(r.client, y.hist, r.client.curr);
    assert InFlight(y.data[0], y.server, y.hist);
    var acks := y.acks + [r.ack];
    forall k | 0 <= k < |acks| ensures AckInv(acks[k], y.server, r.client, y.hist) {
      if k < |y.acks| {
        assert AckInv(y.acks[k], y.server, c, y.hist);
      }
    }
  }

  // ---------------------------------------------------------------------------------------------
  // handle_ack

  /** The invariants that freeing one block after the other keeps. */
  ghost predicate Core(s: S.State, c: C.State, data: seq<DataPacket>, acks: seq<Ack>, hist: seq<seq<seq<byte>>>)
  {
    ServerInv(s, hist) && ClientInv(s, c, hist) && NetInv(s, c, data, hist) && AcksInv(s, c, acks, hist)
  }

  /** The stream and what of it has been delivered are the same under both histories. */
  ghost predicate SameStream(c: C.State, hist: seq<seq<seq<byte>>>, hist': seq<seq<seq<byte>>>)
  {
    && ClientOf(c, hist) && ClientOf(c, hist')
    && Stream(hist', |hist'|) == Stream(hist, |hist|)
    && Delivered(c, hist') == Delivered(c, hist)
  }

  /** A block the receiver is past can be freed: it was full, and nothing in use refers to it. */
  lemma FreeOneCore(s: S.State, c: C.State, data: seq<DataPacket>, acks: seq<Ack>, hist: seq<seq<seq<byte>>>)
    requires Core(s, c, data, acks, hist) && s.curr < c.curr
    ensures Core(S.FreeOne(s), c, data, acks, Opened(s, hist))
    ensures SameStream(c, hist, Opened(s, hist))
  {
    hide Stream, Delivered, C.Waiting, NetInv, AcksInv, WindowBlock, SlotInv, JobInv, Slot, C.Valid;
    var s', hist' := S.FreeOne(s), Opened(s, hist);
    assert |Src(hist, s.curr)| == BLOCK_SIZE;
    FreeOneKeeps(s, hist);
    assert Grows(hist, hist');
    StreamOpened(hist);
    ClientIsValid(c, hist);
    ClientGrows(c, hist, hist');
    FreeNet(s, s', c, data, hist, hist');
    AcksGrow(s, s', c, acks, hist, hist');
  }

  function Padded(hist: seq<seq<seq<byte>>>, n: nat): seq<seq<seq<byte>>>
  {
    if n > |hist| then hist + seq(n - |hist|, _ => []) else hist
  }

  lemma {:induction false} FreeBlocksCore(s: S.State, c: C.State, data: seq<DataPacket>, acks: seq<Ack>,
      hist: seq<seq<seq<byte>>>, blockno: nat)
    requires Core(s, c, data, acks, hist) && blockno <= c.curr
    ensures S.Shaped(s)
    ensures var s' := S.FreeBlocks(s, blockno);
            var hist' := Padded(hist, s'.maxb + 1);
            Core(s', c, data, acks, hist') && SameStream(c, hist, hist')
    decreases blockno - s.curr
  {
    hide Core, SameStream, S.FreeOne, Opened, Padded, S.FreeBlocks, IsHistory, S.Shaped, ClientOf;
    CoreShape(s, c, data, acks, hist);
    if blockno > s.curr {
      FreeOneCore(s, c, data, acks, hist);
      S.FreeBlocksUnfold(s, blockno);
      FreeBlocksCore(S.FreeOne(s), c, data, acks, Opened(s, hist), blockno);
      PaddedOpened(s, hist, blockno);
      SameStreamTwice(c, hist, Opened(s, hist), Padded(hist, S.FreeBlocks(s, blockno).maxb + 1));
    } else {
      NothingFreed(s, hist, blockno);
      SameStreamAgain(c, hist);
    }
  }

  /** The first ack in flight, against the packets of the block it names. */
  lemma CoreAck(s: S.State, c: C.State, data: seq<DataPacket>, acks: seq<Ack>, hist: seq<seq<seq<byte>>>)
    requires Core(s, c, data, acks, hist) && acks != []
    ensures S.Shaped(s) && s.blocks[Slot(s.curr)] == Src(hist, s.curr)
    ensures acks[0].dofRec <= |Src(hist, acks[0].blockno)|
  {
    hide ServerInv, ClientInv, NetInv, Slot, Src;
    CurrentLength(s, hist);
    assert AckInv(acks[0], s, c, hist);
  }

  lemma NothingFreed(s: S.State, hist: seq<seq<seq<byte>>>, blockno: nat)
    requires S.Shaped(s) && blockno <= s.curr && |hist| == s.maxb + 1
    ensures S.FreeBlocks(s, blockno) == s && Padded(hist, s.maxb + 1) == hist
  {
  }

  lemma SameStreamTwice(c: C.State, hist: seq<seq<seq<byte>>>, hist': seq<seq<seq<byte>>>, hist'': seq<seq<seq<byte>>>)
    requires SameStream(c, hist, hist') && SameStream(c, hist', hist'')
    ensures SameStream(c, hist, hist'')
  {
    hide ClientOf, Stream, Delivered;
  }

  lemma SameStreamAgain(c: C.State, hist: seq<seq<seq<byte>>>)
    requires ClientOf(c, hist)
    ensures SameStream(c, hist, hist)
  {
    hide Stream, Delivered;
    ClientIsValid(c, hist);
  }

  lemma PaddedOpened(s: S.State, hist: seq<seq<seq<byte>>>, blockno: nat)
    requires S.Shaped(s) && blockno > s.curr && |hist| == s.maxb + 1 && s.curr <= s.maxb
    ensures var n := S.FreeBlocks(s, blockno).maxb + 1; Padded(Opened(s, hist), n) == Padded(hist, n)
  {
    S.FreeBlocksUnfold(s, blockno);
    hide S.FreeBlocks, Slot;
    FreeBlocksRaise(S.FreeOne(s), blockno);
    var n := S.FreeBlocks(s, blockno).maxb + 1;
    assert Padded(Opened(s, hist), n) == Padded(hist, n);
  }

  lemma {:induction false} FreeBlocksRaise(s: S.State, blockno: nat)
    requires S.Shaped(s)
    ensures var s' := S.FreeBlocks(s, blockno);
            s'.maxb >= s.maxb && s' == s.(curr := s'.curr, maxb := s'.maxb, blocks := s'.blocks, queues := s'.queues,
                                          dofRemain := s'.dofRemain, packetsSent := s'.packetsSent)
    decreases blockno - s.curr
  {
    hide Slot;
    if blockno > s.curr {
      FreeBlocksRaise(S.FreeOne(s), blockno);
      S.FreeBlocksUnfold(s, blockno);
    }
  }

  lemma CoreShape(s: S.State, c: C.State, data: seq<DataPacket>, acks: seq<Ack>, hist: seq<seq<seq<byte>>>)
    requires Core(s, c, data, acks, hist)
    ensures S.Shaped(s) && IsHistory(hist) && |hist| == s.maxb + 1 && s.curr <= s.maxb && ClientOf(c, hist)
  {
  }

  lemma UpdatedRequestBounded(request: nat, len: nat, dofRec: nat, advanced: bool)
    requires advanced || request <= len
    ensures S.UpdatedRequest(request, len, dofRec, advanced) <= len
  {
  }

  lemma TakeAckKeeps(y: System, cwnd: nat)
    requires Inv(y) && Enabled(y, TakeAck(cwnd))
    ensures Inv(After(y, TakeAck(cwnd)))
  {
    hide Inv, Core, Slot, S.FreeBlocks, ServerInv, ClientInv, NetInv, AcksInv, PathInv, RequestInv, Enabled, After,
      S.HandleAck, Padded, SameStream, IsHistory, S.Shaped;
    TakeAckUnfold(y, cwnd);
    AckHead(y);
    InvParts(y);
    var s, c, ack := y.server, y.client, y.acks[0];
    FreeBlocksCore(s, c, y.data, y.acks, y.hist, ack.blockno);
    var freed := S.FreeBlocks(s, ack.blockno);
    var hist' := Padded(y.hist, freed.maxb + 1);
    var s' := S.HandleAck(s, ack, cwnd);
    AckSlides(freed, s', c, y.data, y.acks, hist', s, ack, cwnd);
    RequestAfterAck(s, ack, cwnd, y.hist);
    PathAfterAck(s, ack, cwnd);
    Assemble(y, s', y.acks[1..], hist');
  }

  lemma InvParts(y: System)
    requires Inv(y)
    ensures S.Shaped(y.server) && ServerInv(y.server, y.hist) && RequestInv(y.server, y.hist) && PathInv(y.server)
  {
  }

  /** Beyond freeing blocks, an ack changes only the request and the window. */
  lemma AckSlides(freed: S.State, s': S.State, c: C.State, data: seq<DataPacket>, acks: seq<Ack>,
      hist: seq<seq<seq<byte>>>,
                  s: S.State, ack: Ack, cwnd: nat)
    requires Core(freed, c, data, acks, hist) && S.Shaped(s) && acks != []
    requires freed == S.FreeBlocks(s, ack.blockno) && s' == S.HandleAck(s, ack, cwnd)
    ensures Core(s', c, data, acks[1..], hist) && ServerInv(freed, hist)
  {
    HandleAckShape(s, ack, cwnd);
    hide Slot, S.FreeBlocks, ServerInv, ClientInv, NetInv, AckInv, S.HandleAck;
    ServerShape(freed, hist);
    ClientShape(freed, c, hist);
    SamePacketsKeep(freed, s', hist);
    SameQueuesNet(freed, s', c, data, hist, hist);
    AcksGrow(freed, s', c, acks, hist, hist);
    ClientSame(freed, s', c, hist);
  }

  lemma Assemble(y: System, s: S.State, acks: seq<Ack>, hist: seq<seq<seq<byte>>>)
    requires Inv(y) && Core(s, y.client, y.data, acks, hist) && RequestInv(s, hist) && PathInv(s)
    requires SameStream(y.client, y.hist, hist)
    ensures Inv(y.(server := s, acks := acks, hist := hist))
  {
    hide Stream, Delivered, ClientOf, ServerInv, NetInv, AcksInv, PathInv, RequestInv;
  }

  lemma AckHead(y: System)
    requires Inv(y) && y.acks != []
    ensures y.acks[0].blockno <= y.client.curr && y.acks[0].ackno <= y.server.nxt
    ensures Core(y.server, y.client, y.data, y.acks, y.hist)
  {
    hide ServerInv, ClientInv, NetInv, Stream, Delivered;
    HistoryShape(y);
    assert AckInv(y.acks[0], y.server, y.client, y.hist);
  }

  lemma ClientShape(s: S.State, c: C.State, hist: seq<seq<seq<byte>>>)
    requires ClientInv(s, c, hist)
    ensures C.Valid(c) && IsHistory(hist)
  {
  }

  lemma ClientSame(s: S.State, s': S.State, c: C.State, hist: seq<seq<seq<byte>>>)
    requires ClientInv(s, c, hist) && s'.curr == s.curr && s'.maxb == s.maxb
    ensures ClientInv(s', c, hist)
  {
  }

  lemma HandleAckShape(s: S.State, ack: Ack, cwnd: nat)
    requires S.Shaped(s)
    ensures var freed, s' := S.FreeBlocks(s, ack.blockno), S.HandleAck(s, ack, cwnd);
            s' == freed.(dofReq := s'.dofReq, una := s'.una, cwnd := s'.cwnd) && s'.nxt == s.nxt
  {
    hide S.FreeBlocks, S.UpdatedRequest, Slot;
    FreeBlocksRaise(s, ack.blockno);
  }

  lemma TakeAckUnfold(y: System, cwnd: nat)
    requires Inv(y) && Enabled(y, TakeAck(cwnd))
    ensures y.server.phase.Idle? && y.acks != [] && S.Shaped(y.server)
    ensures After(y, TakeAck(cwnd)) ==
            y.(server := S.HandleAck(y.server, y.acks[0], cwnd), acks := y.acks[1..],
               hist := Padded(y.hist, S.FreeBlocks(y.server, y.acks[0].blockno).maxb + 1))
  {
    hide Inv, S.HandleAck;
    HandleAckShape(y.server, y.acks[0], cwnd);
  }

  lemma RequestAfterAck(s: S.State, ack: Ack, cwnd: nat, hist: seq<seq<seq<byte>>>)
    requires ServerInv(s, hist) && RequestInv(s, hist)
    ensures S.Shaped(s)
    ensures var hist' := Padded(hist, S.FreeBlocks(s, ack.blockno).maxb + 1);
            ServerInv(S.FreeBlocks(s, ack.blockno), hist') ==> RequestInv(S.HandleAck(s, ack, cwnd), hist')
  {
    hide ServerInv, RequestInv, Padded, S.FreeBlocks, S.HandleAck, S.Shaped;
    ServerShape(s, hist);
    var freed := S.FreeBlocks(s, ack.blockno);
    var hist' := Padded(hist, freed.maxb + 1);
    if ack.blockno <= s.curr {
      NothingFreed(s, hist, ack.blockno);
    }
    if ServerInv(freed, hist') {
      RequestOfFreed(s, ack, cwnd, hist, hist');
    }
  }

  lemma RequestOfFreed(s: S.State, ack: Ack, cwnd: nat, hist: seq<seq<seq<byte>>>, hist': seq<seq<seq<byte>>>)
    requires S.Shaped(s) && ServerInv(s, hist) && RequestInv(s, hist) && ServerInv(S.FreeBlocks(s, ack.blockno), hist')
    requires ack.blockno <= s.curr ==> S.FreeBlocks(s, ack.blockno) == s && hist' == hist
    ensures RequestInv(S.HandleAck(s, ack, cwnd), hist')
  {
    hide S.FreeBlocks, S.UpdatedRequest, ServerInv, Slot;
    var freed := S.FreeBlocks(s, ack.blockno);
    CurrentLength(s, hist);
    CurrentLength(freed, hist');
    UpdatedRequestBounded(s.dofReq, |freed.blocks[Slot(freed.curr)]|, ack.dofRec, freed.curr != s.curr);
  }

  lemma ServerShape(s: S.State, hist: seq<seq<seq<byte>>>)
    requires ServerInv(s, hist)
    ensures S.Shaped(s) && IsHistory(hist) && |hist| == s.maxb + 1
  {
  }

  lemma PathAfterAck(s: S.State, ack: Ack, cwnd: nat)
    requires S.Shaped(s) && PathInv(s) && s.phase.Idle? && ack.ackno <= s.nxt
    ensures PathInv(S.HandleAck(s, ack, cwnd))
  {
    hide S.FreeBlocks, S.UpdatedRequest, Slot;
    FreeBlocksRaise(s, ack.blockno);
  }

  lemma CurrentLength(s: S.State, hist: seq<seq<seq<byte>>>)
    requires ServerInv(s, hist)
    ensures S.Shaped(s) && s.blocks[Slot(s.curr)] == Src(hist, s.curr)
  {
    assert SlotInv(s, hist, s.curr);
  }

  // ---------------------------------------------------------------------------------------------
  // Runs

  lemma InitialInv()
    ensures Inv(Initial())
  {
    var y := Initial();
    EmptyBlockValid();
    hide EmptyBlock, ValidBlock, Encodes, SoundRows;
    var s, c, hist := y.server, y.client, y.hist;
    forall b | s.curr <= b < s.curr + NUM_BLOCKS ensures SlotInv(s, hist, b) {
    }
    forall b | c.curr <= b < c.curr + NUM_BLOCKS ensures WindowBlock(c, hist, b) {
      EmptyBlockOf(Src(hist, b));
      NothingPushedFromEmptyBlock();
    }
    C.EmptyBlockNotFull();
    assert Stream(hist, 1) == Stream(hist, 0) + Bytes(hist[0]);
    assert Stream(hist, 2) == Stream(hist, 1) + Bytes(hist[1]);
    forall b: nat ensures PipeInv(s, c, y.data, b) {
      assert y.data + Queue(s, b) == [];
    }
  }

  lemma StepKeeps(y: System, step: Step)
    requires Inv(y) && Enabled(y, step) && Strict(y, step)
    ensures Inv(After(y, step))
  {
    hide Inv, Enabled, Strict, Carries;
    match step
    case Accept(buf) => AcceptKeeps(y, buf);
    case Code(n, seeds) => CodeKeeps(y, n, seeds);
    case Start(now) => StartKeeps(y, now);
    case Visit(p) => VisitStep(y, p);
    case Send(t) => SendStep(y, t);
    case Leave => LeaveKeeps(y);
    case LoseData(i) => NetworkStep(y, step);
    case RepeatData(i) => NetworkStep(y, step);
    case SwapData(i) => NetworkStep(y, step);
    case Receive(room) => ReceiveKeeps(y, room);
    case LoseAck(i) => NetworkStep(y, step);
    case RepeatAck(i) => NetworkStep(y, step);
    case SwapAcks(i) => NetworkStep(y, step);
    case TakeAck(cwnd) => TakeAckKeeps(y, cwnd);
    case Timeout => TimeoutKeeps(y);
  }

  lemma NetworkStep(y: System, step: Step)
    requires Inv(y) && Enabled(y, step)
    requires step.LoseData? || step.RepeatData? || step.SwapData? || step.LoseAck? || step.RepeatAck? || step.SwapAcks?
    ensures Inv(After(y, step))
  {
    hide Inv, Carries;
    match step
    case LoseData(i) =>
      LossCarries(y.data, i);
      DataKeeps(y, Without(y.data, i));
    case RepeatData(i) =>
      RepetitionCarries(y.data, i);
      DataKeeps(y, Repeated(y.data, i));
    case SwapData(i) =>
      SwapCarries(y.data, i);
      DataKeeps(y, Swapped(y.data, i));
    case LoseAck(i) => AcksKeep(y, Without(y.acks, i));
    case RepeatAck(i) => AcksKeep(y, Repeated(y.acks, i));
    case SwapAcks(i) => AcksKeep(y, Swapped(y.acks, i));
  }

  /** The invariants hold throughout every run. */
  lemma {:induction false} RunKeepsInv(run: seq<System>, steps: seq<Step>, i: nat)
    requires IsRun(run, steps) && i < |run|
    ensures Inv(run[i])
  {
    if i == 0 {
      InitialInv();
    } else {
      hide Inv, Enabled, Strict, After;
      RunKeepsInv(run, steps, i - 1);
      StepKeeps(run[i - 1], steps[i - 1]);
    }
  }

  /** End-to-end safety: at every moment of every run the user has been given a prefix of what was accepted. */
  lemma DeliveryIsSafe(run: seq<System>, steps: seq<Step>, i: nat)
    requires IsRun(run, steps) && i < |run|
    ensures run[i].delivered <= run[i].accepted
  {
    hide IsRun;
    RunKeepsInv(run, steps, i);
    DeliveredPrefixOfAccepted(run[i]);
  }
}
