/**
 The sending end on values: send_ctcp, send_segs, send_one, handle_ack, timeout and coding_job of
 src/srvctcp.c, for one path. The thread that sends and takes acks is at one of three points: idle,
 about to look at a block, or sending packets of a block; the threads that accept data and run
 coding jobs may step in between.
 */
module Server {
  import opened Config
  import opened FieldTables
  import opened Slots
  import opened Framing
  import opened Packets

  /** A coding job; wnd is 0 when it asks for uncoded packets from row `start` on. */
  datatype Job = Job(blockno: nat, start: nat, dofs: nat, wnd: nat)

  /** Where send_segs is: win packets may still be sent, `left` of them of this block. */
  datatype Phase =
    | Idle
    | Visiting(blockno: nat, win: nat, limit: nat, onFly: nat)
    | Sending(blockno: nat, left: nat, win: nat, limit: nat, onFly: nat)

  /**
   Block b lives in slot b modulo NUM_BLOCKS of `blocks`, `queues`, `dofRemain` and `packetsSent`;
   the block and the deadline of outstanding packet k are in slot k modulo MAX_CWND of `onFly` and `txTime`.
   */
  datatype State = State(
    curr: nat, maxb: nat, dofReq: nat,
    blocks: seq<seq<seq<byte>>>, queues: seq<seq<DataPacket>>, dofRemain: seq<nat>,
    jobs: seq<Job>,
    nxt: nat, una: nat, cwnd: nat, onFly: seq<nat>, txTime: seq<real>, packetsSent: seq<nat>,
    phase: Phase)

  /** create_srvctcp_sock and init_stream, once server_worker has set dof_req_latest. */
  function Initial(): State
  {
    State(1, 1, 0,
      seq(NUM_BLOCKS, _ => []), seq(NUM_BLOCKS, _ => []), seq(NUM_BLOCKS, _ => 0),
      [],
      1, 1, INIT_SEGS, seq(MAX_CWND, _ => 0), seq(MAX_CWND, _ => 0.0), seq(NUM_BLOCKS, _ => 0),
      Idle)
  }

  predicate Shaped(s: State)
  {
    && |s.blocks| == |s.queues| == |s.dofRemain| == |s.packetsSent| == NUM_BLOCKS
    && |s.onFly| == |s.txTime| == MAX_CWND
  }

  ghost predicate Sized(s: State)
    requires Shaped(s)
  {
    forall i :: 0 <= i < NUM_BLOCKS ==> IsBlock(s.blocks[i])
  }

  // ---------------------------------------------------------------------------------------------
  // send_ctcp

  /** Put the bytes just read into the newest block and ask for its new packets to be sent uncoded. */
  function AddPackets(s: State, pkts: seq<seq<byte>>): (s': State)
    requires Shaped(s) && |s.blocks[Slot(s.maxb)]| <= |pkts|
    ensures Shaped(s')
  {
    var i := Slot(s.maxb);
    var first := |s.blocks[i]|;
    var more := |pkts| - first;
    s.(blocks := s.blocks[i := pkts],
       dofRemain := s.dofRemain[i := s.dofRemain[i] + more],
       jobs := s.jobs + [Job(s.maxb, first, more, 0)],
       dofReq := s.dofReq + if s.maxb == s.curr then more else 0)
  }

  /** The loop of send_ctcp until the buffer is used up or all slots are taken; the bytes accepted. */
  function SendCtcp(s: State, buf: seq<byte>): (r: (State, nat))
    requires Shaped(s) && Sized(s)
    ensures r.1 <= |buf|
    decreases |buf|, s.curr + NUM_BLOCKS - s.maxb
  {
    if buf == [] then
      (s, 0)
    else
      var i := Slot(s.maxb);
      var (pkts, read) := ReadBlock(s.blocks[i], buf);
      ReadBlockKeepsBytes(s.blocks[i], buf);
      if read > 0 then
        var (s', more) := SendCtcp(AddPackets(s, pkts), buf[read..]);
        (s', read + more)
      else if s.maxb < s.curr + NUM_BLOCKS then
        SendCtcp(s.(maxb := s.maxb + 1), buf)
      else
        (s, 0)
  }

  /** send_ctcp while its newest block has room. */
  lemma SendCtcpTakes(s: State, buf: seq<byte>)
    requires Shaped(s) && Sized(s) && buf != [] && ReadBlock(s.blocks[Slot(s.maxb)], buf).1 > 0
    ensures var (pkts, read) := ReadBlock(s.blocks[Slot(s.maxb)], buf);
      && read <= |buf| && |s.blocks[Slot(s.maxb)]| <= |pkts|
      && Sized(AddPackets(s, pkts))
      && SendCtcp(s, buf).0 == SendCtcp(AddPackets(s, pkts), buf[read..]).0
      && SendCtcp(s, buf).1 == read + SendCtcp(AddPackets(s, pkts), buf[read..]).1
  {
    hide IsBlock, ReadBlock, Slot, Bytes;
    assert IsBlock(s.blocks[Slot(s.maxb)]);
    ReadBlockKeepsBytes(s.blocks[Slot(s.maxb)], buf);
  }

  /** send_ctcp leaves bytes unread only when the block at the end of the window is full too. */
  lemma {:induction false} SendCtcpFillsWindow(s: State, buf: seq<byte>)
    requires Shaped(s) && Sized(s) && s.maxb <= s.curr + NUM_BLOCKS
    ensures var (s', n) := SendCtcp(s, buf);
            && Shaped(s')
            && (n < |buf| ==> s'.maxb == s.curr + NUM_BLOCKS && |s'.blocks[Slot(s'.maxb)]| == BLOCK_SIZE)
    decreases |buf|, s.curr + NUM_BLOCKS - s.maxb
  {
    hide IsBlock, ReadBlock, Slot, Bytes;
    if buf != [] {
      var last := s.blocks[Slot(s.maxb)];
      assert IsBlock(last);
      ReadBlockKeepsBytes(last, buf);
      var (pkts, read) := ReadBlock(last, buf);
      if read > 0 {
        SendCtcpFillsWindow(AddPackets(s, pkts), buf[read..]);
      } else if s.maxb < s.curr + NUM_BLOCKS {
        SendCtcpFillsWindow(s.(maxb := s.maxb + 1), buf);
      }
    }
  }

  // ---------------------------------------------------------------------------------------------
  // coding_job

  /** The uncoded packets of rows start to end - 1. */
  function Uncoded(blockno: nat, src: seq<seq<byte>>, start: nat, end: nat): (q: seq<DataPacket>)
    requires start <= end <= |src|
    ensures |q| == end - start
  {
    seq(end - start, i requires 0 <= i < end - start => UncodedPacket(blockno, start + i, src))
  }

  /** One coded packet of the whole block for each seed. */
  function CodedRun(blockno: nat, src: seq<seq<byte>>, seeds: seq<byte>): (q: seq<DataPacket>)
    requires forall i :: 0 <= i < |src| ==> |src[i]| == PAYLOAD_SIZE
    ensures |q| == |seeds|
  {
    seq(|seeds|, i requires 0 <= i < |seeds| => CodedPacket(blockno, seeds[i], src))
  }

  /** How many uncoded and how many coded packets a job makes of a block of `len` packets. */
  function UncodedShare(job: Job, len: nat): nat
  {
    if job.wnd == 0 && job.start <= len then
      if job.start + job.dofs < len then job.dofs else len - job.start
    else 0
  }

  function CodedShare(job: Job, len: nat): nat
  {
    if job.wnd != 0 then job.dofs
    else if job.dofs + job.start > len then job.dofs + job.start - len
    else 0
  }

  /** The packets a job adds to the queue of its block; the seeds come from random(). */
  function JobPackets(job: Job, src: seq<seq<byte>>, seeds: seq<byte>): (q: seq<DataPacket>)
    requires forall i :: 0 <= i < |src| ==> |src[i]| == PAYLOAD_SIZE
  {
    (if UncodedShare(job, |src|) > 0
     then Uncoded(job.blockno, src, job.start, job.start + UncodedShare(job, |src|)) else [])
    + CodedRun(job.blockno, src, seeds)
  }

  /** The job does nothing if its block is done, or was never read. */
  predicate JobIsIdle(s: State, job: Job)
    requires Shaped(s)
  {
    job.blockno < s.curr || s.blocks[Slot(job.blockno)] == []
  }

  function CodingJob(s: State, n: nat, seeds: seq<byte>): (s': State)
    requires Shaped(s) && Sized(s) && n < |s.jobs|
    ensures Shaped(s')
  {
    var job := s.jobs[n];
    var i := Slot(job.blockno);
    var rest := s.(jobs := s.jobs[..n] + s.jobs[n + 1..]);
    if JobIsIdle(s, job) then
      rest
    else
      assert IsBlock(s.blocks[i]);
      rest.(queues := s.queues[i := s.queues[i] + JobPackets(job, s.blocks[i], seeds)])
  }

  // ---------------------------------------------------------------------------------------------
  // send_segs and send_one

  /** n packets and those on the fly are still expected to fall short of the request. */
  predicate Short(n: nat, p: real, mean: real, request: nat)
  {
    n as real * (1.0 - p) + mean < request as real
  }

  /** The loop of line 1113: packets to send so that, at loss rate p, the request is met. */
  function Needed(win: nat, p: real, mean: real, request: nat, n: nat): (k: nat)
    requires n <= win
    ensures n <= k <= win
    decreases win - n
  {
    if n < win && Short(n, p, mean, request) then Needed(win, p, mean, request, n + 1) else n
  }

  /** mean_OnFly: packets expected to arrive of those on the fly. */
  function MeanOnFly(p: real, onFly: nat): real
  {
    (1.0 - p) * onFly as real
  }

  /** Packets to send for a request when `onFly` packets may still arrive. */
  function NeededFor(win: nat, p: real, onFly: nat, request: nat): (k: nat)
    ensures k <= win
  {
    Needed(win, p, MeanOnFly(p, onFly), request, 0)
  }

  /** Lines 1035 to 1041: outstanding packets sent for block b whose deadline has not passed. */
  function CountLive(s: State, b: nat, now: real, from: nat): nat
    requires Shaped(s)
    decreases s.nxt - from
  {
    if from >= s.nxt then 0
    else
      (if s.onFly[from % MAX_CWND] == b && s.txTime[from % MAX_CWND] >= now then 1 else 0)
      + CountLive(s, b, now, from + 1)
  }

  /** Room in the congestion window. */
  predicate HasWindow(s: State)
  {
    s.nxt - s.una < s.cwnd
  }

  /** Lines 1012 to 1055: the count starts with the packets of the current block that may still arrive. */
  function StartSending(s: State, now: real): State
    requires Shaped(s) && s.una <= s.nxt && HasWindow(s)
  {
    s.(phase := Visiting(s.curr, s.cwnd - (s.nxt - s.una), s.maxb, CountLive(s, s.curr, now, s.una)))
  }

  /** The condition of the loop over blocks, line 1056. */
  predicate MayVisit(s: State)
    requires s.phase.Visiting?
  {
    && s.phase.win > 0
    && s.phase.blockno <= s.curr + NUM_BLOCKS
    && (s.phase.limit == 0 || s.phase.blockno <= s.phase.limit)
  }

  /**
   CurrOnFly after the visit. mean_OnFly is computed before this update, so the request for a block is
   weighed against the packets counted for the block before it.
   */
  function OnFlyNext(s: State): nat
    requires Shaped(s) && s.phase.Visiting?
  {
    if s.phase.blockno == s.curr then s.phase.onFly else s.packetsSent[Slot(s.phase.blockno)]
  }

  /** Degrees of freedom the block still asks for. */
  function RequestNow(s: State): nat
    requires Shaped(s) && s.phase.Visiting?
  {
    if s.phase.blockno == s.curr then s.dofReq else |s.blocks[Slot(s.phase.blockno)]|
  }

  /** How many packets of the block to send now, lines 1058 to 1115. */
  function NeededNow(s: State, p: real): (k: nat)
    requires Shaped(s) && s.phase.Visiting?
    ensures k <= s.phase.win
  {
    NeededFor(s.phase.win, p, s.phase.onFly, RequestNow(s))
  }

  /** Have packets coded until `needed` are queued or on order, lines 1158 to 1178. */
  function AskFor(s: State, b: nat, needed: nat): (s': State)
    requires Shaped(s)
    ensures Shaped(s')
  {
    var i := Slot(b);
    if s.dofRemain[i] < needed then
      var job := Job(b, 0, needed - s.dofRemain[i], MAX_CODING_WND);
      s.(dofRemain := s.dofRemain[i := needed],
         jobs := if b == s.curr then [job] + s.jobs else s.jobs + [job])
    else
      s
  }

  /** One pass of the loop over blocks, up to the sending. */
  function VisitBlock(s: State, p: real): (s': State)
    requires Shaped(s) && s.phase.Visiting?
    ensures Shaped(s')
  {
    if MayVisit(s) then
      var Visiting(b, win, limit, _) := s.phase;
      AskFor(s, b, NeededNow(s, p)).(phase := Sending(b, NeededNow(s, p), win, limit, OnFlyNext(s)))
    else
      s.(phase := Idle)
  }

  /** The inner loop has a packet to send, and its queue holds one. */
  predicate MaySend(s: State)
    requires Shaped(s)
  {
    && s.phase.Sending? && s.phase.left >= 1 && s.phase.win >= 1
    && s.dofRemain[Slot(s.phase.blockno)] > 0 && s.queues[Slot(s.phase.blockno)] != []
  }

  /** send_one and the bookkeeping around it, lines 1180 to 1191 and 1220 to 1275. */
  function SendOne(s: State, deadline: real): (r: (State, DataPacket))
    requires Shaped(s) && MaySend(s)
    ensures Shaped(r.0)
  {
    var i := Slot(s.phase.blockno);
    var pkt := s.queues[i][0].(seqno := s.nxt);
    (s.(queues := s.queues[i := s.queues[i][1..]],
        dofRemain := s.dofRemain[i := s.dofRemain[i] - 1],
        onFly := s.onFly[s.nxt % MAX_CWND := s.phase.blockno],
        txTime := s.txTime[s.nxt % MAX_CWND := deadline],
        packetsSent := s.packetsSent[i := s.packetsSent[i] + 1],
        nxt := s.nxt + 1,
        phase := s.phase.(left := s.phase.left - 1, win := s.phase.win - 1)),
     pkt)
  }

  /** The inner loop ends, line 1180. */
  predicate MayLeave(s: State)
    requires Shaped(s)
  {
    s.phase.Sending? && (s.phase.left == 0 || s.dofRemain[Slot(s.phase.blockno)] == 0)
  }

  function LeaveBlock(s: State): State
    requires s.phase.Sending?
  {
    s.(phase := Visiting(s.phase.blockno + 1, s.phase.win, s.phase.limit, s.phase.onFly))
  }

  // ---------------------------------------------------------------------------------------------
  // handle_ack and timeout

  /** The body of the loop of lines 1347 to 1389: free the current block and move on to the next. */
  function FreeOne(s: State): (s': State)
    requires Shaped(s)
    ensures Shaped(s') && s'.curr == s.curr + 1
  {
    var i := Slot(s.curr);
    s.(curr := s.curr + 1,
       maxb := if s.curr + 1 > s.maxb then s.curr + 1 else s.maxb,
       blocks := s.blocks[i := []],
       queues := s.queues[i := []],
       dofRemain := s.dofRemain[i := 0],
       packetsSent := s.packetsSent[i := 0])
  }

  /** Free every block before `blockno`. */
  function FreeBlocks(s: State, blockno: nat): (s': State)
    requires Shaped(s)
    ensures Shaped(s') && s'.curr == if blockno > s.curr then blockno else s.curr
    decreases blockno - s.curr
  {
    if blockno <= s.curr then s else FreeBlocks(FreeOne(s), blockno)
  }

  lemma FreeBlocksUnfold(s: State, blockno: nat)
    requires Shaped(s) && blockno > s.curr
    ensures FreeBlocks(FreeOne(s), blockno) == FreeBlocks(s, blockno)
  {
    hide FreeOne;
  }

  /**
   Lines 1392 to 1402. MIN compares unsigned numbers, so a request that would be negative loses
   there; otherwise it becomes 0.
   */
  function UpdatedRequest(request: nat, len: nat, dofRec: nat, advanced: bool): nat
  {
    if dofRec > len then
      if advanced then 0 else request
    else if advanced || len - dofRec <= request then
      len - dofRec
    else
      request
  }

  /** constrain_cwnd, which every call of advance_cwnd ends with. */
  function Constrained(cwnd: nat): nat
  {
    if cwnd > MAX_CWND then MAX_CWND else if cwnd < 2 then 2 else cwnd
  }

  /**
   Lines 1422 to 1480: the window slides. Whatever congestion window advance_cwnd decides on, it ends
   by constraining it.
   */
  function SlideWindow(s: State, ackno: nat, cwnd: nat): State
  {
    if ackno > s.nxt then
      s.(una := if s.una < ackno then ackno else s.una)
    else
      s.(una := if s.una < ackno then ackno else s.una, cwnd := Constrained(cwnd))
  }

  function HandleAck(s: State, ack: Ack, cwnd: nat): (s': State)
    requires Shaped(s)
    ensures Shaped(s')
  {
    var freed := FreeBlocks(s, ack.blockno);
    var len := |freed.blocks[Slot(freed.curr)]|;
    SlideWindow(freed.(dofReq := UpdatedRequest(s.dofReq, len, ack.dofRec, freed.curr != s.curr)), ack.ackno, cwnd)
  }

  /** timeout: nothing outstanding is expected to arrive any more. */
  function Timeout(s: State): State
  {
    if s.nxt != s.una then s.(una := s.nxt, cwnd := INIT_SEGS) else s
  }
}
