/**
 The two ends and the network between them as one system of atomic steps, and what holds of every
 state it can reach. Data packets may be lost, repeated and reordered, except that coded packets of
 one block keep the order of their widths; acknowledgements may be lost, repeated and reordered.
 */
module Transport {
  import opened Config
  import opened FieldTables
  import opened Slots
  import opened Framing
  import opened Packets
  import S = Server
  import C = Client

  /**
   `hist` records the source packets of every block ever opened, `accepted` the bytes send_ctcp has
   taken, `delivered` those pushed to the user. None of the three influences a step.
   */
  datatype System = System(
    server: S.State, client: C.State, data: seq<DataPacket>, acks: seq<Ack>,
    hist: seq<seq<seq<byte>>>, accepted: seq<byte>, delivered: seq<byte>)

  function Initial(): System
  {
    System(S.Initial(), C.Initial(), [], [], [[], []], [], [])
  }

  datatype Step =
    | Accept(buf: seq<byte>)
    | Code(job: nat, seeds: seq<byte>)
    | Start(now: real)
    | Visit(p: real)
    | Send(deadline: real)
    | Leave
    | LoseData(i: nat)
    | RepeatData(i: nat)
    | SwapData(i: nat)
    | Receive(room: nat)
    | LoseAck(i: nat)
    | RepeatAck(i: nat)
    | SwapAcks(i: nat)
    | TakeAck(cwnd: nat)
    | Timeout

  // ---------------------------------------------------------------------------------------------
  // Steps

  /** The history as send_ctcp extends it: new packets go to the last block, new blocks are empty. */
  function Recorded(s: S.State, hist: seq<seq<seq<byte>>>, buf: seq<byte>): seq<seq<seq<byte>>>
    requires S.Shaped(s) && S.Sized(s) && |hist| == s.maxb + 1
    decreases |buf|, s.curr + NUM_BLOCKS - s.maxb
  {
    if buf == [] then
      hist
    else
      var i := Slot(s.maxb);
      var (pkts, read) := ReadBlock(s.blocks[i], buf);
      ReadBlockKeepsBytes(s.blocks[i], buf);
      if read > 0 then
        Recorded(S.AddPackets(s, pkts), hist[s.maxb := pkts], buf[read..])
      else if s.maxb < s.curr + NUM_BLOCKS then
        Recorded(s.(maxb := s.maxb + 1), hist + [[]], buf)
      else
        hist
  }

  function AcceptStep(y: System, buf: seq<byte>): System
    requires S.Shaped(y.server) && S.Sized(y.server) && |y.hist| == y.server.maxb + 1
  {
    var (s, n) := S.SendCtcp(y.server, buf);
    y.(server := s, hist := Recorded(y.server, y.hist, buf),
       accepted := y.accepted + buf[..n])
  }

  /** Handling an ack may open a block: the sender's current block is never beyond its last. */
  function TakeAckStep(y: System, cwnd: nat): System
    requires S.Shaped(y.server) && y.acks != []
  {
    var s := S.HandleAck(y.server, y.acks[0], cwnd);
    y.(server := s, acks := y.acks[1..],
       hist := if s.maxb + 1 > |y.hist| then y.hist + seq(s.maxb + 1 - |y.hist|, _ => []) else y.hist)
  }

  function ReceiveStep(y: System, room: nat): System
    requires C.Valid(y.client) && y.data != [] && WellFormed(y.data[0])
  {
    var r := C.Receive(y.client, y.data[0], room);
    y.(client := r.client, data := y.data[1..], acks := y.acks + [r.ack], delivered := y.delivered + r.bytes)
  }

  /** Two neighbours may change places unless they are coded packets of one block with different widths. */
  predicate MaySwap(p: DataPacket, q: DataPacket)
  {
    p.flag.Coded? && q.flag.Coded? && p.blockno == q.blockno ==> p.num == q.num
  }

  /** When a step can be taken. */
  ghost predicate Enabled(y: System, step: Step)
  {
    && S.Shaped(y.server) && S.Sized(y.server) && C.Valid(y.client) && |y.hist| == y.server.maxb + 1
    && match step
       case Accept(_) => true
       case Code(n, seeds) =>
         && n < |y.server.jobs|
         && |seeds| == S.CodedShare(y.server.jobs[n], |y.server.blocks[Slot(y.server.jobs[n].blockno)]|)
       case Start(_) => y.server.phase.Idle? && y.server.una <= y.server.nxt && S.HasWindow(y.server)
       case Visit(p) => y.server.phase.Visiting? && 0.0 <= p <= 1.0
       case Send(_) => S.MaySend(y.server)
       case Leave => S.MayLeave(y.server)
       case LoseData(i) => i < |y.data|
       case RepeatData(i) => i < |y.data|
       case SwapData(i) => i + 1 < |y.data| && MaySwap(y.data[i], y.data[i + 1])
       case Receive(_) => y.data != [] && WellFormed(y.data[0])
       case LoseAck(i) => i < |y.acks|
       case RepeatAck(i) => i < |y.acks|
       case SwapAcks(i) => i + 1 < |y.acks|
       case TakeAck(_) => y.server.phase.Idle? && y.acks != []
       case Timeout => y.server.phase.Idle?
  }

  function Without<T>(q: seq<T>, i: nat): seq<T>
    requires i < |q|
  {
    q[..i] + q[i + 1..]
  }

  function Repeated<T>(q: seq<T>, i: nat): seq<T>
    requires i < |q|
  {
    q[..i + 1] + q[i..]
  }

  function Swapped<T>(q: seq<T>, i: nat): seq<T>
    requires i + 1 < |q|
  {
    q[i := q[i + 1]][i + 1 := q[i]]
  }

  ghost function After(y: System, step: Step): System
    requires Enabled(y, step)
  {
    match step
    case Accept(buf) => AcceptStep(y, buf)
    case Code(n, seeds) => y.(server := S.CodingJob(y.server, n, seeds))
    case Start(now) => y.(server := S.StartSending(y.server, now))
    case Visit(p) => y.(server := S.VisitBlock(y.server, p))
    case Send(deadline) => var (s, pkt) := S.SendOne(y.server, deadline); y.(server := s, data := y.data + [pkt])
    case Leave => y.(server := S.LeaveBlock(y.server))
    case LoseData(i) => y.(data := Without(y.data, i))
    case RepeatData(i) => y.(data := Repeated(y.data, i))
    case SwapData(i) => y.(data := Swapped(y.data, i))
    case Receive(room) => ReceiveStep(y, room)
    case LoseAck(i) => y.(acks := Without(y.acks, i))
    case RepeatAck(i) => y.(acks := Repeated(y.acks, i))
    case SwapAcks(i) => y.(acks := Swapped(y.acks, i))
    case TakeAck(cwnd) => TakeAckStep(y, cwnd)
    case Timeout => y.(server := S.Timeout(y.server))
  }

  /**
   The step does not have packets coded for the block one ring past the current one, which the guard
   of send_segs lets through.
   */
  ghost predicate Strict(y: System, step: Step)
    requires S.Shaped(y.server)
  {
    step.Visit? && y.server.phase.Visiting? && S.MayVisit(y.server) ==>
      || y.server.phase.blockno < y.server.curr + NUM_BLOCKS
      || S.NeededNow(y.server, step.p) <= y.server.dofRemain[Slot(y.server.phase.blockno)]
  }

  /** A run from the start, every step within the window. */
  ghost predicate IsRun(run: seq<System>, steps: seq<Step>)
  {
    && |run| == |steps| + 1
    && run[0] == Initial()
    && forall i :: 0 <= i < |steps| ==>
         Enabled(run[i], steps[i]) && Strict(run[i], steps[i]) && run[i + 1] == After(run[i], steps[i])
  }
}
