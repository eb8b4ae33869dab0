/** What holds in every reachable state of the transport. */
module Invariants {
  import opened Config
  import opened FieldTables
  import opened Slots
  import opened Elimination
  import opened Framing
  import opened Packets
  import opened Delivery
  import opened Transport
  import S = Server
  import C = Client

  // ---------------------------------------------------------------------------------------------
  // The sender

  /** The degrees of freedom that pending jobs will add to the queue of block b. */
  function Pending(jobs: seq<S.Job>, b: nat): nat
  {
    if jobs == [] then 0
    else Pending(jobs[..|jobs| - 1], b) + if jobs[|jobs| - 1].blockno == b then jobs[|jobs| - 1].dofs else 0
  }

  /** Slot of block b: its packets, a queue of packets encoding it, and a count of what is coming. */
  ghost predicate SlotInv(s: S.State, hist: seq<seq<seq<byte>>>, b: nat)
    requires S.Shaped(s) && IsHistory(hist)
  {
    && s.blocks[Slot(b)] == Src(hist, b)
    && QueueOf(s.queues[Slot(b)], b, Src(hist, b))
    && s.dofRemain[Slot(b)] == |s.queues[Slot(b)]| + Pending(s.jobs, b)
  }

  ghost predicate QueueOf(queue: seq<DataPacket>, b: nat, src: seq<seq<byte>>)
    requires IsBlock(src)
  {
    forall k :: 0 <= k < |queue| ==> queue[k].blockno == b && PacketOf(queue[k], src)
  }

  /** A job for a block that is not done yet stays within what that block holds. */
  ghost predicate JobInv(job: S.Job, curr: nat, hist: seq<seq<seq<byte>>>)
  {
    job.blockno >= curr ==>
      && job.blockno < curr + NUM_BLOCKS
      && Src(hist, job.blockno) != []
      && (job.wnd == 0 ==> job.start + job.dofs <= |Src(hist, job.blockno)|)
  }

  /** Blocks before the last are full; each lives in its own slot. */
  ghost predicate ServerInv(s: S.State, hist: seq<seq<seq<byte>>>)
  {
    && S.Shaped(s) && S.Sized(s) && IsHistory(hist)
    && 1 <= s.curr <= s.maxb <= s.curr + NUM_BLOCKS
    && |hist| == s.maxb + 1 && hist[0] == []
    && (s.maxb == s.curr + NUM_BLOCKS ==> hist[s.maxb] == [])
    && (forall b :: 1 <= b < s.maxb ==> |hist[b]| == BLOCK_SIZE)
    && (forall b :: s.curr <= b < s.curr + NUM_BLOCKS ==> SlotInv(s, hist, b))
    && (forall k :: 0 <= k < |s.jobs| ==> JobInv(s.jobs[k], s.curr, hist))
  }

  /** The request for the current block never exceeds its packets. */
  ghost predicate RequestInv(s: S.State, hist: seq<seq<seq<byte>>>)
  {
    s.dofReq <= |Src(hist, s.curr)|
  }

  /** The congestion window bounds what is outstanding; send_segs stays inside the block window. */
  ghost predicate PathInv(s: S.State)
  {
    && s.una <= s.nxt <= s.una + MAX_CWND
    && 2 <= s.cwnd <= MAX_CWND
    && match s.phase
       case Idle => true
       case Visiting(b, win, limit, _) =>
         s.nxt - s.una + win <= s.cwnd && s.curr <= b && 1 <= limit <= s.maxb
       case Sending(b, left, win, limit, _) =>
         s.nxt - s.una + win <= s.cwnd && s.curr <= b <= limit <= s.maxb && left <= win
  }

  // ---------------------------------------------------------------------------------------------
  // The network

  /** A data packet in flight encodes the block it names, which is open and not past the window. */
  ghost predicate InFlight(p: DataPacket, s: S.State, hist: seq<seq<seq<byte>>>)
    requires IsHistory(hist)
  {
    p.blockno < |hist| && p.blockno < s.curr + NUM_BLOCKS && p.seqno < s.nxt && PacketOf(p, hist[p.blockno])
  }

  predicate CodedFor(p: DataPacket, b: nat)
  {
    p.flag.Coded? && p.blockno == b
  }

  /** The coded packets of block b come in order of their widths. */
  ghost predicate Sorted(q: seq<DataPacket>, b: nat)
  {
    forall i, j :: 0 <= i < j < |q| && CodedFor(q[i], b) && CodedFor(q[j], b) ==> q[i].num <= q[j].num
  }

  /** Every coded packet of block b can be reduced against these rows without loss. */
  ghost predicate CoversAll(rows: seq<Row>, q: seq<DataPacket>, b: nat)
    requires |rows| == BLOCK_SIZE
  {
    forall k :: 0 <= k < |q| && CodedFor(q[k], b) ==> Covers(rows, q[k].num)
  }

  /** What is queued for block b at the sender. */
  function Queue(s: S.State, b: nat): seq<DataPacket>
    requires S.Shaped(s)
  {
    if s.curr <= b < s.curr + NUM_BLOCKS then s.queues[Slot(b)] else []
  }

  /** Block b from the network back to the sender's queue: what the receiver will see of it, in order. */
  ghost predicate PipeInv(s: S.State, c: C.State, data: seq<DataPacket>, b: nat)
    requires S.Shaped(s) && C.Valid(c)
  {
    && Sorted(data + Queue(s, b), b)
    && (c.curr <= b < c.curr + NUM_BLOCKS ==> CoversAll(c.blocks[Slot(b)].rows, data + Queue(s, b), b))
  }

  ghost predicate NetInv(s: S.State, c: C.State, data: seq<DataPacket>, hist: seq<seq<seq<byte>>>)
    requires S.Shaped(s) && C.Valid(c) && IsHistory(hist)
  {
    && (forall k :: 0 <= k < |data| ==> InFlight(data[k], s, hist))
    && (forall b: nat :: PipeInv(s, c, data, b))
  }

  /** An ack in flight names no block the receiver has not reached, and no more than that block holds. */
  ghost predicate AckInv(a: Ack, s: S.State, c: C.State, hist: seq<seq<seq<byte>>>)
  {
    a.blockno <= c.curr && a.ackno <= s.nxt && a.dofRec <= |Src(hist, a.blockno)|
  }

  ghost predicate AcksInv(s: S.State, c: C.State, acks: seq<Ack>, hist: seq<seq<seq<byte>>>)
  {
    forall k :: 0 <= k < |acks| ==> AckInv(acks[k], s, c, hist)
  }

  // ---------------------------------------------------------------------------------------------
  // The system

  /** The receiver is between the sender's current block and the block after its last. */
  ghost predicate ClientInv(s: S.State, c: C.State, hist: seq<seq<seq<byte>>>)
  {
    ClientOf(c, hist) && C.Waiting(c) && s.curr <= c.curr <= s.maxb + 1
  }

  ghost predicate Inv(y: System)
  {
    && ServerInv(y.server, y.hist)
    && RequestInv(y.server, y.hist)
    && PathInv(y.server)
    && ClientInv(y.server, y.client, y.hist)
    && NetInv(y.server, y.client, y.data, y.hist)
    && AcksInv(y.server, y.client, y.acks, y.hist)
    && y.accepted == Stream(y.hist, |y.hist|)
    && y.delivered == Delivered(y.client, y.hist)
  }

  /** In every state that satisfies the invariants, what is delivered is a prefix of what was accepted. */
  lemma DeliveredPrefixOfAccepted(y: System)
    requires Inv(y)
    ensures y.delivered <= y.accepted
  {
    DeliveredIsPrefix(y.client, y.hist);
  }
}
