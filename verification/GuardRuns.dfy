/**
 Runs in which send_segs reaches the block one ring past the current one. Each pass has window for a
 single packet beside the packets of block 1 that are on their way; it sends that packet of the first block
 whose predecessor has not been sent often enough, and so one block after the other is passed over.
 */
module GuardRuns {
  import opened Config
  import opened Slots
  import opened Transport
  import opened Invariants
  import opened Reach
  import FirstBlock
  import Framing
  import S = Server
  import C = Client

  // ---------------------------------------------------------------------------------------------
  // The receiver is one block ahead

  /** Block 1 is full and received, of which the sender has only heard the first packet. */
  ghost predicate Parked(y: System)
  {
    var (s, c) := (y.server, y.client);
    && S.Shaped(s) && s.curr == 1 && s.dofReq == 1 && s.una <= s.nxt && s.dofRemain[Slot(1)] == 0
    && |s.blocks[Slot(1)]| == BLOCK_SIZE
    && y.data == [] && |c.blocks| == NUM_BLOCKS && c.curr == 2
    && |y.acks| == 1 && y.acks[0].blockno == 1 && y.acks[0].dofRec == 1 && y.acks[0].ackno <= s.una
  }

  /** Of the blocks after the first nothing has been sent. */
  ghost predicate NothingSent(s: S.State)
    requires S.Shaped(s)
  {
    forall i :: 0 <= i < NUM_BLOCKS && i != Slot(1) ==> s.packetsSent[i] == 0
  }

  lemma Park() returns (y: System)
    requires BLOCK_SIZE >= 2
    ensures Reached(y, 0.0, true) && Parked(y) && y.server.phase.Idle? && y.server.maxb == 1
    ensures NothingSent(y.server)
  {
    hide Inv, C.Valid, Slot, Reached;
    var y0 := FirstBlock.FirstBlockHeard();
    ReachedInv(y0, 0.0, true);
    NotAVisit(y0, LoseAck(1));
    y := Take(y0, 0.0, true, LoseAck(1), 0.0);
    assert y.acks == y0.acks[..1];
  }

  // ---------------------------------------------------------------------------------------------
  // The sender opens all blocks of the ring

  lemma ByteOpens(y: System)
    requires S.Shaped(y.server) && S.Sized(y.server) && |y.hist| == y.server.maxb + 1
    requires |y.server.blocks[Slot(y.server.maxb)]| == BLOCK_SIZE && y.server.maxb < y.server.curr + NUM_BLOCKS
    ensures var y1 := y.(server := y.server.(maxb := y.server.maxb + 1), hist := y.hist + [[]]);
            AcceptStep(y, [0]) == AcceptStep(y1, [0])
  {
    hide Slot, Framing.ReadBlock;
    Framing.ReadBlockKeepsBytes(y.server.blocks[Slot(y.server.maxb)], [0]);
  }

  lemma ByteRefused(y: System)
    requires S.Shaped(y.server) && S.Sized(y.server) && |y.hist| == y.server.maxb + 1
    requires |y.server.blocks[Slot(y.server.maxb)]| == BLOCK_SIZE && y.server.maxb == y.server.curr + NUM_BLOCKS
    ensures AcceptStep(y, [0]) == y
  {
    hide Slot, Framing.ReadBlock;
    Framing.ReadBlockKeepsBytes(y.server.blocks[Slot(y.server.maxb)], [0]);
    assert y.accepted + [0][..0] == y.accepted;
  }

  /** A byte opens the next block, and is put into it unless the ring has come round. */
  lemma OpenNext(y: System) returns (y': System)
    requires Reached(y, 0.0, true) && Parked(y) && 1 <= y.server.maxb <= NUM_BLOCKS
    requires |y.server.blocks[Slot(y.server.maxb)]| == BLOCK_SIZE
    ensures Reached(y', 0.0, true) && Parked(y') && y'.server.maxb == y.server.maxb + 1
    ensures y'.server.phase == y.server.phase && y'.server.packetsSent == y.server.packetsSent
  {
    hide Inv, C.Valid, Slot, Reached, AcceptStep, Framing.Frame;
    ReachedInv(y, 0.0, true);
    NotAVisit(y, Accept([0]));
    y' := Take(y, 0.0, true, Accept([0]), 0.0);
    ByteOpens(y);
    var s := y.server;
    var y1 := y.(server := s.(maxb := s.maxb + 1), hist := y.hist + [[]]);
    if s.maxb == NUM_BLOCKS {
      SlotWraps(1);
      ByteRefused(y1);
    } else {
      OtherSlot(1, 1, s.maxb + 1);
      NextIsEmpty(y);
      ByteAccepted(y1);
    }
  }

  lemma NextIsEmpty(y: System)
    requires Inv(y) && y.server.curr == 1 && y.server.maxb < NUM_BLOCKS
    ensures S.Shaped(y.server) && y.server.blocks[Slot(y.server.maxb + 1)] == []
  {
    hide NetInv, AcksInv, JobInv, ClientInv, QueueOf, Slot;
    assert SlotInv(y.server, y.hist, y.server.maxb + 1);
  }

  /** A byte goes into a block after the first that has room. */
  lemma Grow(y: System) returns (y': System)
    requires Reached(y, 0.0, true) && Parked(y) && 1 < y.server.maxb <= NUM_BLOCKS
    requires |y.server.blocks[Slot(y.server.maxb)]| < BLOCK_SIZE
    ensures Reached(y', 0.0, true) && Parked(y') && y'.server.maxb == y.server.maxb
    ensures y'.server.phase == y.server.phase && y'.server.packetsSent == y.server.packetsSent
    ensures |y'.server.blocks[Slot(y.server.maxb)]| == |y.server.blocks[Slot(y.server.maxb)]| + 1
  {
    hide Inv, C.Valid, Slot, Reached, Framing.Frame;
    ReachedInv(y, 0.0, true);
    OtherSlot(1, 1, y.server.maxb);
    y' := AcceptByte(y, 0.0, true);
  }

  lemma {:induction false} FillWindow(y: System) returns (y': System)
    requires Reached(y, 0.0, true) && Parked(y) && 1 <= y.server.maxb <= NUM_BLOCKS + 1
    ensures Reached(y', 0.0, true) && Parked(y') && y'.server.maxb == NUM_BLOCKS + 1
    ensures y'.server.phase == y.server.phase && y'.server.packetsSent == y.server.packetsSent
    decreases NUM_BLOCKS + 1 - y.server.maxb, BLOCK_SIZE - |y.server.blocks[Slot(y.server.maxb)]|
  {
    hide Slot, Reached;
    if y.server.maxb == NUM_BLOCKS + 1 {
      y' := y;
    } else {
      LastIsBlock(y);
      if |y.server.blocks[Slot(y.server.maxb)]| == BLOCK_SIZE {
        var y1 := OpenNext(y);
        y' := FillWindow(y1);
      } else {
        var y1 := Grow(y);
        y' := FillWindow(y1);
      }
    }
  }

  lemma LastIsBlock(y: System)
    requires Reached(y, 0.0, true) && S.Shaped(y.server)
    ensures |y.server.blocks[Slot(y.server.maxb)]| <= BLOCK_SIZE
  {
    hide Inv, C.Valid, Slot, Reached;
    ReachedInv(y, 0.0, true);
    assert Framing.IsBlock(y.server.blocks[Slot(y.server.maxb)]);
  }

  /** All blocks of the ring are full. */
  ghost predicate Crowded(y: System)
  {
    && S.Shaped(y.server) && Parked(y) && y.server.maxb == NUM_BLOCKS + 1
    && forall i :: 0 <= i < NUM_BLOCKS ==> |y.server.blocks[i]| == BLOCK_SIZE
  }

  lemma AllFull(y: System)
    requires Inv(y) && Parked(y) && y.server.maxb == NUM_BLOCKS + 1
    ensures Crowded(y)
  {
    hide Inv, Slot;
    forall i | 0 <= i < NUM_BLOCKS ensures |y.server.blocks[i]| == BLOCK_SIZE {
      SlotOwner(i);
      EarlierFull(y, if i == 0 then NUM_BLOCKS else i);
    }
  }

  lemma SlotOwner(i: nat)
    requires i < NUM_BLOCKS
    ensures Slot(if i == 0 then NUM_BLOCKS else i) == i
  {
    SlotWraps(0);
  }

  lemma EarlierFull(y: System, b: nat)
    requires Inv(y) && y.server.curr <= b < y.server.maxb && b < y.server.curr + NUM_BLOCKS
    ensures S.Shaped(y.server) && |y.server.blocks[Slot(b)]| == BLOCK_SIZE
  {
    hide NetInv, AcksInv, JobInv, ClientInv, QueueOf, Slot;
    assert SlotInv(y.server, y.hist, b);
  }

  lemma Crowd() returns (y: System)
    requires BLOCK_SIZE >= 2
    ensures Reached(y, 0.0, true) && Crowded(y) && y.server.phase.Idle? && NothingSent(y.server)
  {
    hide Inv, C.Valid, Slot, Reached;
    var y0 := Park();
    y := FillWindow(y0);
    ReachedInv(y, 0.0, true);
    AllFull(y);
  }

  // ---------------------------------------------------------------------------------------------
  // How much is needed at a loss estimate

  /** The estimate at which a block asks for more until `seen` packets have been counted. */
  function Estimate(seen: nat): (p: real)
    requires seen >= BLOCK_SIZE
    ensures 0.0 <= p <= 1.0
  {
    EstimateBounds(BLOCK_SIZE as real, seen as real);
    1.0 - BLOCK_SIZE as real / seen as real
  }

  lemma MulOrder(u: real, v: real, b: real)
    requires b > 0.0
    ensures u < v <==> u * b < v * b
  {
    if u < v {
      assert (v - u) * b > 0.0;
    } else {
      assert (u - v) * b >= 0.0;
    }
  }

  lemma QuotientBelow(a: real, b: real, n: real, x: real)
    requires b > 0.0
    ensures n * (a / b) < x <==> n * a < x * b
  {
    var r := a / b;
    assert r * b == a;
    assert n * r * b == n * (r * b);
    MulOrder(n * r, x, b);
  }

  lemma SelfQuotient(a: real)
    requires a > 0.0
    ensures a / a == 1.0
  {
    var r := a / a;
    assert r * a == 1.0 * a;
    MulOrder(r, 1.0, a);
    MulOrder(1.0, r, a);
  }

  lemma EstimateBounds(a: real, b: real)
    requires 0.0 < a <= b
    ensures 0.0 <= a / b <= 1.0
  {
    var r := a / b;
    assert r * b == a;
    MulOrder(1.0, r, b);
    MulOrder(r, 0.0, b);
  }

  /** A full block asks for packets at this estimate exactly while fewer than `seen` are counted. */
  lemma FullBlockNeeds(win: nat, seen: nat, onFly: nat)
    requires seen >= BLOCK_SIZE && win <= 1
    ensures S.NeededFor(win, Estimate(seen), onFly, BLOCK_SIZE) == if onFly < seen then win else 0
  {
    hide Estimate;
    var p := Estimate(seen);
    EstimateOf(seen, onFly);
    assert S.Short(0, p, S.MeanOnFly(p, onFly), BLOCK_SIZE) <==> onFly < seen;
    if win == 1 {
      assert S.Needed(1, p, S.MeanOnFly(p, onFly), BLOCK_SIZE, 1) == 1;
    }
  }

  lemma EstimateOf(seen: nat, onFly: nat)
    requires seen >= BLOCK_SIZE
    ensures S.MeanOnFly(Estimate(seen), onFly) < BLOCK_SIZE as real <==> onFly < seen
    ensures S.MeanOnFly(Estimate(seen), onFly) < 1.0 <==> onFly * BLOCK_SIZE < seen
  {
    var size, n, t := BLOCK_SIZE as real, onFly as real, seen as real;
    var r := size / t;
    assert S.MeanOnFly(Estimate(seen), onFly) == n * r by {
      assert 1.0 - (1.0 - r) == r;
      assert r * n == n * r;
    }
    QuotientBelow(size, t, n, size);
    MulOrder(n, t, size);
    assert n * size < size * t <==> n < t;
    QuotientBelow(size, t, n, 1.0);
    assert n * size == (onFly * BLOCK_SIZE) as real;
  }

  /** The current block, of which one packet is requested, asks for none. */
  lemma CurrentNeedsNone(win: nat, seen: nat, onFly: nat)
    requires seen >= BLOCK_SIZE && onFly * BLOCK_SIZE >= seen
    ensures S.NeededFor(win, Estimate(seen), onFly, 1) == 0
  {
    hide Estimate;
    EstimateOf(seen, onFly);
    assert !S.Short(0, Estimate(seen), S.MeanOnFly(Estimate(seen), onFly), 1);
  }

  lemma {:induction false} AllNeeded(win: nat, request: nat, n: nat)
    requires n <= win && request > 0
    ensures S.Needed(win, 1.0, 0.0, request, n) == win
    decreases win - n
  {
    if n < win {
      AllNeeded(win, request, n + 1);
    }
  }

  /** At estimate 1 the window is used up. */
  lemma EverythingNeeded(win: nat, request: nat)
    requires request > 0
    ensures S.NeededFor(win, 1.0, 0, request) == win
  {
    assert S.MeanOnFly(1.0, 0) == 0.0;
    AllNeeded(win, request, 0);
  }

  // ---------------------------------------------------------------------------------------------
  // One pass

  /** How often block c has to have been sent for the next block to be passed over. */
  function Level(c: nat, steady: bool): (n: nat)
    ensures n >= BLOCK_SIZE
  {
    BLOCK_SIZE + if steady && c < NUM_BLOCKS - 1 then NUM_BLOCKS - 1 - c else 0
  }

  lemma RaiseWindow(y: System, p: real, steady: bool, w: nat) returns (y': System)
    requires BLOCK_SIZE >= 2 && Reached(y, p, steady) && Crowded(y) && y.server.phase.Idle? && 2 <= w <= MAX_CWND
    ensures Reached(y', p, steady) && y' == y.(server := y.server.(cwnd := w))
  {
    hide Inv, C.Valid, S.Sized, Slot, Reached;
    ReachedInv(y, p, steady);
    NotAVisit(y, RepeatAck(0));
    var y1 := Take(y, p, steady, RepeatAck(0), p);
    assert Repeated(y.acks, 0) == [y.acks[0], y.acks[0]];
    y' := TakeInPlace(y1, p, steady, w);
    assert y'.acks == y.acks;
  }

  /** As many packets of block 1 are on their way as the window has room for beside one more. */
  ghost predicate Flown(y: System, steady: bool)
  {
    && Crowded(y) && y.server.phase.Idle? && y.server.cwnd == Level(1, steady) + 1
    && y.server.una + Level(1, steady) == y.server.nxt && AllFor(y.server, 1)
  }

  /** The packets sent of blocks 2 to NUM_BLOCKS. */
  ghost predicate SameSent(s: S.State, s': S.State)
    requires S.Shaped(s) && S.Shaped(s')
  {
    forall c :: 2 <= c <= NUM_BLOCKS ==> s'.packetsSent[Slot(c)] == s.packetsSent[Slot(c)]
  }

  lemma Clear(y: System, p: real, steady: bool) returns (y': System)
    requires Reached(y, p, steady) && Crowded(y) && y.server.phase.Idle?
    ensures Reached(y', p, steady) && Crowded(y') && y'.server.phase.Idle?
    ensures y'.server.una == y'.server.nxt && y'.server.packetsSent == y.server.packetsSent
  {
    hide Inv, C.Valid, S.Sized, Slot, Reached;
    ReachedInv(y, p, steady);
    NotAVisit(y, Timeout);
    y' := Take(y, p, steady, Timeout, p);
  }

  /** A turn over any block leaves the sender as crowded as it was. */
  lemma TurnedCrowded(y: System, y': System, n: nat)
    requires Crowded(y) && S.Shaped(y'.server) && y.server.phase.Visiting? && n <= y.server.phase.win
    requires y' == y.(server := y'.server) && y'.server == Turned(y.server, y'.server, n)
    ensures Crowded(y')
  {
    hide Slot, S.OnFlyNext;
  }

  /** Packets of block 1 are sent until the window is used up; then it is widened by one. */
  lemma Fly(y: System, p: real, steady: bool) returns (y': System)
    requires BLOCK_SIZE >= 2 && Level(1, steady) < MAX_CWND
    requires Reached(y, p, steady) && Crowded(y) && y.server.phase.Idle?
    ensures Reached(y', 1.0, steady) && Flown(y', steady) && SameSent(y.server, y'.server)
  {
    hide Inv, C.Valid, S.Sized, Slot, Reached, S.NeededNow, S.CountLive, AllFor;
    var n := Level(1, steady);
    var y1 := Clear(y, p, steady);
    var y2 := RaiseWindow(y1, p, steady, n);
    ReachedInv(y2, p, steady);
    NotAVisit(y2, Start(0.0));
    var y3 := Take(y2, p, steady, Start(0.0), 1.0);
    NoneOutstanding(y2.server);
    NoneOutstanding(y3.server);
    NeedsAll(y3.server);
    var y4 := Turn(y3, 1.0, steady, 1.0);
    TurnedCrowded(y3, y4, n);
    TurnedSent(y3.server, y4.server, n);
    var y5 := EndPass(y4, 1.0, steady);
    SameFlight(y4.server, y5.server, 1);
    y' := RaiseWindow(y5, 1.0, steady, n + 1);
    SameFlight(y5.server, y'.server, 1);
  }

  lemma NoneOutstanding(s: S.State)
    requires S.Shaped(s) && s.una == s.nxt
    ensures S.CountLive(s, s.curr, 0.0, s.una) == 0 && AllFor(s, 1)
  {
  }

  lemma NeedsAll(s: S.State)
    requires S.Shaped(s) && s.phase.Visiting? && s.phase.blockno == s.curr && s.dofReq > 0 && s.phase.onFly == 0
    ensures S.NeededNow(s, 1.0) == s.phase.win
  {
    EverythingNeeded(s.phase.win, s.dofReq);
  }

  /** A turn over the current block leaves the counts of the others alone. */
  lemma TurnedSent(s: S.State, s': S.State, n: nat)
    requires S.Shaped(s) && S.Shaped(s') && s.phase.Visiting? && n <= s.phase.win && s' == Turned(s, s', n)
    requires s.phase.blockno == 1
    ensures SameSent(s, s')
  {
    hide Slot;
    forall c | 2 <= c <= NUM_BLOCKS ensures Slot(c) != Slot(1) {
      OtherSlot(1, 1, c);
    }
  }

  /** What is counted against the request of block c: the packets sent of the block before it. */
  function Seen(s: S.State, c: nat, steady: bool): nat
    requires S.Shaped(s) && c >= 1
  {
    if c == 2 then Level(1, steady) else s.packetsSent[Slot(c - 1)]
  }

  /** The pass has come to block b and can still send one packet. */
  ghost predicate At(y: System, b: nat, steady: bool)
    requires b >= 1
  {
    Crowded(y) && y.server.phase == S.Visiting(b, 1, NUM_BLOCKS + 1, Seen(y.server, b, steady))
  }

  /** A new pass at any estimate up to one packet in twice those of block 1 on their way comes to block 2. */
  lemma BeginPass(y: System, p: real, steady: bool, seen: nat, q: real) returns (y': System)
    requires Reached(y, p, steady) && Flown(y, steady) && BLOCK_SIZE >= 2
    requires BLOCK_SIZE <= seen <= 2 * Level(1, steady) && (steady ==> q == Estimate(seen))
    ensures Reached(y', q, steady) && At(y', 2, steady) && SameSent(y.server, y'.server)
  {
    hide Inv, C.Valid, S.Sized, Slot, Reached, S.NeededNow, S.CountLive, AllFor, Estimate;
    ReachedInv(y, p, steady);
    NotAVisit(y, Start(0.0));
    var y1 := Take(y, p, steady, Start(0.0), q);
    AllCounted(y.server, 1, y.server.una);
    CurrentPassed(y1.server, seen);
    y' := Turn(y1, q, steady, Estimate(seen));
    TurnedCrowded(y1, y', 0);
    TurnedSent(y1.server, y'.server, 0);
  }

  lemma CurrentPassed(s: S.State, seen: nat)
    requires S.Shaped(s) && s.phase.Visiting? && s.phase.blockno == s.curr && s.dofReq == 1
    requires BLOCK_SIZE >= 2 && BLOCK_SIZE <= seen <= 2 * s.phase.onFly
    ensures S.NeededNow(s, Estimate(seen)) == 0
  {
    hide Estimate;
    assert s.phase.onFly * BLOCK_SIZE >= s.phase.onFly * 2;
    CurrentNeedsNone(s.phase.win, seen, s.phase.onFly);
  }

  lemma FullNeeds(s: S.State, seen: nat)
    requires S.Shaped(s) && s.phase.Visiting? && s.phase.blockno != s.curr && s.phase.win <= 1
    requires |s.blocks[Slot(s.phase.blockno)]| == BLOCK_SIZE <= seen
    ensures S.NeededNow(s, Estimate(seen)) == if s.phase.onFly < seen then s.phase.win else 0
  {
    hide Estimate, Slot;
    FullBlockNeeds(s.phase.win, seen, s.phase.onFly);
  }

  /** A block is passed over when enough packets are counted against its request. */
  lemma PassOver(y: System, p: real, steady: bool, b: nat, seen: nat) returns (y': System)
    requires Reached(y, p, steady) && 2 <= b <= NUM_BLOCKS && At(y, b, steady)
    requires BLOCK_SIZE <= seen <= Seen(y.server, b, steady) && (steady ==> p == Estimate(seen))
    ensures Reached(y', p, steady) && At(y', b + 1, steady) && y'.server.packetsSent == y.server.packetsSent
  {
    hide Inv, C.Valid, S.Sized, Slot, Reached, S.NeededNow, AllFor, Estimate;
    FullNeeds(y.server, seen);
    y' := Turn(y, p, steady, Estimate(seen));
    TurnedCrowded(y, y', 0);
    var i := Slot(b);
    assert y.server.packetsSent[i := y.server.packetsSent[i] + 0] == y.server.packetsSent;
  }

  lemma {:induction false} Walk(y: System, p: real, steady: bool, b: nat, e: nat, seen: nat) returns (y': System)
    requires Reached(y, p, steady) && 2 <= b <= e <= NUM_BLOCKS + 1 && At(y, b, steady)
    requires BLOCK_SIZE <= seen && (steady ==> p == Estimate(seen))
    requires forall c :: b <= c < e ==> Seen(y.server, c, steady) >= seen
    ensures Reached(y', p, steady) && At(y', e, steady) && SameSent(y.server, y'.server)
    decreases e - b
  {
    hide Slot, Reached, Estimate, Parked;
    if b == e {
      y' := y;
    } else {
      var y1 := PassOver(y, p, steady, b, seen);
      assert forall c :: b < c < e ==> Seen(y1.server, c, steady) == Seen(y.server, c, steady);
      y' := Walk(y1, p, steady, b + 1, e, seen);
    }
  }

  /** The pass sends its one packet of block b, and ends. */
  lemma SendOneOf(y: System, p: real, steady: bool, b: nat, seen: nat) returns (y': System)
    requires Reached(y, p, steady) && 2 <= b <= NUM_BLOCKS && At(y, b, steady) && 0.0 <= p <= 1.0
    requires BLOCK_SIZE <= seen && Seen(y.server, b, steady) < seen && (steady ==> p == Estimate(seen))
    ensures Reached(y', p, steady) && Crowded(y') && y'.server.phase.Idle?
    ensures forall c :: 2 <= c <= NUM_BLOCKS ==>
              y'.server.packetsSent[Slot(c)] == y.server.packetsSent[Slot(c)] + (if c == b then 1 else 0)
  {
    hide Inv, C.Valid, S.Sized, Slot, Reached, S.NeededNow, AllFor, Estimate;
    FullNeeds(y.server, seen);
    var y1 := Turn(y, p, steady, Estimate(seen));
    TurnedCrowded(y, y1, 1);
    y' := EndPass(y1, p, steady);
    forall c | 2 <= c <= NUM_BLOCKS && c != b ensures Slot(c) != Slot(b) {
      OtherSlot(1, c, b);
    }
  }

  // ---------------------------------------------------------------------------------------------
  // Pass after pass

  /** The blocks before b have been sent often enough to be passed over, block b m times, the others never. */
  ghost predicate Levelled(s: S.State, b: nat, m: nat, steady: bool)
    requires S.Shaped(s)
  {
    forall c :: 2 <= c <= NUM_BLOCKS ==>
      s.packetsSent[Slot(c)] == if c < b then Level(c, steady) else if c == b then m else 0
  }

  /** What the blocks before b have seen when one pass is to reach it. */
  lemma SeenAtLevel(s: S.State, b: nat, m: nat, steady: bool, c: nat)
    requires S.Shaped(s) && Levelled(s, b, m, steady) && 2 <= c <= b <= NUM_BLOCKS
    ensures Seen(s, c, steady) == Level(c - 1, steady)
  {
    hide Slot;
  }

  lemma LevelsFall(c: nat, d: nat, steady: bool)
    requires 1 <= c < d < NUM_BLOCKS
    ensures Level(c, steady) >= Level(d, steady) + if steady then 1 else 0
  {
  }

  /** One pass sends one packet of block b. */
  lemma Pass(y: System, p: real, steady: bool, b: nat, m: nat) returns (y': System, p': real)
    requires BLOCK_SIZE >= 2 && Level(1, steady) < MAX_CWND && 2 <= b < NUM_BLOCKS
    requires Reached(y, p, steady) && Crowded(y) && y.server.phase.Idle? && Levelled(y.server, b, m, steady)
    ensures Reached(y', p', steady) && Crowded(y') && y'.server.phase.Idle?
    ensures Levelled(y'.server, b, m + 1, steady)
  {
    hide Slot, Reached, Estimate, Parked, Level, Seen;
    var before := Level(b - 1, steady) + if steady then 1 else 0;
    var here := Level(b - 1, steady) + 1;
    LevelBounds(b - 1, steady);
    p' := Estimate(before);
    var y1 := Fly(y, p, steady);
    var y2 := BeginPass(y1, 1.0, steady, before, p');
    forall c | 2 <= c <= b ensures Seen(y2.server, c, steady) == Level(c - 1, steady) {
      SeenAtLevel(y2.server, b, m, steady, c);
    }
    forall c | 2 <= c < b ensures Seen(y2.server, c, steady) >= before {
      LevelsFall(c - 1, b - 1, steady);
    }
    var y3 := Walk(y2, p', steady, 2, b, before);
    SeenAtLevel(y3.server, b, m, steady, b);
    y' := SendOneOf(y3, p', steady, b, here);
  }

  lemma LevelBounds(c: nat, steady: bool)
    requires 1 <= c && BLOCK_SIZE >= 2
    ensures BLOCK_SIZE <= Level(c, steady) && Level(c, steady) + 1 <= 2 * Level(1, steady)
  {
  }

  /** Pass after pass, block b is sent until the next block is passed over. */
  lemma {:induction false} Raise(y: System, p: real, steady: bool, b: nat, m: nat) returns (y': System, p': real)
    requires BLOCK_SIZE >= 2 && Level(1, steady) < MAX_CWND && 2 <= b < NUM_BLOCKS && m <= Level(b, steady)
    requires Reached(y, p, steady) && Crowded(y) && y.server.phase.Idle? && Levelled(y.server, b, m, steady)
    ensures Reached(y', p', steady) && Crowded(y') && y'.server.phase.Idle?
    ensures Levelled(y'.server, b + 1, 0, steady)
    decreases Level(b, steady) - m
  {
    hide Slot, Reached, Parked, Level;
    if m == Level(b, steady) {
      y', p' := y, p;
    } else {
      var y1, p1 := Pass(y, p, steady, b, m);
      y', p' := Raise(y1, p1, steady, b, m + 1);
    }
  }

  /** Block after block. */
  lemma {:induction false} RaiseAll(b: nat, steady: bool) returns (y: System, p: real)
    requires BLOCK_SIZE >= 2 && Level(1, steady) < MAX_CWND && 2 <= b <= NUM_BLOCKS
    ensures Reached(y, p, steady) && Crowded(y) && y.server.phase.Idle?
    ensures Levelled(y.server, b, 0, steady)
  {
    hide Reached, Parked, Level, Slot;
    if b == 2 {
      y := Crowd();
      p := 0.0;
      LevelledAtFirst(y.server, steady);
      AnyEstimate(y, 0.0, steady);
    } else {
      var y0, p0 := RaiseAll(b - 1, steady);
      y, p := Raise(y0, p0, steady, b - 1, 0);
    }
  }

  lemma LevelledAtFirst(s: S.State, steady: bool)
    requires S.Shaped(s) && NothingSent(s)
    ensures Levelled(s, 2, 0, steady)
  {
    hide Slot;
    forall c | 2 <= c <= NUM_BLOCKS ensures Slot(c) != Slot(1) {
      OtherSlot(1, 1, c);
    }
  }

  lemma AnyEstimate(y: System, p: real, steady: bool)
    requires Reached(y, p, true)
    ensures Reached(y, p, steady)
  {
    var run, steps :| RunTo(run, steps, y, p, true);
    assert RunTo(run, steps, y, p, steady);
  }

  /** The pass is about to look at the block one ring past the current one, and will have a packet of it coded. */
  ghost predicate AtGuard(y: System)
  {
    var (s, c) := (y.server, y.client);
    && S.Shaped(s) && s.phase.Visiting? && s.phase.blockno == s.curr + NUM_BLOCKS && S.MayVisit(s)
    && s.dofRemain[Slot(s.phase.blockno)] < S.NeededNow(s, 0.0)
    && c.curr > s.curr
  }

  /**
   Runs get there. With the larger window the loss estimate is the same throughout each pass, and 0 in the last;
   with the smaller window it varies from visit to visit.
   */
  lemma GuardReached(steady: bool) returns (y: System)
    requires BLOCK_SIZE >= 2 && Level(1, steady) < MAX_CWND
    ensures Reached(y, 0.0, steady) && AtGuard(y)
  {
    hide Slot, Reached, Level, Seen, S.NeededNow;
    var y0, p0 := RaiseAll(NUM_BLOCKS, steady);
    var y1 := Fly(y0, p0, steady);
    LevelBounds(1, steady);
    assert Estimate(BLOCK_SIZE) == 0.0 by {
      SelfQuotient(BLOCK_SIZE as real);
    }
    hide Estimate;
    var y2 := BeginPass(y1, 1.0, steady, BLOCK_SIZE, 0.0);
    forall c | 2 <= c <= NUM_BLOCKS ensures Seen(y2.server, c, steady) >= BLOCK_SIZE {
      SeenAtLevel(y2.server, NUM_BLOCKS, 0, steady, c);
      LevelBounds(c - 1, steady);
    }
    y := Walk(y2, 0.0, steady, 2, NUM_BLOCKS + 1, BLOCK_SIZE);
    LastSeen(y.server, steady);
    SlotWraps(1);
    FullNeeds(y.server, BLOCK_SIZE);
  }

  /** The last block of the ring has not been sent at all. */
  lemma LastSeen(s: S.State, steady: bool)
    requires S.Shaped(s) && Levelled(s, NUM_BLOCKS, 0, steady)
    ensures Seen(s, NUM_BLOCKS + 1, steady) == 0
  {
    hide Slot;
  }
}
