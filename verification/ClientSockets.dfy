/**
 clictcp_sock of src/clictcp.c as bldack updates it in place: the ring of coded blocks, the number of
 the block it is working on, the stream to the user and the generator.
 */
module ClientSockets {
  import opened Config
  import opened FieldTables
  import opened Slots
  import opened Packets
  import opened Decoder
  import opened CodecLoops
  import opened CodedBlocks
  import C = Client
  import EarlyDelivery
  import Fifo

  /** Footprints that share no object with each other or with `own`; all is what they make up together. */
  ghost predicate Separated(parts: seq<set<object>>, own: set<object>, all: set<object>)
  {
    && own <= all
    && (forall i :: 0 <= i < |parts| ==> parts[i] <= all && parts[i] !! own)
    && (forall i, j :: 0 <= i < j < |parts| ==> parts[i] !! parts[j])
  }

  lemma SeparatedAt(parts: seq<set<object>>, own: set<object>, all: set<object>, s: nat)
    requires Separated(parts, own, all) && s < |parts|
    ensures own <= all && parts[s] <= all && parts[s] !! own
    ensures forall i :: 0 <= i < |parts| && i != s ==> parts[i] <= all && parts[i] !! own && parts[i] !! parts[s]
  {
    forall i | 0 <= i < |parts| && i != s ensures parts[i] !! parts[s] {
      if i > s {
        assert parts[s] !! parts[i];
      }
    }
  }

  /** One footprint may change, and grow by new objects. */
  lemma SeparatedStill(parts: seq<set<object>>, own: set<object>, all: set<object>, s: nat, part: set<object>,
      grown: set<object>)
    requires Separated(parts, own, all) && s < |parts| && grown !! all && part <= parts[s] + grown
    ensures Separated(parts[s := part], own, all + grown)
  {
  }

  class ClientSocket {
    var curr: nat
    var blocks: seq<CodedBlock>
    const cache: Fifo.Stream
    const rand: FastRand

    /** The blocks as values. */
    ghost var held: seq<Block>
    /** What bldack may change. */
    ghost var Repr: set<object>

    /** The footprints of the blocks. */
    ghost var parts: seq<set<object>>

    /** The socket and the objects it works with beside the blocks. */
    ghost function Own(): set<object>
    {
      {this, cache, cache.cells, rand}
    }

    /** The blocks have footprints of their own, which Repr unites. */
    ghost predicate Apart()
      reads this, blocks
    {
      && |blocks| == |parts| == NUM_BLOCKS
      && cache as object != rand && cache.cells as object != cache && cache.cells as object != rand
      && this as object != cache && this as object != rand && this as object != cache.cells
      && (forall i :: 0 <= i < NUM_BLOCKS ==> blocks[i] in parts[i] && blocks[i].Repr == parts[i])
      && Separated(parts, Own(), Repr)
    }

    ghost predicate Valid()
      reads this, blocks, Repr
      ensures Valid() ==> this in Repr && C.Valid(Abs())
    {
      && Apart()
      && cache.Valid()
      && |held| == NUM_BLOCKS
      && forall i :: 0 <= i < NUM_BLOCKS ==> blocks[i].Valid() && blocks[i].Abs() == held[i] && ValidBlock(held[i])
    }

    ghost function Abs(): C.State
      reads this
    {
      C.State(curr, held)
    }

    /** create_clictcp_sock, once its stream exists. */
    constructor (cache: Fifo.Stream, rand: FastRand)
      requires cache.Valid()
      requires cache as object != rand && cache.cells as object != cache && cache.cells as object != rand
      ensures Valid() && Abs() == C.Initial()
      ensures this.cache == cache && this.rand == rand && fresh(Repr - {cache, cache.cells, rand})
    {
      hide EmptyBlock, ValidBlock, CodedBlock.Valid;
      this.curr := 1;
      this.blocks := [];
      this.cache := cache;
      this.rand := rand;
      this.Repr := {this, cache, cache.cells, rand};
      this.parts := [];
      new;
      while |blocks| < NUM_BLOCKS
        invariant |blocks| <= NUM_BLOCKS && curr == 1 && cache.Valid()
        invariant forall i :: 0 <= i < |blocks| ==> blocks[i].Valid() && blocks[i].Abs() == EmptyBlock()
        invariant {this, cache, cache.cells, rand} <= Repr && fresh(Repr - {cache, cache.cells, rand})
        invariant |parts| == |blocks| && Separated(parts, Own(), Repr)
        invariant forall i :: 0 <= i < |blocks| ==> blocks[i] in parts[i] && blocks[i].Repr == parts[i]
      {
        var b := new CodedBlock();
        blocks := blocks + [b];
        parts := parts + [b.Repr];
        Repr := Repr + b.Repr;
      }
      held := seq(NUM_BLOCKS, _ => EmptyBlock());
      EmptyBlockValid();
    }

    /** The packet goes to the block in slot s, which is all that changes. */
    method ArriveAt(s: nat, pkt: DataPacket, payload: array<byte>, inWindow: bool) returns (saved: bool)
      requires Valid() && s < NUM_BLOCKS
      requires WellFormed(pkt) && payload[..] == pkt.payload && payload !in Repr
      modifies Repr, payload
      ensures Valid() && cache.pushed == old(cache.pushed) && cache.released == old(cache.released)
      ensures curr == old(curr)
      ensures var b := Raise(old(held[s]), pkt); held == old(held)[s := if inWindow then Absorb(b, pkt) else b]
      ensures Repr == old(Repr) + if saved then {payload} else {}
    {
      hide ValidBlock, Absorb, Raise, WellFormed, CodedBlock.Valid, Separated;
      SeparatedAt(parts, Own(), Repr, s);
      saved := blocks[s].Arrive(rand, pkt, payload, inWindow);
      held := held[s := blocks[s].Abs()];
      ghost var grown: set<object> := if saved then {payload} else {};
      SeparatedStill(parts, Own(), Repr, s, blocks[s].Repr, grown);
      parts := parts[s := blocks[s].Repr];
      Repr := Repr + grown;
    }

    /** unmarshallData, then lines 584 to 707 of bldack: the packet goes to its block. */
    method Store(pkt: DataPacket, payload: array<byte>) returns (saved: bool)
      requires Valid() && WellFormed(pkt) && payload[..] == pkt.payload && payload !in Repr
      modifies Repr, payload
      ensures Valid() && Abs() == C.Store(old(Abs()), pkt) && cache.pushed == old(cache.pushed)
      ensures Repr == old(Repr) + (if saved then {payload} else {}) && cache.released == old(cache.released)
    {
      hide ValidBlock, Absorb, Raise, WellFormed, Slot, Valid;
      saved := false;
      if pkt.blockno >= curr {
        saved := ArriveAt(Slot(pkt.blockno), pkt, payload, pkt.blockno < curr + NUM_BLOCKS);
      }
    }

    /** Lines 712 to 725: the first block that is not full, and what it has. */
    method BuildAck(ackno: nat) returns (ack: Ack)
      requires Valid()
      ensures ack == C.BuildAck(Abs(), ackno)
    {
      hide ValidBlock, Slot, CodedBlock.Valid;
      var blockno := curr;
      var dofRec := blocks[Slot(blockno)].dofs;
      while dofRec == blocks[Slot(blockno)].len && blockno < curr + NUM_BLOCKS
        invariant curr <= blockno <= curr + NUM_BLOCKS
        invariant dofRec == held[Slot(blockno)].dofs
        invariant C.AckBlock(Abs(), blockno) == C.AckBlock(Abs(), curr)
      {
        blockno := blockno + 1;
        dofRec := blocks[Slot(blockno)].dofs;
      }
      if blockno >= curr + NUM_BLOCKS {
        dofRec := 0;
      }
      ack := Ack(ackno, blockno, dofRec);
    }

    /** Of the current block nothing more can be pushed, but for want of room. */
    ghost predicate Halted()
      requires Valid()
      reads this, blocks, Repr
    {
      blocks[Slot(curr)].Halted(cache)
    }

    /** Lines 747 to 749: push what the current block has solved. */
    method Push()
      requires Valid()
      modifies Repr
      ensures Valid() && Repr == old(Repr) && (old(cache.released) ==> cache.released)
      ensures exists room: nat :: var (c, bytes) := C.Push(old(Abs()), room);
        Abs() == c && (!cache.released ==> cache.pushed == old(cache.pushed) + bytes)
      ensures !C.Full(old(held[Slot(curr)])) && !cache.released ==> Halted()
    {
      hide ValidBlock, PartialWrite, Slot, CodedBlock.Valid, Separated, CodedBlock.Halted;
      var s := Slot(curr);
      SeparatedAt(parts, Own(), Repr, s);
      if blocks[s].dofs < blocks[s].len {
        blocks[s].WriteReady(cache);
        ghost var room: nat :| blocks[s].Abs() == PartialWrite(held[s], room).0
          && (!cache.released ==> cache.pushed == old(cache.pushed) + PartialWrite(held[s], room).1);
        PartialWriteValid(held[s], room);
        held := held[s := blocks[s].Abs()];
        assert C.Push(old(Abs()), room).0 == Abs();
      } else {
        C.DofsBounded(held[s]);
        assert C.Push(old(Abs()), 0).0 == Abs();
      }
    }

    /** Lines 755 to 769: write out the current block, empty its slot and move on. */
    method WriteOut()
      requires Valid() && C.Full(held[Slot(curr)])
      modifies Repr
      ensures Valid() && Repr == old(Repr) && (old(cache.released) ==> cache.released)
      ensures Abs() == C.State(old(curr) + 1, old(held)[Slot(old(curr)) := EmptyBlock()])
      ensures !cache.released ==> cache.pushed == old(cache.pushed) + WriteBlock(old(held[Slot(curr)]))
    {
      hide ValidBlock, WriteBlock, EmptyBlock, Slot, CodedBlock.Valid, Separated;
      var s := Slot(curr);
      EmptyBlockValid();
      SeparatedAt(parts, Own(), Repr, s);
      blocks[s].Flush(cache);
      SeparatedStill(parts, Own(), Repr, s, blocks[s].Repr, {});
      assert Repr + {} == Repr;
      parts := parts[s := blocks[s].Repr];
      held := held[s := EmptyBlock()];
      curr := curr + 1;
    }

    /** Lines 752 to 777: write out full blocks for as long as the current block is one. */
    method Decode()
      requires Valid()
      modifies Repr
      ensures Valid() && Repr == old(Repr) && (old(cache.released) ==> cache.released)
      ensures Abs() == C.Decode(old(Abs())).0
      ensures !cache.released ==> cache.pushed == old(cache.pushed) + C.Decode(old(Abs())).1
      ensures !C.Full(old(held[Slot(curr)])) && old(Halted()) ==> Halted() && cache.released == old(cache.released)
    {
      hide ValidBlock, WriteBlock, EmptyBlock, Slot, CodedBlock.Valid, C.Decode, CodedBlock.Halted;
      ghost var whole := C.Decode(Abs());
      while blocks[Slot(curr)].dofs == blocks[Slot(curr)].len
        invariant Valid() && Repr == old(Repr) && (old(cache.released) ==> cache.released)
        invariant C.Full(old(held[Slot(curr)])) ||
          (curr == old(curr) && held == old(held) && (old(Halted()) ==> Halted())
            && cache.released == old(cache.released))
        invariant C.Decode(Abs()).0 == whole.0
        invariant !cache.released ==> cache.pushed + C.Decode(Abs()).1 == old(cache.pushed) + whole.1
        decreases C.CountFullBlocks(held, NUM_BLOCKS)
      {
        DecodeOnce(Abs());
        ghost var c, before := Abs(), cache.pushed;
        WriteOut();
        assert (before + WriteBlock(c.blocks[Slot(c.curr)])) + C.Decode(Abs()).1
            == before + (WriteBlock(c.blocks[Slot(c.curr)]) + C.Decode(Abs()).1);
      }
      DecodeDone(Abs());
    }

    /**
     bldack: store the packet, acknowledge, push and decode. On a stream that is not released it
     delivers exactly the bytes of C.Receive, whose safety the run theorems are about.
     */
    method BldAck(pkt: DataPacket, payload: array<byte>) returns (ack: Ack)
      requires Valid() && WellFormed(pkt) && payload[..] == pkt.payload && payload !in Repr
      modifies Repr, payload
      ensures Valid() && Repr <= old(Repr) + {payload}
      ensures exists room: nat :: var r := C.Receive(old(Abs()), pkt, room);
        && Abs() == r.client && ack == r.ack
        && (!cache.released ==> cache.pushed == old(cache.pushed) + r.bytes)
      ensures curr == old(curr) && !cache.released ==> Halted()
    {
      hide C.Store, C.BuildAck, C.Push, C.Decode, ValidBlock, WellFormed, Apart, Valid, CodedBlock.Halted;
      var saved := Store(pkt, payload);
      ghost var stored, before := Abs(), cache.pushed;
      ack := BuildAck(pkt.seqno + 1);
      Push();
      ghost var room: nat :| Abs() == C.Push(stored, room).0
        && (!cache.released ==> cache.pushed == before + C.Push(stored, room).1);
      ghost var halfway := Abs();
      Decode();
      if curr == old(curr) {
        StaysUnlessFull(stored, room, halfway, Abs());
      }
      ghost var r := C.Receive(old(Abs()), pkt, room);
      assert Abs() == r.client && ack == r.ack;
    }
  }

  /** The receiver stays at its block only if that was not full, before early delivery and after. */
  lemma StaysUnlessFull(c: C.State, room: nat, d: C.State, e: C.State)
    requires C.Valid(c) && d == C.Push(c, room).0 && e == C.Decode(d).0 && e.curr == c.curr
    ensures !C.Full(c.blocks[Slot(c.curr)]) && !C.Full(d.blocks[Slot(d.curr)])
  {
    hide C.Push, C.Decode, ValidBlock, Slot;
    C.PushKeepsDofs(c, room);
    if C.Full(d.blocks[Slot(d.curr)]) {
      EarlyDelivery.DecodeMoves(d);
    }
  }

  lemma DecodeOnce(c: C.State)
    requires C.Valid(c) && C.Full(c.blocks[Slot(c.curr)])
    ensures var next := C.State(c.curr + 1, c.blocks[Slot(c.curr) := EmptyBlock()]);
      && C.Valid(next)
      && C.CountFullBlocks(next.blocks, NUM_BLOCKS) < C.CountFullBlocks(c.blocks, NUM_BLOCKS)
      && C.Decode(c) == (C.Decode(next).0, WriteBlock(c.blocks[Slot(c.curr)]) + C.Decode(next).1)
  {
    hide WriteBlock, EmptyBlock, ValidBlock;
    EmptyBlockValid();
    C.EmptyingLowersCount(c.blocks, NUM_BLOCKS, Slot(c.curr));
  }

  lemma DecodeDone(c: C.State)
    requires C.Valid(c) && !C.Full(c.blocks[Slot(c.curr)])
    ensures C.Decode(c) == (c, [])
  {
  }
}
