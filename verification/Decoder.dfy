/**
 One block of the receiver on values: the bookkeeping of Coded_Block_t (src/util.h) and the steps
 bldack, unwrap, partial_write and writeAndFreeBlock of src/clictcp.c take on it.
 */
module Decoder {
  import opened Config
  import opened FieldTables
  import opened Gf256
  import opened Linear
  import opened Elimination
  import opened Framing
  import opened Packets

  /** `pushed` is dofs_pushed, `top` is max_packet_index, `widest` is max_coding_wnd. */
  datatype Block = Block(rows: seq<Row>, dofs: nat, len: nat, widest: nat, pushed: nat, top: nat)

  /** initCodedBlock. */
  function EmptyBlock(): Block
  {
    Block(seq(BLOCK_SIZE, _ => Empty), 0, BLOCK_SIZE, 0, 0, 0)
  }

  /** The number of stored rows among the first n. */
  function Count(rows: seq<Row>, n: nat): (k: nat)
    requires n <= |rows|
    ensures k <= n
  {
    if n == 0 then 0 else Count(rows, n - 1) + if rows[n - 1].Filled? then 1 else 0
  }

  /** The row holds its leading 1 and nothing else: its content is a source packet. */
  predicate Solved(row: Row)
  {
    row.Filled? && forall i :: 1 <= i < |row.coeffs| ==> row.coeffs[i] == 0
  }

  ghost predicate ValidBlock(b: Block)
  {
    && ValidRows(b.rows)
    && b.len == BLOCK_SIZE
    && b.dofs == Count(b.rows, BLOCK_SIZE)
    && b.top <= BLOCK_SIZE
    && Covers(b.rows, b.top)
    && (forall r :: b.top <= r < BLOCK_SIZE ==> b.rows[r].Empty?)
    && b.pushed <= BLOCK_SIZE
    && (forall r :: 0 <= r < b.pushed ==> Solved(b.rows[r]))
  }

  // ---------------------------------------------------------------------------------------------
  // Counting

  lemma {:induction false} CountFull(rows: seq<Row>, n: nat)
    requires n <= |rows|
    ensures Count(rows, n) == n <==> forall r :: 0 <= r < n ==> rows[r].Filled?
  {
    if n > 0 {
      CountFull(rows, n - 1);
    }
  }

  lemma {:induction false} CountAbove(rows: seq<Row>, n: nat, n': nat)
    requires n <= n' <= |rows| && forall r :: n <= r < n' ==> rows[r].Empty?
    ensures Count(rows, n') == Count(rows, n)
    decreases n'
  {
    if n < n' {
      CountAbove(rows, n, n' - 1);
    }
  }

  lemma {:induction false} CountSame(rows: seq<Row>, rows': seq<Row>, n: nat)
    requires n <= |rows| && n <= |rows'|
    requires forall r :: 0 <= r < n ==> rows[r].Filled? == rows'[r].Filled?
    ensures Count(rows, n) == Count(rows', n)
  {
    if n > 0 {
      CountSame(rows, rows', n - 1);
    }
  }

  lemma {:induction false} CountFill(rows: seq<Row>, s: nat, row: Row, n: nat)
    requires s < n <= |rows| && rows[s].Empty? && row.Filled?
    ensures Count(rows[s := row], n) == Count(rows, n) + 1
  {
    if n - 1 == s {
      CountSame(rows, rows[s := row], s);
    } else {
      CountFill(rows, s, row, n - 1);
    }
  }

  /** A block with as many rows as its highest packet index has all rows below it. */
  lemma FullBelowTop(b: Block)
    requires ValidBlock(b)
    ensures b.dofs <= b.top
    ensures b.dofs == b.top <==> forall r :: 0 <= r < b.top ==> b.rows[r].Filled?
  {
    CountAbove(b.rows, b.top, BLOCK_SIZE);
    CountFull(b.rows, b.top);
  }

  // ---------------------------------------------------------------------------------------------
  // A packet arrives

  /** unmarshallData: the block learns the highest packet index it has heard of. */
  function Raise(b: Block, pkt: DataPacket): Block
  {
    b.(top := if pkt.start + pkt.num > b.top then pkt.start + pkt.num else b.top)
  }

  /** The window bldack starts from, lines 603 to 613. */
  function FirstWindow(pkt: DataPacket): (win: Window)
    requires WellFormed(pkt)
    ensures Ready(win)
  {
    var c := PacketCoeffs(pkt);
    ShiftFits(pkt.start, c, BLOCK_SIZE);
    Window(pkt.start + Lead(c), ShiftRow(c), pkt.payload)
  }

  /** Lines 598 to 702: reduce the packet against the block unless the block is full. */
  function Absorb(b: Block, pkt: DataPacket): (b': Block)
    requires ValidRows(b.rows) && WellFormed(pkt)
    ensures |b'.rows| == BLOCK_SIZE
  {
    if b.dofs < b.len then
      match Reduce(b.rows, FirstWindow(pkt))
      case Dependent => b
      case Innovative(start, row) =>
        ReduceFillsEmptyRow(b.rows, FirstWindow(pkt));
        b.(rows := b.rows[start := row], dofs := b.dofs + 1,
           widest := if b.widest > |row.coeffs| then b.widest else |row.coeffs|)
    else
      b
  }

  // ---------------------------------------------------------------------------------------------
  // Back-substitution

  /** The content of row r after the offsets below k have been substituted. */
  function Substituted(rows: seq<Row>, r: nat, k: nat): (p: seq<byte>)
    requires ValidRows(rows) && r < BLOCK_SIZE && rows[r].Filled? && 1 <= k <= |rows[r].coeffs|
    requires forall i :: 1 <= i < k && rows[r].coeffs[i] != 0 ==> rows[r + i].Filled?
    ensures |p| == PAYLOAD_SIZE
  {
    assert ValidRow(rows[r], r);
    if k == 1 then
      rows[r].content
    else
      var c := rows[r].coeffs[k - 1];
      if c == 0 then
        Substituted(rows, r, k - 1)
      else
        assert ValidRow(rows[r + k - 1], r + k - 1);
        AddScaled(Substituted(rows, r, k - 1), c, rows[r + k - 1].content)
  }

  /** Row r can be substituted: the rows it mentions are stored. */
  ghost predicate Closed(rows: seq<Row>, r: nat)
    requires |rows| == BLOCK_SIZE && r < BLOCK_SIZE
  {
    rows[r].Filled? && forall c :: 0 <= c < BLOCK_SIZE && Entry(rows[r], r, c) != 0 ==> rows[c].Filled?
  }

  function UnwrapRow(rows: seq<Row>, r: nat): (row: Row)
    requires ValidRows(rows) && r < BLOCK_SIZE && Closed(rows, r)
    ensures row.Filled? && ValidRow(row, r) && Solved(row)
    ensures forall c :: 0 <= c < BLOCK_SIZE ==> Entry(row, r, c) == if c == r then 1 else 0
  {
    assert ValidRow(rows[r], r);
    forall i | 1 <= i < |rows[r].coeffs| && rows[r].coeffs[i] != 0 ensures rows[r + i].Filled? {
      assert Entry(rows[r], r, r + i) != 0;
    }
    Filled([1], Substituted(rows, r, |rows[r].coeffs|))
  }

  /** unwrap from row hi - 1 down to row lo. */
  function UnwrapRows(rows: seq<Row>, lo: nat, hi: nat): (rows': seq<Row>)
    requires ValidRows(rows) && hi <= BLOCK_SIZE
    requires forall r :: lo <= r < hi ==> Closed(rows, r)
    ensures ValidRows(rows')
    ensures forall r :: 0 <= r < BLOCK_SIZE ==> rows'[r].Filled? == rows[r].Filled?
    ensures forall r :: 0 <= r < BLOCK_SIZE ==> if lo <= r < hi then Solved(rows'[r]) else rows'[r] == rows[r]
    decreases hi
  {
    if hi <= lo then
      rows
    else
      var next := rows[hi - 1 := UnwrapRow(rows, hi - 1)];
      assert ValidRows(next);
      assert forall r :: lo <= r < hi - 1 ==> Closed(rows, r) && next[r] == rows[r];
      UnwrapRows(next, lo, hi - 1)
  }

  lemma TopRowsClosed(b: Block)
    requires ValidBlock(b) && b.dofs == b.top
    ensures forall r :: 0 <= r < b.top ==> Closed(b.rows, r)
  {
    FullBelowTop(b);
  }

  /** unwrap: every row below the last that has not been pushed becomes a source packet. */
  function Unwrap(b: Block): (b': Block)
    requires ValidBlock(b) && b.dofs == b.top
  {
    TopRowsClosed(b);
    if b.top == 0 then b else b.(rows := UnwrapRows(b.rows, b.pushed, b.top - 1))
  }

  // ---------------------------------------------------------------------------------------------
  // Delivery

  /** Where the loop of partial_write stops: at an unsolved row, or after `room` rows. */
  function ReadyEnd(rows: seq<Row>, start: nat, room: nat): (end: nat)
    requires start <= |rows|
    ensures start <= end <= |rows|
    ensures forall r :: start <= r < end ==> Solved(rows[r])
    ensures end == |rows| || end == start + room || !Solved(rows[end])
    decreases room
  {
    if start < |rows| && room > 0 && Solved(rows[start]) then ReadyEnd(rows, start + 1, room - 1) else start
  }

  /** The contents of rows lo to hi - 1. */
  function Contents(rows: seq<Row>, lo: nat, hi: nat): (ps: seq<seq<byte>>)
    requires ValidRows(rows) && lo <= hi <= BLOCK_SIZE
    requires forall r :: lo <= r < hi ==> rows[r].Filled?
    ensures |ps| == hi - lo && forall i :: 0 <= i < |ps| ==> |ps[i]| == PAYLOAD_SIZE && ps[i] == rows[lo + i].content
  {
    assert forall r :: lo <= r < hi ==> ValidRow(rows[r], r);
    seq(hi - lo, i requires 0 <= i < hi - lo => rows[lo + i].content)
  }

  /** partial_write, when the user's buffer has room for `room` more packets. */
  function PartialWrite(b: Block, room: nat): (Block, seq<byte>)
    requires ValidBlock(b)
  {
    var b1 := if b.dofs == b.top then Unwrap(b) else b;
    UnwrapValid(b);
    var end := ReadyEnd(b1.rows, b1.pushed, room);
    (b1.(pushed := end), Bytes(Contents(b1.rows, b1.pushed, end)))
  }

  /** unwrap and writeAndFreeBlock on a block that is full: the bytes still to be pushed. */
  function WriteBlock(b: Block): seq<byte>
    requires ValidBlock(b) && b.dofs == b.len
  {
    FullBelowTop(b);
    UnwrapValid(b);
    Bytes(Contents(Unwrap(b).rows, b.pushed, BLOCK_SIZE))
  }

  // ---------------------------------------------------------------------------------------------
  // The steps keep the block valid

  lemma EmptyBlockValid()
    ensures ValidBlock(EmptyBlock())
  {
    CountAbove(EmptyBlock().rows, 0, BLOCK_SIZE);
  }

  lemma RaiseValid(b: Block, pkt: DataPacket)
    requires ValidBlock(b) && WellFormed(pkt)
    ensures ValidBlock(Raise(b, pkt))
  {
  }

  /** Without any premise on the packet, the new row stays below the highest packet index. */
  lemma {:induction false} ReduceFits(rows: seq<Row>, win: Window, top: nat)
    requires ValidRows(rows) && Ready(win) && top <= BLOCK_SIZE
    requires Covers(rows, top) && Fits(win.start, win.coeffs, top)
    ensures var red := Reduce(rows, win);
            red.Innovative? ==> red.start < top && forall c :: top <= c < BLOCK_SIZE ==>
                Entry(red.row, red.start, c) == 0
    decreases if IsEmpty(win.coeffs) then 0 else BLOCK_SIZE - win.start
  {
    hide Add, Mul, InvVec;
    if IsEmpty(win.coeffs) {
    } else if rows[win.start].Empty? {
      MulInverse(win.coeffs[0]);
      MulZeroLeft(InvVec(win.coeffs[0]));
    } else {
      PassFits(rows, win, top);
      ReduceFits(rows, Pass(rows, win), top);
    }
  }

  lemma PassFits(rows: seq<Row>, win: Window, top: nat)
    requires ValidRows(rows) && Ready(win) && !IsEmpty(win.coeffs) && rows[win.start].Filled?
    requires Covers(rows, top) && Fits(win.start, win.coeffs, top) && top <= BLOCK_SIZE
    ensures var next := Pass(rows, win); Fits(next.start, next.coeffs, top)
  {
    hide Add, Mul;
    var s, row := win.start, rows[win.start];
    assert ValidRow(row, s);
    MulZeroLeft(win.coeffs[0]);
    AddZero(0);
    var w := Subtract(win.coeffs, row.coeffs, win.coeffs[0]);
    forall i | 0 <= i < |w| && s + i >= top ensures w[i] == 0 {
      assert win.coeffs[i] == 0;
      if i < |row.coeffs| {
        assert Entry(row, s, s + i) == 0;
      }
    }
    ShiftFits(s, w, top);
  }

  lemma FirstWindowFits(pkt: DataPacket)
    requires WellFormed(pkt)
    ensures Fits(FirstWindow(pkt).start, FirstWindow(pkt).coeffs, pkt.start + pkt.num)
    ensures Vector(FirstWindow(pkt)) == Place(pkt.start, PacketCoeffs(pkt))
    ensures EndsAt(FirstWindow(pkt), pkt.start + pkt.num)
  {
    hide PacketCoeffs, Place, Lead, ShiftRow, Fits, EndsAt;
    ShiftedWindow(pkt.start, PacketCoeffs(pkt), pkt.payload);
  }

  lemma ShiftedWindow(start: nat, c: seq<byte>, p: seq<byte>)
    requires start + |c| <= BLOCK_SIZE
    ensures var win := Window(start + Lead(c), ShiftRow(c), p);
            && EndsAt(win, start + |c|)
            && Fits(win.start, win.coeffs, start + |c|)
            && Vector(win) == Place(start, c)
  {
    hide Place, ShiftRow, Lead;
    assert Fits(start, c, start + |c|);
    hide Fits;
    ShiftPlaced(start, c, start + |c|);
  }

  /** A packet adds at most one row, to an empty place, and one degree of freedom with it. */
  lemma AbsorbValid(b: Block, pkt: DataPacket)
    requires ValidBlock(b) && WellFormed(pkt) && pkt.start + pkt.num <= b.top
    ensures var b' := Absorb(b, pkt);
            && ValidBlock(b')
            && b'.top == b.top && b'.pushed == b.pushed
            && b.dofs <= b'.dofs <= b.dofs + 1
            && forall r :: 0 <= r < BLOCK_SIZE && b.rows[r].Filled? ==> b'.rows[r] == b.rows[r]
  {
    hide Reduce, FirstWindow;
    if b.dofs < b.len {
      var win := FirstWindow(pkt);
      FirstWindowFits(pkt);
      ReduceFits(b.rows, win, b.top);
      ReduceFillsEmptyRow(b.rows, win);
      var red := Reduce(b.rows, win);
      if red.Innovative? {
        CountFill(b.rows, red.start, red.row, BLOCK_SIZE);
      }
    }
  }

  /** The length of the longest of the first n rows. */
  function Widest(rows: seq<Row>, n: nat): nat
    requires n <= |rows|
  {
    if n == 0 then 0
    else if rows[n - 1].Filled? && |rows[n - 1].coeffs| > Widest(rows, n - 1) then |rows[n - 1].coeffs|
    else Widest(rows, n - 1)
  }

  lemma {:induction false} WidestFill(rows: seq<Row>, s: nat, row: Row, n: nat)
    requires n <= |rows| && s < |rows| && rows[s].Empty? && row.Filled?
    ensures Widest(rows[s := row], n) ==
            if s < n && |row.coeffs| > Widest(rows, n) then |row.coeffs| else Widest(rows, n)
  {
    if n > 0 {
      WidestFill(rows, s, row, n - 1);
    }
  }

  /** max_coding_wnd is the length of the longest row stored, until unwrap shortens rows. */
  lemma AbsorbWidest(b: Block, pkt: DataPacket)
    requires ValidBlock(b) && WellFormed(pkt) && b.widest == Widest(b.rows, BLOCK_SIZE)
    ensures Absorb(b, pkt).widest == Widest(Absorb(b, pkt).rows, BLOCK_SIZE)
  {
    hide Reduce, FirstWindow;
    var red := Reduce(b.rows, FirstWindow(pkt));
    ReduceFillsEmptyRow(b.rows, FirstWindow(pkt));
    if b.dofs < b.len && red.Innovative? {
      WidestFill(b.rows, red.start, red.row, BLOCK_SIZE);
    }
  }

  lemma UnwrapValid(b: Block)
    requires ValidBlock(b)
    ensures b.dofs == b.top ==>
              var b' := Unwrap(b);
              && ValidBlock(b') && b' == b.(rows := b'.rows)
              && (forall r :: 0 <= r < b.top ==> Solved(b'.rows[r]))
              && (forall r :: 0 <= r < b.pushed ==> b'.rows[r] == b.rows[r])
              && (forall r :: 0 <= r < BLOCK_SIZE ==> b'.rows[r].Filled? == b.rows[r].Filled?)
  {
    if b.dofs == b.top {
      TopRowsClosed(b);
      FullBelowTop(b);
      var b' := Unwrap(b);
      CountSame(b.rows, b'.rows, BLOCK_SIZE);
      if b.top > 0 {
        assert Covers(b'.rows, b.top);
        var last := b.rows[b.top - 1];
        assert ValidRow(last, b.top - 1);
        forall i | 1 <= i < |last.coeffs| ensures last.coeffs[i] == 0 {
          assert Entry(last, b.top - 1, b.top - 1 + i) == 0;
        }
      }
    }
  }

  /** A full block knows all its packets; after unwrap every row is stored. */
  lemma FullUnwraps(b: Block)
    requires ValidBlock(b) && b.dofs == b.len
    ensures b.dofs == b.top && b.len == BLOCK_SIZE && b.pushed <= BLOCK_SIZE
    ensures ValidRows(Unwrap(b).rows) && Unwrap(b) == b.(rows := Unwrap(b).rows)
    ensures forall r :: 0 <= r < BLOCK_SIZE ==> Unwrap(b).rows[r].Filled?
    ensures WriteBlock(b) == Bytes(Contents(Unwrap(b).rows, b.pushed, BLOCK_SIZE))
  {
    hide Unwrap;
    FullBelowTop(b);
    UnwrapValid(b);
  }

  lemma PartialWriteValid(b: Block, room: nat)
    requires ValidBlock(b)
    ensures var (b', bytes) := PartialWrite(b, room);
            && ValidBlock(b')
            && b'.dofs == b.dofs && b'.top == b.top && b.pushed <= b'.pushed
  {
    UnwrapValid(b);
  }

  /** While the block lacks a row, partial_write stops at a row inside the block. */
  lemma PartialWriteStopsInside(b: Block, room: nat)
    requires ValidBlock(b) && b.dofs < b.len
    ensures PartialWrite(b, room).0.pushed < BLOCK_SIZE
  {
    UnwrapValid(b);
    CountFull(b.rows, BLOCK_SIZE);
  }
}
