/**
 Coded_Block_t of src/util.h as the receiver updates it in place: a square matrix of coefficients, the
 lengths of its rows, and the payload buffers of the packets it keeps. Every method is
 proved against the function of Decoder that says what it does to the block.
 */
module CodedBlocks {
  import opened Config
  import opened FieldTables
  import opened Gf256
  import opened Linear
  import opened Elimination
  import opened Framing
  import opened Random
  import opened Packets
  import opened Decoder
  import opened CodecLoops
  import Fifo

  /** What partial_write does with a row: push it, keep it for later, or give up as the stream is gone. */
  datatype Outcome = Pushed | Waits | Broken

  class CodedBlock {
    var dofs: nat
    var len: nat
    /** An entry 0xff in the first column, -1 as a signed character, marks an empty row. */
    const rows: array2<byte>
    var rowLen: seq<nat>
    var content: seq<array?<byte>>
    var widest: nat
    var pushed: nat
    var top: nat
    /** The rows as values. */
    ghost var held: seq<Row>
    /** The block itself, its matrix, and the buffers it keeps. */
    ghost var Repr: set<object>

    predicate Shaped()
      reads this
    {
      rows.Length0 == rows.Length1 == |rowLen| == |content| == BLOCK_SIZE
    }

    /** The arrays hold this row at r. */
    ghost predicate Holds(r: nat, row: Row)
      requires Shaped() && r < BLOCK_SIZE
      reads this, rows, content[r]
    {
      if rows[r, 0] == 0xff then
        row.Empty?
      else
        && row.Filled?
        && rowLen[r] == |row.coeffs| <= BLOCK_SIZE
        && (forall i :: 0 <= i < |row.coeffs| ==> rows[r, i] == row.coeffs[i])
        && content[r] != null
        && content[r][..] == row.content
    }

    ghost predicate Valid()
      reads this, Repr
      ensures Valid() ==> this in Repr && rows in Repr
    {
      && this in Repr && rows in Repr
      && (forall r :: 0 <= r < |content| && content[r] != null ==> content[r] in Repr)
      && Shaped()
      && ValidRows(held)
      && (forall r :: 0 <= r < BLOCK_SIZE ==> Holds(r, held[r]))
      && (forall r, s :: 0 <= r < s < BLOCK_SIZE && content[r] != null ==> content[r] != content[s])
    }

    ghost function Abs(): Block
      reads this
    {
      Block(held, dofs, len, widest, pushed, top)
    }

    constructor ()
      ensures Valid() && Abs() == EmptyBlock() && fresh(Repr)
    {
      rows := new byte[BLOCK_SIZE, BLOCK_SIZE];
      rowLen := seq(BLOCK_SIZE, _ => 0);
      content := seq(BLOCK_SIZE, _ => null);
      new;
      Init();
    }

    /** initCodedBlock. */
    method Init()
      requires Shaped()
      modifies this, rows
      ensures Valid() && Abs() == EmptyBlock() && Repr == {this, rows}
    {
      dofs, len, widest, pushed, top := 0, BLOCK_SIZE, 0, 0, 0;
      held := seq(BLOCK_SIZE, _ => Empty);
      Repr := {this, rows};
      var i := 0;
      while i < BLOCK_SIZE
        invariant 0 <= i <= BLOCK_SIZE
        invariant Shaped() && Abs() == EmptyBlock() && Repr == {this, rows}
        invariant forall r :: 0 <= r < i ==> rows[r, 0] == 0xff && rowLen[r] == 0 && content[r] == null
      {
        rows[i, 0] := 0xff;
        rowLen := rowLen[i := 0];
        content := content[i := null];
        i := i + 1;
      }
    }

    /** What unmarshallData records about a packet. */
    method Hear(pkt: DataPacket)
      requires Valid()
      modifies this`top
      ensures Valid() && Abs() == Raise(old(Abs()), pkt)
    {
      if pkt.start + pkt.num > top {
        top := pkt.start + pkt.num;
      }
    }

    // -------------------------------------------------------------------------------------------
    // Elimination

    /** Lines 661 to 667: subtract the stored row from the coefficients of the window. */
    method SubtractRow(start: nat, coeff: array<byte>, num: nat)
      requires Valid() && start < BLOCK_SIZE && held[start].Filled?
      requires coeff.Length == BLOCK_SIZE && 1 <= num <= BLOCK_SIZE && coeff[0] != 0
      modifies coeff
      ensures coeff[..num] == Subtract(old(coeff[..num]), held[start].coeffs, old(coeff[0]))
    {
      hide FastFFmult, Mul, XFFlog, Add;
      assert Holds(start, held[start]);
      ghost var row := held[start].coeffs;
      var pivot := coeff[0];
      coeff[0] := 0;
      LogBound(pivot);
      var logPivot := XFFlog(pivot);
      var i := 1;
      while i < rowLen[start]
        invariant 1 <= i <= |row|
        invariant coeff[0] == 0
        invariant forall k :: 1 <= k < i ==> coeff[k] == Add(old(coeff[k]), Mul(row[k], pivot))
        invariant forall k :: i <= k < BLOCK_SIZE ==> coeff[k] == old(coeff[k])
      {
        FastFFmultIsMul(rows[start, i], pivot);
        coeff[i] := Add(coeff[i], FastFFmult(rows[start, i], logPivot));
        i := i + 1;
      }
    }

    /** Lines 620 to 641: the window becomes row `start`, and its buffer is kept. */
    method StoreRow(start: nat, coeff: array<byte>, num: nat, payload: array<byte>)
      requires Valid() && start < BLOCK_SIZE && held[start].Empty?
      requires coeff.Length == BLOCK_SIZE && 1 <= num <= BLOCK_SIZE - start && coeff[0] == 1
      requires payload.Length == PAYLOAD_SIZE && payload !in Repr
      modifies this`held, this`dofs, this`widest, this`rowLen, this`content, this`Repr, rows
      ensures Valid()
      ensures held == old(held)[start := Filled(coeff[..num], payload[..])]
      ensures dofs == old(dofs) + 1 && widest == if old(widest) > num then old(widest) else num
      ensures Repr == old(Repr) + {payload}
    {
      hide ValidRows;
      RowSizes(held);
      rowLen := rowLen[start := num];
      forall i | 0 <= i < num {
        rows[start, i] := coeff[i];
      }
      content := content[start := payload];
      Repr := Repr + {payload};
      widest := if widest > num then widest else num;
      dofs := dofs + 1;
      RowsWith(held, start, coeff[..num], payload[..]);
      held := held[start := Filled(coeff[..num], payload[..])];
      forall r | 0 <= r < BLOCK_SIZE && r != start ensures Holds(r, held[r]) {
        assert old(Holds(r, held[r]));
      }
    }

    /** Lines 617 to 642: cut the window to the block, normalize it and store it. */
    method KeepWindow(start: nat, coeff: array<byte>, num: nat, payload: array<byte>)
      requires Valid() && start < BLOCK_SIZE && held[start].Empty?
      requires coeff.Length == BLOCK_SIZE && num <= BLOCK_SIZE && payload.Length == PAYLOAD_SIZE
      requires coeff != payload && coeff !in Repr && payload !in Repr
      requires Ready(Window(start, coeff[..num], payload[..])) && !IsEmpty(coeff[..num])
      modifies this`held, this`dofs, this`widest, this`rowLen, this`content, this`Repr, rows, coeff, payload
      ensures Valid() && Repr == old(Repr) + {payload}
      ensures var row := NewRow(Window(start, old(coeff[..num]), old(payload[..])));
              && row.Filled?
              && held == old(held)[start := row]
              && widest == if old(widest) > |row.coeffs| then old(widest) else |row.coeffs|
      ensures dofs == old(dofs) + 1
    {
      hide Mul, InvVec, Lead;
      NewRowValid(Window(start, coeff[..num], payload[..]));
      var kept := if num < BLOCK_SIZE - start then num else BLOCK_SIZE - start;
      assert coeff[..num][..kept] == coeff[..kept];
      NormalizeInPlace(coeff, payload, kept);
      assert coeff[..kept][0] == 1;
      StoreRow(start, coeff, kept, payload);
    }

    lemma RowsAreValid()
      requires Valid()
      ensures ValidRows(held)
    {
    }

    /** The test of line 617. */
    method TestVacant(start: nat) returns (vacant: bool)
      requires Valid() && start < BLOCK_SIZE
      ensures vacant <==> held[start].Empty?
    {
      assert Holds(start, held[start]);
      vacant := rows[start, 0] == 0xff;
    }

    /** One pass of the loop over a stored row, lines 644 to 688; the new start of the window. */
    method PassRow(start: nat, coeff: array<byte>, num: nat, payload: array<byte>) returns (next: nat)
      requires Valid() && start < BLOCK_SIZE && held[start].Filled?
      requires coeff.Length == BLOCK_SIZE && num <= BLOCK_SIZE && payload.Length == PAYLOAD_SIZE
      requires coeff != payload && coeff !in Repr && payload !in Repr
      requires Ready(Window(start, coeff[..num], payload[..])) && !IsEmpty(coeff[..num])
      modifies coeff, payload
      ensures Valid()
      ensures Window(next, coeff[..num], payload[..]) == Pass(held, Window(start, old(coeff[..num]), old(payload[..])))
    {
      hide Add, Mul, Subtract, Lead, ShiftRow;
      assert Holds(start, held[start]);
      var pivot := coeff[0];
      SubtractRow(start, coeff, num);
      AddScaledInPlace(payload, pivot, content[start]);
      var shift := ShiftRowInPlace(coeff, num);
      next := start + shift;
    }

    /** Draw the coefficients of a packet again and shift them to the first nonzero one, lines 603 to 613. */
    method OpenWindow(rand: FastRand, pkt: DataPacket, coeff: array<byte>) returns (start: nat)
      requires WellFormed(pkt) && coeff.Length == BLOCK_SIZE
      modifies rand, coeff
      ensures Window(start, coeff[..pkt.num], pkt.payload) == FirstWindow(pkt)
    {
      hide Coefficients, ShiftRow, Lead;
      if pkt.flag.Coded? {
        DrawCoefficients(rand, pkt.coeff, pkt.blockno, pkt.num, coeff);
      } else {
        coeff[0] := 1;
        assert coeff[..pkt.num] == [1];
      }
      var shift := ShiftRowInPlace(coeff, pkt.num);
      start := pkt.start + shift;
    }

    /**
     Lines 598 to 702 of bldack: reduce a packet on line. Its buffer is worked on in place, and kept by
     the block exactly if the packet filled a row.
     */
    method Eliminate(rand: FastRand, pkt: DataPacket, payload: array<byte>) returns (saved: bool)
      requires Valid() && WellFormed(pkt) && payload[..] == pkt.payload && payload !in Repr
      requires rand !in Repr && payload as object != rand
      modifies Repr, rand, payload
      ensures Valid() && Abs() == Absorb(old(Abs()), pkt)
      ensures saved <==> dofs == old(dofs) + 1
      ensures Repr == old(Repr) + if saved then {payload} else {}
    {
      hide Reduce, Pass, NewRow, FirstWindow, Coefficients, Absorb, ValidRow, Valid;
      RowsAreValid();
      AbsorbIs(Abs(), pkt);
      saved := false;
      if dofs < len {
        var coeff := new byte[BLOCK_SIZE];
        var num := pkt.num;
        ghost var rows0 := held;
        var start := OpenWindow(rand, pkt, coeff);
        var empty := TestEmpty(coeff, num);
        while !empty
          invariant Valid() && held == rows0 && Repr == old(Repr) && dofs == old(dofs)
          invariant Abs() == old(Abs())
          invariant Ready(Window(start, coeff[..num], payload[..]))
          invariant empty <==> IsEmpty(coeff[..num])
          invariant Reduce(rows0, Window(start, coeff[..num], payload[..])) == Reduce(rows0, FirstWindow(pkt))
          decreases if empty then 0 else BLOCK_SIZE - start
        {
          ghost var win := Window(start, coeff[..num], payload[..]);
          StartsInside(win);
          ReduceOnce(rows0, win);
          var vacant := TestVacant(start);
          if vacant {
            KeepWindow(start, coeff, num, payload);
            saved := true;
            return;
          }
          start := PassRow(start, coeff, num, payload);
          empty := TestEmpty(coeff, num);
        }
        ReduceDone(rows0, Window(start, coeff[..num], payload[..]));
      }
    }

    /** A packet for this block arrives; it is reduced only if the block lies in the window. */
    method Arrive(rand: FastRand, pkt: DataPacket, payload: array<byte>, inWindow: bool) returns (saved: bool)
      requires Valid() && ValidBlock(Abs()) && rand !in Repr && payload as object != rand
      requires WellFormed(pkt) && payload[..] == pkt.payload && payload !in Repr
      modifies Repr, rand, payload
      ensures Valid() && ValidBlock(Abs())
      ensures Abs() == if inWindow then Absorb(Raise(old(Abs()), pkt), pkt) else Raise(old(Abs()), pkt)
      ensures Repr == old(Repr) + if saved then {payload} else {}
    {
      hide Absorb, ValidRows;
      RaiseValid(Abs(), pkt);
      Hear(pkt);
      saved := false;
      if inWindow {
        AbsorbValid(Abs(), pkt);
        saved := Eliminate(rand, pkt, payload);
      }
    }

    // -------------------------------------------------------------------------------------------
    // Back-substitution

    /** The body of the outer loop of unwrap. */
    method UnwrapRowInPlace(r: nat)
      requires Valid() && r < BLOCK_SIZE && Closed(held, r)
      modifies this`held, this`rowLen, content[r]
      ensures Valid()
      ensures held == old(held)[r := UnwrapRow(old(held), r)]
    {
      hide Mul, Add, AddScaled, Solved;
      ghost var row := UnwrapRow(held, r);
      assert Holds(r, held[r]) && ValidRow(held[r], r);
      ghost var c := held[r].coeffs;
      forall i | 1 <= i < |c| && c[i] != 0 ensures held[r + i].Filled? {
        assert Entry(held[r], r, r + i) != 0;
      }
      var offset := 1;
      while offset < rowLen[r]
        invariant 1 <= offset <= |c|
        invariant held == old(held) && rowLen == old(rowLen) && content[r].Length == PAYLOAD_SIZE
        invariant content[r][..] == Substituted(old(held), r, offset)
        invariant forall s :: 0 <= s < BLOCK_SIZE && s != r ==> Holds(s, held[s])
      {
        if rows[r, offset] != 0 {
          assert Holds(r + offset, held[r + offset]) && ValidRow(held[r + offset], r + offset);
          AddScaledInPlace(content[r], rows[r, offset], content[r + offset]);
        }
        offset := offset + 1;
      }
      rowLen := rowLen[r := 1];
      held := held[r := row];
    }

    /** unwrap. */
    method UnwrapInPlace()
      requires Valid() && ValidBlock(Abs()) && dofs == top
      modifies this`held, this`rowLen, content
      ensures Valid() && Abs() == Unwrap(old(Abs()))
    {
      hide UnwrapRow, UnwrapRows, Closed;
      TopRowsClosed(Abs());
      ghost var rows0 := held;
      var row: nat := if top == 0 then 0 else top - 1;
      while row > pushed
        invariant Valid() && row <= BLOCK_SIZE
        invariant forall r :: pushed <= r < row ==> Closed(held, r)
        invariant top > 0 ==> UnwrapRows(held, pushed, row) == UnwrapRows(rows0, pushed, top - 1)
        invariant top == 0 ==> row == 0 && held == rows0
      {
        UnwrapLast(held, pushed, row);
        row := row - 1;
        UnwrapRowInPlace(row);
      }
      if top > 0 {
        UnwrapNone(held, pushed, row);
      }
    }

    // -------------------------------------------------------------------------------------------
    // Delivery

    /** The data of row r, behind its length. */
    method DataAt(r: nat) returns (data: seq<byte>)
      requires Valid() && r < BLOCK_SIZE && held[r].Filled?
      ensures data == Data(held[r].content)
    {
      hide FromNetwork;
      assert Holds(r, held[r]) && ValidRow(held[r], r);
      var n := FromNetwork(content[r][0], content[r][1]);
      assert n == FromNetwork(held[r].content[0], held[r].content[1]);
      data := if n <= PAYLOAD_SIZE - 2 then content[r][2..2 + n] else content[r][2..];
    }

    /** The row can be pushed: it is stored, and only its leading coefficient is not 0. */
    method TestSolved(r: nat) returns (solved: bool)
      requires Valid() && r < BLOCK_SIZE
      ensures solved <==> Solved(held[r])
    {
      assert Holds(r, held[r]);
      if rows[r, 0] == 0xff {
        return false;
      }
      for i := 1 to rowLen[r]
        invariant forall k :: 1 <= k < i ==> rows[r, k] == 0
      {
        if rows[r, i] != 0 {
          return false;
        }
      }
      return true;
    }

    /** The rows from lo to hi - 1 are stored, and the stream got their data on top of `before`. */
    ghost predicate Sent(cache: Fifo.Stream, before: seq<byte>, rows: seq<Row>, lo: nat, hi: nat)
      reads cache`pushed
    {
      && ValidRows(rows) && lo <= hi <= BLOCK_SIZE
      && (forall r :: lo <= r < hi ==> rows[r].Filled?)
      && cache.pushed == before + Bytes(Contents(rows, lo, hi))
    }

    /** Push the data of one stored row; the loops over fifo_push in partial_write and writeAndFreeBlock. */
    method SendRow(cache: Fifo.Stream, r: nat, ghost before: seq<byte>, ghost lo: nat) returns (done: bool)
      requires Valid() && cache.Valid() && cache !in Repr && cache.cells !in Repr
      requires r < BLOCK_SIZE && held[r].Filled? && Sent(cache, before, held, lo, r)
      modifies cache, cache.cells
      ensures Valid() && cache.Valid() && (old(cache.released) ==> cache.released)
      ensures if done then Sent(cache, before, held, lo, r + 1) else cache.released
    {
      hide Data, Bytes, Holds, ValidRow;
      var data := DataAt(r);
      done := cache.PushAll(data);
      if done {
        ContentsNext(held, lo, r);
        assert before + (Bytes(Contents(held, lo, r)) + data) == (before + Bytes(Contents(held, lo, r))) + data;
      }
    }

    /** The stream lacks room for the data of row r, or the row is not solved. */
    ghost predicate Stuck(cache: Fifo.Stream, r: nat)
      requires cache.Valid() && r < |held| && (held[r].Filled? ==> |held[r].content| == PAYLOAD_SIZE)
      reads this`held, cache, cache.cells
    {
      Solved(held[r]) ==> |Data(held[r].content)| > cache.maxSize - |cache.Contents()|
    }

    /**
     partial_write had a reason to stop: the next row is not solved, or the stream lacks room for it. When there are
     as many rows as packets heard of, want of room is the only reason to stop before the last.
     */
    ghost predicate Halted(cache: Fifo.Stream)
      requires Valid() && cache.Valid()
      reads this, rows, cache, cache.cells, Repr
    {
      && pushed < BLOCK_SIZE && ValidRows(held) && Stuck(cache, pushed)
      && (dofs == top && pushed < top ==> Solved(held[pushed]))
    }

    /** The body of the loop of partial_write. */
    method SendIfReady(cache: Fifo.Stream, r: nat, ghost before: seq<byte>, ghost lo: nat) returns (outcome: Outcome)
      requires Valid() && cache.Valid() && cache !in Repr && cache.cells !in Repr
      requires r < BLOCK_SIZE && Sent(cache, before, held, lo, r)
      modifies cache, cache.cells
      ensures Valid() && cache.Valid() && (old(cache.released) ==> cache.released)
      ensures outcome.Pushed? ==> Solved(held[r]) && Sent(cache, before, held, lo, r + 1)
      ensures outcome.Waits? ==> Sent(cache, before, held, lo, r) && Stuck(cache, r)
      ensures outcome.Broken? ==> cache.released
    {
      hide Solved, Data, Sent;
      assert ValidRow(held[r], r);
      var solved := TestSolved(r);
      if !solved {
        return Waits;
      }
      SolvedFilled(held[r]);
      var data := DataAt(r);
      var space := cache.GetSpace();
      if space < |data| {
        return Waits;
      }
      var done := SendRow(cache, r, before, lo);
      outcome := if done then Pushed else Broken;
    }

    /** The loop of partial_write. */
    method SendSolved(cache: Fifo.Stream)
      requires Valid() && ValidBlock(Abs()) && dofs < len && cache.Valid() && cache !in Repr && cache.cells !in Repr
      modifies this`pushed, cache, cache.cells
      ensures Valid() && cache.Valid() && (old(cache.released) ==> cache.released)
      ensures old(pushed) <= pushed < BLOCK_SIZE && Abs() == old(Abs()).(pushed := pushed)
      ensures forall r :: old(pushed) <= r < pushed ==> Solved(held[r])
      ensures !cache.released ==> Sent(cache, old(cache.pushed), held, old(pushed), pushed) && Stuck(cache, pushed)
    {
      hide Solved, Data, Sent, Stuck, Bytes;
      SentNone(cache, held, pushed);
      var start := pushed;
      StopsInside(Abs(), start);
      var outcome := Pushed;
      while outcome.Pushed?
        invariant Valid() && cache.Valid() && Abs() == old(Abs()) && content == old(content)
        invariant old(cache.released) ==> cache.released
        invariant pushed <= start < BLOCK_SIZE
        invariant forall r :: pushed <= r < start ==> Solved(held[r])
        invariant !outcome.Broken? ==> Sent(cache, old(cache.pushed), held, pushed, start)
        invariant outcome.Waits? ==> Stuck(cache, start)
        invariant outcome.Broken? ==> cache.released
        decreases BLOCK_SIZE - start, outcome.Pushed?
      {
        outcome := SendIfReady(cache, start, old(cache.pushed), pushed);
        if outcome.Pushed? {
          start := start + 1;
          StopsInside(Abs(), start);
        }
      }
      if outcome.Broken? {
        return;
      }
      pushed := start;
    }

    lemma SentNone(cache: Fifo.Stream, rows: seq<Row>, lo: nat)
      requires ValidRows(rows) && lo <= BLOCK_SIZE
      ensures Sent(cache, cache.pushed, rows, lo, lo)
    {
      assert Contents(rows, lo, lo) == [];
    }

    /**
     partial_write: every solved row from the first that has not been pushed goes to the stream, once,
     until a row is not solved or the stream lacks room. Nothing is claimed once the stream is released.
     */
    method WriteReady(cache: Fifo.Stream)
      requires Valid() && ValidBlock(Abs()) && dofs < len && cache.Valid() && cache !in Repr && cache.cells !in Repr
      modifies Repr, cache, cache.cells
      ensures Valid() && cache.Valid() && Repr == old(Repr) && (old(cache.released) ==> cache.released)
      ensures exists room: nat :: var (b, bytes) := PartialWrite(old(Abs()), room);
        Abs() == b && (!cache.released ==> cache.pushed == old(cache.pushed) + bytes)
      ensures !cache.released ==> Halted(cache)
    {
      hide Solved, Data, Unwrap, Stuck, PartialWrite, ReadyEnd, ValidBlock;
      UnwrapValid(Abs());
      ghost var b := Abs();
      if dofs == top {
        UnwrapInPlace();
      }
      ghost var first := pushed;
      SendSolved(cache);
      PartialWriteTo(b, first, pushed);
    }

    /** writeAndFreeBlock, after unwrap: the rest of a full block goes to the stream. */
    method WriteRest(cache: Fifo.Stream)
      requires Valid() && ValidBlock(Abs()) && dofs == len && cache.Valid() && cache !in Repr && cache.cells !in Repr
      modifies this`held, this`rowLen, content, cache, cache.cells
      ensures Valid() && cache.Valid() && (old(cache.released) ==> cache.released)
      ensures !cache.released ==> cache.pushed == old(cache.pushed) + WriteBlock(old(Abs()))
    {
      hide Solved, Data, Unwrap, ValidBlock, ValidRows;
      FullUnwraps(Abs());
      UnwrapInPlace();
      var i := pushed;
      SentNone(cache, held, pushed);
      while i < len
        invariant Valid() && cache.Valid() && content == old(content) && (old(cache.released) ==> cache.released)
        invariant Abs() == Unwrap(old(Abs())) && pushed <= i <= BLOCK_SIZE
        invariant Sent(cache, old(cache.pushed), held, pushed, i)
      {
        var done := SendRow(cache, i, old(cache.pushed), pushed);
        if !done {
          return;
        }
        i := i + 1;
      }
    }

    /** Lines 760 to 766 of bldack: unwrap a full block, write it out and empty it. */
    method Flush(cache: Fifo.Stream)
      requires Valid() && ValidBlock(Abs()) && dofs == len && cache.Valid() && cache !in Repr && cache.cells !in Repr
      modifies Repr, cache, cache.cells
      ensures Valid() && cache.Valid() && Abs() == EmptyBlock() && Repr <= old(Repr)
      ensures old(cache.released) ==> cache.released
      ensures !cache.released ==> cache.pushed == old(cache.pushed) + WriteBlock(old(Abs()))
    {
      hide ValidBlock, WriteBlock;
      WriteRest(cache);
      Init();
    }
  }

  lemma RowSizes(rows: seq<Row>)
    requires ValidRows(rows)
    ensures |rows| == BLOCK_SIZE
  {
  }

  lemma RowsWith(rows: seq<Row>, start: nat, coeffs: seq<byte>, content: seq<byte>)
    requires ValidRows(rows) && start < BLOCK_SIZE
    requires 1 <= |coeffs| <= BLOCK_SIZE - start && coeffs[0] == 1 && |content| == PAYLOAD_SIZE
    ensures |rows| == BLOCK_SIZE && ValidRows(rows[start := Filled(coeffs, content)])
  {
  }

  lemma StartsInside(win: Window)
    requires Ready(win) && !IsEmpty(win.coeffs)
    ensures win.start < BLOCK_SIZE
  {
  }

  /** unwrap takes the last row first. */
  lemma UnwrapLast(rows: seq<Row>, lo: nat, hi: nat)
    requires ValidRows(rows) && lo < hi <= BLOCK_SIZE && forall r :: lo <= r < hi ==> Closed(rows, r)
    ensures var next := rows[hi - 1 := UnwrapRow(rows, hi - 1)];
            && ValidRows(next)
            && (forall r :: lo <= r < hi - 1 ==> Closed(next, r))
            && UnwrapRows(rows, lo, hi) == UnwrapRows(next, lo, hi - 1)
  {
    hide UnwrapRow;
    var next := rows[hi - 1 := UnwrapRow(rows, hi - 1)];
    assert forall r :: lo <= r < hi - 1 ==> Closed(rows, r) && next[r] == rows[r];
  }

  lemma UnwrapNone(rows: seq<Row>, lo: nat, hi: nat)
    requires ValidRows(rows) && hi <= lo && hi <= BLOCK_SIZE
    ensures UnwrapRows(rows, lo, hi) == rows
  {
  }

  /** One more row pushed. */
  lemma ContentsNext(rows: seq<Row>, lo: nat, hi: nat)
    requires ValidRows(rows) && lo <= hi < BLOCK_SIZE && forall r :: lo <= r <= hi ==> rows[r].Filled?
    ensures Bytes(Contents(rows, lo, hi + 1)) == Bytes(Contents(rows, lo, hi)) + Data(rows[hi].content)
  {
    hide Data;
    var ps := Contents(rows, lo, hi + 1);
    assert ps[..|ps| - 1] == Contents(rows, lo, hi);
  }

  /** A block that lacks a row has an unsolved row among those not pushed. */
  lemma StopsInside(b: Block, start: nat)
    requires ValidBlock(b) && b.dofs < b.len && b.pushed <= start <= BLOCK_SIZE
    requires forall r :: b.pushed <= r < start ==> Solved(b.rows[r])
    ensures start < BLOCK_SIZE
  {
    CountFull(b.rows, BLOCK_SIZE);
  }

  lemma {:induction false} ReadyEndIs(rows: seq<Row>, start: nat, end: nat)
    requires start <= end <= |rows| && forall r :: start <= r < end ==> Solved(rows[r])
    ensures ReadyEnd(rows, start, end - start) == end
    decreases end - start
  {
    hide Solved;
    if start < end {
      ReadyEndIs(rows, start + 1, end);
    }
  }

  /** partial_write, when it is known where its loop stopped. */
  lemma PartialWriteTo(b: Block, first: nat, end: nat)
    requires ValidBlock(b)
    requires var b1 := if b.dofs == b.top then Unwrap(b) else b;
             first == b1.pushed <= end <= |b1.rows| && forall r :: first <= r < end ==> Solved(b1.rows[r])
    ensures var b1 := if b.dofs == b.top then Unwrap(b) else b;
            && |b1.rows| == BLOCK_SIZE && ValidRows(b1.rows)
            && (forall r :: first <= r < end ==> b1.rows[r].Filled?)
            && PartialWrite(b, end - first) == (b1.(pushed := end), Bytes(Contents(b1.rows, first, end)))
  {
    hide Unwrap, Data, Bytes;
    UnwrapValid(b);
    ReadyEndIs(if b.dofs == b.top then Unwrap(b).rows else b.rows, first, end);
  }

  lemma SolvedFilled(row: Row)
    requires Solved(row)
    ensures row.Filled?
  {
  }

  lemma AbsorbIs(b: Block, pkt: DataPacket)
    requires ValidRows(b.rows) && WellFormed(pkt)
    ensures b.dofs >= b.len ==> Absorb(b, pkt) == b
    ensures var red := Reduce(b.rows, FirstWindow(pkt));
            && (b.dofs < b.len && red.Dependent? ==> Absorb(b, pkt) == b)
            && (b.dofs < b.len && red.Innovative? ==>
                  && red.start < BLOCK_SIZE && red.row.Filled?
                  && Absorb(b, pkt) ==
                       b.(rows := b.rows[red.start := red.row], dofs := b.dofs + 1,
                          widest := if b.widest > |red.row.coeffs| then b.widest else |red.row.coeffs|))
  {
    hide Reduce, FirstWindow;
    ReduceFillsEmptyRow(b.rows, FirstWindow(pkt));
  }

  lemma ReduceDone(rows: seq<Row>, win: Window)
    requires ValidRows(rows) && Ready(win) && IsEmpty(win.coeffs)
    ensures Reduce(rows, win) == Dependent
  {
  }

  lemma ReduceOnce(rows: seq<Row>, win: Window)
    requires ValidRows(rows) && Ready(win) && !IsEmpty(win.coeffs)
    ensures rows[win.start].Empty? ==> Reduce(rows, win) == Innovative(win.start, NewRow(win))
    ensures rows[win.start].Filled? ==> Reduce(rows, win) == Reduce(rows, Pass(rows, win))
  {
  }
}
