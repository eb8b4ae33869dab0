/**
 Why the receiver gets the source packets back: every stored row is a true equation about them, byte
 for byte; once all rows below the highest packet index are there, back-substitution solves them;
 and what is pushed is exactly the data of the source packets, in order.
 */
module Recovery {
  import opened Config
  import opened FieldTables
  import opened Gf256
  import opened Linear
  import opened Elimination
  import opened Framing
  import opened Packets
  import opened Decoder

  /** A stored row is an equation that the source packets satisfy. */
  ghost predicate SoundRow(row: Row, r: nat, src: seq<seq<byte>>)
    requires IsBlock(src)
  {
    row.Filled? ==> Encodes(Dense(row, r), row.content, src)
  }

  ghost predicate SoundRows(rows: seq<Row>, src: seq<seq<byte>>)
    requires |rows| == BLOCK_SIZE && IsBlock(src)
  {
    forall r :: 0 <= r < BLOCK_SIZE ==> SoundRow(rows[r], r, src)
  }

  /** The block is a valid state of receiving the packets of src. */
  ghost predicate BlockOf(b: Block, src: seq<seq<byte>>)
    requires IsBlock(src)
  {
    ValidBlock(b) && b.top <= |src| && SoundRows(b.rows, src)
  }

  // ---------------------------------------------------------------------------------------------
  // Elimination

  /** A covered window that is a true equation becomes a row that is a true equation. */
  lemma {:induction false} ReduceSound(rows: seq<Row>, win: Window, end: nat, src: seq<seq<byte>>)
    requires ValidRows(rows) && Ready(win) && Covers(rows, end) && EndsAt(win, end) && IsBlock(src)
    requires SoundRows(rows, src) && Encodes(Vector(win), win.payload, src)
    ensures var red := Reduce(rows, win);
            red.Innovative? ==> SoundRow(red.row, red.start, src)
    decreases if IsEmpty(win.coeffs) then 0 else BLOCK_SIZE - win.start
  {
    if IsEmpty(win.coeffs) {
    } else if rows[win.start].Empty? {
      hide Encodes, Scale, NewRow, Vector, InvVec;
      NewRowScales(win);
      EncodesScale(Vector(win), win.payload, InvVec(win.coeffs[0]), src);
    } else {
      PassSound(rows, win, end, src);
      PassSubtractsRow(rows, win, end);
      hide Encodes, Pass, Vector, EndsAt, Covers, SoundRows;
      ReduceSound(rows, Pass(rows, win), end, src);
    }
  }

  lemma PassSound(rows: seq<Row>, win: Window, end: nat, src: seq<seq<byte>>)
    requires ValidRows(rows) && Ready(win) && !IsEmpty(win.coeffs) && rows[win.start].Filled?
    requires Covers(rows, end) && EndsAt(win, end) && IsBlock(src)
    requires SoundRows(rows, src) && Encodes(Vector(win), win.payload, src)
    ensures var next := Pass(rows, win); Encodes(Vector(next), next.payload, src)
  {
    assert ValidRow(rows[win.start], win.start) && SoundRow(rows[win.start], win.start, src);
    hide Encodes, Vector, EndsAt, Covers, AddScaled, Dense, Subtract, ShiftRow;
    PassSubtractsRow(rows, win, end);
    EncodesAddScaled(Vector(win), win.payload, win.coeffs[0], Dense(rows[win.start], win.start),
      rows[win.start].content, src);
  }

  /** An uncoded packet needs no covering window: it fills its own row, or is dropped. */
  lemma UncodedReduces(rows: seq<Row>, win: Window)
    requires ValidRows(rows) && Ready(win) && win.coeffs == [1]
    ensures win.start < BLOCK_SIZE
    ensures Reduce(rows, win).Innovative? <==> rows[win.start].Empty?
    ensures rows[win.start].Empty? ==> Reduce(rows, win) == Innovative(win.start, NewRow(win))
  {
    hide Add, Mul, NewRow;
    assert win.coeffs[0] == 1;
    if rows[win.start].Filled? {
      assert IsEmpty(Pass(rows, win).coeffs);
    }
  }

  /** The packet can be reduced without loss: uncoded, or its window covers the rows it meets. */
  ghost predicate Covered(b: Block, pkt: DataPacket)
    requires |b.rows| == BLOCK_SIZE
  {
    pkt.flag.Coded? ==> Covers(b.rows, pkt.start + pkt.num)
  }

  lemma AbsorbedRowSound(b: Block, pkt: DataPacket, src: seq<seq<byte>>)
    requires IsBlock(src) && BlockOf(b, src) && PacketOf(pkt, src) && Covered(b, pkt)
    ensures var red := Reduce(b.rows, FirstWindow(pkt));
            red.Innovative? ==> SoundRow(red.row, red.start, src)
  {
    hide Encodes, PacketCoeffs, Dense;
    FirstWindowFits(pkt);
    var win := FirstWindow(pkt);
    if pkt.flag.Coded? {
      hide FirstWindow, Reduce;
      ReduceSound(b.rows, win, pkt.start + pkt.num, src);
    } else {
      FirstWindowUncoded(pkt);
      hide FirstWindow, Reduce;
      UncodedReduces(b.rows, win);
      if b.rows[win.start].Empty? {
        NewRowScales(win);
        hide Scale, NewRow, Vector, InvVec;
        EncodesScale(Vector(win), win.payload, InvVec(win.coeffs[0]), src);
      }
    }
  }

  lemma FirstWindowUncoded(pkt: DataPacket)
    requires WellFormed(pkt) && pkt.flag.Normal?
    ensures FirstWindow(pkt) == Window(pkt.start, [1], pkt.payload)
  {
    assert Lead([1]) == 0;
    assert ShiftRow([1]) == [1];
  }

  /** Receiving a packet of the block keeps every stored row a true equation. */
  lemma AbsorbSound(b: Block, pkt: DataPacket, src: seq<seq<byte>>)
    requires IsBlock(src) && BlockOf(b, src) && PacketOf(pkt, src) && Covered(b, pkt)
    requires pkt.start + pkt.num <= b.top
    ensures BlockOf(Absorb(b, pkt), src)
  {
    AbsorbValid(b, pkt);
    AbsorbedRowSound(b, pkt, src);
    hide Reduce, FirstWindow, Encodes, ValidRows, Dense;
  }

  /** Windows at least as wide as those received so far keep covering the rows. */
  lemma AbsorbCovers(b: Block, pkt: DataPacket, end: nat)
    requires ValidBlock(b) && WellFormed(pkt) && Covered(b, pkt)
    requires Covers(b.rows, end) && end <= BLOCK_SIZE && (pkt.flag.Coded? ==> pkt.start + pkt.num <= end)
    ensures Covers(Absorb(b, pkt).rows, end)
  {
    hide Reduce, FirstWindow, Add, Mul;
    FirstWindowFits(pkt);
    var win := FirstWindow(pkt);
    ReduceFillsEmptyRow(b.rows, win);
    if pkt.flag.Coded? {
      ReduceFits(b.rows, win, pkt.start + pkt.num);
    } else {
      FirstWindowUncoded(pkt);
      UncodedReduces(b.rows, win);
    }
  }

  // ---------------------------------------------------------------------------------------------
  // Back-substitution

  lemma SolvedContent(b: Block, src: seq<seq<byte>>, r: nat)
    requires IsBlock(src) && BlockOf(b, src) && r < BLOCK_SIZE && Solved(b.rows[r])
    ensures r < |src| && b.rows[r].content == src[r]
  {
    assert ValidRow(b.rows[r], r) && SoundRow(b.rows[r], r, src);
    EncodesUnit(Dense(b.rows[r], r), r, b.rows[r].content, src);
  }

  /** The coefficients of row r with those at offsets 1 to k - 1 cleared. */
  ghost function Cleared(row: Row, r: nat, k: nat): (v: seq<byte>)
    ensures |v| == BLOCK_SIZE
  {
    seq(BLOCK_SIZE, c requires 0 <= c < BLOCK_SIZE => if r < c < r + k then 0 else Entry(row, r, c))
  }

  /** Substituting a solved row clears its coefficient and keeps the equation true. */
  lemma {:induction false} SubstitutedSound(rows: seq<Row>, r: nat, k: nat, src: seq<seq<byte>>)
    requires ValidRows(rows) && r < BLOCK_SIZE && rows[r].Filled? && 1 <= k <= |rows[r].coeffs|
    requires ValidRow(rows[r], r)
    requires forall i :: 1 <= i < k && rows[r].coeffs[i] != 0 ==> rows[r + i].Filled? && Solved(rows[r + i])
    requires IsBlock(src) && SoundRows(rows, src)
    ensures Encodes(Cleared(rows[r], r, k), Substituted(rows, r, k), src)
    decreases k
  {
    hide Encodes, Add, Mul;
    assert ValidRow(rows[r], r);
    if k == 1 {
      assert Cleared(rows[r], r, 1) == Dense(rows[r], r);
    } else {
      SubstitutedSound(rows, r, k - 1, src);
      var a, s := rows[r].coeffs[k - 1], r + k - 1;
      var v := Cleared(rows[r], r, k - 1);
      if a == 0 {
        assert Cleared(rows[r], r, k) == v;
      } else {
        assert ValidRow(rows[s], s);
        var d := Dense(rows[s], s);
        ClearingStep(rows, r, k);
        EncodesAddScaled(v, Substituted(rows, r, k - 1), a, d, rows[s].content, src);
      }
    }
  }

  lemma ClearingStep(rows: seq<Row>, r: nat, k: nat)
    requires ValidRows(rows) && r < BLOCK_SIZE && rows[r].Filled? && 2 <= k <= |rows[r].coeffs|
    requires ValidRow(rows[r], r) && Solved(rows[r + k - 1])
    ensures Cleared(rows[r], r, k)
         == AddScaled(Cleared(rows[r], r, k - 1), rows[r].coeffs[k - 1], Dense(rows[r + k - 1], r + k - 1))
  {
    hide Add, Mul;
    var a, s := rows[r].coeffs[k - 1], r + k - 1;
    assert ValidRow(rows[s], s);
    MulZeroLeft(a);
    var lhs, rhs := Cleared(rows[r], r, k), AddScaled(Cleared(rows[r], r, k - 1), a, Dense(rows[s], s));
    forall c | 0 <= c < BLOCK_SIZE ensures lhs[c] == rhs[c] {
      AddZero(Cleared(rows[r], r, k - 1)[c]);
      if c == s {
        MulCommutes(1, a);
        MulOne(a);
        AddSelf(a);
      }
    }
  }

  lemma UnwrapRowSound(rows: seq<Row>, r: nat, src: seq<seq<byte>>)
    requires ValidRows(rows) && r < BLOCK_SIZE && Closed(rows, r)
    requires forall c :: r < c < BLOCK_SIZE && Entry(rows[r], r, c) != 0 ==> Solved(rows[c])
    requires IsBlock(src) && SoundRows(rows, src)
    ensures Encodes(Dense(UnwrapRow(rows, r), r), UnwrapRow(rows, r).content, src)
  {
    hide Encodes, Substituted;
    assert ValidRow(rows[r], r);
    var n := |rows[r].coeffs|;
    forall i | 1 <= i < n && rows[r].coeffs[i] != 0 ensures Solved(rows[r + i]) {
      assert Entry(rows[r], r, r + i) != 0;
    }
    SubstitutedSound(rows, r, n, src);
    assert Cleared(rows[r], r, n) == Dense(UnwrapRow(rows, r), r);
  }

  /** What rows lo to hi - 1 mention from row hi on is solved already. */
  ghost predicate SolvedFrom(rows: seq<Row>, lo: nat, hi: nat)
    requires |rows| == BLOCK_SIZE
  {
    forall r, c :: lo <= r < hi <= c < BLOCK_SIZE && Entry(rows[r], r, c) != 0 ==> Solved(rows[c])
  }

  lemma UnwrapStep(rows: seq<Row>, lo: nat, hi: nat, src: seq<seq<byte>>)
    requires ValidRows(rows) && lo < hi <= BLOCK_SIZE && IsBlock(src) && SoundRows(rows, src)
    requires Closed(rows, hi - 1) && SolvedFrom(rows, lo, hi)
    ensures var next := rows[hi - 1 := UnwrapRow(rows, hi - 1)];
            SoundRows(next, src) && SolvedFrom(next, lo, hi - 1)
  {
    UnwrapRowSound(rows, hi - 1, src);
    hide Encodes, Dense, UnwrapRow, Closed, Entry, ValidRows;
  }

  lemma NextValid(rows: seq<Row>, lo: nat, hi: nat)
    requires ValidRows(rows) && lo < hi <= BLOCK_SIZE
    requires forall r :: lo <= r < hi ==> Closed(rows, r)
    ensures Closed(rows, hi - 1)
    ensures var next := rows[hi - 1 := UnwrapRow(rows, hi - 1)];
            ValidRows(next) && forall r :: lo <= r < hi - 1 ==> Closed(next, r)
  {
    hide Entry;
    assert Closed(rows, hi - 1);
    var row := UnwrapRow(rows, hi - 1);
    hide UnwrapRow;
    var next := rows[hi - 1 := row];
    forall r | 0 <= r < BLOCK_SIZE ensures ValidRow(next[r], r) {
      assert ValidRow(rows[r], r);
    }
    forall r | lo <= r < hi - 1 ensures Closed(next, r) {
      assert Closed(rows, r) && next[r] == rows[r];
    }
  }

  /** Back-substitution from the top keeps every equation true. */
  lemma {:induction false} UnwrapRowsSound(rows: seq<Row>, lo: nat, hi: nat, src: seq<seq<byte>>)
    requires ValidRows(rows) && hi <= BLOCK_SIZE && IsBlock(src) && SoundRows(rows, src)
    requires forall r :: lo <= r < hi ==> Closed(rows, r)
    requires SolvedFrom(rows, lo, hi)
    ensures SoundRows(UnwrapRows(rows, lo, hi), src)
    decreases hi
  {
    hide SoundRows, SolvedFrom, Encodes, Entry, ValidRow;
    if lo < hi {
      NextValid(rows, lo, hi);
      hide UnwrapRow, Closed, ValidRows;
      UnwrapStep(rows, lo, hi, src);
      UnwrapRowsSound(rows[hi - 1 := UnwrapRow(rows, hi - 1)], lo, hi - 1, src);
    }
  }

  /** The last row below the highest packet index has nothing to substitute. */
  lemma LastRowSolved(b: Block)
    requires ValidBlock(b) && b.top > 0 && b.dofs == b.top
    ensures Solved(b.rows[b.top - 1])
    ensures forall r, c :: 0 <= r < b.top && b.top <= c < BLOCK_SIZE ==> Entry(b.rows[r], r, c) == 0
  {
    FullBelowTop(b);
    var last := b.rows[b.top - 1];
    assert ValidRow(last, b.top - 1);
    forall i | 1 <= i < |last.coeffs| ensures last.coeffs[i] == 0 {
      assert Entry(last, b.top - 1, b.top - 1 + i) == 0;
    }
  }

  /** With all equations there, unwrap keeps them true and leaves each row a source packet. */
  lemma UnwrapSound(b: Block, src: seq<seq<byte>>)
    requires IsBlock(src) && BlockOf(b, src) && b.dofs == b.top
    ensures BlockOf(Unwrap(b), src)
    ensures forall r :: 0 <= r < b.top ==> Unwrap(b).rows[r].Filled? && Unwrap(b).rows[r].content == src[r]
  {
    hide Encodes, Dense, SoundRow, Covers;
    TopRowsClosed(b);
    UnwrapValid(b);
    var b' := Unwrap(b);
    if b.top > 0 {
      LastRowSolved(b);
      assert SolvedFrom(b.rows, b.pushed, b.top - 1);
      hide Closed, SolvedFrom;
      UnwrapRowsSound(b.rows, b.pushed, b.top - 1, src);
    }
    forall r | 0 <= r < b.top ensures b'.rows[r].Filled? && b'.rows[r].content == src[r] {
      SolvedContent(b', src, r);
    }
  }

  lemma UnwrapCovers(b: Block, end: nat)
    requires ValidBlock(b) && b.dofs == b.top && Covers(b.rows, end)
    ensures Covers(Unwrap(b).rows, end)
  {
    UnwrapValid(b);
    TopRowsClosed(b);
  }

  // ---------------------------------------------------------------------------------------------
  // Delivery

  lemma ContentsAreSource(b: Block, src: seq<seq<byte>>, lo: nat, hi: nat)
    requires IsBlock(src) && BlockOf(b, src) && lo <= hi <= BLOCK_SIZE
    requires forall r :: lo <= r < hi ==> b.rows[r].Filled? && Solved(b.rows[r])
    ensures hi <= |src| || lo == hi
    ensures lo <= hi <= |src| ==> Contents(b.rows, lo, hi) == src[lo..hi]
  {
    forall r | lo <= r < hi ensures r < |src| && b.rows[r].content == src[r] {
      SolvedContent(b, src, r);
    }
    if lo < hi {
      assert b.rows[hi - 1].content == src[hi - 1];
    }
  }

  /** partial_write pushes the data of the next source packets, each once and in order. */
  lemma PartialWriteDelivers(b: Block, room: nat, src: seq<seq<byte>>)
    requires IsBlock(src) && BlockOf(b, src)
    ensures var (b', bytes) := PartialWrite(b, room);
            && BlockOf(b', src)
            && b'.dofs == b.dofs && b'.top == b.top
            && b.pushed <= b'.pushed <= |src|
            && Bytes(src[..b'.pushed]) == Bytes(src[..b.pushed]) + bytes
  {
    hide Encodes, Dense, Bytes, Data, Unwrap, Covers, ValidRows, SoundRows, Count;
    PushedBelowTop(b);
    UnwrapValid(b);
    if b.dofs == b.top {
      UnwrapSound(b, src);
    }
    PartialWriteValid(b, room);
    var b1 := if b.dofs == b.top then Unwrap(b) else b;
    var (b', bytes) := PartialWrite(b, room);
    hide ReadyEnd;
    ContentsAreSource(b1, src, b.pushed, b'.pushed);
    BytesConcat(src[..b.pushed], src[b.pushed..b'.pushed]);
    assert src[..b.pushed] + src[b.pushed..b'.pushed] == src[..b'.pushed];
  }

  lemma PushedBelowTop(b: Block)
    requires ValidBlock(b)
    ensures b.pushed <= b.top
  {
    assert b.top < BLOCK_SIZE ==> b.rows[b.top].Empty?;
  }

  lemma PartialWriteCovers(b: Block, room: nat, end: nat)
    requires ValidBlock(b) && Covers(b.rows, end)
    ensures Covers(PartialWrite(b, room).0.rows, end)
  {
    if b.dofs == b.top {
      UnwrapCovers(b, end);
    }
  }

  /** Writing out a full block pushes the data of all remaining source packets. */
  lemma WriteBlockDelivers(b: Block, src: seq<seq<byte>>)
    requires IsBlock(src) && BlockOf(b, src) && b.dofs == b.len
    ensures |src| == BLOCK_SIZE && b.pushed <= BLOCK_SIZE
    ensures Bytes(src) == Bytes(src[..b.pushed]) + WriteBlock(b)
  {
    hide Encodes, Dense, Bytes, Data, ValidBlock, SoundRows, Unwrap, WriteBlock, Contents;
    FullUnwraps(b);
    UnwrapValid(b);
    UnwrapSound(b, src);
    ContentsAreSource(Unwrap(b), src, b.pushed, BLOCK_SIZE);
    BytesConcat(src[..b.pushed], src[b.pushed..]);
    assert src[b.pushed..BLOCK_SIZE] == src[b.pushed..];
    assert src[..b.pushed] + src[b.pushed..] == src;
  }

  lemma BlockOfGrow(b: Block, src: seq<seq<byte>>, src': seq<seq<byte>>)
    requires IsBlock(src) && IsBlock(src') && src <= src' && BlockOf(b, src)
    ensures BlockOf(b, src')
  {
    hide Encodes, Dense;
    forall r | 0 <= r < BLOCK_SIZE ensures SoundRow(b.rows[r], r, src') {
      if b.rows[r].Filled? {
        assert SoundRow(b.rows[r], r, src);
        EncodesGrow(Dense(b.rows[r], r), b.rows[r].content, src, src');
      }
    }
  }
}
