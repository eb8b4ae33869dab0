/**
 Coded packets narrower than a stored row: bldack subtracts the whole row from the payload, but keeps
 only as many coefficients as the packet came with. This is why coded packets of a block must arrive
 in order of their widths.
 */
module NarrowWindows {
  import opened Config
  import opened FieldTables
  import opened Gf256
  import opened Linear
  import opened Elimination
  import opened Framing
  import opened Packets
  import opened Recovery

  /** The stored row has no coefficient beyond the window that meets it. */
  ghost predicate RowWithin(rows: seq<Row>, win: Window)
    requires |rows| == BLOCK_SIZE && win.start < BLOCK_SIZE
  {
    forall c :: win.start + |win.coeffs| <= c < BLOCK_SIZE ==> Entry(rows[win.start], win.start, c) == 0
  }

  /** The window meets a stored row with a coefficient in column c, which is beyond the window. */
  ghost predicate Narrow(rows: seq<Row>, win: Window, c: nat)
  {
    && ValidRows(rows) && Ready(win) && !IsEmpty(win.coeffs) && rows[win.start].Filled?
    && win.start + |win.coeffs| <= c < BLOCK_SIZE && Entry(rows[win.start], win.start, c) != 0
  }

  /** A pass subtracts a multiple of the stored row from the window if and only if the window covers that row. */
  lemma PassIsSubtraction(rows: seq<Row>, win: Window)
    requires ValidRows(rows) && Ready(win) && !IsEmpty(win.coeffs) && rows[win.start].Filled?
    ensures RowWithin(rows, win)
      <==> Vector(Pass(rows, win)) == AddScaled(Vector(win), win.coeffs[0], Dense(rows[win.start], win.start))
  {
    hide Add, Mul, ShiftRow, Lead;
    var s, a, row := win.start, win.coeffs[0], rows[win.start];
    assert ValidRow(row, s);
    var w := Subtract(win.coeffs, row.coeffs, a);
    SubtractFits(win, row);
    ShiftPlaced(s, w, BLOCK_SIZE);
    var d := AddScaled(Vector(win), a, Dense(row, s));
    assert Vector(Pass(rows, win)) == Place(s, w);
    forall c | 0 <= c < BLOCK_SIZE
      ensures Place(s, w)[c] == d[c] <==> (c < s + |win.coeffs| || Entry(row, s, c) == 0)
    {
      ColumnOfPass(win, row, c);
    }
  }

  lemma SubtractFits(win: Window, row: Row)
    requires Ready(win) && row.Filled? && ValidRow(row, win.start)
    ensures Fits(win.start, Subtract(win.coeffs, row.coeffs, if win.coeffs == [] then 0 else win.coeffs[0]), BLOCK_SIZE)
  {
    hide Add, Mul;
  }

  /** One column of a pass. */
  lemma ColumnOfPass(win: Window, row: Row, c: nat)
    requires Ready(win) && !IsEmpty(win.coeffs) && win.start < BLOCK_SIZE && row.Filled? && ValidRow(row, win.start)
    requires c < BLOCK_SIZE
    ensures var (s, a) := (win.start, win.coeffs[0]);
            (c < s + |win.coeffs| || Entry(row, s, c) == 0)
            <==> Place(s, Subtract(win.coeffs, row.coeffs, a))[c] == AddScaled(Vector(win), a, Dense(row, s))[c]
  {
    hide Add, Mul;
    var s, a, e := win.start, win.coeffs[0], Entry(row, win.start, c);
    MulZeroLeft(a);
    AddZero(0);
    AddZero(Mul(e, a));
    if c == s {
      MulCommutes(1, a);
      MulOne(a);
      AddSelf(a);
    } else if s < c < s + |win.coeffs| {
      AddZero(win.coeffs[c - s]);
    } else if c > s && e != 0 {
      MulNonzero(e, a);
    }
  }

  // ---------------------------------------------------------------------------------------------
  // Soundness over all source packets

  /** The stored rows, their contents replaced by what their coefficients name of the source packets. */
  function Loaded(rows: seq<Row>, src: seq<seq<byte>>): (r: seq<Row>)
    requires ValidRows(rows) && IsBlock(src) && |src| == BLOCK_SIZE
    ensures ValidRows(r)
    ensures forall i :: 0 <= i < BLOCK_SIZE ==> r[i].Filled? == rows[i].Filled? && Dense(r[i], i) == Dense(rows[i], i)
  {
    assert forall i :: 0 <= i < BLOCK_SIZE ==> ValidRow(rows[i], i);
    seq(BLOCK_SIZE, i requires 0 <= i < BLOCK_SIZE =>
      if rows[i].Filled? then Filled(rows[i].coeffs, Combine(Dense(rows[i], i), src)) else Empty)
  }

  /** The same for the window of a packet. */
  function Carrying(win: Window, src: seq<seq<byte>>): (w: Window)
    requires Ready(win) && IsBlock(src) && |src| == BLOCK_SIZE
    ensures Ready(w) && w.start == win.start && w.coeffs == win.coeffs
  {
    win.(payload := Combine(Vector(win), src))
  }

  /** Loading makes all equations true. */
  lemma LoadedIsSound(rows: seq<Row>, win: Window, src: seq<seq<byte>>)
    requires ValidRows(rows) && Ready(win) && IsBlock(src) && |src| == BLOCK_SIZE
    ensures SoundRows(Loaded(rows, src), src)
    ensures Encodes(Vector(Carrying(win, src)), Carrying(win, src).payload, src)
  {
    hide Dense, Dot;
    forall r | 0 <= r < BLOCK_SIZE ensures SoundRow(Loaded(rows, src)[r], r, src) {
      assert ValidRow(rows[r], r);
    }
  }

  /** What the pass leaves names the source packets it says it does. */
  ghost predicate PassSound(rows: seq<Row>, win: Window, src: seq<seq<byte>>)
    requires ValidRows(rows) && Ready(win) && !IsEmpty(win.coeffs) && rows[win.start].Filled?
    requires IsBlock(src) && |src| == BLOCK_SIZE
  {
    var next := Pass(Loaded(rows, src), Carrying(win, src));
    Encodes(Vector(next), next.payload, src)
  }

  /** A payload of ones, or of zeros. */
  function Flat(ones: bool): (p: seq<byte>)
    ensures |p| == PAYLOAD_SIZE && forall j :: 0 <= j < PAYLOAD_SIZE ==> p[j] == if ones then 1 else 0
  {
    seq(PAYLOAD_SIZE, _ => if ones then 1 else 0)
  }

  /** All packets are zero but one, which is all ones. */
  function OnlyPacket(c: nat): (src: seq<seq<byte>>)
    ensures |src| == BLOCK_SIZE
    ensures forall i :: 0 <= i < BLOCK_SIZE ==> src[i] == Flat(i == c)
    ensures IsBlock(src)
  {
    seq(BLOCK_SIZE, i => Flat(i == c))
  }

  /** A combination of these packets is the coefficient of the one. */
  lemma CombinationOfOne(v: seq<byte>, c: nat, j: nat)
    requires |v| == BLOCK_SIZE && c < BLOCK_SIZE && j < PAYLOAD_SIZE
    ensures Dot(v, OnlyPacket(c), j, BLOCK_SIZE) == v[c]
  {
    hide Add, Mul;
    DotOnly(v, OnlyPacket(c), j, BLOCK_SIZE, c);
    MulCommutes(1, v[c]);
    MulOne(v[c]);
  }

  /**
   For every window and every stored row it meets, whatever their coefficients: a pass turns true
   equations into a true equation for all source packets if and only if the window covers the row.
   */
  lemma PassIsSoundIfCovered(rows: seq<Row>, win: Window)
    requires ValidRows(rows) && Ready(win) && !IsEmpty(win.coeffs) && rows[win.start].Filled?
    ensures RowWithin(rows, win) <==> forall src | IsBlock(src) && |src| == BLOCK_SIZE :: PassSound(rows, win, src)
  {
    hide Add, Mul, PassSound, AddScaled, Pass, Vector, Loaded, Carrying;
    if RowWithin(rows, win) {
      forall src | IsBlock(src) && |src| == BLOCK_SIZE ensures PassSound(rows, win, src) {
        CoveredPassSound(rows, win, src);
      }
    } else {
      var c :| win.start + |win.coeffs| <= c < BLOCK_SIZE && Entry(rows[win.start], win.start, c) != 0;
      NarrowPassResult(rows, win, c);
      var next := Pass(Loaded(rows, OnlyPacket(c)), Carrying(win, OnlyPacket(c)));
      EncodesOnly(Vector(next), next.payload, c);
      assert !PassSound(rows, win, OnlyPacket(c)) by {
        PassSoundMeans(rows, win, OnlyPacket(c));
      }
    }
  }

  lemma PassSoundMeans(rows: seq<Row>, win: Window, src: seq<seq<byte>>)
    requires ValidRows(rows) && Ready(win) && !IsEmpty(win.coeffs) && rows[win.start].Filled?
    requires IsBlock(src) && |src| == BLOCK_SIZE
    ensures var next := Pass(Loaded(rows, src), Carrying(win, src));
            PassSound(rows, win, src) <==> Encodes(Vector(next), next.payload, src)
  {
  }

  lemma CoveredPassSound(rows: seq<Row>, win: Window, src: seq<seq<byte>>)
    requires ValidRows(rows) && Ready(win) && !IsEmpty(win.coeffs) && rows[win.start].Filled?
    requires RowWithin(rows, win) && IsBlock(src) && |src| == BLOCK_SIZE
    ensures PassSound(rows, win, src)
  {
    hide Add, Mul, AddScaled, Encodes, Dense, Place, Subtract, ShiftRow, Loaded, Carrying;
    var r, w := Loaded(rows, src), Carrying(win, src);
    LoadedIsSound(rows, win, src);
    SameEntries(rows, src, win.start);
    PassIsSubtraction(r, w);
    assert SoundRow(r[w.start], w.start, src);
    EncodesAddScaled(Vector(w), w.payload, w.coeffs[0], Dense(r[w.start], w.start), r[w.start].content, src);
  }

  lemma SameEntries(rows: seq<Row>, src: seq<seq<byte>>, s: nat)
    requires ValidRows(rows) && IsBlock(src) && |src| == BLOCK_SIZE && s < BLOCK_SIZE
    ensures forall c :: 0 <= c < BLOCK_SIZE ==> Entry(Loaded(rows, src)[s], s, c) == Entry(rows[s], s, c)
  {
    hide Loaded;
    forall c | 0 <= c < BLOCK_SIZE ensures Entry(Loaded(rows, src)[s], s, c) == Entry(rows[s], s, c) {
      assert Dense(Loaded(rows, src)[s], s)[c] == Dense(rows[s], s)[c];
    }
  }

  /** A packet in column c beyond the window ends up in the payload, but not among the coefficients. */
  lemma NarrowPassResult(rows: seq<Row>, win: Window, c: nat)
    requires Narrow(rows, win, c)
    ensures var next := Pass(Loaded(rows, OnlyPacket(c)), Carrying(win, OnlyPacket(c)));
            Vector(next)[c] == 0 && next.payload[0] != 0
  {
    hide Add, Mul, Dot, Subtract, ShiftRow, Lead;
    var src, s, a := OnlyPacket(c), win.start, win.coeffs[0];
    var e := Entry(rows[s], s, c);
    CombinationOfOne(Vector(win), c, 0);
    CombinationOfOne(Dense(rows[s], s), c, 0);
    assert Pass(Loaded(rows, src), Carrying(win, src)).payload[0] == Add(0, Mul(e, a));
    AddZero(Mul(e, a));
    MulNonzero(e, a);
    PassStaysNarrow(Loaded(rows, src), Carrying(win, src), c);
  }

  lemma PassStaysNarrow(rows: seq<Row>, win: Window, c: nat)
    requires ValidRows(rows) && Ready(win) && !IsEmpty(win.coeffs) && rows[win.start].Filled?
    requires win.start + |win.coeffs| <= c < BLOCK_SIZE
    ensures Vector(Pass(rows, win))[c] == 0
  {
    hide Add, Mul, ShiftRow, Lead;
    assert ValidRow(rows[win.start], win.start);
    var w := Subtract(win.coeffs, rows[win.start].coeffs, win.coeffs[0]);
    SubtractFits(win, rows[win.start]);
    ShiftPlaced(win.start, w, BLOCK_SIZE);
  }

  // ---------------------------------------------------------------------------------------------
  // What a narrow packet leaves behind

  /**
   Whatever the coefficients: if what a narrow packet leaves after the pass is stored, there are source
   packets for which all rows and the packet were true equations and the row stored is a false one.
   */
  lemma NarrowPacketBreaksRow(rows: seq<Row>, win: Window, c: nat)
    requires Narrow(rows, win, c)
    requires var next := Pass(rows, win); !IsEmpty(next.coeffs) && rows[next.start].Empty?
    ensures var src := OnlyPacket(c);
            var (r, w) := (Loaded(rows, src), Carrying(win, src));
            && SoundRows(r, src) && Encodes(Vector(w), w.payload, src)
            && Reduce(r, w).Innovative?
            && !SoundRow(Reduce(r, w).row, Reduce(r, w).start, src)
  {
    hide Add, Mul, InvVec, Pass, NewRow, Encodes, Dense, Place, Loaded, Carrying, AddScaled;
    var src := OnlyPacket(c);
    var r, w := Loaded(rows, src), Carrying(win, src);
    LoadedIsSound(rows, win, src);
    SameWindow(rows, win, src);
    var next := Pass(r, w);
    assert Reduce(r, w) == Innovative(next.start, NewRow(next));
    NarrowPassResult(rows, win, c);
    NewRowScales(next);
    NewRowValid(next);
    var row, a := NewRow(next), InvVec(next.coeffs[0]);
    MulZeroLeft(a);
    MulNonzero(next.payload[0], a);
    EncodesOnly(Dense(row, next.start), row.content, c);
  }

  /** A pass moves the window by coefficients alone. */
  lemma SameWindow(rows: seq<Row>, win: Window, src: seq<seq<byte>>)
    requires ValidRows(rows) && Ready(win) && !IsEmpty(win.coeffs) && rows[win.start].Filled?
    requires IsBlock(src) && |src| == BLOCK_SIZE
    ensures var (next, next') := (Pass(rows, win), Pass(Loaded(rows, src), Carrying(win, src)));
            next'.start == next.start && next'.coeffs == next.coeffs
  {
    hide Add, Mul, ShiftRow, Lead, Dense, Dot, Entry;
    assert ValidRow(rows[win.start], win.start);
    assert Subtract(win.coeffs, Loaded(rows, src)[win.start].coeffs, win.coeffs[0])
        == Subtract(win.coeffs, rows[win.start].coeffs, win.coeffs[0]);
  }

  lemma EncodesOnly(v: seq<byte>, p: seq<byte>, c: nat)
    requires |v| == BLOCK_SIZE && |p| == PAYLOAD_SIZE && c < BLOCK_SIZE && v[c] == 0 && p[0] != 0
    ensures !Encodes(v, p, OnlyPacket(c))
  {
    CombinationOfOne(v, c, 0);
  }

  /** Such packets exist: a packet of width 2 that meets the sum of three packets. */
  lemma NarrowPacketExists() returns (rows: seq<Row>, win: Window)
    requires BLOCK_SIZE >= 3
    ensures Narrow(rows, win, 2)
    ensures var next := Pass(rows, win); !IsEmpty(next.coeffs) && rows[next.start].Empty?
  {
    hide Add, Mul;
    rows := seq(BLOCK_SIZE, r => if r == 0 then Filled([1, 1, 1], Flat(false)) else Empty);
    win := Window(0, [1, 0], Flat(false));
    MulOne(1);
    AddZero(1);
    var w := Subtract(win.coeffs, rows[0].coeffs, 1);
    assert w[0] == 0 && w[1..] == [1];
    assert Lead([1]) == 0;
    assert Lead(w) == 1;
    assert ShiftRow(w) == [1, 0];
    assert Pass(rows, win).coeffs == [1, 0];
    assert rows[1].Empty?;
  }
}
