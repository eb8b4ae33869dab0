/**
 The receiver's on-line Gaussian elimination on values: what bldack, shift_row, isEmpty and normalize
 of src/clictcp.c do with one packet. Row r of a block holds the coefficients of columns r, r + 1, ...
 and nothing else; an incoming packet is a window of coefficients that starts at some column.
 */
module Elimination {
  import opened Config
  import opened FieldTables
  import opened Gf256
  import opened Linear

  /** A row of the matrix: `coeffs` are its first row_len entries. */
  datatype Row = Empty | Filled(coeffs: seq<byte>, content: seq<byte>)

  ghost predicate ValidRow(row: Row, r: nat)
  {
    row.Filled? ==>
      && 1 <= |row.coeffs| <= BLOCK_SIZE - r
      && row.coeffs[0] == 1
      && |row.content| == PAYLOAD_SIZE
  }

  ghost predicate ValidRows(rows: seq<Row>)
  {
    |rows| == BLOCK_SIZE && forall r :: 0 <= r < BLOCK_SIZE ==> ValidRow(rows[r], r)
  }

  // ---------------------------------------------------------------------------------------------
  // The window the elimination works on

  /** The coefficients of columns start, start + 1, ..., and the payload they belong to. */
  datatype Window = Window(start: nat, coeffs: seq<byte>, payload: seq<byte>)

  predicate IsEmpty(w: seq<byte>)
  {
    forall i :: 0 <= i < |w| ==> w[i] == 0
  }

  /** The nonzero coefficients lie below column `end`. */
  ghost predicate Fits(start: nat, w: seq<byte>, end: nat)
  {
    forall i :: 0 <= i < |w| && w[i] != 0 ==> start + i < end
  }

  /** What the loop condition and shift_row establish before each pass. */
  ghost predicate Ready(win: Window)
  {
    && |win.payload| == PAYLOAD_SIZE
    && Fits(win.start, win.coeffs, BLOCK_SIZE)
    && (IsEmpty(win.coeffs) || win.coeffs[0] != 0)
  }

  /** The number of leading zeros. */
  function Lead(w: seq<byte>): (k: nat)
    ensures k <= |w|
    ensures forall i :: 0 <= i < k ==> w[i] == 0
    ensures k < |w| ==> w[k] != 0
  {
    if w == [] || w[0] != 0 then 0 else 1 + Lead(w[1..])
  }

  function ShiftRow(w: seq<byte>): (s: seq<byte>)
    ensures |s| == |w|
    ensures IsEmpty(s) || s[0] != 0
  {
    var k := Lead(w);
    assert k < |w| ==> (w[k..] + Zeros(k))[0] == w[k];
    w[k..] + Zeros(k)
  }

  /** The window minus a multiple of a row; entries of the row beyond the window are lost. */
  function Subtract(w: seq<byte>, coeffs: seq<byte>, pivot: byte): (s: seq<byte>)
    ensures |s| == |w|
  {
    seq(|w|, i requires 0 <= i < |w| =>
      if i == 0 then 0 else if i < |coeffs| then Add(w[i], Mul(coeffs[i], pivot)) else w[i])
  }

  lemma ShiftFits(start: nat, w: seq<byte>, end: nat)
    requires Fits(start, w, end)
    ensures Fits(start + Lead(w), ShiftRow(w), end)
  {
    var k, s := Lead(w), ShiftRow(w);
    forall i | 0 <= i < |s| && s[i] != 0 ensures start + k + i < end {
      assert w[k + i] != 0;
    }
  }

  // ---------------------------------------------------------------------------------------------
  // The elimination loop

  /** One pass of the loop of bldack against a stored row, lines 644 to 688. */
  function Pass(rows: seq<Row>, win: Window): (next: Window)
    requires ValidRows(rows) && Ready(win) && !IsEmpty(win.coeffs) && rows[win.start].Filled?
    ensures Ready(next) && |next.coeffs| == |win.coeffs| && next.start > win.start
  {
    hide Add, Mul;
    assert ValidRow(rows[win.start], win.start);
    var w := Subtract(win.coeffs, rows[win.start].coeffs, win.coeffs[0]);
    assert w[0] == 0;
    ShiftFits(win.start, w, BLOCK_SIZE);
    Window(win.start + Lead(w), ShiftRow(w), AddScaled(win.payload, win.coeffs[0], rows[win.start].content))
  }

  /** The row an innovative window becomes: cut to the block and normalized, lines 618 to 626. */
  function NewRow(win: Window): Row
    requires Ready(win) && !IsEmpty(win.coeffs)
  {
    var num := if |win.coeffs| < BLOCK_SIZE - win.start then |win.coeffs| else BLOCK_SIZE - win.start;
    var scale := InvVec(win.coeffs[0]);
    Filled(Scale(win.coeffs[..num], scale), Scale(win.payload, scale))
  }

  datatype Reduction = Dependent | Innovative(start: nat, row: Row)

  /** The loop of bldack, lines 616 to 690: the row the packet fills, or none. */
  function Reduce(rows: seq<Row>, win: Window): Reduction
    requires ValidRows(rows) && Ready(win)
    decreases if IsEmpty(win.coeffs) then 0 else BLOCK_SIZE - win.start
  {
    if IsEmpty(win.coeffs) then
      Dependent
    else if rows[win.start].Empty? then
      Innovative(win.start, NewRow(win))
    else
      Reduce(rows, Pass(rows, win))
  }

  lemma NewRowValid(win: Window)
    requires Ready(win) && !IsEmpty(win.coeffs)
    ensures NewRow(win).Filled? && ValidRow(NewRow(win), win.start)
  {
    hide Mul, InvVec;
    MulCommutes(win.coeffs[0], InvVec(win.coeffs[0]));
    MulInverse(win.coeffs[0]);
  }

  /** An innovative packet fills one empty row; the matrix stays in echelon form with leading ones. */
  lemma {:induction false} ReduceFillsEmptyRow(rows: seq<Row>, win: Window)
    requires ValidRows(rows) && Ready(win)
    ensures var red := Reduce(rows, win);
            red.Innovative? ==>
              && win.start <= red.start < BLOCK_SIZE
              && rows[red.start].Empty?
              && red.row.Filled?
              && ValidRows(rows[red.start := red.row])
    decreases if IsEmpty(win.coeffs) then 0 else BLOCK_SIZE - win.start
  {
    hide Pass, NewRow;
    if IsEmpty(win.coeffs) {
    } else if rows[win.start].Empty? {
      NewRowValid(win);
    } else {
      ReduceFillsEmptyRow(rows, Pass(rows, win));
    }
  }

  // ---------------------------------------------------------------------------------------------
  // Coefficient vectors over the whole block

  function Entry(row: Row, r: nat, c: nat): byte
  {
    if row.Filled? && r <= c < r + |row.coeffs| then row.coeffs[c - r] else 0
  }

  /** The coefficients of row r over all columns of the block. */
  function Dense(row: Row, r: nat): (v: seq<byte>)
    ensures |v| == BLOCK_SIZE
  {
    seq(BLOCK_SIZE, c requires 0 <= c < BLOCK_SIZE => Entry(row, r, c))
  }

  function Matrix(rows: seq<Row>): (m: seq<seq<byte>>)
    requires |rows| == BLOCK_SIZE
    ensures |m| == BLOCK_SIZE && forall r :: 0 <= r < BLOCK_SIZE ==> m[r] == Dense(rows[r], r)
  {
    seq(BLOCK_SIZE, r requires 0 <= r < BLOCK_SIZE => Dense(rows[r], r))
  }

  /** A window of coefficients placed at its start column. */
  function Place(start: nat, w: seq<byte>): (v: seq<byte>)
    ensures |v| == BLOCK_SIZE
  {
    seq(BLOCK_SIZE, c requires 0 <= c < BLOCK_SIZE => if start <= c < start + |w| then w[c - start] else 0)
  }

  /** The coefficients of a window over all columns of the block. */
  function Vector(win: Window): (v: seq<byte>)
    ensures |v| == BLOCK_SIZE
  {
    Place(win.start, win.coeffs)
  }

  /**
   The rows that a window ending at column `end` can meet are zero from `end` on. When they are not,
   the window loses coefficients that its payload keeps.
   */
  ghost predicate Covers(rows: seq<Row>, end: nat)
    requires |rows| == BLOCK_SIZE
  {
    forall r, c :: 0 <= r < end && end <= c < BLOCK_SIZE && r < BLOCK_SIZE ==> Entry(rows[r], r, c) == 0
  }

  /** The window holds all columns from its start to `end`, and nothing beyond. */
  ghost predicate EndsAt(win: Window, end: nat)
  {
    Fits(win.start, win.coeffs, end) && end <= win.start + |win.coeffs| && end <= BLOCK_SIZE
  }

  /** Subtracting a covered row stays within the window. */
  lemma SubtractCovered(rows: seq<Row>, win: Window, end: nat)
    requires ValidRows(rows) && Ready(win) && !IsEmpty(win.coeffs) && rows[win.start].Filled?
    requires Covers(rows, end) && EndsAt(win, end)
    ensures var (row, s, a) := (rows[win.start], win.start, win.coeffs[0]);
            var w := Subtract(win.coeffs, row.coeffs, a);
            && Fits(s, w, end)
            && forall c :: s < c < end ==> w[c - s] == Add(win.coeffs[c - s], Mul(Entry(row, s, c), a))
  {
    hide Add, Mul;
    var s, a, row := win.start, win.coeffs[0], rows[win.start];
    assert ValidRow(row, s);
    MulZeroLeft(a);
    AddZero(0);
    var w := Subtract(win.coeffs, row.coeffs, a);
    forall i | 0 <= i < |w| && s + i >= end ensures w[i] == 0 {
      assert win.coeffs[i] == 0;
      if i < |row.coeffs| {
        assert Entry(row, s, s + i) == 0;
      }
    }
    forall c | s < c < end ensures w[c - s] == Add(win.coeffs[c - s], Mul(Entry(row, s, c), a)) {
      AddZero(win.coeffs[c - s]);
    }
  }

  /** Shifting a window moves it along; its place among the columns stays. */
  lemma ShiftPlaced(start: nat, w: seq<byte>, end: nat)
    requires Fits(start, w, end) && end <= BLOCK_SIZE
    ensures Fits(start + Lead(w), ShiftRow(w), end)
    ensures Place(start + Lead(w), ShiftRow(w)) == Place(start, w)
  {
    ShiftFits(start, w, end);
    var k := Lead(w);
    forall c | 0 <= c < BLOCK_SIZE ensures Place(start + k, ShiftRow(w))[c] == Place(start, w)[c] {
      if start + k <= c < start + |w| {
        assert ShiftRow(w)[c - start - k] == w[c - start];
      }
    }
  }

  lemma SubtractPlaced(rows: seq<Row>, win: Window, end: nat)
    requires ValidRows(rows) && Ready(win) && !IsEmpty(win.coeffs) && rows[win.start].Filled?
    requires Covers(rows, end) && EndsAt(win, end)
    ensures Place(win.start, Subtract(win.coeffs, rows[win.start].coeffs, win.coeffs[0]))
         == AddScaled(Vector(win), win.coeffs[0], Dense(rows[win.start], win.start))
  {
    var s, a, row := win.start, win.coeffs[0], rows[win.start];
    assert ValidRow(row, s);
    hide Add, Mul;
    SubtractCovered(rows, win, end);
    var w := Subtract(win.coeffs, row.coeffs, a);
    var sum := AddScaled(Vector(win), a, Dense(row, s));
    MulZeroLeft(a);
    AddZero(0);
    forall c | 0 <= c < BLOCK_SIZE ensures Place(s, w)[c] == sum[c] {
      assert sum[c] == Add(Vector(win)[c], Mul(Entry(row, s, c), a));
      if c == s {
        MulCommutes(1, a);
        MulOne(a);
        AddSelf(a);
      } else if c >= end {
        assert Entry(row, s, c) == 0;
      }
    }
  }

  /** A pass subtracts a multiple of the whole stored row, when the window covers it. */
  lemma PassSubtractsRow(rows: seq<Row>, win: Window, end: nat)
    requires ValidRows(rows) && Ready(win) && !IsEmpty(win.coeffs) && rows[win.start].Filled?
    requires Covers(rows, end) && EndsAt(win, end)
    ensures EndsAt(Pass(rows, win), end)
    ensures Vector(Pass(rows, win)) == AddScaled(Vector(win), win.coeffs[0], Matrix(rows)[win.start])
  {
    hide Add, Mul, Place, AddScaled, Dense, Subtract, ShiftRow;
    SubtractCovered(rows, win, end);
    SubtractPlaced(rows, win, end);
    ShiftPlaced(win.start, Subtract(win.coeffs, rows[win.start].coeffs, win.coeffs[0]), end);
  }

  /** The row a window becomes is its vector and payload, scaled by the same factor. */
  lemma NewRowScales(win: Window)
    requires Ready(win) && !IsEmpty(win.coeffs)
    ensures InvVec(win.coeffs[0]) != 0
    ensures Dense(NewRow(win), win.start) == Scale(Vector(win), InvVec(win.coeffs[0]))
    ensures NewRow(win).content == Scale(win.payload, InvVec(win.coeffs[0]))
  {
    hide Mul, InvVec;
    var a := InvVec(win.coeffs[0]);
    MulInverse(win.coeffs[0]);
    MulZeroLeft(a);
    var d, v := Dense(NewRow(win), win.start), Scale(Vector(win), a);
    forall c | 0 <= c < BLOCK_SIZE ensures d[c] == v[c] {
    }
  }
}
