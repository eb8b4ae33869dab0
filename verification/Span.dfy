/**
 The elimination decides linear independence: a covered packet is dropped exactly when its coefficient
 vector is a combination of the stored rows, and storing it enlarges the span by that vector alone.
 */
module Span {
  import opened Config
  import opened FieldTables
  import opened Gf256
  import opened Linear
  import opened Elimination

  ghost predicate IsMatrix(m: seq<seq<byte>>)
  {
    |m| == BLOCK_SIZE && forall r :: 0 <= r < BLOCK_SIZE ==> |m[r]| == BLOCK_SIZE
  }

  /** v is the combination of the rows of m with coefficients c. */
  ghost predicate Combines(c: seq<byte>, m: seq<seq<byte>>, v: seq<byte>)
    requires IsMatrix(m) && |v| == BLOCK_SIZE
  {
    |c| == BLOCK_SIZE && forall j :: 0 <= j < BLOCK_SIZE ==> v[j] == Dot(c, m, j, BLOCK_SIZE)
  }

  ghost predicate InSpan(m: seq<seq<byte>>, v: seq<byte>)
    requires IsMatrix(m) && |v| == BLOCK_SIZE
  {
    exists c :: Combines(c, m, v)
  }

  // ---------------------------------------------------------------------------------------------
  // Spans are closed under linear combination

  lemma SpanZero(m: seq<seq<byte>>, v: seq<byte>)
    requires IsMatrix(m) && |v| == BLOCK_SIZE && IsEmpty(v)
    ensures InSpan(m, v)
  {
    hide Add, Mul;
    var c := Zeros(BLOCK_SIZE);
    forall j | 0 <= j < BLOCK_SIZE ensures v[j] == Dot(c, m, j, BLOCK_SIZE) {
      DotOnly(c, m, j, BLOCK_SIZE, BLOCK_SIZE);
    }
    assert Combines(c, m, v);
  }

  lemma SpanRow(m: seq<seq<byte>>, r: nat)
    requires IsMatrix(m) && r < BLOCK_SIZE
    ensures InSpan(m, m[r])
  {
    hide Add, Mul;
    var c := Unit(BLOCK_SIZE, r);
    forall j | 0 <= j < BLOCK_SIZE ensures m[r][j] == Dot(c, m, j, BLOCK_SIZE) {
      DotUnit(c, m, j, BLOCK_SIZE, r);
    }
    assert Combines(c, m, m[r]);
  }

  lemma SpanAddScaled(m: seq<seq<byte>>, u: seq<byte>, a: byte, v: seq<byte>)
    requires IsMatrix(m) && |u| == |v| == BLOCK_SIZE && InSpan(m, u) && InSpan(m, v)
    ensures InSpan(m, AddScaled(u, a, v))
  {
    hide Add, Mul;
    var c :| Combines(c, m, u);
    var d :| Combines(d, m, v);
    var e := AddScaled(c, a, d);
    forall j | 0 <= j < BLOCK_SIZE ensures AddScaled(u, a, v)[j] == Dot(e, m, j, BLOCK_SIZE) {
      DotAddScaled(c, a, d, e, m, j, BLOCK_SIZE);
    }
    assert Combines(e, m, AddScaled(u, a, v));
  }

  /** Adding a vector of the span neither leaves nor enters the span. */
  lemma SpanShift(m: seq<seq<byte>>, u: seq<byte>, a: byte, v: seq<byte>)
    requires IsMatrix(m) && |u| == |v| == BLOCK_SIZE && InSpan(m, v)
    ensures InSpan(m, AddScaled(u, a, v)) <==> InSpan(m, u)
  {
    hide Add, Mul, Combines, AddScaled;
    if InSpan(m, u) {
      SpanAddScaled(m, u, a, v);
    }
    if InSpan(m, AddScaled(u, a, v)) {
      SpanAddScaled(m, AddScaled(u, a, v), a, v);
      AddScaledTwice(u, a, v);
    }
  }

  // ---------------------------------------------------------------------------------------------
  // In echelon form a combination leads at a stored row

  /** Below the column where a combination leads, the stored rows have coefficient 0. */
  lemma {:induction false} LeadingCoefficients(rows: seq<Row>, c: seq<byte>, v: seq<byte>, s: nat, r: nat)
    requires ValidRows(rows) && |v| == BLOCK_SIZE && Combines(c, Matrix(rows), v)
    requires r < s <= BLOCK_SIZE && forall j :: 0 <= j < s ==> v[j] == 0
    ensures rows[r].Filled? ==> c[r] == 0
    decreases r
  {
    hide Add, Mul;
    forall k | 0 <= k < r ensures rows[k].Filled? ==> c[k] == 0 {
      LeadingCoefficients(rows, c, v, s, k);
    }
    if rows[r].Filled? {
      assert ValidRow(rows[r], r);
      DotOnly(c, Matrix(rows), r, BLOCK_SIZE, r);
      MulCommutes(1, c[r]);
      MulOne(c[r]);
    }
  }

  lemma SpanLeadsAtRow(rows: seq<Row>, v: seq<byte>, s: nat)
    requires ValidRows(rows) && |v| == BLOCK_SIZE && InSpan(Matrix(rows), v)
    requires s < BLOCK_SIZE && v[s] != 0 && forall j :: 0 <= j < s ==> v[j] == 0
    ensures rows[s].Filled?
  {
    hide Add, Mul;
    var m := Matrix(rows);
    var c :| Combines(c, m, v);
    if rows[s].Empty? {
      forall k | 0 <= k < BLOCK_SIZE ensures c[k] == 0 || m[k][s] == 0 {
        if k < s {
          LeadingCoefficients(rows, c, v, s, k);
        }
      }
      DotOnly(c, m, s, BLOCK_SIZE, BLOCK_SIZE);
      assert false;
    }
  }

  // ---------------------------------------------------------------------------------------------
  // The elimination loop decides membership in the span

  /** A covered window is dropped if and only if it is a combination of the stored rows. */
  lemma {:induction false} ReduceIsRankTest(rows: seq<Row>, win: Window, end: nat)
    requires ValidRows(rows) && Ready(win) && Covers(rows, end) && EndsAt(win, end)
    ensures Reduce(rows, win).Dependent? <==> InSpan(Matrix(rows), Vector(win))
    decreases if IsEmpty(win.coeffs) then 0 else BLOCK_SIZE - win.start
  {
    hide Add, Mul, InSpan, Pass, Covers, EndsAt, NewRow, AddScaled, Matrix;
    var m := Matrix(rows);
    if IsEmpty(win.coeffs) {
      SpanZero(m, Vector(win));
    } else if rows[win.start].Empty? {
      assert Vector(win)[win.start] == win.coeffs[0];
      if InSpan(m, Vector(win)) {
        SpanLeadsAtRow(rows, Vector(win), win.start);
      }
    } else {
      PassSubtractsRow(rows, win, end);
      ReduceIsRankTest(rows, Pass(rows, win), end);
      SpanRow(m, win.start);
      SpanShift(m, Vector(win), win.coeffs[0], m[win.start]);
    }
  }

  // ---------------------------------------------------------------------------------------------
  // Storing an innovative packet enlarges the span by its vector

  /** f and v are equal up to vectors of the span. */
  ghost predicate Congruent(m: seq<seq<byte>>, f: seq<byte>, v: seq<byte>)
    requires IsMatrix(m) && |f| == |v| == BLOCK_SIZE
  {
    forall u: seq<byte>, b: byte | |u| == BLOCK_SIZE ::
      InSpan(m, AddScaled(u, b, f)) <==> InSpan(m, AddScaled(u, b, v))
  }

  lemma CongruentStep(m: seq<seq<byte>>, v: seq<byte>, a: byte, r: nat)
    requires IsMatrix(m) && |v| == BLOCK_SIZE && r < BLOCK_SIZE
    ensures Congruent(m, AddScaled(v, a, m[r]), v)
  {
    hide Add, Mul, InSpan, AddScaled;
    SpanRow(m, r);
    forall u: seq<byte>, b: byte | |u| == BLOCK_SIZE
      ensures InSpan(m, AddScaled(u, b, AddScaled(v, a, m[r]))) <==> InSpan(m, AddScaled(u, b, v))
    {
      AddScaledSum(u, b, v, a, m[r]);
      SpanShift(m, AddScaled(u, b, v), Mul(a, b), m[r]);
    }
  }

  /** The stored row is a nonzero multiple of the packet's vector, up to vectors of the span. */
  lemma {:induction false} ReduceCongruent(rows: seq<Row>, win: Window, end: nat) returns (f: seq<byte>, a: byte)
    requires ValidRows(rows) && Ready(win) && Covers(rows, end) && EndsAt(win, end)
    requires Reduce(rows, win).Innovative?
    ensures |f| == BLOCK_SIZE && a != 0
    ensures var red := Reduce(rows, win); Dense(red.row, red.start) == Scale(f, a)
    ensures Congruent(Matrix(rows), f, Vector(win))
    decreases if IsEmpty(win.coeffs) then 0 else BLOCK_SIZE - win.start
  {
    hide Add, Mul, InSpan, Pass, Covers, EndsAt, NewRow, AddScaled, Matrix, Scale, InvVec;
    if rows[win.start].Empty? {
      f, a := Vector(win), InvVec(win.coeffs[0]);
      NewRowScales(win);
    } else {
      PassSubtractsRow(rows, win, end);
      f, a := ReduceCongruent(rows, Pass(rows, win), end);
      CongruentStep(Matrix(rows), Vector(win), win.coeffs[0], win.start);
    }
  }

  lemma SpanOfExtended(m: seq<seq<byte>>, s: nat, e: seq<byte>, u: seq<byte>, c: seq<byte>)
    requires IsMatrix(m) && s < BLOCK_SIZE && |e| == |u| == |c| == BLOCK_SIZE && IsEmpty(m[s])
    requires Combines(c, m[s := e], u)
    ensures InSpan(m, AddScaled(u, c[s], e))
  {
    hide Add, Mul;
    var u1 := AddScaled(u, c[s], e);
    forall j | 0 <= j < BLOCK_SIZE ensures u1[j] == Dot(c, m, j, BLOCK_SIZE) {
      DotReplaceRow(c, m, j, BLOCK_SIZE, s, e);
      AddTwice(Dot(c, m, j, BLOCK_SIZE), Mul(e[j], c[s]));
    }
    assert Combines(c, m, u1);
  }

  lemma SpanIntoExtended(m: seq<seq<byte>>, s: nat, e: seq<byte>, u: seq<byte>, a: byte)
    requires IsMatrix(m) && s < BLOCK_SIZE && |e| == |u| == BLOCK_SIZE && IsEmpty(m[s])
    requires InSpan(m, AddScaled(u, a, e))
    ensures InSpan(m[s := e], u)
  {
    hide Add, Mul;
    var c :| Combines(c, m, AddScaled(u, a, e));
    var d := c[s := a];
    forall j | 0 <= j < BLOCK_SIZE ensures u[j] == Dot(d, m[s := e], j, BLOCK_SIZE) {
      DotReplaceCoefficient(c, m, j, BLOCK_SIZE, s, a);
      DotReplaceRow(d, m, j, BLOCK_SIZE, s, e);
      AddTwice(u[j], Mul(e[j], a));
    }
    assert Combines(d, m[s := e], u);
  }

  /**
   After an innovative packet the rows span exactly the sums of a vector of the old span and a
   multiple of the packet's vector.
   */
  lemma ReduceExtendsSpan(rows: seq<Row>, win: Window, end: nat, u: seq<byte>)
    requires ValidRows(rows) && Ready(win) && Covers(rows, end) && EndsAt(win, end)
    requires Reduce(rows, win).Innovative? && |u| == BLOCK_SIZE
    ensures var red := Reduce(rows, win);
            red.start < BLOCK_SIZE &&
            (InSpan(Matrix(rows[red.start := red.row]), u)
             <==> exists b :: InSpan(Matrix(rows), AddScaled(u, b, Vector(win))))
  {
    hide Add, Mul, InSpan, Covers, EndsAt, Reduce, AddScaled, Scale, Vector, InvVec;
    var red, m, v := Reduce(rows, win), Matrix(rows), Vector(win);
    ReduceFillsEmptyRow(rows, win);
    var f, a := ReduceCongruent(rows, win, end);
    var e := Dense(red.row, red.start);
    assert Matrix(rows[red.start := red.row]) == m[red.start := e];
    if InSpan(m[red.start := e], u) {
      var c := Witness(m[red.start := e], u);
      SpanOfExtended(m, red.start, e, u, c);
      AddScaledScale(u, c[red.start], f, a);
      assert InSpan(m, AddScaled(u, Mul(a, c[red.start]), v));
    }
    if exists b :: InSpan(m, AddScaled(u, b, v)) {
      var b :| InSpan(m, AddScaled(u, b, v));
      assert InSpan(m, AddScaled(u, b, f));
      var c := Mul(InvVec(a), b);
      MulInverse(a);
      MulCommutes(InvVec(a), a);
      MulAssociates(a, InvVec(a), b);
      MulCommutes(1, b);
      MulOne(b);
      AddScaledScale(u, c, f, a);
      SpanIntoExtended(m, red.start, e, u, c);
    }
  }

  lemma Witness(m: seq<seq<byte>>, v: seq<byte>) returns (c: seq<byte>)
    requires IsMatrix(m) && |v| == BLOCK_SIZE && InSpan(m, v)
    ensures |c| == BLOCK_SIZE && Combines(c, m, v)
  {
    c :| Combines(c, m, v);
  }
}
