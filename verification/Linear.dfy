/**
 Linear combinations over the field: the coefficients c[0..n) applied to column j of the rows
 m[0..n). With source packets for rows this is byte j of a coded payload; with the coefficient
 vectors of a matrix for rows it is entry j of a combination of them.
 */
module Linear {
  import opened FieldTables
  import opened Gf256

  function Dot(c: seq<byte>, m: seq<seq<byte>>, j: nat, n: nat): byte
    requires n <= |c| && n <= |m|
    requires forall k :: 0 <= k < n ==> j < |m[k]|
  {
    if n == 0 then 0 else Add(Dot(c, m, j, n - 1), Mul(m[n - 1][j], c[n - 1]))
  }

  /** u + a * v, the way the source adds a multiple of a row. */
  function AddScaled(u: seq<byte>, a: byte, v: seq<byte>): (w: seq<byte>)
    requires |u| == |v|
    ensures |w| == |u|
  {
    seq(|u|, i requires 0 <= i < |u| => Add(u[i], Mul(v[i], a)))
  }

  function Scale(v: seq<byte>, a: byte): (w: seq<byte>)
    ensures |w| == |v|
  {
    seq(|v|, i requires 0 <= i < |v| => Mul(v[i], a))
  }

  function Zeros(n: nat): (v: seq<byte>)
    ensures |v| == n
  {
    seq(n, _ => 0)
  }

  /** The r-th unit vector. */
  function Unit(n: nat, r: nat): (v: seq<byte>)
    ensures |v| == n
  {
    seq(n, i => if i == r then 1 else 0)
  }

  lemma {:induction false} DotSame(c: seq<byte>, m: seq<seq<byte>>, d: seq<byte>, l: seq<seq<byte>>, j: nat, n: nat)
    requires n <= |c| && n <= |m| && n <= |d| && n <= |l|
    requires forall k :: 0 <= k < n ==> j < |m[k]| && j < |l[k]|
    requires forall k :: 0 <= k < n ==> c[k] == d[k] && m[k][j] == l[k][j]
    ensures Dot(c, m, j, n) == Dot(d, l, j, n)
  {
    hide Add, Mul;
    if n > 0 {
      DotSame(c, m, d, l, j, n - 1);
    }
  }

  lemma {:induction false} DotAdd(c: seq<byte>, d: seq<byte>, e: seq<byte>, m: seq<seq<byte>>, j: nat, n: nat)
    requires n <= |c| && n <= |d| && n <= |e| && n <= |m|
    requires forall k :: 0 <= k < n ==> j < |m[k]|
    requires forall k :: 0 <= k < n ==> e[k] == Add(c[k], d[k])
    ensures Dot(e, m, j, n) == Add(Dot(c, m, j, n), Dot(d, m, j, n))
  {
    hide Add, Mul;
    if n == 0 {
      AddZero(0);
    } else {
      DotAdd(c, d, e, m, j, n - 1);
      var x := m[n - 1][j];
      MulAddRight(x, c[n - 1], d[n - 1]);
      AddInterchange(Dot(c, m, j, n - 1), Dot(d, m, j, n - 1), Mul(x, c[n - 1]), Mul(x, d[n - 1]));
    }
  }

  lemma {:induction false} DotScale(c: seq<byte>, a: byte, d: seq<byte>, m: seq<seq<byte>>, j: nat, n: nat)
    requires n <= |c| && n <= |d| && n <= |m|
    requires forall k :: 0 <= k < n ==> j < |m[k]|
    requires forall k :: 0 <= k < n ==> d[k] == Mul(c[k], a)
    ensures Dot(d, m, j, n) == Mul(Dot(c, m, j, n), a)
  {
    hide Add, Mul;
    if n == 0 {
      MulZeroLeft(a);
    } else {
      DotScale(c, a, d, m, j, n - 1);
      MulAssociates(m[n - 1][j], c[n - 1], a);
      MulAddLeft(Dot(c, m, j, n - 1), Mul(m[n - 1][j], c[n - 1]), a);
    }
  }

  lemma DotAddScaled(c: seq<byte>, a: byte, d: seq<byte>, e: seq<byte>, m: seq<seq<byte>>, j: nat, n: nat)
    requires n <= |c| && n <= |d| && n <= |e| && n <= |m|
    requires forall k :: 0 <= k < n ==> j < |m[k]|
    requires forall k :: 0 <= k < n ==> e[k] == Add(c[k], Mul(d[k], a))
    ensures Dot(e, m, j, n) == Add(Dot(c, m, j, n), Mul(Dot(d, m, j, n), a))
  {
    hide Add, Mul;
    DotScale(d, a, Scale(d, a), m, j, n);
    DotAdd(c, Scale(d, a), e, m, j, n);
  }

  /** A combination in which only row r can contribute. */
  lemma {:induction false} DotOnly(c: seq<byte>, m: seq<seq<byte>>, j: nat, n: nat, r: nat)
    requires n <= |c| && n <= |m|
    requires forall k :: 0 <= k < n ==> j < |m[k]|
    requires forall k :: 0 <= k < n && k != r ==> c[k] == 0 || m[k][j] == 0
    ensures Dot(c, m, j, n) == if r < n then Mul(m[r][j], c[r]) else 0
  {
    hide Add, Mul;
    if n > 0 {
      DotOnly(c, m, j, n - 1, r);
      MulZeroLeft(c[n - 1]);
      MulZeroRight(m[n - 1][j]);
      AddZero(Mul(m[n - 1][j], c[n - 1]));
      AddZero(0);
      if r < n - 1 {
        AddZero(Mul(m[r][j], c[r]));
      }
    }
  }

  lemma DotUnit(c: seq<byte>, m: seq<seq<byte>>, j: nat, n: nat, r: nat)
    requires r < n <= |c| && n <= |m|
    requires forall k :: 0 <= k < n ==> j < |m[k]|
    requires forall k :: 0 <= k < n ==> c[k] == if k == r then 1 else 0
    ensures Dot(c, m, j, n) == m[r][j]
  {
    hide Add, Mul;
    DotOnly(c, m, j, n, r);
    MulOne(m[r][j]);
  }

  /** Rows with coefficient 0 do not matter. */
  lemma {:induction false} DotExtend(c: seq<byte>, m: seq<seq<byte>>, j: nat, n: nat, n': nat)
    requires n <= n' <= |c| && n' <= |m|
    requires forall k :: 0 <= k < n' ==> j < |m[k]|
    requires forall k :: n <= k < n' ==> c[k] == 0
    ensures Dot(c, m, j, n') == Dot(c, m, j, n)
    decreases n'
  {
    hide Add, Mul;
    if n < n' {
      DotExtend(c, m, j, n, n' - 1);
      MulZeroRight(m[n' - 1][j]);
      AddZero(Dot(c, m, j, n' - 1));
    }
  }

  lemma {:induction false} AddScaledTwice(u: seq<byte>, a: byte, v: seq<byte>)
    requires |u| == |v|
    ensures AddScaled(AddScaled(u, a, v), a, v) == u
  {
    hide Add, Mul;
    var w := AddScaled(AddScaled(u, a, v), a, v);
    forall i | 0 <= i < |u| ensures w[i] == u[i] {
      AddTwice(u[i], Mul(v[i], a));
    }
  }

  /** Replacing a row that is 0 in column j adds its multiple. */
  lemma {:induction false} DotReplaceRow(c: seq<byte>, m: seq<seq<byte>>, j: nat, n: nat, s: nat, e: seq<byte>)
    requires n <= |c| && n <= |m| && s < |m| && s < |c| && j < |e|
    requires forall k :: 0 <= k < |m| ==> j < |m[k]|
    requires m[s][j] == 0
    ensures Dot(c, m[s := e], j, n) == Add(Dot(c, m, j, n), if s < n then Mul(e[j], c[s]) else 0)
  {
    hide Add, Mul;
    if n == 0 {
      AddZero(0);
    } else {
      DotReplaceRow(c, m, j, n - 1, s, e);
      var d := Dot(c, m, j, n - 1);
      AddZero(d);
      if s == n - 1 {
        MulZeroLeft(c[s]);
      } else if s < n {
        AddInterchange(d, Mul(e[j], c[s]), Mul(m[n - 1][j], c[n - 1]), 0);
        AddZero(Mul(m[n - 1][j], c[n - 1]));
        AddZero(Mul(e[j], c[s]));
      } else {
        AddZero(Add(d, Mul(m[n - 1][j], c[n - 1])));
      }
    }
  }

  /** The coefficient of a row that is 0 in column j does not matter. */
  lemma {:induction false} DotReplaceCoefficient(c: seq<byte>, m: seq<seq<byte>>, j: nat, n: nat, s: nat, a: byte)
    requires n <= |c| && n <= |m| && s < |c| && s < |m|
    requires forall k :: 0 <= k < |m| ==> j < |m[k]|
    requires m[s][j] == 0
    ensures Dot(c[s := a], m, j, n) == Dot(c, m, j, n)
  {
    hide Add, Mul;
    if n > 0 {
      DotReplaceCoefficient(c, m, j, n - 1, s, a);
      MulZeroLeft(a);
      MulZeroLeft(c[s]);
    }
  }

  lemma AddScaledScale(u: seq<byte>, b: byte, f: seq<byte>, a: byte)
    requires |u| == |f|
    ensures AddScaled(u, b, Scale(f, a)) == AddScaled(u, Mul(a, b), f)
  {
    hide Add, Mul;
    forall i | 0 <= i < |u| ensures AddScaled(u, b, Scale(f, a))[i] == AddScaled(u, Mul(a, b), f)[i] {
      MulAssociates(f[i], a, b);
    }
  }

  lemma AddScaledSum(u: seq<byte>, b: byte, v: seq<byte>, a: byte, w: seq<byte>)
    requires |u| == |v| == |w|
    ensures AddScaled(u, b, AddScaled(v, a, w)) == AddScaled(AddScaled(u, b, v), Mul(a, b), w)
  {
    hide Add, Mul;
    var lhs, rhs := AddScaled(u, b, AddScaled(v, a, w)), AddScaled(AddScaled(u, b, v), Mul(a, b), w);
    forall i | 0 <= i < |u| ensures lhs[i] == rhs[i] {
      MulAddLeft(v[i], Mul(w[i], a), b);
      MulAssociates(w[i], a, b);
      AddAssociates(u[i], Mul(v[i], b), Mul(w[i], Mul(a, b)));
    }
  }
}
