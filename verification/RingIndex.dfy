/** Positions in a ring: the helper modulo() that src/qbuffer.c and src/fifo.c share. */
module RingIndex {

  /** C's remainder truncates toward zero; adding the divisor and taking it again makes it a position. */
  function TruncatedRemainder(n: int, m: int): int
    requires m > 0
  {
    if n >= 0 then n % m else -((-n) % m)
  }

  function Modulo(n: int, m: int): (r: nat)
    requires m > 0
    ensures r < m
  {
    TruncatedRemainder(TruncatedRemainder(n, m) + m, m)
  }

  /** The position of a number less than two turns along. */
  function At(n: nat, m: nat): (r: nat)
    requires n < 2 * m
    ensures r < m
  {
    if n < m then n else n - m
  }

  lemma OneTurn(k: int, m: int)
    requires 0 <= k < m
    ensures k % m == k && (k + m) % m == k
  {
  }

  /** Within a turn either way the helper takes off or adds one turn. */
  lemma ModuloNear(n: int, m: int)
    requires 0 < m && -m <= n < 2 * m
    ensures Modulo(n, m) == if n < 0 then n + m else At(n, m)
  {
    if n >= m {
      OneTurn(n - m, m);
    } else if n >= 0 {
      OneTurn(n, m);
    } else if n > -m {
      OneTurn(-n, m);
      OneTurn(n + m, m);
    } else {
      OneTurn(0, m);
    }
  }
}
