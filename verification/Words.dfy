/** Fixed-width arithmetic of the engine: IUINT32 values, the casts to IINT32, and the
    signed serial comparison `_itimediff`.

    Sequence numbers are handled through `Arith`: the same transition functions run either on
    wrapping 32-bit numbers, as the C code does, or on unbounded ones.  Timestamps are 32-bit
    in both readings. */
module Words {
  const M32: int := 0x1_0000_0000
  const H32: int := 0x8000_0000

  type u32 = x: int | 0 <= x < 0x1_0000_0000
  type u16 = x: int | 0 <= x < 0x1_0000
  type byte = x: int | 0 <= x < 0x100

  function U32(x: int): u32 { x % M32 }

  /** The cast to IINT32. */
  function I32(x: int): int {
    if x % M32 < H32 then x % M32 else x % M32 - M32
  }

  function Itimediff(later: int, earlier: int): int { I32(later - earlier) }

  /** C division: truncates toward zero. */
  function TruncDiv(a: int, b: int): int
    requires b > 0
  {
    if a >= 0 then a / b else -((-a) / b)
  }

  function Min(a: int, b: int): int { if a <= b then a else b }

  function Max(a: int, b: int): int { if a >= b then a else b }

  function Bound(lower: int, middle: int, upper: int): int { Min(Max(lower, middle), upper) }

  datatype Arith = Wrap32 | Ideal {
    /** Stores a sequence number. */
    function Norm(x: int): int { if Wrap32? then U32(x) else x }

    /** Compares two sequence numbers. */
    function Diff(later: int, earlier: int): int {
      if Wrap32? then Itimediff(later, earlier) else later - earlier
    }
  }

  /** `_itimediff` on wrapped numbers is the true difference exactly when that difference
      fits 32 signed bits. */
  lemma {:induction false} ItimediffExact(a: int, b: int)
    ensures Itimediff(U32(a), U32(b)) == a - b <==> -H32 <= a - b < H32
  {
    assert (U32(a) - U32(b)) % M32 == (a - b) % M32;
  }

  lemma {:induction false} MulMono(a: int, b: int, m: int)
    requires a <= b && 0 <= m
    ensures a * m <= b * m
  {
  }

  lemma {:induction false} I32Of(x: int, v: int, q: int)
    requires x == v + M32 * q && -H32 <= v < H32
    ensures I32(x) == v
  {
  }

  lemma {:induction false} I32Small(x: int)
    requires -H32 <= x < H32
    ensures I32(x) == x
  {
  }

  lemma {:induction false} U32Add(a: int, b: int)
    ensures U32(U32(a) + b) == U32(a + b)
  {
  }

  lemma {:induction false} U32Small(x: int)
    requires 0 <= x < M32
    ensures U32(x) == x
  {
  }

  /** The value of a difference is its 32-bit residue: x == I32(x) + M32 * q. */
  lemma {:induction false} I32Residue(x: int) returns (q: int)
    ensures x == I32(x) + M32 * q && -H32 <= I32(x) < H32
  {
    q := if x % M32 < H32 then x / M32 else x / M32 + 1;
  }

  lemma {:induction false} U32Residue(x: int) returns (q: int)
    ensures x == U32(x) + M32 * q
  {
    q := x / M32;
  }

  /** Moving the earlier time by k lowers the difference by k, as long as it stays in range. */
  lemma {:induction false} ShiftEarlier(later: int, earlier: int, k: int)
    requires -H32 <= Itimediff(later, earlier) - k < H32
    ensures Itimediff(later, U32(earlier + k)) == Itimediff(later, earlier) - k
  {
    var q := I32Residue(later - earlier);
    var r := U32Residue(earlier + k);
    I32Of(later - U32(earlier + k), Itimediff(later, earlier) - k, q + r);
  }

  lemma {:induction false} ShiftLater(later: int, earlier: int, k: int)
    requires -H32 <= Itimediff(later, earlier) + k < H32
    ensures Itimediff(U32(later + k), earlier) == Itimediff(later, earlier) + k
  {
    var q := I32Residue(later - earlier);
    var r := U32Residue(later + k);
    I32Of(U32(later + k) - earlier, Itimediff(later, earlier) + k, q - r);
  }

  /** Differences add up, as long as they stay in range. */
  lemma {:induction false} Triangle(a: int, b: int, c: int)
    requires -H32 <= Itimediff(a, c) - Itimediff(b, c) < H32
    ensures Itimediff(a, b) == Itimediff(a, c) - Itimediff(b, c)
  {
    var q := I32Residue(a - c);
    var r := I32Residue(b - c);
    I32Of(a - b, Itimediff(a, c) - Itimediff(b, c), q - r);
  }

  lemma {:induction false} Opposite(a: int, b: int)
    requires Itimediff(a, b) != -H32
    ensures Itimediff(b, a) == -Itimediff(a, b)
  {
    var q := I32Residue(a - b);
    I32Of(b - a, -Itimediff(a, b), -q);
  }
}
