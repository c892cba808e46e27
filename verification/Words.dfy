// Bytes and 32-bit words as numbers, and the arithmetic on them that the other modules share.
module Words {
  const TWO_31 := 0x8000_0000
  const TWO_32 := 0x1_0000_0000

  type Byte = b: nat | b < 0x100

  type Word = w: nat | w < TWO_32

  /** What a number becomes as an unsigned 32-bit integer. */
  function ToUint32(n: int): Word {
    n % TWO_32
  }

  lemma MulGrows(a: int, b: int, d: nat)
    requires a <= b
    ensures a * d <= b * d
  {
  }

  /** Quotient and remainder are unique. */
  lemma DivisionIs(n: int, q: int, d: int, m: int)
    requires 0 <= m < d && n == q * d + m
    ensures n % d == m && n / d == q
  {
    var p := n / d;
    assert n == p * d + n % d;
    if p < q {
      MulGrows(p, q - 1, d);
    } else if p > q {
      MulGrows(q, p - 1, d);
    }
  }

  /** The lowest digit, in base b, joins the remainder of the others. */
  lemma LowDigit(b: nat, h: nat, l: nat, low: nat)
    requires low < b && l > 0
    ensures b * l > 0 && (b * h + low) % (b * l) == b * (h % l) + low
  {
    var q, m := h / l, h % l;
    MulGrows(1, l, b);
    MulGrows(m + 1, l, b);
    assert b * h == q * (b * l) + b * m by {
      assert h == q * l + m;
      assert b * (q * l) == q * (b * l);
    }
    DivisionIs(b * h + low, q, b * l, b * m + low);
  }
}
