// The size of an image whose rows are padded to an alignment, computed with 32-bit operators.
module RowAlignment {
  import opened Words
  import opened Wrappers

  datatype Error = NotPowerOfTwo

  // -------------------------------------------------------------- the `&` operator

  function ToInt32(n: int): int {
    if n % TWO_32 < TWO_31 then n % TWO_32 else n % TWO_32 - TWO_32
  }

  /** Bitwise and, bit by bit from the lowest. */
  function BitAnd(a: nat, b: nat): nat {
    if a == 0 || b == 0 then 0
    else (if a % 2 == 1 && b % 2 == 1 then 1 else 0) + 2 * BitAnd(a / 2, b / 2)
  }

  /** The operator on numbers: both sides and the result are taken as signed 32-bit integers. */
  function And(a: int, b: int): int {
    ToInt32(BitAnd(ToUint32(a), ToUint32(b)))
  }

  // ------------------------------------------------------------------ powers of two

  function Pow2(k: nat): (p: nat)
    ensures p > 0
  {
    if k == 0 then 1 else 2 * Pow2(k - 1)
  }

  predicate IsPow2(n: nat) {
    n == 1 || (n > 0 && n % 2 == 0 && IsPow2(n / 2))
  }

  lemma {:induction false} Pow2Exponent(n: nat) returns (k: nat)
    requires IsPow2(n)
    ensures n == Pow2(k)
  {
    if n == 1 {
      k := 0;
    } else {
      k := Pow2Exponent(n / 2);
      k := k + 1;
    }
  }

  lemma {:induction false} Pow2Grows(j: nat, k: nat)
    ensures j <= k <==> Pow2(j) <= Pow2(k)
    ensures j <= k ==> Pow2(k) % Pow2(j) == 0
  {
    if j > 0 && k > 0 {
      Pow2Grows(j - 1, k - 1);
      if j <= k {
        LowDigit(2, Pow2(k - 1), Pow2(j - 1), 0);
      }
    } else if j == 0 {
      assert Pow2(k) % 1 == 0;
    }
  }

  // ------------------------------------------------------- the test for a power of two

  lemma {:induction false} AndItself(n: nat)
    ensures BitAnd(n, n) == n
  {
    if n > 0 {
      AndItself(n / 2);
    }
  }

  lemma {:induction false} LowestBitCleared(n: nat)
    requires n > 0
    ensures BitAnd(n, n - 1) == 0 <==> IsPow2(n)
  {
    if n > 1 {
      if n % 2 == 0 {
        LowestBitCleared(n / 2);
        assert (n - 1) / 2 == n / 2 - 1;
      } else {
        assert (n - 1) / 2 == n / 2;
        AndItself(n / 2);
      }
    }
  }

  predicate PassesTest(y: int) {
    And(y, y - 1) == 0
  }

  /** The test lets through the numbers whose low 32 bits are a power of two, and those where they are zero. */
  lemma TestIsPow2(y: int)
    ensures PassesTest(y) <==> ToUint32(y) == 0 || IsPow2(ToUint32(y))
  {
    var u := ToUint32(y);
    if u > 0 {
      assert ToUint32(y - 1) == u - 1;
      LowestBitCleared(u);
      AndIsSmall(u, u - 1);
    }
  }

  lemma {:induction false} AndIsSmall(a: nat, b: nat)
    ensures BitAnd(a, b) <= a && BitAnd(a, b) <= b
  {
    if a > 0 && b > 0 {
      AndIsSmall(a / 2, b / 2);
    }
  }

  // ------------------------------------------------------------------- rounding up

  lemma {:induction false} AndAllOnes(a: nat, w: nat)
    requires a < Pow2(w)
    ensures BitAnd(a, Pow2(w) - 1) == a
  {
    if a > 0 && w > 0 {
      assert (Pow2(w) - 1) / 2 == Pow2(w - 1) - 1;
      AndAllOnes(a / 2, w - 1);
    }
  }

  lemma AndEven(a: nat, half: nat)
    ensures BitAnd(a, 2 * half) == 2 * BitAnd(a / 2, half)
  {
    if a > 0 && half > 0 {
      assert 2 * half / 2 == half;
    }
  }

  lemma MaskIsEven(k: nat, w: nat)
    requires 0 < k <= w
    ensures Pow2(w) - Pow2(k) == 2 * (Pow2(w - 1) - Pow2(k - 1)) && Pow2(k) == 2 * Pow2(k - 1)
  {
  }

  /** And with the negative of a power of two clears the bits below it. */
  lemma {:induction false} AndNegative(a: nat, k: nat, w: nat)
    requires a < Pow2(w) && k <= w
    ensures Pow2(k) <= Pow2(w) && BitAnd(a, Pow2(w) - Pow2(k)) == a - a % Pow2(k)
  {
    Pow2Grows(k, w);
    if k == 0 {
      AndAllOnes(a, w);
    } else {
      MaskIsEven(k, w);
      AndNegative(a / 2, k - 1, w - 1);
      AndEven(a, Pow2(w - 1) - Pow2(k - 1));
      LowDigit(2, a / 2, Pow2(k - 1), a % 2);
    }
  }

  /** roundedToNextMultipleOf */
  function RoundUp(x: int, y: int): Result<int, Error> {
    if !PassesTest(y) then Err(NotPowerOfTwo) else Ok(And(x + y - 1, -y))
  }

  /** Is r a multiple of y that is not below x, while the one before it is? */
  predicate IsLeastMultiple(r: int, x: int, y: int)
    requires y > 0
  {
    r % y == 0 && x <= r < x + y
  }

  lemma MultiplesAreApart(r: int, s: int, y: int)
    requires y > 0 && r % y == 0 && s % y == 0 && s < r
    ensures s <= r - y
  {
    var m, n := r / y, s / y;
    assert r == m * y && s == n * y;
    if n >= m {
      MulGrows(m, n, y);
    } else {
      MulGrows(n, m - 1, y);
    }
  }

  /** It is the least of all multiples that are not below x, and the only such number. */
  lemma LeastMultipleIsLeast(r: int, x: int, y: int, s: int)
    requires y > 0 && IsLeastMultiple(r, x, y) && s % y == 0 && s >= x
    ensures r <= s && (IsLeastMultiple(s, x, y) ==> r == s)
  {
    if s < r {
      MultiplesAreApart(r, s, y);
    } else if r < s {
      MultiplesAreApart(s, r, y);
    }
  }

  /** The greatest multiple of y that is not above n. */
  function Floor(n: nat, y: nat): nat
    requires y > 0
  {
    if n < y then 0 else y + Floor(n - y, y)
  }

  lemma {:induction false} FloorIs(n: nat, y: nat)
    requires y > 0
    ensures Floor(n, y) == n - n % y
  {
    if n < y {
      DivisionIs(n, 0, y, n);
    } else {
      FloorIs(n - y, y);
      DivisionIs(n, 1 + (n - y) / y, y, (n - y) % y);
    }
  }

  lemma FloorIsLeastMultiple(x: nat, y: nat)
    requires y > 0
    ensures IsLeastMultiple(Floor(x + y - 1, y), x, y)
  {
    var n := x + y - 1;
    FloorIs(n, y);
    assert n == n / y * y + n % y;
    DivisionIs(n - n % y, n / y, y, 0);
  }

  lemma Pow2DividesWords(y: nat)
    requires IsPow2(y) && y <= TWO_31
    ensures TWO_31 % y == 0 && TWO_32 % y == 0
  {
    var k := Pow2Exponent(y);
    BigPowers();
    Pow2Grows(k, 31);
    Pow2Grows(k, 32);
  }

  lemma Masked(n: nat, y: nat)
    requires IsPow2(y) && y <= TWO_31 && n < TWO_32
    ensures BitAnd(n, TWO_32 - y) == Floor(n, y)
  {
    var k := Pow2Exponent(y);
    BigPowers();
    Pow2Grows(k, 32);
    AndNegative(n, k, 32);
    FloorIs(n, y);
  }

  lemma BigPowers()
    ensures Pow2(31) == TWO_31 && Pow2(32) == TWO_32
  {
    assert Pow2(8) == 0x100;
    assert Pow2(16) == 0x1_0000;
    assert Pow2(24) == 0x100_0000;
  }

  lemma AndOf(n: int, m: int, u: nat, v: nat, f: nat)
    requires u == ToUint32(n) && v == ToUint32(m) && BitAnd(u, v) == f
    ensures And(n, m) == ToInt32(f)
  {
  }

  lemma NegativeWord(y: nat)
    requires 0 < y <= TWO_31
    ensures ToUint32(0 - y) == TWO_32 - y
  {
  }

  lemma AndIs(n: int, y: nat, u: nat, f: nat)
    requires IsPow2(y) && y <= TWO_31 && u == ToUint32(n) && f == Floor(u, y)
    ensures And(n, 0 - y) == ToInt32(f)
  {
    NegativeWord(y);
    Masked(u, y);
    AndOf(n, 0 - y, u, TWO_32 - y, f);
  }

  lemma RoundUpOf(x: int, y: int, r: int)
    requires PassesTest(y) && And(x + y - 1, 0 - y) == r
    ensures RoundUp(x, y) == Ok(r)
  {
  }

  lemma Pow2Passes(y: nat)
    requires IsPow2(y) && y <= TWO_31
    ensures PassesTest(y)
  {
    assert ToUint32(y) == y;
    TestIsPow2(y);
  }

  lemma RoundUpIs(x: nat, y: nat, f: int)
    requires IsPow2(y) && y <= TWO_31 && f == ToInt32(Floor(ToUint32(x + y - 1), y))
    ensures RoundUp(x, y) == Ok(f)
  {
    Pow2Passes(y);
    AndIs(x + y - 1, y, ToUint32(x + y - 1), Floor(ToUint32(x + y - 1), y));
    RoundUpOf(x, y, f);
  }

  lemma FloorStaysAbove(n: nat, bound: nat, y: nat)
    requires y > 0 && bound % y == 0 && bound <= n
    ensures Floor(n, y) >= bound
  {
    FloorIs(n, y);
    DivisionIs(Floor(n, y), n / y, y, 0);
    if Floor(n, y) < bound {
      MultiplesAreApart(bound, Floor(n, y), y);
    }
  }

  lemma FloorBelow(n: nat, y: nat)
    requires y > 0 && n < TWO_31
    ensures ToInt32(Floor(ToUint32(n), y)) == Floor(n, y)
  {
    FloorIs(n, y);
    assert ToUint32(n) == n;
  }

  /** Wrapping to 32 bits before and after does no harm exactly below 2 to the 31. */
  lemma WrappedFloor(x: nat, y: nat, f: int)
    requires y > 0 && TWO_31 % y == 0 && f == ToInt32(Floor(ToUint32(x + y - 1), y))
    ensures IsLeastMultiple(f, x, y) <==> x + y - 1 < TWO_31
  {
    var n := x + y - 1;
    FloorIsLeastMultiple(x, y);
    if n < TWO_31 {
      FloorBelow(n, y);
    } else {
      FloorStaysAbove(n, TWO_31, y);
      SmallIsNotFloor(f, x, y);
    }
  }

  lemma SmallIsNotFloor(f: int, x: nat, y: nat)
    requires y > 0 && f < TWO_31 <= Floor(x + y - 1, y)
    ensures !IsLeastMultiple(f, x, y)
  {
    FloorIsLeastMultiple(x, y);
    if IsLeastMultiple(f, x, y) {
      LeastMultipleIsLeast(Floor(x + y - 1, y), x, y, f);
    }
  }

  /**
   * For a power of two, rounding up gives the least multiple not below x, if and only if the
   * sum that is masked is below 2 to the 31.
   */
  lemma RoundUpIsLeastMultiple(x: nat, y: nat)
    requires IsPow2(y) && y <= TWO_31
    ensures RoundUp(x, y).Ok?
    ensures IsLeastMultiple(RoundUp(x, y).value, x, y) <==> x + y - 1 < TWO_31
  {
    var f := ToInt32(Floor(ToUint32(x + y - 1), y));
    RoundUpIs(x, y, f);
    Pow2DividesWords(y);
    WrappedFloor(x, y, f);
  }

  /** Just past that bound, the rounded size is negative. */
  lemma RoundUpWraps()
    ensures RoundUp(0x7FFF_FFFF, 2) == Ok(-0x8000_0000)
  {
    assert IsPow2(2);
    FloorIs(TWO_31, 2);
    RoundUpIs(0x7FFF_FFFF, 2, -0x8000_0000);
  }

  /** An alignment of zero is not refused, and every row is taken to be empty. */
  lemma ZeroAlignment(x: int)
    ensures RoundUp(x, 0) == Ok(0)
  {
  }

  // --------------------------------------------------------------------- image size

  /** computeUnpackAlignedImageSize, with the two parameters that it asks WebGL for; a row length of 0 is unset. */
  function ImageSize(width: int, height: int, sizePerPixel: int, rowLength: int, alignment: int): Result<int, Error> {
    var plainRowSize := (if rowLength != 0 then rowLength else width) * sizePerPixel;
    match RoundUp(plainRowSize, alignment)
    case Err(e) => Err(e)
    case Ok(alignedRowSize) => Ok(height * alignedRowSize)
  }

  /**
   * The bytes from one row to the next in section 3.7 of the OpenGL ES 3.0 specification:
   * s bytes an element, n elements a group, l groups a row, alignment a.
   */
  function RowStride(s: nat, n: nat, l: nat, a: nat): nat
    requires a > 0
  {
    if s >= a then s * n * l else a * ((s * n * l + a - 1) / a)
  }

  lemma {:induction false} Pow2Divides(a: nat, s: nat)
    requires IsPow2(a) && IsPow2(s) && a <= s
    ensures s % a == 0
  {
    var j := Pow2Exponent(a);
    var k := Pow2Exponent(s);
    Pow2Grows(j, k);
  }

  lemma MultipleOfMultiple(s: nat, t: nat, a: nat)
    requires a > 0 && s % a == 0
    ensures (s * t) % a == 0
  {
    var q := s / a;
    assert s * t == (q * t) * a;
    DivisionIs(s * t, q * t, a, 0);
  }

  lemma StrideIsFloor(s: nat, n: nat, l: nat, a: nat)
    requires IsPow2(a) && IsPow2(s)
    ensures RowStride(s, n, l, a) == Floor(s * n * l + a - 1, a)
  {
    var x := s * n * l;
    if s >= a {
      Pow2Divides(a, s);
      MultipleOfMultiple(s, n, a);
      MultipleOfMultiple(s * n, l, a);
      MultipleStays(x, a);
    } else {
      QuotientTimes(x + a - 1, a);
    }
  }

  lemma MultipleStays(x: nat, a: nat)
    requires a > 0 && x % a == 0
    ensures Floor(x + a - 1, a) == x
  {
    FloorIsLeastMultiple(x, a);
    LeastMultipleIsLeast(Floor(x + a - 1, a), x, a, x);
  }

  lemma QuotientTimes(n: nat, a: nat)
    requires a > 0
    ensures a * (n / a) == Floor(n, a)
  {
    FloorIs(n, a);
  }

  lemma RoundedRow(x: nat, a: nat, f: int)
    requires IsPow2(a) && a <= TWO_31 && x + a - 1 < TWO_31 && f == Floor(x + a - 1, a)
    ensures RoundUp(x, a) == Ok(f)
  {
    FloorBelow(x + a - 1, a);
    RoundUpIs(x, a, f);
  }

  lemma ImageSizeIs(width: int, height: int, sizePerPixel: int, rowLength: int, a: int, x: int, f: int)
    requires x == (if rowLength != 0 then rowLength else width) * sizePerPixel && RoundUp(x, a) == Ok(f)
    ensures ImageSize(width, height, sizePerPixel, rowLength, a) == Ok(height * f)
  {
  }

  lemma RowsAreStrides(s: nat, n: nat, l: nat, a: nat, g: nat, stride: nat)
    requires IsPow2(a) && IsPow2(s) && a <= TWO_31 && s * n * l + a - 1 < TWO_31
    requires g == s * n && stride == RowStride(s, n, l, a)
    ensures RoundUp(l * g, a) == Ok(stride)
  {
    assert s * n * l == l * g;
    StrideIsFloor(s, n, l, a);
    RoundedRow(l * g, a, stride);
  }

  /**
   * The size is the height times the row stride that OpenGL prescribes, whether or not it has
   * to pad; l is the row length, if it is set, or else the width, and g the bytes of a pixel.
   */
  lemma ImageSizeIsStrides(
      width: nat, height: nat, s: nat, n: nat, rowLength: nat, a: nat, l: nat, g: nat, stride: nat)
    requires IsPow2(a) && IsPow2(s) && a <= TWO_31
    requires l == (if rowLength != 0 then rowLength else width) && s * n * l + a - 1 < TWO_31
    requires g == s * n && stride == RowStride(s, n, l, a)
    ensures ImageSize(width, height, g, rowLength, a) == Ok(height * stride)
  {
    RowsAreStrides(s, n, l, a, g, stride);
    ImageSizeIs(width, height, g, rowLength, a, l * g, stride);
  }
}
