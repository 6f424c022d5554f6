/** Rounding a score to hundredths through its 20-digit decimal string.

    A finite double is a dyadic rational m / 2^e with m below 2^53. */
module Rounding {

  function Pow2(e: nat): (p: nat)
    ensures p > 0
  {
    if e == 0 then 1 else 2 * Pow2(e - 1)
  }

  // ---------------------------------------------------------- the reference

  /** num / den rounded to the nearest integer, ties to the even neighbour. */
  function HalfEven(num: nat, den: nat): nat
    requires den > 0
  {
    var q, r := num / den, num % den;
    if 2 * r > den || (2 * r == den && q % 2 == 1) then q + 1 else q
  }

  /** It is the only integer within half of num / den that is even on a tie. */
  lemma HalfEvenIsNearest(num: nat, den: nat)
    requires den > 0
    ensures var n := HalfEven(num, den);
      && 2 * n * den <= 2 * num + den && 2 * num <= 2 * n * den + den
      && (2 * n * den == 2 * num + den || 2 * num == 2 * n * den + den ==> n % 2 == 0)
  {
    var q, r := num / den, num % den;
    assert num == q * den + r;
    assert 2 * (q + 1) * den == 2 * (q * den) + 2 * den;
    assert 2 * q * den == 2 * (q * den);
  }

  // ------------------------------------------------------- decimal strings

  /** The digits of v, most significant first, in exactly `width` places. */
  function Digits(v: nat, width: nat): (d: seq<nat>)
    ensures |d| == width && forall i :: 0 <= i < width ==> d[i] < 10
  {
    if width == 0 then [] else Digits(v / 10, width - 1) + [v % 10]
  }

  function Pow10(k: nat): (p: nat)
    ensures p > 0
  {
    if k == 0 then 1 else 10 * Pow10(k - 1)
  }

  /** The number a digit string reads as. */
  function ReadDigits(d: seq<nat>): nat {
    if d == [] then 0 else 10 * ReadDigits(d[..|d| - 1]) + d[|d| - 1]
  }

  lemma {:induction false} DigitsRead(v: nat, width: nat)
    requires v < Pow10(width)
    ensures ReadDigits(Digits(v, width)) == v
  {
    if width > 0 {
      DigitsRead(v / 10, width - 1);
      var d := Digits(v, width);
      assert d[..width - 1] == Digits(v / 10, width - 1);
    }
  }

  lemma MulTen(x: nat, p: nat)
    ensures x * (10 * p) == 10 * (x * p)
  {
  }

  /** Reading a string is reading its front, shifted, and its back. */
  lemma {:induction false} ReadSplit(a: seq<nat>, b: seq<nat>)
    ensures ReadDigits(a + b) == ReadDigits(a) * Pow10(|b|) + ReadDigits(b)
  {
    if b == [] {
      assert a + b == a;
    } else {
      var s := a + b;
      assert s[..|s| - 1] == a + b[..|b| - 1];
      ReadSplit(a, b[..|b| - 1]);
      MulTen(ReadDigits(a), Pow10(|b| - 1));
    }
  }

  lemma {:induction false} ReadBound(d: seq<nat>)
    requires forall i :: 0 <= i < |d| ==> d[i] < 10
    ensures ReadDigits(d) < Pow10(|d|)
    ensures ReadDigits(d) == 0 <==> forall i :: 0 <= i < |d| ==> d[i] == 0
  {
    if d != [] {
      ReadBound(d[..|d| - 1]);
      assert forall i | 0 <= i < |d| - 1 :: d[..|d| - 1][i] == d[i];
    }
  }

  const PLACES: nat := 20
  const UNIT: nat := 100_000_000_000_000_000_000
  const TAIL: nat := 1_000_000_000_000_000_000
  const THIRD: nat := 100_000_000_000_000_000

  /** The integer nearest to x * 10^20, the larger of two equally near. */
  function Scaled(m: nat, e: nat): nat {
    (2 * m * UNIT + Pow2(e)) / (2 * Pow2(e))
  }

  /** A fixed-point string: the whole part and its twenty decimals. */
  datatype Fixed = Fixed(whole: nat, decimals: seq<nat>)

  function ToFixed20(m: nat, e: nat): (s: Fixed)
    ensures |s.decimals| == PLACES
    ensures forall i :: 0 <= i < PLACES ==> s.decimals[i] < 10
  {
    var n := Scaled(m, e);
    Fixed(n / UNIT, Digits(n % UNIT, PLACES))
  }

  lemma ReadOne(d: nat)
    ensures ReadDigits([d]) == d
  {
    assert [d][..0] == [];
  }

  lemma Powers()
    ensures Pow10(20) == UNIT && Pow10(18) == TAIL && Pow10(17) == THIRD
  {
    assert Pow10(6) == 1_000_000;
    assert Pow10(12) == 1_000_000_000_000;
    assert Pow10(17) == THIRD;
  }

  lemma TailReads(tail: seq<nat>)
    requires |tail| == 18 && forall i :: 0 <= i < 18 ==> tail[i] < 10
    ensures ReadDigits(tail) == tail[0] * THIRD + ReadDigits(tail[1..])
    ensures ReadDigits(tail[1..]) < THIRD
    ensures ReadDigits(tail[1..]) != 0 <==> exists i :: 0 <= i < |tail[1..]| && tail[1..][i] != 0
  {
    hide ReadDigits, Pow10;
    Powers();
    assert tail == [tail[0]] + tail[1..];
    ReadSplit([tail[0]], tail[1..]);
    ReadOne(tail[0]);
    ReadBound(tail[1..]);
  }

  /** The string holds exactly the scaled integer. */
  lemma ToFixedReads(m: nat, e: nat)
    ensures var s := ToFixed20(m, e);
      var tail := s.decimals[2..];
      && Scaled(m, e) == (s.whole * 100 + ReadDigits(s.decimals[..2])) * TAIL + ReadDigits(tail)
      && ReadDigits(tail) == tail[0] * THIRD + ReadDigits(tail[1..])
      && ReadDigits(tail[1..]) < THIRD
      && (ReadDigits(tail[1..]) != 0 <==> exists i :: 0 <= i < |tail[1..]| && tail[1..][i] != 0)
  {
    hide Digits, ReadDigits, Pow10;
    var s := ToFixed20(m, e);
    var d := s.decimals;
    Powers();
    DigitsRead(Scaled(m, e) % UNIT, PLACES);
    assert d == d[..2] + d[2..];
    ReadSplit(d[..2], d[2..]);
    TailReads(d[2..]);
  }

  /** What the string alone decides: half up when anything follows the third
      decimal, half to even when nothing does. */
  function FromDigits(s: Fixed): nat
    requires |s.decimals| == PLACES
  {
    var n, tail := s.whole * 100 + ReadDigits(s.decimals[..2]), s.decimals[2..];
    if tail[0] > 5 || (tail[0] == 5 && ((exists i :: 0 <= i < |tail[1..]| && tail[1..][i] != 0) || n % 2 == 1))
    then n + 1 else n
  }

  // ----------------------------------------------------------- correctness

  /** In integers: rounding to 20 places first, half up, then to 2 places
      half even, from the scaled integer n = N * 10^18 + t. */
  function Twice(n: nat): nat {
    var N, t := n / TAIL, n % TAIL;
    if 2 * t > TAIL || (2 * t == TAIL && N % 2 == 1) then N + 1 else N
  }

  lemma FromDigitsIsTwice(m: nat, e: nat)
    ensures FromDigits(ToFixed20(m, e)) == Twice(Scaled(m, e))
  {
    ToFixedReads(m, e);
    var s := ToFixed20(m, e);
    var tail := s.decimals[2..];
    var N, t := s.whole * 100 + ReadDigits(s.decimals[..2]), ReadDigits(tail);
    assert tail[0] == s.decimals[2];
    assert t < TAIL;
    assert Scaled(m, e) == N * TAIL + t;
    assert Scaled(m, e) / TAIL == N && Scaled(m, e) % TAIL == t;
  }

  /** n / 10^20 is within half a unit of the 20th place of m / D. */
  ghost predicate Near20(D: nat, m: nat, n: nat) {
    2 * (D * n) <= 2 * m * UNIT + D < 2 * (D * n) + 2 * D
  }

  /** 100 m / D is q and r parts of D. */
  ghost predicate Splits(D: nat, m: nat, q: nat, r: nat) {
    r < D && 100 * m == q * D + r
  }

  lemma ScaledBound(m: nat, e: nat)
    ensures Near20(Pow2(e), m, Scaled(m, e))
  {
    var D, n := Pow2(e), Scaled(m, e);
    var a := 2 * m * UNIT + D;
    assert a == (a / (2 * D)) * (2 * D) + a % (2 * D);
    assert n * (2 * D) == 2 * (D * n);
  }

  /** How far the scaled integer sits above q * 10^18. */
  function Offset(n: nat, q: nat): int {
    n - q * TAIL
  }

  lemma OffsetBound(D: nat, q: nat, r: nat, n: nat, m: nat)
    requires Splits(D, m, q, r)
    requires Near20(D, m, n)
    ensures var k := Offset(n, q);
      2 * (D * k) <= 2 * (r * TAIL) + D < 2 * (D * k) + 2 * D
  {
    var k := Offset(n, q);
    assert D * n == D * (q * TAIL) + D * k by { assert n == q * TAIL + k; }
    assert D * (q * TAIL) == (q * D) * TAIL;
  }

  lemma MulLess(d: nat, a: int, b: int)
    requires a <= b
    ensures d * a <= d * b
  {
  }

  lemma OffsetRange(D: nat, r: nat, k: int)
    requires 0 <= r < D && 2 * (D * k) <= 2 * (r * TAIL) + D < 2 * (D * k) + 2 * D
    ensures 0 <= k <= TAIL
  {
    if k < 0 {
      MulLess(D, k, -1);
      assert false;
    }
    if k > TAIL {
      MulLess(D, TAIL + 1, k);
      assert false;
    }
  }

  lemma MulDouble(d: nat, a: int)
    ensures d * (2 * a) == 2 * (d * a)
  {
  }

  lemma AboveTie(D: nat, r: nat, k: int)
    requires D < 8 * TAIL && 2 * r >= D + 8 && 2 * (r * TAIL) + D < 2 * (D * k) + 2 * D
    ensures 2 * k > TAIL
  {
    if 2 * k <= TAIL {
      MulLess(D, 2 * k, TAIL);
      MulDouble(D, k);
      assert false;
    }
  }

  lemma BelowTie(D: nat, r: nat, k: int)
    requires D < 8 * TAIL && 2 * r + 8 <= D && 2 * (D * k) <= 2 * (r * TAIL) + D
    ensures 2 * k < TAIL
  {
    if 2 * k >= TAIL {
      MulLess(D, TAIL, 2 * k);
      MulDouble(D, k);
      assert false;
    }
  }

  lemma Near(n: nat, q: nat, k: int)
    requires n == q * TAIL + k && 0 <= k <= TAIL && 2 * k != TAIL
    ensures Twice(n) == if 2 * k > TAIL then q + 1 else q
  {
    if k == TAIL {
      assert n == (q + 1) * TAIL;
      assert n / TAIL == q + 1 && n % TAIL == 0;
    } else {
      assert n / TAIL == q && n % TAIL == k;
    }
  }

  /** Away from a tie, double rounding is harmless: in units of 1/D a tie is at
      least eight away, and eight is more than half a unit in the 20th place. */
  lemma FarFromTie(D: nat, q: nat, r: nat, n: nat, m: nat)
    requires Splits(D, m, q, r) && Near20(D, m, n)
    requires D < 8 * TAIL && (2 * r >= D + 8 || 2 * r + 8 <= D)
    ensures Twice(n) == if 2 * r > D then q + 1 else q
  {
    hide Near20, Twice;
    var k := Offset(n, q);
    OffsetBound(D, q, r, n, m);
    OffsetRange(D, r, k);
    if 2 * r >= D + 8 { AboveTie(D, r, k); } else { BelowTie(D, r, k); }
    Near(n, q, k);
  }

  lemma TwiceOnTie(n: nat, q: nat)
    requires 2 * n == 2 * q * TAIL + TAIL
    ensures Twice(n) == if q % 2 == 1 then q + 1 else q
  {
    assert n / TAIL == q && 2 * (n % TAIL) == TAIL;
  }

  lemma TieOffset(D: nat, k: int)
    requires D > 0 && 2 * (D * k) <= D * TAIL + D < 2 * (D * k) + 2 * D
    ensures 2 * k == TAIL
  {
    if 2 * k <= TAIL - 2 {
      MulLess(D, 2 * k, TAIL - 2);
      MulDouble(D, k);
      assert false;
    }
    if 2 * k >= TAIL + 2 {
      MulLess(D, TAIL + 2, 2 * k);
      MulDouble(D, k);
      assert false;
    }
  }

  /** On a tie the string shows the tie, digit for digit. */
  lemma OnTie(D: nat, q: nat, r: nat, n: nat, m: nat)
    requires Splits(D, m, q, r) && 2 * r == D
    requires Near20(D, m, n)
    ensures Twice(n) == if q % 2 == 1 then q + 1 else q
  {
    var k := Offset(n, q);
    OffsetBound(D, q, r, n, m);
    assert 2 * (r * TAIL) == D * TAIL;
    TieOffset(D, k);
    TwiceOnTie(n, q);
  }

  lemma {:induction false} EightDivides(e: nat)
    requires e >= 3
    ensures Pow2(e) == 8 * Pow2(e - 3)
  {
    assert Pow2(e) == 2 * Pow2(e - 1) && Pow2(e - 1) == 2 * Pow2(e - 2);
  }

  lemma MulEight(q: nat, d: nat)
    ensures q * (8 * d) == 8 * (q * d)
  {
  }

  lemma EightApart(x: int, d: int)
    requires d == 8 * x
    ensures d == 0 || d >= 8 || d <= -8
  {
  }

  /** The distance of 100 x from a tie is a multiple of 4 / 2^e, so it is zero or
      at least that: 100 supplies the factor that rounding to 20 places needs. */
  lemma TieGap(m: nat, e: nat, q: nat, r: nat)
    requires e >= 3 && Splits(Pow2(e), m, q, r)
    ensures var D := Pow2(e); 2 * r == D || 2 * r >= D + 8 || 2 * r + 8 <= D
  {
    EightDivides(e);
    var D, E := Pow2(e), Pow2(e - 3);
    MulEight(q, E);
    var qE := q * E;
    EightApart(25 * m - 2 * qE - E, 2 * r - D);
  }

  /** Pow2 grows, and its value at the two exponents that matter. */
  lemma {:induction false} Pow2Monotone(a: nat, b: nat)
    requires a <= b
    ensures Pow2(a) <= Pow2(b)
    decreases b
  {
    if a < b { Pow2Monotone(a, b - 1); }
  }

  lemma Pow2Values()
    ensures Pow2(53) == 0x20_0000_0000_0000 && Pow2(61) == 256 * Pow2(53) && Pow2(62) == 512 * Pow2(53)
    ensures Pow2(62) < 8 * TAIL
  {
    assert Pow2(10) == 1024;
    assert Pow2(20) == 0x10_0000;
    assert Pow2(30) == 0x4000_0000;
    assert Pow2(40) == 0x100_0000_0000;
    assert Pow2(50) == 0x4_0000_0000_0000;
    assert Pow2(53) == 0x20_0000_0000_0000;
    assert Pow2(57) == 16 * Pow2(53);
    assert Pow2(61) == 16 * Pow2(57);
  }

  /** With at most two bits after the point the hundredths are whole. */
  lemma CoarseGap(m: nat, e: nat, q: nat, r: nat)
    requires e < 3 && Splits(Pow2(e), m, q, r)
    ensures r == 0
  {
    assert Pow2(2) == 4 && Pow2(1) == 2 && Pow2(0) == 1;
    var D := Pow2(e);
    if e == 2 {
      assert 100 * m == q * 4 + r;
    } else if e == 1 {
      assert 100 * m == q * 2 + r;
    } else {
      assert D == 1;
    }
  }

  lemma DivMod(a: nat, d: nat)
    requires d > 0
    ensures a == (a / d) * d + a % d && a % d < d
  {
  }

  lemma DivModUnique(a: nat, d: nat, q: nat, r: nat)
    requires r < d && a == q * d + r
    ensures a / d == q && a % d == r
  {
    DivMod(a, d);
    var x, y := a / d, a % d;
    if x < q {
      MulLess(d, x + 1, q);
      assert false;
    }
    if x > q {
      MulLess(d, q + 1, x);
      assert false;
    }
  }

  lemma HalfEvenOf(D: nat, m: nat, q: nat, r: nat)
    requires Splits(D, m, q, r)
    ensures HalfEven(100 * m, D) == if 2 * r > D || (2 * r == D && q % 2 == 1) then q + 1 else q
  {
    DivModUnique(100 * m, D, q, r);
  }

  /** The hundredths of m / 2^e and what is left of one; away from a tie and
      from a whole hundredth, what is left is far from a tie. */
  lemma SplitOf(m: nat, e: nat) returns (q: nat, r: nat)
    ensures var D := Pow2(e);
      && Splits(D, m, q, r)
      && (2 * r == D || r == 0 || 2 * r >= D + 8 || 2 * r + 8 <= D)
  {
    hide Pow2;
    var D := Pow2(e);
    q, r := 100 * m / D, 100 * m % D;
    assert Splits(D, m, q, r) by { DivMod(100 * m, D); }
    if e < 3 { CoarseGap(m, e, q, r); } else { TieGap(m, e, q, r); }
  }

  lemma ExactValue(D: nat, q: nat, n: nat, m: nat)
    requires Splits(D, m, q, 0)
    requires Near20(D, m, n)
    ensures Twice(n) == q
  {
    var k := Offset(n, q);
    OffsetBound(D, q, 0, n, m);
    OffsetRange(D, 0, k);
    if k > 0 {
      MulLess(D, 1, k);
      assert false;
    }
    Near(n, q, k);
  }

  /** Every dyadic with at most 62 places after the binary point is rounded
      exactly, of any size. */
  lemma ExactUpTo62(m: nat, e: nat)
    requires e <= 62
    ensures FromDigits(ToFixed20(m, e)) == HalfEven(100 * m, Pow2(e))
  {
    hide FromDigits, ToFixed20, Scaled, Twice, Pow2, Near20, Splits, HalfEven;
    var q, r := SplitOf(m, e);
    var D, n := Pow2(e), Scaled(m, e);
    FromDigitsIsTwice(m, e);
    ScaledBound(m, e);
    HalfEvenOf(D, m, q, r);
    if 2 * r == D {
      OnTie(D, q, r, n, m);
    } else if r == 0 {
      ExactValue(D, q, n, m);
    } else {
      Pow2Monotone(e, 62);
      Pow2Values();
      FarFromTie(D, q, r, n, m);
    }
  }

  lemma SmallDivides(a: nat, d: nat)
    requires 2 * a < d
    ensures a / d == 0 && a % d == a
  {
  }

  lemma TinyOffset(D: nat, m: nat, n: nat)
    requires 256 * m < D && 2 * (D * n) <= 2 * m * UNIT + D
    ensures 2 * n < TAIL
  {
    if 2 * n >= TAIL {
      MulLess(D, TAIL, 2 * n);
      MulDouble(D, n);
      assert false;
    }
  }

  /** A double with more places is too small to reach the first hundredth. */
  lemma TinyIsZero(m: nat, e: nat)
    requires m < Pow2(53) && e >= 61
    ensures FromDigits(ToFixed20(m, e)) == 0 && HalfEven(100 * m, Pow2(e)) == 0
  {
    var D := Pow2(e);
    Pow2Monotone(61, e);
    Pow2Values();
    assert 256 * m < D;
    SmallDivides(100 * m, D);
    FromDigitsIsTwice(m, e);
    ScaledBound(m, e);
    TinyOffset(D, m, Scaled(m, e));
    Near(Scaled(m, e), 0, Scaled(m, e));
  }

  /** Every non-negative double below 10^21, whatever its exponent, is rounded
      to hundredths exactly, ties to even, from its 20-digit string alone. */
  lemma EveryDoubleIsExact(m: nat, e: nat)
    requires m < Pow2(53)
    ensures FromDigits(ToFixed20(m, e)) == HalfEven(100 * m, Pow2(e))
  {
    if e <= 62 { ExactUpTo62(m, e); } else { TinyIsZero(m, e); }
  }

  const JUST_OFF: nat := 2_259_726_149_029_420_073

  /** The bound on the exponent is sharp: one more place, and a value just off a
      tie shows the tie in its string and is rounded the wrong way. */
  lemma SixtyThreeIsTooMany()
    ensures FromDigits(ToFixed20(JUST_OFF, 63)) == 24 && HalfEven(100 * JUST_OFF, Pow2(63)) == 25
  {
    hide FromDigits, ToFixed20, Twice;
    Pow2Values();
    assert Pow2(63) == 2 * Pow2(62) == 0x8000_0000_0000_0000;
    FromDigitsIsTwice(JUST_OFF, 63);
    DivModUnique(2 * JUST_OFF * UNIT + Pow2(63), 2 * Pow2(63), 24500000000000000000, 17223372036854775808);
    TwiceOnTie(24500000000000000000, 24);
    HalfEvenOf(Pow2(63), JUST_OFF, 24, 4611686018427387908);
  }

  // ------------------------------------------------------------- the method

  function Signed(negative: bool, n: nat): int {
    if negative then 0 - n else n
  }

  /** Whether a digit other than zero is among them. */
  method AnyNonZero(d: seq<nat>) returns (found: bool)
    ensures found <==> exists i :: 0 <= i < |d| && d[i] != 0
  {
    for i := 0 to |d|
      invariant forall k :: 0 <= k < i ==> d[k] == 0
    {
      if d[i] != 0 { return true; }
    }
    return false;
  }

  /** x = m / 2^e, negated or not, rounded to hundredths and counted in them:
      exact, ties to even, while hundredths are exact integers and the string has
      no exponent. */
  method PyRound2(negative: bool, m: nat, e: nat) returns (hundredths: int)
    ensures m < Pow2(53) || e <= 62 ==>
      hundredths == Signed(negative, HalfEven(100 * m, Pow2(e)))
  {
    hide HalfEven, ToFixed20;
    if m < Pow2(53) { EveryDoubleIsExact(m, e); }
    if e <= 62 { ExactUpTo62(m, e); }
    var s := ToFixed20(m, e);
    var n := s.whole * 100 + ReadDigits(s.decimals[..2]);
    var tail := s.decimals[2..];
    var third := tail[0];
    if third > 5 {
      n := n + 1;
    } else if third == 5 {
      var above := AnyNonZero(tail[1..]);
      if above {
        n := n + 1;
      } else if n % 2 == 1 {
        n := n + 1;
      }
    }
    hundredths := Signed(negative, n);
  }
}
