/** Machine words, the bit masks the simulator builds from powers of two, and
    the counting facts about duplicate-free sequences. */
module Words {

  datatype Option<+T> = None | Some(value: T)

  const TWO32: nat := 0x1_0000_0000
  const TWO64: nat := 0x1_0000_0000_0000_0000

  type byte = x: int | 0 <= x < 0x100
  type uint32 = x: int | 0 <= x < 0x1_0000_0000
  type uint64 = x: int | 0 <= x < 0x1_0000_0000_0000_0000

  /** Unsigned wrap-around of the host's 32- and 64-bit arithmetic. */
  function Wrap32(x: int): uint32 { x % TWO32 }

  function Wrap64(x: int): uint64 { x % TWO64 }

  lemma WrapSmall(x: nat)
    requires x < TWO32
    ensures Wrap32(x) == x
  {
  }

  /** The 32-bit halves of a 64-bit register, and the register with one half replaced:
      `(x & 0xFFFFFFFF00000000) | v` and `(x & 0xFFFFFFFF) | (v << 32)`. */
  function Lo(x: uint64): uint32 { x % TWO32 }

  function Hi(x: uint64): uint32 { x / TWO32 }

  function WithLo(x: uint64, v: uint32): uint64 { x - Lo(x) + v }

  function WithHi(x: uint64, v: uint32): uint64 { Lo(x) + v * TWO32 }

  /** A half write sets its half and keeps the other. */
  lemma HalfWrites(x: uint64, v: uint32)
    ensures Lo(WithLo(x, v)) == v && Hi(WithLo(x, v)) == Hi(x)
    ensures Lo(WithHi(x, v)) == Lo(x) && Hi(WithHi(x, v)) == v
  {
    QuotientIs(WithLo(x, v), TWO32, Hi(x), v);
    QuotientIs(WithHi(x, v), TWO32, v, Lo(x));
  }

  /** The two's complement reading of a 64-bit word, as a cast to int64_t gives it. */
  function Signed64(x: uint64): int {
    if x < TWO64 / 2 then x else x - TWO64
  }

  function Pow2(k: nat): (r: nat)
    ensures r > 0
  {
    if k == 0 then 1 else 2 * Pow2(k - 1)
  }

  /** Bitwise AND of two unsigned words, bit by bit. */
  function And(a: nat, b: nat): nat {
    if a == 0 || b == 0 then 0 else 2 * And(a / 2, b / 2) + (a % 2) * (b % 2)
  }

  /** `a & (2^k - 1)` keeps the remainder modulo 2^k. */
  lemma {:induction false} AndLowMask(a: nat, k: nat)
    ensures And(a, Pow2(k) - 1) == a % Pow2(k)
  {
    if k == 0 {
    } else if a == 0 {
      ModSmall(0, Pow2(k));
    } else {
      AndLowMask(a / 2, k - 1);
      AndLowStep(a, Pow2(k - 1));
    }
  }

  lemma AndLowStep(a: nat, p: nat)
    requires a > 0 && p > 0 && And(a / 2, p - 1) == a / 2 % p
    ensures And(a, 2 * p - 1) == a % (2 * p)
  {
    assert (2 * p - 1) / 2 == p - 1 && (2 * p - 1) % 2 == 1;
    ModTwice(a, p);
  }

  /** `a & ~(2^k - 1)`, the complement taken in n bits, clears the remainder modulo 2^k. */
  lemma {:induction false} AndHighMask(a: nat, k: nat, n: nat)
    requires k <= n && a < Pow2(n)
    ensures Pow2(k) <= Pow2(n)
    ensures And(a, Pow2(n) - Pow2(k)) == a - a % Pow2(k)
  {
    Pow2Monotone(k, n);
    if k == 0 {
      AndWhole(a, n);
    } else if a == 0 {
      ModSmall(0, Pow2(k));
    } else {
      AndHighMask(a / 2, k - 1, n - 1);
      AndHighStep(a, Pow2(k - 1), Pow2(n - 1));
    }
  }

  lemma AndWhole(a: nat, n: nat)
    requires a < Pow2(n)
    ensures And(a, Pow2(n) - 1) == a
  {
    AndLowMask(a, n);
    ModSmall(a, Pow2(n));
  }

  lemma {:induction false} AndHighStep(a: nat, p: nat, q: nat)
    requires 0 < p <= q && And(a / 2, q - p) == a / 2 - a / 2 % p
    ensures And(a, 2 * q - 2 * p) == a - a % (2 * p)
  {
    AndEven(a, q - p);
    ModTwice(a, p);
  }

  lemma AndEven(a: nat, m: nat)
    ensures And(a, 2 * m) == 2 * And(a / 2, m)
  {
    var b := 2 * m;
    assert b / 2 == m && b % 2 == 0;
    assert (a % 2) * (b % 2) == 0;
  }

  lemma {:induction false} Pow2Monotone(k: nat, n: nat)
    requires k <= n
    ensures Pow2(k) <= Pow2(n)
    decreases n
  {
    if k < n {
      Pow2Monotone(k, n - 1);
    }
  }

  lemma {:induction false} Pow2Divides(k: nat, n: nat)
    requires k <= n
    ensures Pow2(n) % Pow2(k) == 0
    decreases n
  {
    if k == n {
      QuotientIs(Pow2(n), Pow2(k), 1, 0);
    } else {
      Pow2Divides(k, n - 1);
      var p := Pow2(k);
      var q := Pow2(n - 1) / p;
      assert Pow2(n - 1) == p * q;
      assert Pow2(n) == p * (2 * q) + 0;
      QuotientIs(Pow2(n), p, 2 * q, 0);
    }
  }

  /** A quotient and remainder with the right bounds are the quotient and remainder. */
  lemma QuotientIs(a: int, b: int, q: int, r: int)
    requires 0 <= r < b
    requires a == b * q + r
    ensures a / b == q && a % b == r
  {
    var q', r' := a / b, a % b;
    assert a == b * q' + r';
    assert b * (q - q') == r' - r;
    MultipleIsFar(b, q - q');
  }

  /** A nonzero multiple of b is at least b away from zero. */
  lemma MultipleIsFar(b: int, d: int)
    requires b > 0
    ensures d >= 1 ==> b * d >= b
    ensures d <= -1 ==> b * d <= -b
  {
  }

  lemma ModSmall(a: nat, m: nat)
    requires a < m
    ensures a % m == a && a / m == 0
  {
    QuotientIs(a, m, 0, a);
  }

  lemma QuotientShrinks(a: nat, b: nat)
    requires b > 0
    ensures 0 <= a / b <= a
  {
    ProductMonotone(a / b, 1, b);
    assert a == b * (a / b) + a % b;
  }

  /** Quotient and remainder determine the dividend. */
  lemma SameSplit(a: int, b: int, m: int)
    requires m > 0 && a / m == b / m && a % m == b % m
    ensures a == b
  {
    assert a == m * (a / m) + a % m;
    assert b == m * (b / m) + b % m;
  }

  /** Rounding down to a multiple keeps the quotient. */
  lemma RoundDown(a: nat, m: nat)
    requires m > 0
    ensures a - a % m == m * (a / m) >= 0
    ensures (a - a % m) / m == a / m && (a - a % m) % m == 0
  {
    assert a == m * (a / m) + a % m;
    ProductMonotone(m, 0, a / m);
    QuotientIs(m * (a / m), m, a / m, 0);
  }

  lemma ModTwice(a: nat, p: nat)
    requires p > 0
    ensures a % (2 * p) == 2 * (a / 2 % p) + a % 2
  {
    var h := a / 2;
    var q, r := h / p, h % p;
    assert h == p * q + r;
    assert a == 2 * h + a % 2;
    assert 2 * (p * q) == (2 * p) * q;
    QuotientIs(a, 2 * p, q, 2 * r + a % 2);
  }

  lemma Regroup(b: int, c: int, q: int, r: int)
    ensures b * (c * q + r) == (b * c) * q + b * r
  {
    assert b * (c * q) == (b * c) * q;
  }

  lemma ProductMonotone(b: int, r: int, s: int)
    requires b >= 0 && r <= s
    ensures b * r <= b * s
  {
  }

  /** Dividing by a product is dividing twice. */
  lemma DivideByProduct(a: nat, b: nat, c: nat)
    requires b > 0 && c > 0
    ensures b * c > 0
    ensures a / (b * c) == a / b / c
  {
    var q1, r1 := a / b, a % b;
    var q, r := q1 / c, q1 % c;
    var bc, br := b * c, b * r;
    Regroup(b, c, q, r);
    ProductMonotone(b, r, c - 1);
    ProductMonotone(b, 0, r);
    ProductMonotone(b, 1, c);
    assert b * (c - 1) == bc - b;
    QuotientIs(a, bc, q, br + r1);
  }

  ghost predicate NoDup<T(!new)>(s: seq<T>) {
    forall i, j :: 0 <= i < j < |s| ==> s[i] != s[j]
  }

  ghost function Elements<T(!new)>(s: seq<T>): set<T> { set x | x in s }

  /** A duplicate-free sequence has as many elements as its set of elements. */
  lemma {:induction false} NoDupSize<T(!new)>(s: seq<T>)
    requires NoDup(s)
    ensures |Elements(s)| == |s|
  {
    if s == [] {
      assert Elements(s) == {};
    } else {
      var t := s[..|s| - 1];
      NoDupSize(t);
      assert s == t + [s[|s| - 1]];
      assert Elements(s) == Elements(t) + {s[|s| - 1]};
      assert s[|s| - 1] !in Elements(t);
    }
  }

  ghost function Below(n: nat): (r: set<nat>)
    ensures |r| == n
    ensures forall x: nat :: x in r <==> x < n
  {
    if n == 0 then {} else Below(n - 1) + {n - 1}
  }

  lemma {:induction false} SubsetSize<T>(a: set<T>, b: set<T>)
    requires a <= b
    ensures |a| <= |b|
    ensures |a| == |b| ==> a == b
    decreases a
  {
    if a == {} {
      if |b| == 0 {
        assert b == {};
      }
    } else {
      var x :| x in a;
      SubsetSize(a - {x}, b - {x});
      if |a| == |b| {
        assert a - {x} == b - {x};
      }
    }
  }

  /** A duplicate-free sequence of numbers below n has at most n entries. */
  lemma Pigeonhole(s: seq<nat>, n: nat)
    requires NoDup(s) && forall x :: x in s ==> x < n
    ensures |s| <= n
  {
    NoDupSize(s);
    SubsetSize(Elements(s), Below(n));
  }
}
