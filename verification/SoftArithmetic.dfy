/** Multiplication and division in software (lib/libc/libc.c:600-706, 787-812).
    Registers are bit patterns, integers from 0 to 2^32 - 1 or 2^64 - 1; every
    operation that C does on 32 or 64 bits wraps explicitly. */
module SoftArithmetic {
  import opened Arithmetic

  const U16: int := 0x1_0000
  const I32: int := 0x8000_0000
  const U32: int := 0x1_0000_0000
  const I64: int := 0x8000_0000_0000_0000
  const U64: int := 0x1_0000_0000_0000_0000

  function Signed32(x: int): int { if x % U32 < I32 then x % U32 else x % U32 - U32 }
  function Signed64(x: int): int { if x % U64 < I64 then x % U64 else x % U64 - U64 }

  // ----- multiplication -----

  /** One round of the shift-and-add loop: what is still to add, up to multiples of 2^32. */
  lemma MulRound(a: int, b: int, answer: int, c: int, d: int)
    ensures var bit, h := b % 2, b / 2;
      (answer + bit * a - U32 * c) + (2 * a - U32 * d) * h == answer + a * b - U32 * (c + d * h)
  {
    var bit, h := b % 2, b / 2;
    assert b == 2 * h + bit;
    assert a * b == a * (2 * h) + a * bit;
    assert (2 * a - U32 * d) * h == a * (2 * h) - U32 * (d * h) by {
      assert (2 * a - U32 * d) * h == (2 * a) * h - (U32 * d) * h;
    }
  }

  method MulSI3(a0: int, b0: int) returns (answer: int)
    requires 0 <= a0 < U32 && 0 <= b0 < U32
    ensures answer == a0 * b0 % U32
  {
    answer := 0;
    var a, b := a0, b0;
    ghost var k := 0;
    while b != 0
      invariant 0 <= b < U32 && 0 <= answer < U32 && 0 <= a < U32
      invariant a0 * b0 == answer + a * b + U32 * k
      decreases b
    {
      ghost var c := if b % 2 == 1 then (answer + a) / U32 else 0;
      ghost var d := 2 * a / U32;
      MulRound(a, b, answer, c, d);
      if b % 2 == 1 {
        answer := (answer + a) % U32;
      }
      a := a * 2 % U32;
      k := k + c + d * (b / 2);
      b := b / 2;
    }
    DivUnique(a0 * b0, U32, k);
  }

  lemma Halves(a: int)
    requires 0 <= a < U32
    ensures a == a / U16 * U16 + a % U16 && 0 <= a / U16 < U16 && 0 <= a % U16 < U16
  {
  }

  lemma ProductBound(x: int, y: int, n: int)
    requires 0 <= x < n && 0 <= y < n
    ensures 0 <= x * y <= (n - 1) * (n - 1)
  {
    assert x * y <= (n - 1) * y;
    assert (n - 1) * y <= (n - 1) * (n - 1);
  }

  lemma SchoolProduct(a: int, b: int)
    requires 0 <= a < U32 && 0 <= b < U32
    ensures var ah, al, bh, bl := a / U16, a % U16, b / U16, b % U16;
      a * b == U32 * (ah * bh) + U16 * (ah * bl + bh * al) + al * bl
  {
    var ah, al, bh, bl := a / U16, a % U16, b / U16, b % U16;
    assert a == ah * U16 + al && b == bh * U16 + bl;
    Distribute(ah, al, bh, bl);
  }

  lemma Distribute(ah: int, al: int, bh: int, bl: int)
    ensures (ah * U16 + al) * (bh * U16 + bl) == U32 * (ah * bh) + U16 * (ah * bl + bh * al) + al * bl
  {
    assert (ah * U16 + al) * (bh * U16 + bl) == (ah * U16) * (bh * U16 + bl) + al * (bh * U16 + bl);
    assert (ah * U16) * (bh * U16 + bl) == (ah * bh) * U32 + (ah * bl) * U16;
    assert al * (bh * U16 + bl) == (bh * al) * U16 + al * bl;
  }

  /** What the additions of lines 617-628 make of the four products. */
  function LowWord(ll: int, hl: int, lh: int): int {
    var t1 := ll / U16 + hl;
    var low := ll % U16 + t1 % U16 * U16;
    low % U16 + (low / U16 + lh) % U16 * U16
  }

  function HighWord(ll: int, hl: int, lh: int, hh: int): int {
    var t1 := ll / U16 + hl;
    var low := ll % U16 + t1 % U16 * U16;
    t1 / U16 + (low / U16 + lh) / U16 + hh
  }

  /** No carry is lost. */
  lemma Carries(ll: int, hl: int, lh: int, hh: int)
    requires 0 <= ll && 0 <= hl && 0 <= lh && 0 <= hh
    ensures HighWord(ll, hl, lh, hh) * U32 + LowWord(ll, hl, lh) == U32 * hh + U16 * (hl + lh) + ll
    ensures 0 <= LowWord(ll, hl, lh) < U32 && 0 <= HighWord(ll, hl, lh, hh)
  {
    var t1 := ll / U16 + hl;
    var low := ll % U16 + t1 % U16 * U16;
    var t2 := low / U16 + lh;
    DivUnique(low, U16, t1 % U16);
    assert ll == ll / U16 * U16 + ll % U16;
    assert t1 == t1 / U16 * U16 + t1 % U16;
    assert t2 == t2 / U16 * U16 + t2 % U16;
  }

  lemma FullProductBound(a: int, b: int)
    requires 0 <= a < U32 && 0 <= b < U32
    ensures 0 <= a * b < U64
  {
    ProductBound(a, b, U32);
  }

  lemma SmallProduct(x: int, y: int)
    requires 0 <= x < U16 && 0 <= y < U16
    ensures 0 <= x * y <= (U16 - 1) * (U16 - 1) && x * y % U32 == x * y
  {
    ProductBound(x, y, U16);
  }

  /** The exact product, if the words are what the four products make. */
  lemma Exact(a: int, b: int)
    requires 0 <= a < U32 && 0 <= b < U32
    ensures var al, ah, bl, bh := a % U16, a / U16, b % U16, b / U16;
      var low, high := LowWord(al * bl, ah * bl, bh * al), HighWord(al * bl, ah * bl, bh * al, ah * bh);
      0 <= low < U32 && 0 <= high < U32 && high * U32 + low == a * b
  {
    hide LowWord, HighWord;
    var al, ah, bl, bh := a % U16, a / U16, b % U16, b / U16;
    Halves(a);
    Halves(b);
    SmallProduct(al, bl);
    SmallProduct(ah, bl);
    SmallProduct(bh, al);
    SmallProduct(ah, bh);
    SchoolProduct(a, b);
    FullProductBound(a, b);
    Carries(al * bl, ah * bl, bh * al, ah * bh);
  }

  /** __muldsi3: the exact product, from four products of 16-bit halves. */
  method MulDSI3(a: int, b: int) returns (low: int, high: int)
    requires 0 <= a < U32 && 0 <= b < U32
    ensures 0 <= low < U32 && 0 <= high < U32 && high * U32 + low == a * b
  {
    hide LowWord, HighWord;
    var al, ah, bl, bh := a % U16, a / U16, b % U16, b / U16;
    Halves(a);
    Halves(b);
    Exact(a, b);
    SmallProduct(al, bl);
    SmallProduct(ah, bl);
    SmallProduct(bh, al);
    SmallProduct(ah, bh);
    low, high := Columns(al * bl % U32, ah * bl % U32, bh * al % U32, ah * bh % U32);
  }

  /** Lines 618-622 and 623-627: a product of two halves is added to the
      middle of the result. */
  method AddMiddle(low0: int, p: int) returns (low: int, carry: int)
    requires 0 <= low0 < U32 && 0 <= p <= (U16 - 1) * (U16 - 1)
    ensures low == low0 % U16 + (low0 / U16 + p) % U16 * U16 && carry == (low0 / U16 + p) / U16
    ensures 0 <= low < U32 && 0 <= carry < U16
  {
    var t := low0 / U16;
    low := low0 % U16;
    assert t + p < U32;
    t := (t + p) % U32;
    assert t == low0 / U16 + p;
    low := (low + t % U16 * U16) % U32;
    carry := t / U16;
  }

  /** Lines 617-628, on the four products. */
  method Columns(ll: int, hl: int, lh: int, hh: int) returns (low: int, high: int)
    requires 0 <= ll < U32 && 0 <= hl <= (U16 - 1) * (U16 - 1) && 0 <= lh <= (U16 - 1) * (U16 - 1) && 0 <= hh
    requires HighWord(ll, hl, lh, hh) < U32
    ensures low == LowWord(ll, hl, lh) && high == HighWord(ll, hl, lh, hh)
  {
    var carry;
    low, high := AddMiddle(ll, hl);
    assert high == (ll / U16 + hl) / U16;
    ghost var first := low;
    low, carry := AddMiddle(low, lh);
    assert carry == (first / U16 + lh) / U16;
    assert high + carry + hh == HighWord(ll, hl, lh, hh);
    high := (high + carry) % U32;
    high := (high + hh) % U32;
  }

  /** A 64-bit product from the low words exactly and the others modulo 2^32. */
  lemma WideProduct(xh: int, xl: int, yh: int, yl: int, c: int)
    ensures (xh * U32 + xl) * (yh * U32 + yl) - (xl * yl + (xh * yl + xl * yh - c * U32) * U32) == U64 * (xh * yh + c)
  {
    assert (xh * U32 + xl) * (yh * U32 + yl) == (xh * U32) * (yh * U32 + yl) + xl * (yh * U32 + yl);
    assert (xh * U32) * (yh * U32 + yl) == (xh * yh) * U64 + (xh * yl) * U32;
    assert xl * (yh * U32 + yl) == (xl * yh) * U32 + xl * yl;
  }

  /** Signed and unsigned readings differ by a multiple of 2^64, and so do products. */
  lemma SignedProduct(a: int, b: int, x: int, y: int, i: int, j: int)
    requires x == a + U64 * i && y == b + U64 * j
    ensures x * y == a * b + U64 * (a * j + i * b + U64 * (i * j))
  {
    assert (a + U64 * i) * (b + U64 * j) == a * (b + U64 * j) + (U64 * i) * (b + U64 * j);
    assert a * (b + U64 * j) == a * b + U64 * (a * j);
    assert (U64 * i) * (b + U64 * j) == U64 * (i * b) + U64 * (U64 * (i * j));
  }

  /** A word that is made of the low product and of the cross products modulo
      2^32 is the product of a and b modulo 2^64. */
  lemma MulWord(a: int, b: int, all: int, xh: int, xl: int, yh: int, yl: int, c: int)
    requires a % U64 == xh * U32 + xl && b % U64 == yh * U32 + yl && 0 <= all < U64
    requires all == xl * yl + (xh * yl + xl * yh - c * U32) * U32
    ensures all == a * b % U64
  {
    var x, y, i, j := a % U64, b % U64, -(a / U64), -(b / U64);
    WideProduct(xh, xl, yh, yl, c);
    SignedProduct(a, b, x, y, i, j);
    Multiple(a * b, all, xh * yh + c - (a * j + i * b + U64 * (i * j)));
  }

  lemma Multiple(p: int, r: int, k: int)
    requires p == r + U64 * k && 0 <= r < U64
    ensures r == p % U64
  {
    DivUnique(p, U64, k);
  }

  lemma CrossWord(high: int, p1: int, p2: int) returns (c: int)
    ensures (high + p1 % U32 + p2 % U32) % U32 == high + p1 + p2 - c * U32
  {
    c := p1 / U32 + p2 / U32 + (high + p1 % U32 + p2 % U32) / U32;
  }

  lemma SameResidue(p: int, r: int)
    requires r == p % U64 || r == p % U64 - U64
    ensures (r - p) % U64 == 0
  {
    var q := p / U64;
    DivUnique(r - p, U64, if r == p % U64 then -q else -q - 1);
  }

  /** __muldi3: the product modulo 2^64, read as a signed number. */
  method MulDI3(a: int, b: int) returns (r: int)
    requires -I64 <= a < I64 && -I64 <= b < I64
    ensures r == Signed64(a * b)
    ensures -I64 <= r < I64 && (r - a * b) % U64 == 0
  {
    var x, y := a % U64, b % U64;
    var xl, xh, yl, yh := x % U32, x / U32, y % U32, y / U32;
    var low, high := MulDSI3(xl, yl);
    var m1 := MulSI3(xh, yl);
    var m2 := MulSI3(xl, yh);
    ghost var c := CrossWord(high, xh * yl, xl * yh);
    high := (high + m1 + m2) % U32;
    var all := high * U32 + low;
    MulWord(a, b, all, xh, xl, yh, yl, c);
    r := if all < I64 then all else all - U64;
    SameResidue(a * b, r);
  }

  // ----- division -----

  function Pow2(k: nat): int { if k == 0 then 1 else 2 * Pow2(k - 1) }

  ghost predicate IsPow2(x: int) { exists k: nat :: x == Pow2(k) }

  lemma Doubled(x: int)
    requires IsPow2(x)
    ensures IsPow2(2 * x) && x >= 1
  {
    var k: nat :| x == Pow2(k);
    assert 2 * x == Pow2(k + 1);
    Positive(k);
  }

  lemma {:induction false} Positive(k: nat)
    ensures Pow2(k) >= 1
  {
    if k > 0 { Positive(k - 1); }
  }

  lemma Halved(x: int)
    requires IsPow2(x) && x > 1
    ensures IsPow2(x / 2) && x == 2 * (x / 2)
  {
    var k: nat :| x == Pow2(k);
    assert x / 2 == Pow2(k - 1);
  }

  /** res | bit, for a power of two. */
  function SetBit(res: int, bit: int): int
    requires bit > 0
  {
    if res / bit % 2 == 1 then res else res + bit
  }

  /** The divisor aligned to `bit` is den0 * bit; dividing both by two keeps that. */
  lemma HalveDivisor(den0: int, bit: int)
    requires bit >= 2 && IsPow2(bit)
    ensures den0 * bit / 2 == den0 * (bit / 2)
  {
    Halved(bit);
    assert den0 * bit == 2 * (den0 * (bit / 2));
  }

  /** A quotient that is a multiple of 2 * bit has no bit `bit`, and stays a
      multiple of `bit` when that is set. */
  lemma FreshBit(m: int, bit: int)
    requires bit > 0
    ensures m * (2 * bit) == 2 * m * bit
    ensures SetBit(m * (2 * bit), bit) == m * (2 * bit) + bit == (2 * m + 1) * bit
  {
    assert m * (2 * bit) == 2 * m * bit && (2 * m + 1) * bit == 2 * m * bit + bit;
    DivUnique(m * (2 * bit), bit, 2 * m);
  }

  /** The loop of both divisions: one bit of the quotient. */
  ghost predicate Dividing(num0: int, den0: int, num: int, den: int, bit: int, res: int, m: int) {
    && 0 <= num && num0 == res * den0 + num && res >= 0
    && (if bit == 0 then num < den0
        else IsPow2(bit) && bit >= 1 && den == den0 * bit && num < 2 * den && res == m * (2 * bit) && m >= 0)
  }

  /** The divisor and the bit after a round. */
  lemma NextBit(den0: int, den: int, bit: int)
    requires den0 > 0 && bit >= 1 && IsPow2(bit) && den == den0 * bit
    ensures if bit == 1 then bit / 2 == 0 && den == den0
            else IsPow2(bit / 2) && bit / 2 >= 1 && den / 2 == den0 * (bit / 2) && den == 2 * (den / 2) && bit == 2 * (bit / 2)
  {
    if bit > 1 {
      Halved(bit);
      HalveDivisor(den0, bit);
      assert den == 2 * (den0 * (bit / 2));
    }
  }

  /** The quotient so far is a multiple n of `bit`, and `num` is left of the dividend. */
  lemma NextDividing(num0: int, den0: int, num: int, den: int, bit: int, res: int, n: int)
    requires den0 > 0 && bit >= 1 && IsPow2(bit) && den == den0 * bit
    requires 0 <= num < den && num0 == res * den0 + num && res >= 0 && res == n * bit && n >= 0
    ensures Dividing(num0, den0, num, den / 2, bit / 2, res, n)
  {
    NextBit(den0, den, bit);
    if bit > 1 {
      assert n * (2 * (bit / 2)) == n * bit;
    }
  }

  lemma TakeBit(den0: int, bit: int, res: int)
    ensures (res + bit) * den0 == res * den0 + den0 * bit
  {
  }

  lemma DivideRound(num0: int, den0: int, num: int, den: int, bit: int, res: int, m: int)
    requires den0 > 0 && bit > 0 && Dividing(num0, den0, num, den, bit, res, m)
    ensures SetBit(res, bit) == res + bit
    ensures var take := num >= den;
      Dividing(num0, den0, if take then num - den else num, den / 2, bit / 2, if take then res + bit else res,
               if take then 2 * m + 1 else 2 * m)
  {
    FreshBit(m, bit);
    TakeBit(den0, bit, res);
    if num >= den {
      NextDividing(num0, den0, num - den, den, bit, res + bit, 2 * m + 1);
    } else {
      NextDividing(num0, den0, num, den, bit, res, 2 * m);
    }
  }

  lemma Quotient(num0: int, den0: int, num: int, res: int, m: int)
    requires den0 > 0 && Dividing(num0, den0, num, 0, 0, res, m)
    ensures res == num0 / den0 && num == num0 % den0
  {
    DivUnique(num0, den0, res);
  }

  /** One shift of divisor and bit loses nothing while the divisor's top bit is clear. */
  lemma ShiftUp(den0: int, den: int, bit: int, top: int)
    requires den0 > 0 && IsPow2(bit) && bit >= 1 && den == den0 * bit && 0 <= den < top
    ensures den * 2 % (2 * top) == 2 * den && bit * 2 % (2 * top) == 2 * bit
    ensures IsPow2(2 * bit) && 2 * den == den0 * (2 * bit) && den > 0
  {
    Doubled(bit);
    BitBelow(den0, bit);
    assert den0 * (2 * bit) == 2 * den;
    DivUnique(2 * den, 2 * top, 0);
    DivUnique(2 * bit, 2 * top, 0);
  }

  /** Lines 650-653: the divisor is shifted up to the dividend. */
  method Align(num: int, den0: int) returns (den: int, bit: int)
    requires 0 <= num < U32 && 0 <= den0 < U32
    ensures den0 > 0 ==> Dividing(num, den0, num, den, bit, 0, 0)
    ensures den0 == 0 ==> den == 0 && bit == if num == 0 then 1 else 0
  {
    hide Pow2, IsPow2;
    den, bit := den0, 1;
    FirstBit(den0);
    WordSize();
    ghost var k := 32;
    while den < num && bit != 0 && den < I32
      invariant 0 <= den < U32 && 0 <= bit < U32 && 0 <= k
      invariant den0 > 0 ==> IsPow2(bit) && bit >= 1 && den == den0 * bit
      invariant den0 == 0 ==> den == 0 && ((bit == 0 && k == 0) || bit * Pow2(k) == U32) && (num == 0 ==> bit == 1)
      decreases if den0 > 0 then U32 - den else k
    {
      if den0 > 0 {
        ShiftUp(den0, den, bit, I32);
      } else {
        ZeroShift(bit, k);
        k := k - 1;
      }
      den := den * 2 % U32;
      bit := bit * 2 % U32;
    }
  }

  /** __udivmodsi4. A divisor of zero gives the remainder num and the quotient
      0, except that 0 / 0 gives 1. */
  method UDivModSI4(num0: int, den0: int, modwanted: bool) returns (r: int)
    requires 0 <= num0 < U32 && 0 <= den0 < U32
    ensures den0 > 0 ==> r == if modwanted then num0 % den0 else num0 / den0
    ensures den0 == 0 ==> r == if modwanted then num0 else if num0 == 0 then 1 else 0
  {
    var num, res := num0, 0;
    var den, bit := Align(num, den0);
    ghost var m := 0;
    while bit != 0
      invariant den0 > 0 ==> Dividing(num0, den0, num, den, bit, res, m)
      invariant bit >= 0
      invariant den0 == 0 ==> num == num0 && den == 0 && bit <= 1 && res == if num0 == 0 && bit == 0 then 1 else 0
      invariant den0 == 0 && num0 > 0 ==> bit == 0
      decreases bit
    {
      if den0 > 0 {
        hide Dividing, SetBit;
        DivideRound(num0, den0, num, den, bit, res, m);
        m := if num >= den then 2 * m + 1 else 2 * m;
      }
      if num >= den {
        num := num - den;
        res := SetBit(res, bit);
      }
      bit := bit / 2;
      den := den / 2;
    }
    if den0 > 0 { Quotient(num0, den0, num, res, m); }
    if modwanted { return num; }
    return res;
  }

  lemma BitBelow(den0: int, bit: int)
    requires den0 >= 1 && bit >= 1
    ensures bit <= den0 * bit
  {
    assert (den0 - 1) * bit >= 0;
  }

  lemma FirstBit(den0: int)
    ensures IsPow2(1) && den0 * 1 == den0
  {
    assert Pow2(0) == 1;
  }

  lemma WordSize()
    ensures Pow2(32) == U32
  {
    assert Pow2(8) == 0x100;
    assert Pow2(16) == 0x10000;
    assert Pow2(24) == 0x1000000;
  }

  /** With a divisor of zero the first loop ends when the bit has been shifted out. */
  lemma ZeroShift(bit: int, k: int)
    requires 0 < bit < U32 && k >= 0 && bit * Pow2(k) == U32
    ensures k >= 1
    ensures if bit * 2 == U32 then bit * 2 % U32 == 0 && k == 1 else bit * 2 < U32 && bit * 2 * Pow2(k - 1) == U32
  {
    assert Pow2(0) == 1;
    if k >= 1 {
      var p := Pow2(k - 1);
      assert bit * (2 * p) == bit * 2 * p;
      Positive(k - 1);
    }
  }

  /** The quotient that C wants, rounded towards zero, and its remainder. */
  function Trunc(a: int, b: int): int
    requires b != 0
  {
    var q := Abs(a) / Abs(b);
    if (a < 0) == (b < 0) then q else -q
  }

  function Rem(a: int, b: int): int
    requires b != 0
  {
    var r := Abs(a) % Abs(b);
    if a < 0 then -r else r
  }

  function Abs(x: int): int { if x < 0 then -x else x }

  lemma TruncLaw(a: int, b: int)
    requires b != 0
    ensures a == Trunc(a, b) * b + Rem(a, b) && Abs(Rem(a, b)) < Abs(b)
    ensures Rem(a, b) != 0 ==> (Rem(a, b) < 0 <==> a < 0)
  {
    var q, r := Abs(a) / Abs(b), Abs(a) % Abs(b);
    assert Abs(a) == q * Abs(b) + r;
    assert q * -b == -(q * b) && -q * b == -(q * b) && -q * -b == q * b;
  }

  lemma QuotientBound(x: int, y: int)
    requires 0 <= x && 1 <= y
    ensures 0 <= x / y <= x && 0 <= x % y < y
  {
    var q, r := x / y, x % y;
    assert x == q * y + r && 0 <= r < y;
    assert -q * y == -(q * y);
    OneMultiple(-q, y);
    NoLess(q, y);
  }

  lemma NoLess(q: int, y: int)
    requires q >= 0 && y >= 1
    ensures q <= q * y
  {
    assert q * (y - 1) >= 0;
    assert q * (y - 1) == q * y - q;
  }

  lemma StrictQuotient(x: int, y: int)
    requires 0 < x && 2 <= y
    ensures x / y < x
  {
    QuotientBound(x, y);
    var q := x / y;
    assert x == q * y + x % y;
    assert q * (y - 2) >= 0;
    assert q * (y - 2) == q * y - 2 * q;
  }

  /** Negation in a register, read as an unsigned number. */
  lemma NegateFits(a: int)
    requires -I32 <= a < I32
    ensures (if a < 0 then Signed32(-a) else a) % U32 == Abs(a)
    ensures 0 <= Abs(a) <= I32
  {
  }

  /** The sign put back, on 32 bits. */
  lemma SignBack(q: int, neg: bool)
    requires 0 <= q <= I32
    ensures var r := if neg then Signed32(-Signed32(q)) else Signed32(q);
      -I32 <= r < I32 && (r == (if neg then -q else q) <==> neg || q < I32) && (!neg && q == I32 ==> r == -I32)
  {
  }

  lemma OnlyOverflow(a: int, b: int)
    requires -I32 <= a < I32 && -I32 <= b < I32 && b != 0
    ensures 0 <= Abs(a) / Abs(b) <= I32
    ensures (a < 0) == (b < 0) && Abs(a) / Abs(b) == I32 <==> a == -I32 && b == -1
  {
    QuotientBound(Abs(a), Abs(b));
    if Abs(a) > 0 && Abs(b) >= 2 { StrictQuotient(Abs(a), Abs(b)); }
    if Abs(b) == 1 { DivUnique(Abs(a), 1, Abs(a)); }
    if a == 0 { DivUnique(0, Abs(b), 0); }
  }

  /** __divsi3: the truncated quotient, except for the one that does not fit.
      A divisor of zero gives 0, and 1 for 0 / 0. */
  method DivSI3(a0: int, b0: int) returns (res: int)
    requires -I32 <= a0 < I32 && -I32 <= b0 < I32
    ensures -I32 <= res < I32
    ensures b0 != 0 ==> (res == Trunc(a0, b0) <==> !(a0 == -I32 && b0 == -1))
    ensures b0 == 0 ==> res == if a0 == 0 then 1 else 0
    ensures a0 == -I32 && b0 == -1 ==> res == -I32
  {
    hide Signed32;
    var a, b, neg := a0, b0, false;
    if a < 0 {
      a := Signed32(-a);
      neg := !neg;
    }
    if b < 0 {
      b := Signed32(-b);
      neg := !neg;
    }
    NegateFits(a0);
    NegateFits(b0);
    var q := UDivModSI4(a % U32, b % U32, false);
    if b0 != 0 { OnlyOverflow(a0, b0); }
    SignBack(q, neg);
    res := Signed32(q);
    if neg {
      res := Signed32(-res);
    }
  }

  /** Taking the sign off and putting it back gives the number again. */
  lemma SignedAgain(a: int)
    requires -I32 <= a < I32
    ensures (if a < 0 then Signed32(-Signed32(Abs(a))) else Signed32(Abs(a))) == a
  {
  }

  /** __modsi3: the remainder with the sign of the dividend. A divisor of zero
      gives the dividend. */
  method ModSI3(a0: int, b0: int) returns (res: int)
    requires -I32 <= a0 < I32 && -I32 <= b0 < I32
    ensures res == if b0 == 0 then a0 else Rem(a0, b0)
  {
    hide Signed32;
    var a, b, neg := a0, b0, false;
    if a < 0 {
      a := Signed32(-a);
      neg := true;
    }
    if b < 0 {
      b := Signed32(-b);
    }
    NegateFits(a0);
    NegateFits(b0);
    var r := UDivModSI4(a % U32, b % U32, true);
    if b0 != 0 {
      QuotientBound(Abs(a0), Abs(b0));
      SignBack(r, neg);
    } else {
      SignedAgain(a0);
    }
    res := Signed32(r);
    if neg {
      res := Signed32(-res);
    }
  }

  /** Lines 794-797: the divisor is shifted up until its top bit is set. */
  method AlignDI4(num: int, den0: int) returns (den: int, qbit: int)
    requires 0 <= num < U64 && 0 < den0 < U64
    ensures Dividing(num, den0, num, den, qbit, 0, 0)
  {
    den, qbit := den0, 1;
    assert IsPow2(1) by { assert Pow2(0) == 1; }
    hide IsPow2;
    while den < I64
      invariant 0 < den < U64 && IsPow2(qbit) && qbit >= 1 && den == den0 * qbit
      decreases U64 - den
    {
      ShiftUp(den0, den, qbit, I64);
      den := den * 2 % U64;
      qbit := qbit * 2 % U64;
    }
  }

  /** __udivmoddi4 with a divisor that is not zero. */
  method UDivModDI4(num0: int, den0: int) returns (quot: int, rem: int)
    requires 0 <= num0 < U64 && 0 < den0 < U64
    ensures quot == num0 / den0 && rem == num0 % den0
  {
    hide IsPow2, Dividing, SetBit;
    var num := num0;
    quot := 0;
    var den, qbit := AlignDI4(num, den0);
    ghost var m := 0;
    DividingBit(num0, den0, num, den, qbit, quot, m);
    while qbit != 0
      invariant 0 <= qbit && Dividing(num0, den0, num, den, qbit, quot, m)
      decreases qbit
    {
      DivideRound(num0, den0, num, den, qbit, quot, m);
      m := if num >= den then 2 * m + 1 else 2 * m;
      if den <= num {
        num := num - den;
        quot := quot + qbit;
      }
      den := den / 2;
      qbit := qbit / 2;
    }
    Quotient0(num0, den0, num, den, quot, m);
    rem := num;
  }

  lemma DividingBit(num0: int, den0: int, num: int, den: int, bit: int, res: int, m: int)
    requires Dividing(num0, den0, num, den, bit, res, m)
    ensures bit >= 0
  {
  }

  lemma Quotient0(num0: int, den0: int, num: int, den: int, res: int, m: int)
    requires den0 > 0 && Dividing(num0, den0, num, den, 0, res, m)
    ensures res == num0 / den0 && num == num0 % den0
  {
    Quotient(num0, den0, num, res, m);
  }
}
