/** Words as numbers: single bits, the bitwise operators, and both find-first-set lookups. */
module Bits {
  import opened Arith

  const WORD: nat := 0x1_0000_0000

  function Pow2(k: nat): (r: nat)
    ensures r > 0
  {
    if k == 0 then 1 else 2 * Pow2(k - 1)
  }

  /** Bit `i` of `v`. */
  predicate Bit(v: nat, i: nat) {
    if i == 0 then v % 2 == 1 else Bit(v / 2, i - 1)
  }

  function Digit(b: bool): nat {
    if b then 1 else 0
  }

  function And(a: nat, b: nat): nat {
    if a == 0 then 0 else 2 * And(a / 2, b / 2) + Digit(a % 2 == 1 && b % 2 == 1)
  }

  function Or(a: nat, b: nat): nat
    decreases a + b
  {
    if a == 0 then b else if b == 0 then a else 2 * Or(a / 2, b / 2) + Digit(a % 2 == 1 || b % 2 == 1)
  }

  /** a & ~b */
  function AndNot(a: nat, b: nat): nat {
    if a == 0 then 0 else 2 * AndNot(a / 2, b / 2) + Digit(a % 2 == 1 && b % 2 == 0)
  }

  function Xor(a: nat, b: nat): nat
    decreases a + b
  {
    if a == 0 then b else if b == 0 then a else 2 * Xor(a / 2, b / 2) + Digit(a % 2 != b % 2)
  }

  // ----- bit by bit -----

  lemma {:induction false} ZeroBit(i: nat)
    ensures !Bit(0, i)
  {
    if i == 0 {
    } else {
      ZeroBit(i - 1);
    }
  }

  lemma Halves(h: nat, d: bool)
    ensures (2 * h + Digit(d)) / 2 == h && ((2 * h + Digit(d)) % 2 == 1 <==> d)
  {
  }

  lemma {:induction false} PowBit(k: nat, i: nat)
    ensures Bit(Pow2(k), i) <==> i == k
  {
    if k == 0 {
      if i > 0 { ZeroBit(i - 1); }
    } else {
      Halves(Pow2(k - 1), false);
      if i > 0 { PowBit(k - 1, i - 1); }
    }
  }

  lemma {:induction false} OrBit(a: nat, b: nat, i: nat)
    ensures Bit(Or(a, b), i) <==> Bit(a, i) || Bit(b, i)
  {
    ZeroBit(i);
    if a == 0 || b == 0 {
    } else {
      Halves(Or(a / 2, b / 2), a % 2 == 1 || b % 2 == 1);
      if i > 0 { OrBit(a / 2, b / 2, i - 1); }
    }
  }

  lemma {:induction false} AndNotBit(a: nat, b: nat, i: nat)
    ensures Bit(AndNot(a, b), i) <==> Bit(a, i) && !Bit(b, i)
  {
    ZeroBit(i);
    if a == 0 {
    } else {
      Halves(AndNot(a / 2, b / 2), a % 2 == 1 && b % 2 == 0);
      if i > 0 { AndNotBit(a / 2, b / 2, i - 1); }
    }
  }

  /** Words stay words. */
  lemma {:induction false} OrBound(a: nat, b: nat, k: nat)
    requires a < Pow2(k) && b < Pow2(k)
    ensures Or(a, b) < Pow2(k)
  {
    if a == 0 || b == 0 {
    } else {
      OrBound(a / 2, b / 2, k - 1);
    }
  }

  lemma {:induction false} AndNotBound(a: nat, b: nat)
    ensures AndNot(a, b) <= a
  {
    if a == 0 {
    } else {
      AndNotBound(a / 2, b / 2);
    }
  }

  lemma {:induction false} PowBelow(i: nat, k: nat)
    requires i < k
    ensures Pow2(i) < Pow2(k)
  {
    if i + 1 == k {
    } else {
      PowBelow(i, k - 1);
    }
  }

  // ----- the lowest set bit -----

  /** Number of zero bits below the lowest one bit. */
  function TrailingZeros(v: nat): nat
    requires v > 0
  {
    if v % 2 == 1 then 0 else 1 + TrailingZeros(v / 2)
  }

  /** It is a set bit, and no lower bit is set. */
  lemma {:induction false} TrailingZerosIsLowest(v: nat, i: nat)
    requires v > 0
    ensures Bit(v, TrailingZeros(v))
    ensures Bit(v, i) ==> TrailingZeros(v) <= i
  {
    if v % 2 == 1 {
    } else {
      TrailingZerosIsLowest(v / 2, if i > 0 then i - 1 else 0);
    }
  }

  lemma {:induction false} TrailingZerosBound(v: nat, k: nat)
    requires 0 < v < Pow2(k)
    ensures TrailingZeros(v) < k
  {
    if v % 2 == 1 {
    } else {
      TrailingZerosBound(v / 2, k - 1);
    }
  }

  lemma {:induction false} NonZeroHasBit(v: nat, k: nat)
    requires v < Pow2(k)
    ensures v == 0 ==> forall i :: 0 <= i < k ==> !Bit(v, i)
    ensures v != 0 ==> exists i :: 0 <= i < k && Bit(v, i)
  {
    if v == 0 {
      forall i | 0 <= i < k ensures !Bit(v, i) { ZeroBit(i); }
    } else {
      TrailingZerosIsLowest(v, 0);
      TrailingZerosBound(v, k);
      assert Bit(v, TrailingZeros(v));
    }
  }

  // ----- the byte table -----

  const ROW: seq<nat> := [0, 0, 1, 0, 2, 0, 1, 0, 3, 0, 1, 0, 2, 0, 1, 0]
  const FIRST: seq<nat> := [0, 4, 5, 4, 6, 4, 5, 4, 7, 4, 5, 4, 6, 4, 5, 4]

  /** The 256-entry table, whose sixteen rows of sixteen differ in their first entry only. */
  function LowestBitmap(i: nat): nat
    requires i < 256
  {
    if i % 16 == 0 then FIRST[i / 16] else ROW[i % 16]
  }

  function FfsTable(value: nat): nat
    requires value < WORD
  {
    if value == 0 then 0
    else if value % 256 != 0 then LowestBitmap(value % 256) + 1
    else if value / 0x100 % 256 != 0 then LowestBitmap(value / 0x100 % 256) + 9
    else if value / 0x1_0000 % 256 != 0 then LowestBitmap(value / 0x1_0000 % 256) + 17
    else LowestBitmap(value / 0x100_0000) + 25
  }

  lemma Trailing16(v: nat)
    requires v > 0
    ensures TrailingZeros(16 * v) == 4 + TrailingZeros(v)
  {
    assert TrailingZeros(2 * v) == 1 + TrailingZeros(v);
    assert TrailingZeros(4 * v) == 1 + TrailingZeros(2 * v);
    assert TrailingZeros(8 * v) == 1 + TrailingZeros(4 * v);
    assert TrailingZeros(16 * v) == 1 + TrailingZeros(8 * v);
  }

  /** The lowest `k` bits of two words are the same. */
  predicate AgreeLow(v: nat, l: nat, k: nat) {
    k == 0 || (v % 2 == l % 2 && AgreeLow(v / 2, l / 2, k - 1))
  }

  lemma ModHalf(v: nat, m: nat)
    requires m > 0
    ensures v % (2 * m) == 2 * (v / 2 % m) + v % 2
  {
    var h, d := v / 2, v % 2;
    var q, r := h / m, h % m;
    assert h == m * q + r;
    assert 2 * m * q == 2 * (m * q);
    Quotient(2 * m, q, 2 * r + d);
  }

  lemma HalfDigit(y: nat, d: nat)
    requires d < 2
    ensures (2 * y + d) % 2 == d && (2 * y + d) / 2 == y
  {
  }

  lemma {:induction false} AgreeMod(v: nat, k: nat)
    ensures AgreeLow(v, v % Pow2(k), k)
  {
    if k == 0 {
    } else {
      var m := Pow2(k - 1);
      ModHalf(v, m);
      HalfDigit(v / 2 % m, v % 2);
      AgreeMod(v / 2, k - 1);
      assert v % Pow2(k) == 2 * (v / 2 % m) + v % 2;
    }
  }

  /** Higher bits do not matter while a lower one is set. */
  lemma {:induction false} AgreeZeros(v: nat, l: nat, k: nat)
    requires AgreeLow(v, l, k) && 0 < l < Pow2(k)
    ensures v > 0 && TrailingZeros(v) == TrailingZeros(l)
  {
    if l % 2 == 1 {
    } else {
      AgreeZeros(v / 2, l / 2, k - 1);
    }
  }

  lemma NibbleZeros(n: nat)
    requires 0 < n < 16
    ensures TrailingZeros(n) == ROW[n] && TrailingZeros(16 * n) == FIRST[n]
  {
    Trailing16(n);
    assert ROW[n] == TrailingZeros(n) && FIRST[n] == 4 + TrailingZeros(n) by {
      if n % 2 == 0 { assert TrailingZeros(n) == 1 + TrailingZeros(n / 2); }
      assert n == 1 || n == 2 || n == 3 || n == 4 || n == 5 || n == 6 || n == 7 || n == 8
          || n == 9 || n == 10 || n == 11 || n == 12 || n == 13 || n == 14 || n == 15;
    }
  }

  lemma ByteZeros(b: nat)
    requires 0 < b < 256
    ensures LowestBitmap(b) == TrailingZeros(b)
  {
    var h, l := b / 16, b % 16;
    if l == 0 {
      NibbleZeros(h);
      assert b == 16 * h;
    } else {
      ByteLow(b);
      NibbleZeros(l);
    }
  }

  lemma ByteLow(b: nat)
    requires b % 16 != 0
    ensures b > 0 && TrailingZeros(b) == TrailingZeros(b % 16)
  {
    assert Pow2(4) == 16;
    AgreeMod(b, 4);
    hide TrailingZeros;
    AgreeZeros(b, b % 16, 4);
  }

  /** Splitting a word at a byte boundary. */
  lemma SplitZeros(v: nat)
    requires v > 0
    ensures v % 256 != 0 ==> TrailingZeros(v) == TrailingZeros(v % 256)
    ensures v % 256 == 0 ==> v / 256 > 0 && TrailingZeros(v) == 8 + TrailingZeros(v / 256)
  {
    if v % 256 != 0 {
      assert Pow2(8) == 256;
      AgreeMod(v, 8);
      AgreeZeros(v, v % 256, 8);
    } else {
      var h := v / 256;
      Trailing16(h);
      Trailing16(16 * h);
      assert v == 16 * (16 * h);
    }
  }

  /** The byte-table lookup finds the lowest set bit of every 32-bit word. */
  lemma FfsTableCorrect(value: nat)
    requires value < WORD
    ensures FfsTable(value) == if value == 0 then 0 else TrailingZeros(value) + 1
  {
    if value != 0 {
      SplitZeros(value);
      if value % 256 != 0 {
        ByteZeros(value % 256);
      } else {
        var v1 := value / 256;
        SplitZeros(v1);
        if v1 % 256 != 0 {
          ByteZeros(v1 % 256);
        } else {
          var v2 := v1 / 256;
          SplitZeros(v2);
          assert v2 == value / 0x1_0000;
          if v2 % 256 != 0 {
            ByteZeros(v2 % 256);
          } else {
            assert v2 / 256 == value / 0x100_0000;
            ByteZeros(v2 / 256);
          }
        }
      }
    }
  }

  // ----- the remainder table -----

  /** The 37-entry table. */
  function TinyBitmap(i: nat): nat
    requires i < 37
  {
    match i
    case 0 => 0 case 1 => 1 case 2 => 2 case 3 => 27
    case 4 => 3 case 5 => 24 case 6 => 28 case 7 => 32
    case 8 => 4 case 9 => 17 case 10 => 25 case 11 => 31
    case 12 => 29 case 13 => 12 case 14 => 32 case 15 => 14
    case 16 => 5 case 17 => 8 case 18 => 18 case 19 => 32
    case 20 => 26 case 21 => 23 case 22 => 32 case 23 => 16
    case 24 => 30 case 25 => 11 case 26 => 13 case 27 => 7
    case 28 => 32 case 29 => 22 case 30 => 15 case 31 => 10
    case 32 => 6 case 33 => 21 case 34 => 9 case 35 => 20
    case _ => 19
  }

  function FfsTiny(value: nat): nat
    requires value < WORD
  {
    TinyBitmap(Xor(And(value, value - if value == 0 then 0 else 1), value) % 37)
  }

  lemma {:induction false} AndSelf(a: nat)
    ensures And(a, a) == a
  {
    if a == 0 {
    } else {
      AndSelf(a / 2);
    }
  }

  lemma {:induction false} XorSelf(a: nat)
    ensures Xor(a, a) == 0
  {
    if a == 0 {
    } else {
      XorSelf(a / 2);
    }
  }

  /** `v & (v - 1) ^ v` leaves the lowest set bit alone. */
  lemma {:induction false} LowestBitAlone(v: nat)
    requires v > 0
    ensures Xor(And(v, v - 1), v) == Pow2(TrailingZeros(v))
  {
    var h := v / 2;
    if v % 2 == 1 {
      assert (v - 1) / 2 == h && (v - 1) % 2 == 0;
      AndSelf(h);
      XorSelf(h);
      assert And(v, v - 1) == v - 1;
    } else {
      assert (v - 1) / 2 == h - 1 && h > 0;
      LowestBitAlone(h);
      var a := And(h, h - 1);
      Halves(a, false);
      assert And(v, v - 1) == 2 * a;
    }
  }

  lemma TinyTable1()
    ensures TinyBitmap(1) == 1 && TinyBitmap(2) == 2 && TinyBitmap(4) == 3 && TinyBitmap(8) == 4
    ensures TinyBitmap(16) == 5 && TinyBitmap(32) == 6 && TinyBitmap(27) == 7 && TinyBitmap(17) == 8
  {
  }

  lemma TinyTable2()
    ensures TinyBitmap(34) == 9 && TinyBitmap(31) == 10 && TinyBitmap(25) == 11 && TinyBitmap(13) == 12
    ensures TinyBitmap(26) == 13 && TinyBitmap(15) == 14 && TinyBitmap(30) == 15 && TinyBitmap(23) == 16
  {
  }

  lemma TinyTable3()
    ensures TinyBitmap(9) == 17 && TinyBitmap(18) == 18 && TinyBitmap(36) == 19 && TinyBitmap(35) == 20
    ensures TinyBitmap(33) == 21 && TinyBitmap(29) == 22 && TinyBitmap(21) == 23 && TinyBitmap(5) == 24
  {
  }

  lemma TinyTable4()
    ensures TinyBitmap(10) == 25 && TinyBitmap(20) == 26 && TinyBitmap(3) == 27 && TinyBitmap(6) == 28
    ensures TinyBitmap(12) == 29 && TinyBitmap(24) == 30 && TinyBitmap(11) == 31 && TinyBitmap(22) == 32
  {
  }

  lemma PowTable()
    ensures Pow2(0) == 0x1 && Pow2(1) == 0x2 && Pow2(2) == 0x4 && Pow2(3) == 0x8
    ensures Pow2(4) == 0x10 && Pow2(5) == 0x20 && Pow2(6) == 0x40 && Pow2(7) == 0x80
    ensures Pow2(8) == 0x100 && Pow2(9) == 0x200 && Pow2(10) == 0x400 && Pow2(11) == 0x800
    ensures Pow2(12) == 0x1000 && Pow2(13) == 0x2000 && Pow2(14) == 0x4000 && Pow2(15) == 0x8000
    ensures Pow2(16) == 0x10000 && Pow2(17) == 0x20000 && Pow2(18) == 0x40000 && Pow2(19) == 0x80000
    ensures Pow2(20) == 0x100000 && Pow2(21) == 0x200000 && Pow2(22) == 0x400000 && Pow2(23) == 0x800000
    ensures Pow2(24) == 0x1000000 && Pow2(25) == 0x2000000 && Pow2(26) == 0x4000000 && Pow2(27) == 0x8000000
    ensures Pow2(28) == 0x10000000 && Pow2(29) == 0x20000000 && Pow2(30) == 0x40000000 && Pow2(31) == 0x80000000
  {
  }

  /** The first 32 powers of two have different remainders, and the table inverts them. */
  lemma TinyEntry(k: nat)
    requires k < 32
    ensures TinyBitmap(Pow2(k) % 37) == k + 1
  {
    hide TinyBitmap, Pow2;
    TinyTable1(); TinyTable2(); TinyTable3(); TinyTable4();
    PowTable();
    assert k == 0 || k == 1 || k == 2 || k == 3 || k == 4 || k == 5 || k == 6 || k == 7
        || k == 8 || k == 9 || k == 10 || k == 11 || k == 12 || k == 13 || k == 14 || k == 15
        || k == 16 || k == 17 || k == 18 || k == 19 || k == 20 || k == 21 || k == 22 || k == 23
        || k == 24 || k == 25 || k == 26 || k == 27 || k == 28 || k == 29 || k == 30 || k == 31;
  }

  lemma WordIsPow()
    ensures Pow2(32) == WORD
  {
    PowTable();
    assert Pow2(32) == 2 * Pow2(31);
  }

  /** The remainder-table lookup does, too. */
  lemma FfsTinyCorrect(value: nat)
    requires value < WORD
    ensures FfsTiny(value) == if value == 0 then 0 else TrailingZeros(value) + 1
  {
    if value != 0 {
      WordIsPow();
      LowestBitAlone(value);
      TrailingZerosBound(value, 32);
      TinyEntry(TrailingZeros(value));
    }
  }
}
