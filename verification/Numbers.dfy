/** What the formatter prints for a number, and that it can be read back. */
module Numbers {
  const WORD: nat := 0x1_0000_0000

  /** A 32-bit word. */
  type Word = n: nat | n < WORD

  datatype Flags = Flags(left: bool, plus: bool, space: bool, special: bool, zeropad: bool, large: bool, sign: bool)

  // ----- digits -----

  const SMALL_DIGITS := "0123456789abcdef"
  const LARGE_DIGITS := "0123456789ABCDEF"

  function Digit(d: nat, large: bool): char
    requires d < 16
  {
    if large then LARGE_DIGITS[d] else SMALL_DIGITS[d]
  }

  function DigitValue(c: char): nat {
    if '0' <= c <= '9' then c as int - '0' as int
    else if 'a' <= c <= 'f' then c as int - 'a' as int + 10
    else if 'A' <= c <= 'F' then c as int - 'A' as int + 10
    else 0
  }

  lemma DigitRoundTrip(d: nat, large: bool)
    requires d < 16
    ensures DigitValue(Digit(d, large)) == d
    ensures d < 10 ==> '0' <= Digit(d, large) <= '9'
    ensures Digit(d, large) !in " +-"
  {
  }

  /** `divide` knows two bases; all but ten are taken for sixteen. */
  function Divisor(base: nat): (d: nat)
    ensures 10 <= d <= 16
  {
    if base == 10 then 10 else 16
  }

  /** The digits of `v`, most significant first. */
  function Digits(v: nat, d: nat, large: bool): (s: string)
    requires 10 <= d <= 16
    ensures |s| > 0
  {
    if v < d then [Digit(v, large)] else Digits(v / d, d, large) + [Digit(v % d, large)]
  }

  /** The value a string of digits denotes. */
  function Read(s: string, d: nat): nat {
    if s == "" then 0 else Read(s[..|s| - 1], d) * d + DigitValue(s[|s| - 1])
  }

  lemma DivMod(v: nat, d: nat)
    requires d > 0
    ensures v / d * d + v % d == v
  {
  }

  lemma Appended(s: string, c: char, d: nat)
    ensures Read(s + [c], d) == Read(s, d) * d + DigitValue(c)
  {
    assert (s + [c])[..|s + [c]| - 1] == s;
  }

  lemma {:induction false} DigitsRead(v: nat, d: nat, large: bool)
    requires 10 <= d <= 16
    ensures Read(Digits(v, d, large), d) == v
  {
    hide Read, DigitValue, Digit;
    if v < d {
      DigitRoundTrip(v, large);
      Appended("", Digit(v, large), d);
      assert "" + [Digit(v, large)] == [Digit(v, large)];
      NothingRead(d);
    } else {
      DigitsRead(v / d, d, large);
      DigitRoundTrip(v % d, large);
      Appended(Digits(v / d, d, large), Digit(v % d, large), d);
      DivMod(v, d);
    }
  }

  lemma NothingRead(d: nat)
    ensures Read("", d) == 0
  {
  }

  function Fill(c: char, n: int): (s: string)
    ensures |s| == (if n > 0 then n else 0)
    ensures forall i :: 0 <= i < |s| ==> s[i] == c
  {
    if n <= 0 then "" else Fill(c, n - 1) + [c]
  }

  /** Leading zeros do not change the value. */
  lemma {:induction false} ZerosRead(n: int, s: string, d: nat)
    ensures Read(Fill('0', n) + s, d) == Read(s, d)
    decreases |s|, if n > 0 then n else 0
  {
    var t := Fill('0', n) + s;
    if s != "" {
      assert t[..|t| - 1] == Fill('0', n) + s[..|s| - 1];
      ZerosRead(n, s[..|s| - 1], d);
    } else if n > 0 {
      assert t == Fill('0', n) && t[..|t| - 1] == Fill('0', n - 1) + "";
      ZerosRead(n - 1, s, d);
    } else {
      assert t == "";
    }
  }

  // ----- a printed number -----

  function Signed(v: Word): int {
    if v < 0x8000_0000 then v else v - WORD
  }

  /** What is left of the number once its sign has been printed; -2^31 keeps its bits and is read
      as unsigned from here on. */
  function Magnitude(v: Word, f: Flags): (m: Word)
    ensures f.sign ==> m as int == (if Signed(v) < 0 then -Signed(v) else Signed(v))
    ensures !f.sign ==> m == v
  {
    if f.sign && Signed(v) < 0 then (WORD - v) % WORD else v
  }

  function SignOf(v: Word, f: Flags): string {
    if !f.sign then ""
    else if Signed(v) < 0 then "-"
    else if f.plus then "+"
    else if f.space then " "
    else ""
  }

  function Max(a: int, b: int): int {
    if a < b then b else a
  }

  datatype Parts = Parts(pre: int, sign: string, zeros: int, digits: string, post: int)

  function Text(p: Parts): string {
    Fill(' ', p.pre) + p.sign + Fill('0', p.zeros) + p.digits + Fill(' ', p.post)
  }

  /** Spaces, sign, zeros, digits, spaces.  A negative `precision` stands for none. */
  function Number(v: Word, base: nat, width: int, precision: int, f: Flags): Parts {
    var digits := Digits(Magnitude(v, f), Divisor(base), f.large);
    var sign := SignOf(v, f);
    var least := Max(|digits|, precision);
    var pad := Max(width - least - |sign|, 0);
    Parts(if f.left || f.zeropad then 0 else pad,
          sign,
          least - |digits| + (if f.zeropad && !f.left then pad else 0),
          if precision == 0 then "" else digits,
          if f.left then pad else 0)
  }

  /** A hexadecimal digit, its letters in the case asked for. */
  predicate Cased(c: char, large: bool) {
    '0' <= c <= '9' || if large then 'A' <= c <= 'F' else 'a' <= c <= 'f'
  }

  lemma {:induction false} DigitsCased(v: nat, d: nat, large: bool)
    requires 10 <= d <= 16
    ensures forall c :: c in Digits(v, d, large) ==> Cased(c, large)
  {
    if v < d {
      assert Cased(Digit(v, large), large);
    } else {
      DigitsCased(v / d, d, large);
      assert Cased(Digit(v % d, large), large);
    }
  }

  /** Where the padding goes: on the right if so flagged, otherwise on the left, as zeros behind the sign if
      so flagged and as spaces in front of it if not.  And which sign is printed. */
  lemma NumberLayout(v: Word, base: nat, width: int, precision: int, f: Flags)
    ensures var p := Number(v, base, width, precision, f);
            var n := |Digits(Magnitude(v, f), Divisor(base), f.large)|;
            && p.pre >= 0 && p.zeros >= 0 && p.post >= 0 && p.zeros >= precision - n
            && (f.left ==> p.pre == 0 && p.zeros == Max(precision - n, 0))
            && (!f.left ==> p.post == 0 && (if f.zeropad then p.pre == 0 else p.zeros == Max(precision - n, 0)))
    ensures var sign := Number(v, base, width, precision, f).sign;
            && (sign == "-" <==> f.sign && Signed(v) < 0)
            && (sign == "+" <==> f.sign && Signed(v) >= 0 && f.plus)
            && (sign == " " <==> f.sign && Signed(v) >= 0 && !f.plus && f.space)
            && (sign == "" <==> !f.sign || (Signed(v) >= 0 && !f.plus && !f.space))
  {
    hide Digits, Magnitude;
  }

  /** How long a number is. */
  lemma NumberLength(v: Word, base: nat, width: int, precision: int, f: Flags)
    ensures var digits := Digits(Magnitude(v, f), Divisor(base), f.large);
            var full := Max(width, Max(|digits|, precision) + |SignOf(v, f)|);
            |Text(Number(v, base, width, precision, f))| == full - if precision == 0 then |digits| else 0
  {
  }

  /** The digits denote the number, whatever the width and the precision, unless that is zero. */
  lemma NumberReads(v: Word, base: nat, width: int, precision: int, f: Flags)
    requires precision != 0
    ensures var p := Number(v, base, width, precision, f);
            Read(Fill('0', p.zeros) + p.digits, Divisor(base)) == Magnitude(v, f)
  {
    var p := Number(v, base, width, precision, f);
    ZerosRead(p.zeros, p.digits, Divisor(base));
    DigitsRead(Magnitude(v, f), Divisor(base), f.large);
  }

  // ----- octal -----

  /** The digits of `v` to the base eight. */
  function OctalDigits(v: nat): (s: string)
    ensures |s| > 0
  {
    if v < 8 then [Digit(v, false)] else OctalDigits(v / 8) + [Digit(v % 8, false)]
  }

  lemma {:induction false} OctalRead(v: nat)
    ensures Read(OctalDigits(v), 8) == v
  {
    hide Read, DigitValue, Digit;
    if v < 8 {
      DigitRoundTrip(v, false);
      Appended("", Digit(v, false), 8);
      assert "" + [Digit(v, false)] == [Digit(v, false)];
      NothingRead(8);
    } else {
      OctalRead(v / 8);
      DigitRoundTrip(v % 8, false);
      Appended(OctalDigits(v / 8), Digit(v % 8, false), 8);
      DivMod(v, 8);
    }
  }

  /** The same digits denote no less to a larger base. */
  lemma {:induction false} LargerBase(s: string, d: nat, e: nat)
    requires d <= e
    ensures Read(s, d) <= Read(s, e)
  {
    if s == "" {
    } else {
      var t := s[..|s| - 1];
      LargerBase(t, d, e);
      Scaled(Read(t, d), Read(t, e), d, e);
    }
  }

  lemma Scaled(a: nat, b: nat, d: nat, e: nat)
    requires a <= b && d <= e
    ensures a * d <= b * e
  {
    assert b * e - a * d == (b - a) * e + a * (e - d);
  }

  /** The octal and the hexadecimal digits of a number agree if and only if there is just one. */
  lemma OctalAgrees(m: nat, large: bool)
    ensures Digits(m, 16, large) == OctalDigits(m) <==> m < 8
  {
    hide Read;
    if m >= 16 && Digits(m, 16, large) == OctalDigits(m) {
      var a, b := Digits(m / 16, 16, large), OctalDigits(m / 8);
      assert a == (a + [Digit(m % 16, large)])[..|a|];
      assert b == (b + [Digit(m % 8, false)])[..|b|];
      DigitsRead(m / 16, 16, large);
      OctalRead(m / 8);
      LargerBase(a, 8, 16);
    } else if m >= 8 {
      assert |Digits(m, 16, large)| == 1 || m >= 16;
    }
  }

  /** `%o` prints hexadecimal digits, and these are the octal ones if and only if there is one digit below
      eight to print. */
  lemma OctalIsHex(v: Word, width: int, precision: int, f: Flags)
    ensures Number(v, 8, width, precision, f) == Number(v, 16, width, precision, f)
    ensures Number(v, 8, width, precision, f).digits == OctalDigits(Magnitude(v, f))
            <==> Magnitude(v, f) < 8 && precision != 0
  {
    hide Digits, OctalDigits, Magnitude;
    OctalAgrees(Magnitude(v, f), f.large);
  }

  // ----- reading a printed decimal -----

  function SkipSpaces(s: string): string {
    if s != "" && s[0] == ' ' then SkipSpaces(s[1..]) else s
  }

  /** The longest prefix of decimal digits. */
  function TakeDigits(s: string): string {
    if s != "" && '0' <= s[0] <= '9' then [s[0]] + TakeDigits(s[1..]) else ""
  }

  /** Reads an optional sign and a decimal number behind any spaces. */
  function Scan(s: string): int {
    var t := SkipSpaces(s);
    if t != "" && t[0] == '-' then 0 - Read(TakeDigits(t[1..]), 10)
    else if t != "" && t[0] == '+' then Read(TakeDigits(t[1..]), 10)
    else Read(TakeDigits(t), 10)
  }

  lemma {:induction false} SpacesSkipped(n: int, s: string)
    requires s != "" ==> s[0] != ' '
    ensures SkipSpaces(Fill(' ', n) + s) == s
    decreases if n > 0 then n else 0
  {
    var t := Fill(' ', n) + s;
    if n > 0 {
      assert t[1..] == Fill(' ', n - 1) + s;
      SpacesSkipped(n - 1, s);
    } else {
      assert t == s;
    }
  }

  lemma {:induction false} DigitsTaken(a: string, b: string)
    requires forall i :: 0 <= i < |a| ==> '0' <= a[i] <= '9'
    requires b != "" ==> !('0' <= b[0] <= '9')
    ensures TakeDigits(a + b) == a
    decreases |a|
  {
    if a != "" {
      assert (a + b)[1..] == a[1..] + b;
      DigitsTaken(a[1..], b);
    } else {
      assert a + b == b;
    }
  }

  ghost predicate AllDecimal(s: string) {
    forall i :: 0 <= i < |s| ==> '0' <= s[i] <= '9'
  }

  lemma {:induction false} DecimalDigits(v: nat, large: bool)
    ensures AllDecimal(Digits(v, 10, large))
  {
    if v < 10 {
      DigitRoundTrip(v, large);
    } else {
      DecimalDigits(v / 10, large);
      DigitRoundTrip(v % 10, large);
      assert Digits(v, 10, large) == Digits(v / 10, 10, large) + [Digit(v % 10, large)];
    }
  }

  lemma SpaceMore(n: int)
    ensures exists k: nat :: Fill(' ', n) + " " == Fill(' ', k)
  {
    assert Fill(' ', n) + " " == Fill(' ', (if n > 0 then n else 0) + 1);
  }

  lemma SignSkipped(pre: int, sign: string, body: string)
    requires body != "" && body[0] != ' ' && sign in ["", "-", "+", " "]
    ensures var rest := if sign == " " then body else sign + body;
            SkipSpaces(Fill(' ', pre) + sign + body) == rest
  {
    hide Fill;
    if sign == " " {
      SpaceMore(pre);
      var k: nat :| Fill(' ', pre) + " " == Fill(' ', k);
      SpacesSkipped(k, body);
    } else {
      SpacesSkipped(pre, sign + body);
      assert Fill(' ', pre) + sign + body == Fill(' ', pre) + (sign + body);
    }
  }

  /** Spaces, a sign or none, digits, spaces: the number is found. */
  lemma ScanFinds(pre: int, sign: string, body: string, post: int)
    requires AllDecimal(body) && body != "" && sign in ["", "-", "+", " "]
    ensures Scan(Fill(' ', pre) + sign + body + Fill(' ', post)) ==
            if sign == "-" then 0 - Read(body, 10) else Read(body, 10)
  {
    hide Read, Fill, SkipSpaces, TakeDigits;
    var tail := Fill(' ', post);
    DigitsTaken(body, tail);
    var all := body + tail;
    assert all[0] == body[0];
    SignSkipped(pre, sign, all);
    assert Fill(' ', pre) + sign + body + tail == Fill(' ', pre) + sign + all;
    if sign == "" {
      assert sign + all == all;
    } else if sign != " " {
      assert (sign + all)[0] == sign[0] && (sign + all)[1..] == all;
    }
  }

  /** Every signed decimal reads back as the number that was printed, -2^31 included, for all
      flags and widths and every precision but zero. */
  lemma DecimalRoundTrip(v: Word, width: int, precision: int, f: Flags)
    requires f.sign && precision != 0
    ensures Scan(Text(Number(v, 10, width, precision, f))) == Signed(v)
  {
    hide Fill, Digits, Read;
    var p := Number(v, 10, width, precision, f);
    var body := Fill('0', p.zeros) + p.digits;
    DecimalDigits(Magnitude(v, f), f.large);
    assert AllDecimal(body);
    NumberReads(v, 10, width, precision, f);
    ScanFinds(p.pre, p.sign, body, p.post);
    assert Text(p) == Fill(' ', p.pre) + p.sign + body + Fill(' ', p.post);
  }

  /** With precision zero the digits are lost, for every number. */
  lemma ZeroPrecisionLosesTheNumber(v: Word, w: Word, f: Flags)
    requires SignOf(v, f) == SignOf(w, f)
    ensures Text(Number(v, 10, -1, 0, f)) == Text(Number(w, 10, -1, 0, f)) == SignOf(v, f)
  {
  }
}
