/** The kernel's formatter: what a format and its arguments stand for, and the routine that writes
    it into a buffer of limited size. */
module Format {
  import opened Numbers

  /** A string in memory, without its terminating zero. */
  type CString = s: string | '\0' !in s witness ""

  // ----- what a format stands for -----

  /** Flags, width, precision and qualifier of one directive; the conversion character is at `p`,
      and `k` arguments have been used up. */
  datatype Spec = Spec(f: Flags, width: int, precision: int, qualifier: char, p: nat, k: nat)

  function At(fmt: CString, p: nat): char {
    if p < |fmt| then fmt[p] else '\0'
  }

  predicate IsDigit(c: char) {
    '0' <= c <= '9'
  }

  function SetFlag(c: char, f: Flags): Flags {
    match c
    case '-' => f.(left := true)
    case '+' => f.(plus := true)
    case ' ' => f.(space := true)
    case '#' => f.(special := true)
    case '0' => f.(zeropad := true)
    case _ => f
  }

  predicate IsFlag(c: char) {
    c in "-+ #0"
  }

  function ReadFlags(fmt: CString, p: nat, f: Flags): (r: (Flags, nat))
    requires p <= |fmt|
    ensures p <= r.1 <= |fmt|
    decreases |fmt| - p
  {
    if IsFlag(At(fmt, p)) then ReadFlags(fmt, p + 1, SetFlag(fmt[p], f)) else (f, p)
  }

  function ReadNumber(fmt: CString, p: nat, acc: nat): (r: (nat, nat))
    requires p <= |fmt|
    ensures p <= r.1 <= |fmt|
    decreases |fmt| - p
  {
    if IsDigit(At(fmt, p)) then ReadNumber(fmt, p + 1, acc * 10 + (fmt[p] as int - '0' as int)) else (acc, p)
  }

  function ReadWidth(fmt: CString, args: nat -> Word, s: Spec): (r: Spec)
    requires s.p <= |fmt|
    ensures s.p <= r.p <= |fmt| && r.k <= s.k + 1
  {
    if IsDigit(At(fmt, s.p)) then
      var n := ReadNumber(fmt, s.p, 0);
      s.(width := n.0, p := n.1)
    else if At(fmt, s.p) == '*' then
      var w := Signed(args(s.k));
      if w < 0 then s.(width := -w, f := s.f.(left := true), p := s.p + 1, k := s.k + 1)
      else s.(width := w, p := s.p + 1, k := s.k + 1)
    else s.(width := -1)
  }

  function ReadPrecision(fmt: CString, args: nat -> Word, s: Spec): (r: Spec)
    requires s.p <= |fmt|
    ensures s.p <= r.p <= |fmt| && r.k <= s.k + 1
  {
    if At(fmt, s.p) != '.' then s.(precision := -1)
    else if IsDigit(At(fmt, s.p + 1)) then
      var n := ReadNumber(fmt, s.p + 1, 0);
      s.(precision := n.0, p := n.1)
    else if At(fmt, s.p + 1) == '*' then
      s.(precision := Max(Signed(args(s.k)), 0), p := s.p + 2, k := s.k + 1)
    else s.(precision := 0, p := s.p + 1)
  }

  function ReadQualifier(fmt: CString, s: Spec): (r: Spec)
    requires s.p <= |fmt|
    ensures s.p <= r.p <= |fmt| && r.k == s.k
  {
    if At(fmt, s.p) == 'h' || At(fmt, s.p) == 'l' then s.(qualifier := At(fmt, s.p), p := s.p + 1)
    else s.(qualifier := '\0')
  }

  const NO_FLAGS := Flags(false, false, false, false, false, false, false)

  /** The directive whose percent sign is at `p`. */
  function Directive(fmt: CString, p: nat, args: nat -> Word, k: nat): (s: Spec)
    requires p < |fmt|
    ensures p < s.p <= |fmt|
  {
    var flags := ReadFlags(fmt, p + 1, NO_FLAGS);
    ReadQualifier(fmt, ReadPrecision(fmt, args, ReadWidth(fmt, args, Spec(flags.0, -1, -1, '\0', flags.1, k))))
  }

  /** A half-word argument is cut to sixteen bits, and sign-extended for signed conversions. */
  function Narrow(v: Word, qualifier: char, sign: bool): Word {
    if qualifier != 'h' then v
    else if sign && v % 0x1_0000 >= 0x8000 then v % 0x1_0000 + 0xffff_0000
    else v % 0x1_0000
  }

  function CharText(v: Word, s: Spec): string {
    var c := (v % 256) as char;
    if s.f.left then [c] + Fill(' ', s.width - 1) else Fill(' ', s.width - 1) + [c]
  }

  /** How many characters of a string of length `n` are shown: the width cuts it off, too. */
  function Shown(n: nat, s: Spec): nat {
    var len := if 0 <= s.width < n then s.width else n;
    if 0 < s.precision < len then s.precision else len
  }

  function StringText(t: string, s: Spec): string {
    var len := Shown(|t|, s);
    if s.f.left then t[..len] + Fill(' ', s.width - len) else Fill(' ', s.width - len) + t[..len]
  }

  function Fetch(v: Word, text: Word -> CString): string {
    if v == 0 then "(NULL)" else text(v)
  }

  /** Text of the conversion, and how many characters of the format and arguments it takes. */
  function Convert(fmt: CString, s: Spec, args: nat -> Word, text: Word -> CString): (r: (string, nat, nat))
    requires s.p <= |fmt|
    ensures s.p <= r.1 <= |fmt| && (s.p < |fmt| ==> s.p < r.1)
  {
    var v := args(s.k);
    match At(fmt, s.p)
    case 'c' => (CharText(v, s), s.p + 1, s.k + 1)
    case 's' => (StringText(Fetch(v, text), s), s.p + 1, s.k + 1)
    case 'p' =>
      var f := if s.width == -1 then s.f.(zeropad := true) else s.f;
      (Text(Number(v, 16, if s.width == -1 then 8 else s.width, s.precision, f)), s.p + 1, s.k + 1)
    case '%' => ("%", s.p + 1, s.k)
    case 'o' => (NumberText(v, 8, s), s.p + 1, s.k + 1)
    case 'X' => (NumberText(v, 16, s.(f := s.f.(large := true))), s.p + 1, s.k + 1)
    case 'x' => (NumberText(v, 16, s), s.p + 1, s.k + 1)
    case 'd' => (NumberText(v, 10, s.(f := s.f.(sign := true))), s.p + 1, s.k + 1)
    case 'i' => (NumberText(v, 10, s.(f := s.f.(sign := true))), s.p + 1, s.k + 1)
    case 'u' => (NumberText(v, 10, s), s.p + 1, s.k + 1)
    case c => if c == '\0' then ("%", s.p, s.k) else (['%', c], s.p + 1, s.k)
  }

  function NumberText(v: Word, base: nat, s: Spec): string {
    Text(Number(Narrow(v, s.qualifier, s.f.sign), base, s.width, s.precision, s.f))
  }

  /** The whole text from position `p` of the format on, without any limit. */
  function Output(fmt: CString, p: nat, args: nat -> Word, k: nat, text: Word -> CString): string
    requires p <= |fmt|
    decreases |fmt| - p
  {
    if p == |fmt| then ""
    else if fmt[p] != '%' then [fmt[p]] + Output(fmt, p + 1, args, k, text)
    else
      var c := Convert(fmt, Directive(fmt, p, args, k), args, text);
      c.0 + Output(fmt, c.1, args, c.2, text)
  }

  // ----- the routine -----

  /** The output buffer: characters beyond `end` are counted but not stored. */
  class Sink {
    const buf: array<char>
    const end: nat
    var str: nat
    ghost var out: string
    ghost var before: seq<char>

    ghost predicate Valid()
      reads this, buf
    {
      && end <= buf.Length == |before| && str == |out|
      && forall i :: 0 <= i < buf.Length ==> buf[i] == if i < end && i < |out| then out[i] else before[i]
    }

    constructor (buf: array<char>, size: nat)
      requires size <= buf.Length
      ensures Valid() && this.buf == buf && end == size && out == "" && before == buf[..]
    {
      this.buf, end, str := buf, size, 0;
      out, before := "", buf[..];
    }

    method Put(c: char)
      requires Valid()
      modifies this`str, this`out, buf
      ensures Valid() && out == old(out) + [c]
    {
      if str < end {
        buf[str] := c;
      }
      str := str + 1;
      out := out + [c];
    }

    /** `n` times the same character. */
    method PutFill(c: char, n: int)
      requires Valid()
      modifies this`str, this`out, buf
      ensures Valid() && out == old(out) + Fill(c, n)
    {
      var done := 0;
      while done < n
        invariant 0 <= done && (if n > 0 then done <= n else done == 0)
        invariant Valid() && out == old(out) + Fill(c, done)
      {
        Put(c);
        done := done + 1;
      }
      assert Fill(c, n) == Fill(c, done);
    }

    method PutText(t: string, len: nat)
      requires Valid() && len <= |t|
      modifies this`str, this`out, buf
      ensures Valid() && out == old(out) + t[..len]
    {
      var i := 0;
      while i < len
        invariant i <= len && Valid() && out == old(out) + t[..i]
      {
        Put(t[i]);
        i := i + 1;
      }
    }
  }

  function Pow8(n: nat): nat {
    if n == 0 then 1 else 8 * Pow8(n - 1)
  }

  lemma DivisionShrinks(v: nat, d: nat, m: nat)
    requires d >= 8 && v < 8 * m
    ensures v / d < m
  {
    var q, r := v / d, v % d;
    assert v == d * q + r;
    assert d * q >= 8 * q;
  }

  /** The scratch buffer of sixteen characters is large enough for every 32-bit number. */
  lemma {:induction false} FewDigits(v: nat, d: nat, large: bool, n: nat)
    requires 10 <= d <= 16 && n > 0 && v < Pow8(n)
    ensures |Digits(v, d, large)| <= n
    decreases n
  {
    if v < d {
    } else {
      DivisionShrinks(v, d, Pow8(n - 1));
      FewDigits(v / d, d, large, n - 1);
    }
  }

  lemma WordDigits(v: Word, d: nat, large: bool)
    requires 10 <= d <= 16
    ensures |Digits(v, d, large)| <= 11
  {
    assert Pow8(3) == 512 && Pow8(6) == 8 * 8 * 8 * Pow8(3) && Pow8(9) == 8 * 8 * 8 * Pow8(6)
        && Pow8(11) == 64 * Pow8(9);
    FewDigits(v, d, large, 11);
  }

  /** The digits of `num`, least significant first, in a scratch buffer of sixteen characters. */
  method Scratch(num: Word, base: nat, large: bool) returns (tmp: array<char>, i: nat)
    ensures fresh(tmp) && i <= tmp.Length == 16
    ensures var s := Digits(num, Divisor(base), large);
            i == |s| && forall j :: 0 <= j < i ==> tmp[j] == s[i - 1 - j]
  {
    tmp := new char[16];
    i := 0;
    var n, d := num, Divisor(base);
    ghost var s := Digits(num, d, large);
    WordDigits(num, d, large);
    if n == 0 {
      tmp[i] := '0';
      i := i + 1;
    } else {
      while n != 0
        invariant i <= |s| && (n == 0 ==> i == |s|) && (n != 0 ==> s[..|s| - i] == Digits(n, d, large))
        invariant forall j :: 0 <= j < i ==> tmp[j] == s[|s| - 1 - j]
        decreases n
      {
        LastDigit(n, d, large);
        assert s[|s| - i - 1] == s[..|s| - i][|s| - i - 1];
        assert s[..|s| - i - 1] == s[..|s| - i][..|s| - i - 1];
        tmp[i] := Digit(n % d, large);
        n := n / d;
        i := i + 1;
      }
    }
  }

  lemma LastDigit(n: nat, d: nat, large: bool)
    requires 10 <= d <= 16
    ensures n / d <= n && (n > 0 ==> n / d < n)
    ensures var s := Digits(n, d, large);
            && s[|s| - 1] == Digit(n % d, large)
            && (n < d ==> |s| == 1 && n / d == 0)
            && (n >= d ==> s[..|s| - 1] == Digits(n / d, d, large) && n / d > 0)
  {
    Quotients(n, d);
    var all := Digits(n, d, large);
    if n < d {
      assert all == [Digit(n, large)];
    } else {
      assert all == Digits(n / d, d, large) + [Digit(n % d, large)];
    }
  }

  lemma Quotients(n: nat, d: nat)
    requires d >= 10
    ensures n / d <= n && (n > 0 ==> n / d < n)
    ensures if n < d then n / d == 0 && n % d == n else n / d > 0
  {
    var q := n / d;
    assert n == d * q + n % d;
    assert q > 0 ==> d * q >= 10 * q;
  }

  lemma {:induction false} FillTwice(c: char, m: int, n: int)
    ensures Fill(c, m) + Fill(c, n) == Fill(c, (if m > 0 then m else 0) + (if n > 0 then n else 0))
  {
  }

  /** `while (n-- > 0)` leaves this in `n`. */
  function RunDown(n: int): int {
    if n > 0 then -1 else n - 1
  }

  /** `print_number` */
  method PrintNumber(sink: Sink, num: Word, base: nat, s: int, precision: int, flags: Flags)
    requires sink.Valid()
    modifies sink`str, sink`out, sink.buf
    ensures sink.Valid()
    ensures sink.out == old(sink.out) + Text(Number(num, base, s, precision, flags))
  {
    hide Number, Fill, Digits, Text, SignOf, Magnitude, Sink.Valid;
    var f := if flags.left then flags.(zeropad := false) else flags;
    var c := if f.zeropad then '0' else ' ';
    var sign, n := TakeSign(num, f);
    assert sign == SignOf(num, flags) && n == Magnitude(num, flags) by { SameSign(num, flags, f); }
    var tmp, i := Scratch(n, base, f.large);
    ghost var digits := Digits(n, Divisor(base), f.large);
    var most := if i > precision then i else precision;
    var size := s - most;
    var pre := 0;
    if !f.zeropad && !f.left {
      if sign != "" && size > 0 {
        size := size - 1;
      }
      pre := size;
      size := RunDown(size);
    }
    if sign != "" {
      size := size - 1;
    }
    var mid := 0;
    if !f.left {
      mid := size;
      size := RunDown(size);
    }
    Assembled(num, base, s, precision, flags, pre, mid, size);
    PutParts(sink, pre, sign, c, mid, most - i, tmp, i, precision != 0, digits, size);
  }

  /** Spaces, sign, padding, zeros, digits, spaces, in this order. */
  method PutParts(sink: Sink, pre: int, sign: string, c: char, mid: int, zeros: int,
                  tmp: array<char>, i: nat, show: bool, ghost digits: string, post: int)
    requires sink.Valid() && tmp != sink.buf && i == |digits| <= tmp.Length && |sign| <= 1
    requires forall j :: 0 <= j < i ==> tmp[j] == digits[i - 1 - j]
    modifies sink`str, sink`out, sink.buf
    ensures sink.Valid()
    ensures sink.out == old(sink.out)
        + (Fill(' ', pre) + sign + Fill(c, mid) + Fill('0', zeros) + (if show then digits else "") + Fill(' ', post))
  {
    hide Fill, Sink.Valid;
    sink.PutFill(' ', pre);
    if sign != "" {
      sink.Put(sign[0]);
    }
    assert sink.out == old(sink.out) + Fill(' ', pre) + sign;
    sink.PutFill(c, mid);
    sink.PutFill('0', zeros);
    PutDigits(sink, tmp, i, show, digits);
    sink.PutFill(' ', post);
    Regroup(old(sink.out), Fill(' ', pre), sign, Fill(c, mid), Fill('0', zeros),
            if show then digits else "", Fill(' ', post));
  }

  /** The sign, and the number without it. */
  method TakeSign(num: Word, f: Flags) returns (sign: string, n: Word)
    ensures sign == SignOf(num, f) && n == Magnitude(num, f) && |sign| <= 1
  {
    sign, n := "", num;
    if f.sign {
      if Signed(n) < 0 {
        sign := "-";
        n := (WORD - n) % WORD;
      } else if f.plus {
        sign := "+";
      } else if f.space {
        sign := " ";
      }
    }
  }

  lemma SameSign(num: Word, f: Flags, g: Flags)
    requires g == f.(zeropad := g.zeropad)
    ensures SignOf(num, f) == SignOf(num, g) && Magnitude(num, f) == Magnitude(num, g)
  {
  }

  lemma Regroup(o: string, a: string, b: string, c: string, d: string, e: string, f: string)
    ensures o + a + b + c + d + e + f == o + (a + b + c + d + e + f)
  {
  }

  /** The runs of padding that the routine writes make up the padding of the number. */
  lemma Assembled(num: Word, base: nat, s: int, precision: int, f: Flags, pre: int, mid: int, post: int)
    requires var digits := Digits(Magnitude(num, f), Divisor(base), f.large);
             var sign := SignOf(num, f);
             var size := s - Max(|digits|, precision);
             if f.left then pre <= 0 && mid <= 0 && post == size - |sign|
             else if f.zeropad then pre <= 0 && mid == size - |sign| && post <= 0
             else pre == (if sign != "" && size > 0 then size - 1 else size) && mid <= 0 && post <= 0
    ensures var digits := Digits(Magnitude(num, f), Divisor(base), f.large);
            Fill(' ', pre) + SignOf(num, f) + Fill(if f.zeropad && !f.left then '0' else ' ', mid)
              + Fill('0', Max(|digits|, precision) - |digits|) + (if precision != 0 then digits else "")
                  + Fill(' ', post)
            == Text(Number(num, base, s, precision, f))
  {
    hide Digits, Fill, Magnitude, Number;
    PartsOf(num, base, s, precision, f);
    var digits := Digits(Magnitude(num, f), Divisor(base), f.large);
    var p := Number(num, base, s, precision, f);
    var least := Max(|digits|, precision) - |digits|;
    SameFill(' ', pre, p.pre);
    SameFill(' ', post, p.post);
    var padding := Fill(if f.zeropad && !f.left then '0' else ' ', mid);
    assert padding + Fill('0', least) == Fill('0', p.zeros) by {
      if f.zeropad && !f.left {
        FillTwice('0', mid, least);
        SameFill('0', (if mid > 0 then mid else 0) + least, p.zeros);
      } else {
        SameFill(' ', mid, 0);
        SameFill('0', least, p.zeros);
      }
    }
    Rejoin(Fill(' ', pre), SignOf(num, f), padding, Fill('0', least));
  }

  lemma PartsOf(num: Word, base: nat, s: int, precision: int, f: Flags)
    ensures var digits := Digits(Magnitude(num, f), Divisor(base), f.large);
            var p := Number(num, base, s, precision, f);
            var pad := Max(s - Max(|digits|, precision) - |SignOf(num, f)|, 0);
            && p.sign == SignOf(num, f) && p.digits == (if precision != 0 then digits else "")
            && p.pre == (if f.left || f.zeropad then 0 else pad) && p.post == (if f.left then pad else 0)
            && p.zeros == Max(|digits|, precision) - |digits| + (if f.zeropad && !f.left then pad else 0)
  {
  }

  lemma Rejoin(a: string, b: string, c: string, d: string)
    ensures a + b + c + d == a + b + (c + d)
  {
  }

  lemma SameFill(c: char, m: int, n: int)
    requires Max(m, 0) == Max(n, 0)
    ensures Fill(c, m) == Fill(c, n)
    ensures n <= 0 ==> Fill(c, m) == ""
  {
  }

  /** The digits, most significant first. */
  method PutDigits(sink: Sink, tmp: array<char>, i: nat, show: bool, ghost digits: string)
    requires sink.Valid() && tmp != sink.buf && i == |digits| <= tmp.Length
    requires forall j :: 0 <= j < i ==> tmp[j] == digits[i - 1 - j]
    modifies sink`str, sink`out, sink.buf
    ensures sink.Valid() && sink.out == old(sink.out) + if show then digits else ""
  {
    if show {
      var left := i;
      while left > 0
        invariant 0 <= left <= i && sink.Valid() && sink.out == old(sink.out) + digits[..i - left]
      {
        left := left - 1;
        assert digits[..i - left] == digits[..i - left - 1] + [digits[i - left - 1]];
        sink.Put(tmp[left]);
      }
    }
  }

  // ----- reading a directive -----

  /** `skip_atoi` */
  method SkipAtoi(fmt: CString, p: nat) returns (n: nat, q: nat)
    requires p <= |fmt|
    ensures (n, q) == ReadNumber(fmt, p, 0) && q <= |fmt|
  {
    n, q := 0, p;
    while IsDigit(At(fmt, q))
      invariant q <= |fmt| && ReadNumber(fmt, q, n) == ReadNumber(fmt, p, 0)
      decreases |fmt| - q
    {
      n := n * 10 + (fmt[q] as int - '0' as int);
      q := q + 1;
    }
  }

  method ParseFlags(fmt: CString, p: nat) returns (f: Flags, q: nat)
    requires p <= |fmt|
    ensures (f, q) == ReadFlags(fmt, p, NO_FLAGS)
  {
    q, f := p, NO_FLAGS;
    while IsFlag(At(fmt, q))
      invariant q <= |fmt| && ReadFlags(fmt, q, f) == ReadFlags(fmt, p, NO_FLAGS)
      decreases |fmt| - q
    {
      f := SetFlag(fmt[q], f);
      q := q + 1;
    }
  }

  method ParseWidth(fmt: CString, args: nat -> Word, s0: Spec) returns (s: Spec)
    requires s0.p <= |fmt|
    ensures s == ReadWidth(fmt, args, s0)
  {
    s := s0.(width := -1);
    if IsDigit(At(fmt, s.p)) {
      var width, q := SkipAtoi(fmt, s.p);
      s := s.(width := width, p := q);
    } else if At(fmt, s.p) == '*' {
      var width := Signed(args(s.k));
      s := s.(p := s.p + 1, k := s.k + 1);
      if width < 0 {
        width := -width;
        s := s.(f := s.f.(left := true));
      }
      s := s.(width := width);
    }
  }

  method ParsePrecision(fmt: CString, args: nat -> Word, s0: Spec) returns (s: Spec)
    requires s0.p <= |fmt|
    ensures s == ReadPrecision(fmt, args, s0)
  {
    var precision := -1;
    s := s0;
    if At(fmt, s.p) == '.' {
      s := s.(p := s.p + 1);
      if IsDigit(At(fmt, s.p)) {
        var n, q := SkipAtoi(fmt, s.p);
        precision := n;
        s := s.(p := q);
      } else if At(fmt, s.p) == '*' {
        precision := Signed(args(s.k));
        s := s.(p := s.p + 1, k := s.k + 1);
      }
      if precision < 0 {
        precision := 0;
      }
    }
    s := s.(precision := precision);
  }

  /** Flags, width, precision and qualifier behind the percent sign at `p`. */
  method ParseDirective(fmt: CString, p: nat, args: nat -> Word, k: nat) returns (s: Spec)
    requires p < |fmt|
    ensures s == Directive(fmt, p, args, k)
  {
    hide ReadFlags, ReadWidth, ReadPrecision;
    var f, q := ParseFlags(fmt, p + 1);
    s := ParseWidth(fmt, args, Spec(f, -1, -1, '\0', q, k));
    s := ParsePrecision(fmt, args, s);
    var c := At(fmt, s.p);
    if c == 'h' || c == 'l' {
      s := s.(qualifier := c, p := s.p + 1);
    } else {
      s := s.(qualifier := '\0');
    }
  }

  // ----- writing a conversion -----

  method PutChar(sink: Sink, v: Word, s: Spec)
    requires sink.Valid()
    modifies sink`str, sink`out, sink.buf
    ensures sink.Valid() && sink.out == old(sink.out) + CharText(v, s)
  {
    hide Fill, Sink.Valid;
    var width := s.width;
    if !s.f.left {
      sink.PutFill(' ', width - 1);
      width := RunDown(width - 1) + 1;
    }
    sink.Put((v % 256) as char);
    sink.PutFill(' ', width - 1);
    SameFill(' ', RunDown(s.width - 1), 0);
  }

  method PutString(sink: Sink, t: CString, s: Spec)
    requires sink.Valid()
    modifies sink`str, sink`out, sink.buf
    ensures sink.Valid() && sink.out == old(sink.out) + StringText(t, s)
  {
    hide Fill, Sink.Valid;
    var len := 0;
    while len != s.width && len < |t|
      invariant len <= |t| && (s.width >= 0 ==> len <= s.width)
      decreases |t| - len
    {
      len := len + 1;
    }
    if s.precision > 0 && len > s.precision {
      len := s.precision;
    }
    assert len == Shown(|t|, s);
    var width := s.width - len;
    if !s.f.left {
      sink.PutFill(' ', width);
      width := RunDown(width);
    }
    sink.PutText(t, len);
    sink.PutFill(' ', width);
    SameFill(' ', RunDown(s.width - len), 0);
  }

  method PutInteger(sink: Sink, v: Word, base: nat, s: Spec)
    requires sink.Valid()
    modifies sink`str, sink`out, sink.buf
    ensures sink.Valid() && sink.out == old(sink.out) + NumberText(v, base, s)
  {
    hide Number, Text;
    var num := v;
    if s.qualifier == 'h' {
      num := num % 0x1_0000;
      if s.f.sign && num >= 0x8000 {
        num := num + 0xffff_0000;
      }
    }
    PrintNumber(sink, num, base, s.width, s.precision, s.f);
  }

  method PutConversion(sink: Sink, fmt: CString, s: Spec, args: nat -> Word, text: Word -> CString)
    returns (p: nat, k: nat)
    requires sink.Valid() && s.p <= |fmt|
    modifies sink`str, sink`out, sink.buf
    ensures sink.Valid() && p <= |fmt|
    ensures var c := Convert(fmt, s, args, text); sink.out == old(sink.out) + c.0 && p == c.1 && k == c.2
  {
    hide Number, Text, NumberText, StringText, CharText, Sink.Valid;
    var c := At(fmt, s.p);
    p, k := s.p + 1, s.k + 1;
    match c
    case 'c' => PutChar(sink, args(s.k), s);
    case 's' =>
      var pointer := args(s.k);
      var t: CString := if pointer == 0 then "(NULL)" else text(pointer);
      PutString(sink, t, s);
    case 'p' =>
      var width, f := s.width, s.f;
      if width == -1 {
        width, f := 8, f.(zeropad := true);
      }
      PrintNumber(sink, args(s.k), 16, width, s.precision, f);
    case '%' =>
      sink.Put('%');
      k := s.k;
    case 'o' => PutInteger(sink, args(s.k), 8, s);
    case 'X' => PutInteger(sink, args(s.k), 16, s.(f := s.f.(large := true)));
    case 'x' => PutInteger(sink, args(s.k), 16, s);
    case 'd' => PutInteger(sink, args(s.k), 10, s.(f := s.f.(sign := true)));
    case 'i' => PutInteger(sink, args(s.k), 10, s.(f := s.f.(sign := true)));
    case 'u' => PutInteger(sink, args(s.k), 10, s);
    case _ =>
      sink.Put('%');
      k := s.k;
      if c != '\0' {
        sink.Put(c);
      } else {
        p := s.p;
      }
  }

  function Min(a: nat, b: nat): nat {
    if a < b then a else b
  }

  /** `rt_vsnprintf`: the first `size - 1` characters of the text and a terminating zero are stored,
      nothing else is touched, and the length of the whole text is returned. */
  method VsnPrintf(buf: array<char>, size: nat, fmt: CString, args: nat -> Word, text: Word -> CString) returns (r: nat)
    requires size <= buf.Length
    modifies buf
    ensures var o := Output(fmt, 0, args, 0, text);
            && r == |o|
            && (size > 0 ==>
                  var m := Min(|o|, size - 1);
                  && buf[..m] == o[..m] && buf[m] == '\0'
                  && forall i :: m < i < buf.Length ==> buf[i] == old(buf[i]))
            && (size == 0 ==> buf[..] == old(buf[..]))
  {
    hide Output;
    var sink := new Sink(buf, size);
    WriteAll(sink, fmt, args, text);
    r := Terminate(sink);
  }

  method WriteAll(sink: Sink, fmt: CString, args: nat -> Word, text: Word -> CString)
    requires sink.Valid() && sink.out == ""
    modifies sink`str, sink`out, sink.buf
    ensures sink.Valid() && sink.out == Output(fmt, 0, args, 0, text)
  {
    hide Output, Convert, Directive, Sink.Valid;
    ghost var whole := Output(fmt, 0, args, 0, text);
    var p, k := 0, 0;
    while p < |fmt|
      invariant p <= |fmt| && sink.Valid()
      invariant sink.out + Output(fmt, p, args, k, text) == whole
      decreases |fmt| - p
    {
      OutputStep(fmt, p, args, k, text);
      ghost var o := sink.out;
      if fmt[p] != '%' {
        sink.Put(fmt[p]);
        assert o + ([fmt[p]] + Output(fmt, p + 1, args, k, text)) == sink.out + Output(fmt, p + 1, args, k, text);
        p := p + 1;
      } else {
        var s := ParseDirective(fmt, p, args, k);
        ghost var c := Convert(fmt, s, args, text);
        assert o + (c.0 + Output(fmt, c.1, args, c.2, text)) == o + c.0 + Output(fmt, c.1, args, c.2, text);
        p, k := PutConversion(sink, fmt, s, args, text);
      }
    }
    OutputEnd(fmt, args, k, text);
  }

  lemma OutputStep(fmt: CString, p: nat, args: nat -> Word, k: nat, text: Word -> CString)
    requires p < |fmt|
    ensures fmt[p] != '%' ==> Output(fmt, p, args, k, text) == [fmt[p]] + Output(fmt, p + 1, args, k, text)
    ensures var c := Convert(fmt, Directive(fmt, p, args, k), args, text);
            p < c.1 <= |fmt| && (fmt[p] == '%' ==>
                Output(fmt, p, args, k, text) == c.0 + Output(fmt, c.1, args, c.2, text))
  {
    hide Convert, Directive;
  }

  lemma OutputEnd(fmt: CString, args: nat -> Word, k: nat, text: Word -> CString)
    ensures Output(fmt, |fmt|, args, k, text) == ""
  {
  }

  /** Puts the zero behind the text, or over the last character that fits. */
  method Terminate(sink: Sink) returns (r: nat)
    requires sink.Valid()
    modifies sink.buf
    ensures r == |sink.out|
    ensures var size := sink.end;
            && (size > 0 ==>
                  var m := Min(r, size - 1);
                  && sink.buf[..m] == sink.out[..m] && sink.buf[m] == '\0'
                  && forall i :: m < i < sink.buf.Length ==> sink.buf[i] == sink.before[i])
            && (size == 0 ==> sink.buf[..] == sink.before)
  {
    r := sink.str;
    if sink.end > 0 {
      if r < sink.end {
        sink.buf[r] := '\0';
      } else {
        sink.buf[sink.end - 1] := '\0';
      }
    }
  }

  // ----- properties of formats -----

  /** Text without directives is copied. */
  lemma {:induction false} PlainText(fmt: CString, p: nat, args: nat -> Word, k: nat, text: Word -> CString)
    requires p <= |fmt| && '%' !in fmt
    ensures Output(fmt, p, args, k, text) == fmt[p..]
    decreases |fmt| - p
  {
    if p == |fmt| {
    } else {
      PlainText(fmt, p + 1, args, k, text);
      assert fmt[p..] == [fmt[p]] + fmt[p + 1..];
    }
  }

  /** Whatever the flags, the width, the qualifier and the precision, unless that is zero: what a signed
      decimal directive prints reads back as the argument, cut to a halfword if so qualified. */
  lemma PrintedDecimalReads(fmt: CString, args: nat -> Word, text: Word -> CString)
    requires fmt != "" && fmt[0] == '%'
    requires var s := Directive(fmt, 0, args, 0);
             s.p + 1 == |fmt| && fmt[s.p] in "di" && s.precision != 0
    ensures var s := Directive(fmt, 0, args, 0);
            Scan(Output(fmt, 0, args, 0, text)) == Signed(Narrow(args(s.k), s.qualifier, true))
  {
    hide Directive, Text, Number, Narrow, Scan, Signed, Output;
    var s := Directive(fmt, 0, args, 0);
    var t := NumberText(args(s.k), 10, s.(f := s.f.(sign := true)));
    assert Convert(fmt, s, args, text) == (t, |fmt|, s.k + 1);
    OutputStep(fmt, 0, args, 0, text);
    OutputEnd(fmt, args, s.k + 1, text);
    assert Output(fmt, 0, args, 0, text) == t;
    DecimalRoundTrip(Narrow(args(s.k), s.qualifier, true), s.width, s.precision, s.f.(sign := true));
  }

  // ----- unsigned conversions -----

  /** A string without its spaces. */
  function Visible(s: string): string {
    if s == "" then "" else Visible(s[..|s| - 1]) + if s[|s| - 1] == ' ' then "" else [s[|s| - 1]]
  }

  lemma {:induction false} VisibleConcat(a: string, b: string)
    ensures Visible(a + b) == Visible(a) + Visible(b)
    decreases |b|
  {
    if b == "" {
      assert a + b == a;
    } else {
      var b' := b[..|b| - 1];
      assert (a + b)[..|a + b| - 1] == a + b';
      VisibleConcat(a, b');
    }
  }

  lemma {:induction false} SpacesVanish(n: int)
    ensures Visible(Fill(' ', n)) == ""
    decreases if n > 0 then n else 0
  {
    if n <= 0 {
    } else {
      assert Fill(' ', n)[..|Fill(' ', n)| - 1] == Fill(' ', n - 1);
      SpacesVanish(n - 1);
    }
  }

  lemma {:induction false} AllVisible(s: string)
    requires ' ' !in s
    ensures Visible(s) == s
  {
    if s == "" {
    } else {
      assert s == s[..|s| - 1] + [s[|s| - 1]];
      AllVisible(s[..|s| - 1]);
    }
  }

  /** A number without a sign shows as its zeros and digits. */
  lemma VisibleNumber(v: Word, base: nat, width: int, precision: int, f: Flags)
    requires !f.sign && precision != 0
    ensures var o := Visible(Text(Number(v, base, width, precision, f)));
            && Read(o, Divisor(base)) == v
            && forall c :: c in o ==> Cased(c, f.large)
  {
    hide Visible, Fill, Digits, Read, Cased;
    var p := Number(v, base, width, precision, f);
    var body := Fill('0', p.zeros) + p.digits;
    NumberReads(v, base, width, precision, f);
    DigitsCased(v, Divisor(base), f.large);
    CasedIsVisible(body, f.large);
    AllVisible(body);
    assert Text(p) == Fill(' ', p.pre) + (body + Fill(' ', p.post));
    VisibleConcat(Fill(' ', p.pre), body + Fill(' ', p.post));
    VisibleConcat(body, Fill(' ', p.post));
    SpacesVanish(p.pre);
    SpacesVanish(p.post);
    assert "" + (body + "") == body;
  }

  lemma CasedIsVisible(s: string, large: bool)
    requires forall i :: 0 <= i < |s| ==> s[i] == '0' || Cased(s[i], large)
    ensures ' ' !in s && forall c :: c in s ==> Cased(c, large)
  {
    assert !Cased(' ', large) && Cased('0', large);
  }

  lemma {:induction false} PlainFlags(fmt: CString, p: nat, f: Flags)
    requires p <= |fmt|
    ensures ReadFlags(fmt, p, f).0.sign == f.sign && ReadFlags(fmt, p, f).0.large == f.large
    decreases |fmt| - p
  {
    hide IsFlag, SetFlag;
    if IsFlag(At(fmt, p)) {
      FlagBelow(fmt, p);
      PlainFlag(fmt[p], f);
      PlainFlags(fmt, p + 1, SetFlag(fmt[p], f));
    }
  }

  lemma FlagBelow(fmt: CString, p: nat)
    requires IsFlag(At(fmt, p))
    ensures p < |fmt|
  {
  }

  lemma PlainFlag(c: char, f: Flags)
    ensures SetFlag(c, f).sign == f.sign && SetFlag(c, f).large == f.large
  {
    match c
    case '-' =>
    case '+' =>
    case ' ' =>
    case '#' =>
    case '0' =>
    case _ =>
  }

  /** The format is one directive with conversion `c`. */
  predicate OneDirective(fmt: CString, args: nat -> Word, c: char) {
    fmt != "" && fmt[0] == '%' && var s := Directive(fmt, 0, args, 0); s.p + 1 == |fmt| && fmt[s.p] == c
  }

  lemma OneOutput(fmt: CString, args: nat -> Word, text: Word -> CString, c: char)
    requires OneDirective(fmt, args, c) && c != '\0'
    ensures var s := Directive(fmt, 0, args, 0);
            && At(fmt, s.p) == c && !s.f.sign && !s.f.large
            && Output(fmt, 0, args, 0, text) == Convert(fmt, s, args, text).0
  {
    var s := Directive(fmt, 0, args, 0);
    PlainFlags(fmt, 1, NO_FLAGS);
    hide Directive, Output, NumberText, StringText, CharText, Number, Text;
    OutputStep(fmt, 0, args, 0, text);
    OutputEnd(fmt, args, Convert(fmt, s, args, text).2, text);
    assert Convert(fmt, s, args, text).1 == |fmt|;
    assert Output(fmt, 0, args, 0, text) == Convert(fmt, s, args, text).0 + "";
  }

  /** Whatever the flags, the width, the qualifier and the precision, unless that is zero: an unsigned
      conversion prints digits of the argument, to the base and in the case of its letter, and spaces. */
  lemma PrintedUnsignedReads(fmt: CString, args: nat -> Word, text: Word -> CString, c: char)
    requires c in "uxXo" && OneDirective(fmt, args, c) && Directive(fmt, 0, args, 0).precision != 0
    ensures var s, o := Directive(fmt, 0, args, 0), Visible(Output(fmt, 0, args, 0, text));
            && Read(o, if c == 'u' then 10 else 16) == Narrow(args(s.k), s.qualifier, false)
            && forall d :: d in o ==> Cased(d, c == 'X')
  {
    hide Directive, Output, Number, Text, Visible, Read, Cased;
    OneOutput(fmt, args, text, c);
    var s := Directive(fmt, 0, args, 0);
    var v := Narrow(args(s.k), s.qualifier, false);
    var base := if c == 'u' then 10 else if c == 'o' then 8 else 16;
    VisibleNumber(v, base, s.width, s.precision, s.f.(large := c == 'X'));
  }

  /** A pointer is printed in hexadecimal, in eight places and with zeros in front unless a width is given. */
  lemma PrintedPointerReads(fmt: CString, args: nat -> Word, text: Word -> CString)
    requires OneDirective(fmt, args, 'p') && Directive(fmt, 0, args, 0).precision != 0
    ensures var s, o := Directive(fmt, 0, args, 0), Output(fmt, 0, args, 0, text);
            && Read(Visible(o), 16) == args(s.k)
            && (forall d :: d in Visible(o) ==> Cased(d, false))
            && (s.width == -1 ==> |o| >= 8)
            && (s.width == -1 && !s.f.left ==> ' ' !in o)
  {
    hide Directive, Output, Visible, Read, Cased, Digits, Fill;
    OneOutput(fmt, args, text, 'p');
    var s := Directive(fmt, 0, args, 0);
    var f := if s.width == -1 then s.f.(zeropad := true) else s.f;
    var width := if s.width == -1 then 8 else s.width;
    VisibleNumber(args(s.k), 16, width, s.precision, f);
    NumberLength(args(s.k), 16, width, s.precision, f);
    if s.width == -1 && !s.f.left {
      NumberLayout(args(s.k), 16, width, s.precision, f);
      var n := Number(args(s.k), 16, width, s.precision, f);
      DigitsCased(args(s.k), 16, false);
      NoSpaceInside(n);
    }
  }

  lemma NoSpaceInside(n: Parts)
    requires n.pre <= 0 && n.post <= 0 && n.sign == "" && forall c :: c in n.digits ==> Cased(c, false)
    ensures ' ' !in Text(n)
  {
    assert !Cased(' ', false);
    assert Text(n) == Fill('0', n.zeros) + n.digits;
  }

  /** A halfword is the low sixteen bits of the argument, which signed conversions take as a signed number. */
  lemma NarrowIs(v: Word)
    ensures Narrow(v, 'h', false) < 0x1_0000 && (v - Narrow(v, 'h', false)) % 0x1_0000 == 0
    ensures -0x8000 <= Signed(Narrow(v, 'h', true)) < 0x8000
    ensures (v - Signed(Narrow(v, 'h', true))) % 0x1_0000 == 0
    ensures Narrow(v, 'l', true) == v == Narrow(v, 'l', false)
  {
  }

  /** A character stands at the left or the right end of its field, which has nothing else. */
  lemma CharIs(v: Word, s: Spec)
    ensures var o := CharText(v, s);
            && |o| == Max(s.width, 1)
            && o[if s.f.left then 0 else |o| - 1] as int == v % 256
            && forall i :: 0 <= i < |o| && i != (if s.f.left then 0 else |o| - 1) ==> o[i] == ' '
  {
  }

  /** As much of a string is shown as it has and the width and a positive precision allow, at the left or
      the right end of its field. */
  lemma StringIs(t: CString, s: Spec, n: nat)
    ensures n == Shown(|t|, s) <==>
              && n <= |t| && (s.width >= 0 ==> n <= s.width) && (s.precision > 0 ==> n <= s.precision)
              && (n == |t| || n == s.width || (n == s.precision && n > 0))
    ensures n == Shown(|t|, s) ==>
              var o := StringText(t, s);
              && |o| == Max(s.width, n)
              && (s.f.left ==> o[..n] == t[..n] && forall i :: n <= i < |o| ==> o[i] == ' ')
              && (!s.f.left ==> o[|o| - n..] == t[..n] && forall i :: 0 <= i < |o| - n ==> o[i] == ' ')
  {
  }

  /** Every conversion takes its letter from the format, and all but the literal percent sign and the unknown
      ones take one argument. */
  lemma ConvertMoves(fmt: CString, s: Spec, args: nat -> Word, text: Word -> CString)
    requires s.p < |fmt|
    ensures Convert(fmt, s, args, text).1 == s.p + 1
    ensures Convert(fmt, s, args, text).2 == s.k + if fmt[s.p] in "cspoxXdiu" then 1 else 0
    ensures fmt[s.p] !in "cspoxXdiu" ==>
              Convert(fmt, s, args, text).0 == if fmt[s.p] == '%' then "%" else "%" + [fmt[s.p]]
  {
    hide NumberText, StringText, CharText, Number, Text;
  }

  // ----- escaping -----

  /** The format that prints `t`: every percent sign is doubled. */
  function Escape(t: string): string {
    if t == "" then "" else (if t[0] == '%' then "%%" else [t[0]]) + Escape(t[1..])
  }

  lemma {:induction false} EscapeIsFormat(t: CString)
    ensures '\0' !in Escape(t)
  {
    if t == "" {
    } else {
      EscapeIsFormat(t[1..]);
    }
  }

  lemma DoublePercent(fmt: CString, p: nat, args: nat -> Word, k: nat)
    requires p + 1 < |fmt| && fmt[p + 1] == '%'
    ensures Directive(fmt, p, args, k) == Spec(NO_FLAGS, -1, -1, '\0', p + 1, k)
  {
  }

  /** Printing an escaped text gives the text. */
  lemma {:induction false} EscapedPrints(t: CString, fmt: CString, p: nat, args: nat -> Word, k: nat,
                                         text: Word -> CString)
    requires p <= |fmt| && fmt[p..] == Escape(t)
    ensures Output(fmt, p, args, k, text) == t
    decreases |t|
  {
    hide Convert, Directive;
    if t == "" {
    } else if t[0] == '%' {
      assert fmt[p] == Escape(t)[0] && fmt[p + 1] == Escape(t)[1];
      assert fmt[p + 2..] == fmt[p..][2..] == Escape(t[1..]);
      DoublePercent(fmt, p, args, k);
      ConvertMoves(fmt, Spec(NO_FLAGS, -1, -1, '\0', p + 1, k), args, text);
      EscapedPrints(t[1..], fmt, p + 2, args, k, text);
      assert t == ['%'] + t[1..];
    } else {
      assert fmt[p] == Escape(t)[0];
      assert fmt[p + 1..] == fmt[p..][1..] == Escape(t[1..]);
      EscapedPrints(t[1..], fmt, p + 1, args, k, text);
      assert t == [t[0]] + t[1..];
    }
  }

  // ----- reading back a directive -----

  /** A width or a precision as it is written: not at all, in digits, or taken from the arguments. */
  datatype Field = Absent | Literal(digits: string) | Star

  function Written(w: Field): string {
    match w
    case Absent => ""
    case Literal(digits) => digits
    case Star => "*"
  }

  predicate Decimal(d: string) {
    d != "" && forall i :: 0 <= i < |d| ==> IsDigit(d[i])
  }

  lemma {:induction false} NumberRead(fmt: CString, p: nat, before: string, d: string)
    requires p + |d| <= |fmt| && fmt[p..p + |d|] == d && !IsDigit(At(fmt, p + |d|))
    requires forall i :: 0 <= i < |d| ==> IsDigit(d[i])
    ensures ReadNumber(fmt, p, Read(before, 10)) == (Read(before + d, 10), p + |d|)
    decreases |d|
  {
    hide Read;
    if d == "" {
      assert before + d == before;
    } else {
      assert fmt[p] == fmt[p..p + |d|][0] == d[0];
      assert fmt[p + 1..p + |d|] == fmt[p..p + |d|][1..] == d[1..];
      Appended(before, d[0], 10);
      assert before + [d[0]] + d[1..] == before + d;
      NumberRead(fmt, p + 1, before + [d[0]], d[1..]);
    }
  }

  /** `r` is `f` with the flags of `fl` set. */
  ghost predicate FlagsSet(f: Flags, fl: string, r: Flags) {
    && (r.left <==> f.left || '-' in fl) && (r.plus <==> f.plus || '+' in fl)
    && (r.space <==> f.space || ' ' in fl) && (r.special <==> f.special || '#' in fl)
    && (r.zeropad <==> f.zeropad || '0' in fl) && r.sign == f.sign && r.large == f.large
  }

  lemma OneFlagSet(f: Flags, fl: string, r: Flags)
    requires fl != "" && FlagsSet(SetFlag(fl[0], f), fl[1..], r)
    ensures FlagsSet(f, fl, r)
  {
    hide FlagsSet, SetFlag;
    assert fl == [fl[0]] + fl[1..];
    FlagSet(f, fl[0]);
    FlagsThen(f, [fl[0]], SetFlag(fl[0], f), fl[1..], r);
  }

  lemma FlagSet(f: Flags, c: char)
    ensures FlagsSet(f, [c], SetFlag(c, f))
  {
    var one := [c];
    assert '-' in one <==> c == '-';
    assert '+' in one <==> c == '+';
    assert ' ' in one <==> c == ' ';
    assert '#' in one <==> c == '#';
    assert '0' in one <==> c == '0';
    match c
    case '-' =>
    case '+' =>
    case ' ' =>
    case '#' =>
    case '0' =>
    case _ =>
  }

  lemma FlagsThen(f: Flags, a: string, g: Flags, b: string, r: Flags)
    requires FlagsSet(f, a, g) && FlagsSet(g, b, r)
    ensures FlagsSet(f, a + b, r)
  {
    assert forall c :: c in a + b <==> c in a || c in b;
  }

  lemma NoFlagSet(f: Flags)
    ensures FlagsSet(f, "", f)
  {
  }

  lemma {:induction false} FlagsRead(fmt: CString, p: nat, f: Flags, fl: string)
    requires StandsAt(fmt, p, fl) && !IsFlag(At(fmt, p + |fl|))
    requires forall i :: 0 <= i < |fl| ==> IsFlag(fl[i])
    ensures var (r, q) := ReadFlags(fmt, p, f); q == p + |fl| && FlagsSet(f, fl, r)
    decreases |fl|
  {
    hide IsFlag, SetFlag, FlagsSet;
    if fl == "" {
      NoFlagSet(f);
    } else {
      assert fmt[p] == fmt[p..p + |fl|][0] == fl[0];
      assert fmt[p + 1..p + |fl|] == fmt[p..p + |fl|][1..] == fl[1..];
      FlagsRead(fmt, p + 1, SetFlag(fmt[p], f), fl[1..]);
      OneFlagSet(f, fl, ReadFlags(fmt, p, f).0);
    }
  }

  /** `piece` stands in the format from position `p` on. */
  predicate StandsAt(fmt: CString, p: nat, piece: string) {
    p + |piece| <= |fmt| && fmt[p..p + |piece|] == piece
  }

  /** What a width comes to. */
  function Wide(w: Field, v: Word): int {
    match w
    case Absent => -1
    case Literal(d) => Read(d, 10)
    case Star => Max(Signed(v), -Signed(v))
  }

  lemma WidthRead(fmt: CString, args: nat -> Word, s: Spec, w: Field)
    requires StandsAt(fmt, s.p, Written(w)) && !IsDigit(At(fmt, s.p + |Written(w)|))
    requires w.Literal? ==> Decimal(w.digits)
    requires w.Absent? ==> At(fmt, s.p) != '*'
    ensures ReadWidth(fmt, args, s) ==
            s.(width := Wide(w, args(s.k)), p := s.p + |Written(w)|, k := s.k + (if w.Star? then 1 else 0),
               f := if w.Star? && Signed(args(s.k)) < 0 then s.f.(left := true) else s.f)
  {
    hide Read, ReadNumber, Signed;
    match w
    case Absent =>
    case Literal(d) => DigitsFollow(fmt, s.p, d);
    case Star => FirstOf(fmt, s.p, "*");
  }

  /** What a precision behind a dot comes to. */
  function Precise(w: Field, v: Word): int {
    match w
    case Absent => 0
    case Literal(d) => Read(d, 10)
    case Star => Max(Signed(v), 0)
  }

  lemma NoPrecision(fmt: CString, args: nat -> Word, s: Spec)
    requires s.p <= |fmt| && At(fmt, s.p) != '.'
    ensures ReadPrecision(fmt, args, s) == s.(precision := -1)
  {
  }

  lemma PrecisionRead(fmt: CString, args: nat -> Word, s: Spec, w: Field)
    requires StandsAt(fmt, s.p, "." + Written(w)) && !IsDigit(At(fmt, s.p + 1 + |Written(w)|))
    requires w.Literal? ==> Decimal(w.digits)
    requires w.Absent? ==> At(fmt, s.p + 1) != '*'
    ensures ReadPrecision(fmt, args, s) ==
            s.(precision := Precise(w, args(s.k)), p := s.p + 1 + |Written(w)|, k := s.k + if w.Star? then 1 else 0)
  {
    hide Read, ReadNumber, Signed;
    var piece := "." + Written(w);
    assert fmt[s.p] == fmt[s.p..s.p + |piece|][0] == '.';
    match w {
      case Absent =>
      case Literal(d) =>
        assert fmt[s.p + 1..s.p + 1 + |d|] == fmt[s.p..s.p + |piece|][1..] == d;
        DigitsFollow(fmt, s.p + 1, d);
      case Star => assert fmt[s.p + 1] == fmt[s.p..s.p + |piece|][1] == '*';
    }
  }

  lemma DigitsFollow(fmt: CString, p: nat, d: string)
    requires p + |d| <= |fmt| && fmt[p..p + |d|] == d && Decimal(d) && !IsDigit(At(fmt, p + |d|))
    ensures IsDigit(At(fmt, p)) && ReadNumber(fmt, p, 0) == (Read(d, 10), p + |d|)
  {
    hide Read;
    assert fmt[p] == d[0];
    NumberRead(fmt, p, "", d);
    NothingRead(10);
    assert "" + d == d;
  }

  lemma FirstOf(fmt: CString, p: nat, piece: string)
    requires StandsAt(fmt, p, piece) && piece != ""
    ensures At(fmt, p) == piece[0]
  {
    assert fmt[p] == fmt[p..p + |piece|][0];
  }

  /** A conversion letter is taken for nothing else. */
  lemma LetterIs(c: char)
    requires c in "cspoxXdiu%"
    ensures !IsFlag(c) && !IsDigit(c) && c !in ".*hl" && c != '\0'
  {
  }

  /** The pieces of a directive follow one another from position `p` on; the conversion letter is at `e`. */
  ghost predicate Consists(fmt: CString, p: nat, fl: string, w: string, pr: string, q: string, c: char, e: nat) {
    && StandsAt(fmt, p, "%") && StandsAt(fmt, p + 1, fl) && StandsAt(fmt, p + 1 + |fl|, w)
    && StandsAt(fmt, p + 1 + |fl| + |w|, pr) && StandsAt(fmt, p + 1 + |fl| + |w| + |pr|, q)
    && e == p + 1 + |fl| + |w| + |pr| + |q| < |fmt| && fmt[e] == c
  }

  /** What follows the precision is the qualifier or the conversion letter. */
  lemma AfterPrecision(fmt: CString, p: nat, q: string, c: char)
    requires q in ["", "h", "l"] && c in "cspoxXdiu%" && StandsAt(fmt, p, q)
    requires p + |q| < |fmt| && fmt[p + |q|] == c
    ensures !IsFlag(At(fmt, p)) && !IsDigit(At(fmt, p)) && At(fmt, p) != '.' && At(fmt, p) != '*'
    ensures if q == "" then At(fmt, p) != 'h' && At(fmt, p) != 'l' else At(fmt, p) == q[0]
  {
    LetterIs(c);
    if q != "" { FirstOf(fmt, p, q); }
  }

  /** What follows the width is the dot or what follows the precision. */
  lemma AfterWidth(fmt: CString, p: nat, dot: bool, pr: string)
    requires StandsAt(fmt, p, if dot then "." + pr else "")
    requires !dot ==> !IsFlag(At(fmt, p)) && !IsDigit(At(fmt, p)) && At(fmt, p) != '.' && At(fmt, p) != '*'
    ensures !IsFlag(At(fmt, p)) && !IsDigit(At(fmt, p)) && At(fmt, p) != '*' && (At(fmt, p) == '.' <==> dot)
  {
    if dot { FirstOf(fmt, p, "." + pr); }
  }

  /** What follows the flags is the width or what follows the width. */
  lemma AfterFlags(fmt: CString, p: nat, w: Field)
    requires StandsAt(fmt, p, Written(w)) && (w.Literal? ==> Decimal(w.digits) && w.digits[0] != '0')
    requires w.Absent? ==> !IsFlag(At(fmt, p)) && At(fmt, p) != '*'
    ensures !IsFlag(At(fmt, p)) && (w.Absent? ==> At(fmt, p) != '*')
  {
    if !w.Absent? { FirstOf(fmt, p, Written(w)); }
    if w.Literal? { assert IsDigit(w.digits[0]); }
  }

  /** Flags, width, precision and qualifier are read as they are written, up to the conversion letter. */
  lemma DirectiveReads(fmt: CString, p: nat, args: nat -> Word, k: nat, fl: string, w: Field, dot: bool, pr: Field,
                       q: string, c: char, e: nat)
    requires (forall i :: 0 <= i < |fl| ==> IsFlag(fl[i])) && q in ["", "h", "l"] && c in "cspoxXdiu%"
    requires w.Literal? ==> Decimal(w.digits) && w.digits[0] != '0'
    requires pr.Literal? ==> Decimal(pr.digits)
    requires Consists(fmt, p, fl, Written(w), if dot then "." + Written(pr) else "", q, c, e)
    ensures p < |fmt|
    ensures var s := Directive(fmt, p, args, k);
            var starred := if w.Star? then 1 else 0;
            && s.p == e && s.qualifier == (if q == "" then '\0' else q[0])
            && FlagsSet(NO_FLAGS, if w.Star? && Signed(args(k)) < 0 then fl + "-" else fl, s.f)
            && s.width == Wide(w, args(k))
            && s.precision == (if dot then Precise(pr, args(k + starred)) else -1)
            && s.k == k + starred + if dot && pr.Star? then 1 else 0
  {
    hide Read, ReadNumber, Signed, ReadFlags, ReadWidth, ReadPrecision, IsFlag, FlagsSet, Decimal, Precise, Wide,
         StandsAt, At, Written, IsDigit, Max;
    AfterPrecision(fmt, e - |q|, q, c);
    AfterWidth(fmt, p + 1 + |fl| + |Written(w)|, dot, Written(pr));
    NothingWritten();
    AfterFlags(fmt, p + 1 + |fl|, w);
    FlagsRead(fmt, p + 1, NO_FLAGS, fl);
    var f := ReadFlags(fmt, p + 1, NO_FLAGS).0;
    var s0 := Spec(f, -1, -1, '\0', p + 1 + |fl|, k);
    WidthRead(fmt, args, s0, w);
    var s1 := ReadWidth(fmt, args, s0);
    if dot { PrecisionRead(fmt, args, s1, pr); } else { NoPrecision(fmt, args, s1); }
    if w.Star? && Signed(args(k)) < 0 { LeftToo(fl, f); }
  }

  lemma NothingWritten()
    ensures Written(Absent) == ""
  {
  }

  lemma LeftToo(fl: string, f: Flags)
    requires FlagsSet(NO_FLAGS, fl, f)
    ensures FlagsSet(NO_FLAGS, fl + "-", f.(left := true))
  {
    assert forall c :: c in fl + "-" <==> c in fl || c == '-';
  }

  /** A width cuts a string off; a precision of zero does not. */
  lemma WidthCutsStrings(t: CString, s: Spec)
    ensures |StringText(t, s)| <= Max(s.width, |t|)
    ensures s.precision <= 0 && 0 <= s.width ==> |StringText(t, s)| == s.width
    ensures s.precision <= 0 && s.width < 0 ==> StringText(t, s) == t
  {
    assert t[..|t|] == t;
  }

  /** A percent sign stands for itself when only flags follow it up to the end of the format. */
  lemma TrailingPercent(fmt: CString, p: nat, args: nat -> Word, k: nat, text: Word -> CString)
    requires p < |fmt| && fmt[p] == '%' && forall i :: p < i < |fmt| ==> IsFlag(fmt[i])
    ensures Output(fmt, p, args, k, text) == "%"
  {
    hide IsFlag;
    FlagsToTheEnd(fmt, p + 1, NO_FLAGS);
    OutputStep(fmt, p, args, k, text);
    OutputEnd(fmt, args, k, text);
  }

  lemma {:induction false} FlagsToTheEnd(fmt: CString, p: nat, f: Flags)
    requires p <= |fmt| && forall i :: p <= i < |fmt| ==> IsFlag(fmt[i])
    ensures ReadFlags(fmt, p, f).1 == |fmt|
    decreases |fmt| - p
  {
    if p == |fmt| {
    } else {
      FlagsToTheEnd(fmt, p + 1, SetFlag(fmt[p], f));
    }
  }
}
