/** The frequency list of the radio module: parsing a comma-separated list, finding the band of a
    frequency, and turning frequencies into grid indices. */
module FreqList {
  import N = Numbers

  type Word = N.Word
  type CString = s: string | '\0' !in s witness ""

  const FREQ_LIST_NUM: nat := 16

  // ----- what a list stands for -----

  predicate IsSpace(c: char) {
    c in " \t\n\r" || c == '\U{0b}' || c == '\U{0c}'
  }

  function TrimLeft(s: string): (r: string)
    ensures |r| <= |s|
  {
    if s != "" && IsSpace(s[0]) then TrimLeft(s[1..]) else s
  }

  function TrimRight(s: string): (r: string)
    ensures |r| <= |s|
  {
    if s != "" && IsSpace(s[|s| - 1]) then TrimRight(s[..|s| - 1]) else s
  }

  function Trim(s: string): string {
    TrimRight(TrimLeft(s))
  }

  function FirstComma(s: string): (k: nat)
    ensures k <= |s| && (k < |s| ==> s[k] == ',') && forall i :: 0 <= i < k ==> s[i] != ','
  {
    if s == "" || s[0] == ',' then 0 else 1 + FirstComma(s[1..])
  }

  /** The pieces between commas. */
  function Split(s: string): seq<string>
    decreases |s|
  {
    var k := FirstComma(s);
    if k == |s| then [s] else [s[..k]] + Split(s[k + 1..])
  }

  ghost predicate AllDigits(s: string) {
    forall i :: 0 <= i < |s| ==> '0' <= s[i] <= '9'
  }

  /** A piece denotes a number, in 32-bit arithmetic; the code takes 2^32 - 1 for an error. */
  ghost predicate IsNumber(s: string) {
    AllDigits(s) && N.Read(s, 10) % N.WORD != N.WORD - 1
  }

  function Value(s: string): Word {
    N.Read(s, 10) % N.WORD
  }

  datatype Parsed = Numbers(values: seq<Word>) | Nothing | TooMany | NotANumber

  /** The numbers of the pieces, after the ones in `got`; empty pieces are skipped. */
  ghost function Collect(got: seq<Word>, pieces: seq<string>): (r: Parsed)
    ensures r.Numbers? && |got| <= FREQ_LIST_NUM ==> |got| <= |r.values| <= FREQ_LIST_NUM
    decreases |pieces|
  {
    if pieces == [] then Numbers(got)
    else
      var piece := Trim(pieces[0]);
      if piece == "" then Collect(got, pieces[1..])
      else if |got| >= FREQ_LIST_NUM then TooMany
      else if !IsNumber(piece) then NotANumber
      else Collect(got + [Value(piece)], pieces[1..])
  }

  ghost function Parse(s: string): Parsed {
    if Trim(s) == "" then Nothing else Collect([], Split(Trim(s)))
  }

  // ----- the parser -----

  /** Narrows [lo, hi) to what is left without spaces on either side. */
  method Bounds(s: string, lo: nat, hi: nat) returns (a: nat, b: nat)
    requires lo <= hi <= |s|
    ensures lo <= a <= b <= hi && s[a..b] == Trim(s[lo..hi])
  {
    hide TrimLeft, TrimRight, IsSpace;
    a, b := lo, hi;
    while a < b && IsSpace(s[a])
      invariant lo <= a <= b == hi && TrimLeft(s[a..hi]) == TrimLeft(s[lo..hi])
      decreases b - a
    {
      LeftStep(s[a..hi]);
      assert s[a..hi][1..] == s[a + 1..hi];
      a := a + 1;
    }
    LeftStep(s[a..hi]);
    while b > a && IsSpace(s[b - 1])
      invariant a <= b <= hi && TrimRight(s[a..b]) == TrimRight(s[a..hi])
      decreases b - a
    {
      RightStep(s[a..b]);
      assert s[a..b][..b - a - 1] == s[a..b - 1];
      b := b - 1;
    }
    RightStep(s[a..b]);
  }

  lemma LeftStep(s: string)
    ensures TrimLeft(s) == if s != "" && IsSpace(s[0]) then TrimLeft(s[1..]) else s
  {
    hide IsSpace;
  }

  lemma RightStep(s: string)
    ensures TrimRight(s) == if s != "" && IsSpace(s[|s| - 1]) then TrimRight(s[..|s| - 1]) else s
  {
    hide IsSpace;
  }

  /** `str_to_int`: -1 unless every character is a digit. */
  method StrToInt(s: string) returns (num: int)
    requires s != ""
    ensures num != -1 <==> IsNumber(s)
    ensures num != -1 ==> num == Value(s)
  {
    var value: Word := 0;
    var i := 0;
    while i < |s|
      invariant i <= |s| && AllDigits(s[..i]) && value == N.Read(s[..i], 10) % N.WORD
    {
      if s[i] < '0' || s[i] > '9' {
        return -1;
      }
      N.Appended(s[..i], s[i], 10);
      assert s[..i + 1] == s[..i] + [s[i]];
      Wrap(N.Read(s[..i], 10), value, s[i] as int - '0' as int);
      value := (value * 10 + (s[i] as int - '0' as int)) % N.WORD;
      i := i + 1;
    }
    assert s[..|s|] == s;
    if value == N.WORD - 1 {
      return -1;
    }
    return value;
  }

  lemma Wrap(a: nat, b: nat, d: nat)
    requires b == a % N.WORD
    ensures (b * 10 + d) % N.WORD == (a * 10 + d) % N.WORD
  {
    var q := a / N.WORD;
    assert a * 10 + d == b * 10 + d + N.WORD * (10 * q);
    Periodic(b * 10 + d, 10 * q);
  }

  lemma {:induction false} Periodic(x: nat, k: nat)
    ensures (x + N.WORD * k) % N.WORD == x % N.WORD
  {
    if k == 0 {
    } else {
      Periodic(x, k - 1);
      assert x + N.WORD * k == x + N.WORD * (k - 1) + N.WORD;
    }
  }

  /** The piece [lo, hi) of the input is stored as the next number, skipped or refused. */
  method StorePiece(input: CString, lo: nat, hi: nat, outArray: array<Word>, n: nat, ghost rest: seq<string>)
    returns (rc: int, count: nat)
    requires lo <= hi <= |input| && outArray.Length == FREQ_LIST_NUM && n <= FREQ_LIST_NUM
    modifies outArray
    ensures n <= count <= FREQ_LIST_NUM && rc in {0, -2, -3}
    ensures old(Collect(outArray[..n], [input[lo..hi]] + rest)) ==
            if rc == 0 then Collect(outArray[..count], rest) else if rc == -2 then TooMany else NotANumber
  {
    hide Trim, IsNumber, Value;
    ghost var piece, got := Trim(input[lo..hi]), outArray[..n];
    CollectOne(got, input[lo..hi], rest);
    hide Collect;
    var segStart, segEnd := Bounds(input, lo, hi);
    if segStart == segEnd {
      assert piece == "";
      return 0, n;
    }
    assert piece != "";
    if n >= FREQ_LIST_NUM {
      return -2, n;
    }
    var num := StrToInt(input[segStart..segEnd]);
    if num == -1 {
      return -3, n;
    }
    outArray[n] := num;
    assert outArray[..n + 1] == got + [num];
    return 0, n + 1;
  }

  lemma CollectOne(got: seq<Word>, raw: string, rest: seq<string>)
    ensures var piece := Trim(raw);
            Collect(got, [raw] + rest) ==
            if piece == "" then Collect(got, rest)
            else if |got| >= FREQ_LIST_NUM then TooMany
            else if !IsNumber(piece) then NotANumber
            else Collect(got + [Value(piece)], rest)
  {
    hide Trim, IsNumber, Value;
    assert ([raw] + rest)[1..] == rest;
  }

  /** `str_to_int_array` */
  method StrToIntArray(input: CString, outArray: array<Word>) returns (rc: int, count: nat)
    requires outArray.Length == FREQ_LIST_NUM
    modifies outArray
    ensures count <= FREQ_LIST_NUM
    ensures rc == match Parse(input)
                  case Nothing => -1
                  case TooMany => -2
                  case NotANumber => -3
                  case Numbers(_) => 0
    ensures rc == 0 ==> Parse(input) == Numbers(outArray[..count])
  {
    hide Trim, Split, Collect;
    count := 0;
    var start, end := Bounds(input, 0, |input|);
    assert input[0..|input|] == input;
    if start == end {
      return -1, 0;
    }
    ghost var all := Collect([], Split(input[start..end]));
    assert outArray[..0] == [] && all == Parse(input);
    var numStart, i := start, start;
    while i <= end
      invariant numStart <= i <= end + 1 && count <= FREQ_LIST_NUM && (i <= end ==> numStart <= end)
      invariant forall j :: numStart <= j < i && j < end ==> input[j] != ','
      invariant all == Collect(outArray[..count], if i > end then [] else Split(input[numStart..end]))
      decreases end + 1 - i
    {
      if i == end || input[i] == ',' {
        ghost var rest := if i == end then [] else Split(input[i + 1..end]);
        NextPiece(input, numStart, i, end);
        rc, count := StorePiece(input, numStart, i, outArray, count, rest);
        if rc != 0 {
          return;
        }
        numStart := i + 1;
      }
      i := i + 1;
    }
    NoneLeft(outArray[..count]);
    return 0, count;
  }

  lemma NoneLeft(got: seq<Word>)
    ensures Collect(got, []) == Numbers(got)
  {
  }

  lemma NextPiece(s: string, lo: nat, i: nat, hi: nat)
    requires lo <= i <= hi <= |s| && (i < hi ==> s[i] == ',') && forall j :: lo <= j < i ==> s[j] != ','
    ensures Split(s[lo..hi]) == [s[lo..i]] + if i == hi then [] else Split(s[i + 1..hi])
  {
    hide Split;
    PieceEnds(s[lo..hi], i - lo);
    if i < hi { assert s[lo..hi][i - lo + 1..] == s[i + 1..hi]; }
    assert s[lo..hi][..i - lo] == s[lo..i];
  }

  /** The first comma ends the first piece. */
  lemma PieceEnds(s: string, k: nat)
    requires k <= |s| && (k < |s| ==> s[k] == ',') && forall i :: 0 <= i < k ==> s[i] != ','
    ensures k == |s| ==> Split(s) == [s]
    ensures k < |s| ==> Split(s) == [s[..k]] + Split(s[k + 1..])
  {
    hide Split;
    SplitStep(s);
    CommaAt(s, k);
  }

  lemma SplitStep(s: string)
    ensures Split(s) == if FirstComma(s) == |s| then [s] else [s[..FirstComma(s)]] + Split(s[FirstComma(s) + 1..])
  {
    hide FirstComma;
  }

  lemma CommaAt(s: string, k: nat)
    requires k <= |s| && (k < |s| ==> s[k] == ',') && forall i :: 0 <= i < k ==> s[i] != ','
    ensures FirstComma(s) == k
  {
    hide FirstComma;
  }

  // ----- printing and parsing -----

  function Print(v: Word): string {
    N.Digits(v, 10, false)
  }

  /** The numbers in decimal, with commas in between. */
  function Join(vs: seq<Word>): string
    requires vs != []
  {
    if |vs| == 1 then Print(vs[0]) else Print(vs[0]) + "," + Join(vs[1..])
  }

  function Printed(vs: seq<Word>): seq<string> {
    if vs == [] then [] else [Print(vs[0])] + Printed(vs[1..])
  }

  lemma NoSpaces(s: string)
    requires s != "" && !IsSpace(s[0]) && !IsSpace(s[|s| - 1])
    ensures Trim(s) == s
  {
  }

  lemma PrintDigits(v: Word)
    ensures AllDigits(Print(v)) && Print(v) != "" && N.Read(Print(v), 10) == v && Trim(Print(v)) == Print(v)
  {
    N.DecimalDigits(v, false);
    N.DigitsRead(v, 10, false);
    NoSpaces(Print(v));
  }

  lemma {:induction false} JoinEnds(vs: seq<Word>)
    requires vs != []
    ensures var s := Join(vs); s != "" && !IsSpace(s[0]) && !IsSpace(s[|s| - 1])
    decreases |vs|
  {
    PrintDigits(vs[0]);
    if |vs| == 1 {
    } else {
      JoinEnds(vs[1..]);
    }
  }

  lemma {:induction false} SplitJoin(vs: seq<Word>)
    requires vs != []
    ensures Split(Join(vs)) == Printed(vs)
    decreases |vs|
  {
    hide Split, Print;
    var a := Print(vs[0]);
    PrintDigits(vs[0]);
    if |vs| == 1 {
      PieceEnds(a, |a|);
      assert Printed(vs) == [a] by { assert vs[1..] == []; }
    } else {
      var rest := Join(vs[1..]);
      PieceEnds(Join(vs), |a|);
      assert Join(vs)[..|a|] == a && Join(vs)[|a| + 1..] == rest;
      SplitJoin(vs[1..]);
    }
  }

  lemma {:induction false} CollectPrinted(got: seq<Word>, vs: seq<Word>)
    requires |got| + |vs| <= FREQ_LIST_NUM && forall i :: 0 <= i < |vs| ==> vs[i] < N.WORD - 1
    ensures Collect(got, Printed(vs)) == Numbers(got + vs)
    decreases |vs|
  {
    hide Print;
    if vs == [] {
      assert got + vs == got;
    } else {
      PrintDigits(vs[0]);
      CollectOne(got, Print(vs[0]), Printed(vs[1..]));
      assert vs[0] == Value(Print(vs[0])) && IsNumber(Print(vs[0]));
      CollectPrinted(got + [vs[0]], vs[1..]);
      assert got + [vs[0]] + vs[1..] == got + vs;
    }
  }

  /** Parsing undoes printing, for up to sixteen numbers below 2^32 - 1. */
  lemma ParseUndoesJoin(vs: seq<Word>)
    requires 1 <= |vs| <= FREQ_LIST_NUM && forall i :: 0 <= i < |vs| ==> vs[i] < N.WORD - 1
    ensures Parse(Join(vs)) == Numbers(vs)
  {
    hide Split, Collect, Trim, Join, Printed, IsSpace;
    JoinEnds(vs);
    NoSpaces(Join(vs));
    SplitJoin(vs);
    CollectPrinted([], vs);
    assert [] + vs == vs;
  }

  // ----- what is taken for a list -----

  /** The pieces with commas in between. */
  function Glue(pieces: seq<string>): string
    requires pieces != []
  {
    if |pieces| == 1 then pieces[0] else pieces[0] + "," + Glue(pieces[1..])
  }

  /** Splitting cuts at every comma and loses nothing. */
  lemma {:induction false} SplitIs(s: string)
    ensures Split(s) != [] && Glue(Split(s)) == s
    ensures forall i :: 0 <= i < |Split(s)| ==> ',' !in Split(s)[i]
    decreases |s|
  {
    hide Split;
    var k := FirstComma(s);
    PieceEnds(s, k);
    if k == |s| {
    } else {
      var rest := s[k + 1..];
      SplitIs(rest);
      assert Split(s)[0] == s[..k] && Split(s)[1..] == Split(rest);
      assert s == s[..k] + "," + rest;
    }
  }

  /** The pieces that are not blank, without white space around them. */
  function Words(pieces: seq<string>): seq<string> {
    if pieces == [] then []
    else (if Trim(pieces[0]) == "" then [] else [Trim(pieces[0])]) + Words(pieces[1..])
  }

  function Values(words: seq<string>): seq<Word> {
    seq(|words|, i requires 0 <= i < |words| => Value(words[i]))
  }

  /** Among the first `n` words there is one that is no number. */
  ghost predicate Bad(words: seq<string>, n: int) {
    exists i :: 0 <= i < n && i < |words| && !IsNumber(words[i])
  }

  lemma BadStep(word: string, words: seq<string>, n: int)
    requires n > 0
    ensures Bad([word] + words, n) <==> !IsNumber(word) || Bad(words, n - 1)
  {
    hide IsNumber;
    var all := [word] + words;
    assert all[0] == word && forall i :: 0 <= i < |words| ==> all[i + 1] == words[i];
    if Bad(words, n - 1) {
      var i :| 0 <= i < n - 1 && i < |words| && !IsNumber(words[i]);
      assert !IsNumber(all[i + 1]);
    }
  }

  /** The first sixteen words decide whether it is a list of numbers, and there must not be more. */
  lemma {:induction false} CollectIs(got: seq<Word>, pieces: seq<string>)
    requires |got| <= FREQ_LIST_NUM
    ensures var words, room := Words(pieces), FREQ_LIST_NUM - |got|;
            Collect(got, pieces) == if Bad(words, room) then NotANumber
                                    else if |words| > room then TooMany
                                    else Numbers(got + Values(words))
    decreases |pieces|
  {
    hide Trim, IsNumber, Value, Bad;
    var words, room := Words(pieces), FREQ_LIST_NUM - |got|;
    if pieces == [] {
      NoneBad(room);
      assert got + Values([]) == got;
    } else {
      var word, rest := Trim(pieces[0]), pieces[1..];
      assert pieces == [pieces[0]] + rest;
      CollectOne(got, pieces[0], rest);
      if word == "" {
        assert words == Words(rest);
        CollectIs(got, rest);
      } else if room == 0 {
        NoneRoom(words);
      } else {
        BadStep(word, Words(rest), room);
        if IsNumber(word) {
          CollectIs(got + [Value(word)], rest);
          assert got + Values(words) == got + [Value(word)] + Values(Words(rest));
        }
      }
    }
  }

  lemma NoneBad(n: int)
    ensures !Bad([], n)
  {
  }

  lemma NoneRoom(words: seq<string>)
    ensures !Bad(words, 0)
  {
  }

  // ----- when nothing is taken for a list -----

  ghost predicate Blank(s: string) {
    forall i :: 0 <= i < |s| ==> IsSpace(s[i])
  }

  /** White space and commas only. */
  ghost predicate Bare(s: string) {
    forall i :: 0 <= i < |s| ==> IsSpace(s[i]) || s[i] == ','
  }

  lemma {:induction false} LeftPart(s: string) returns (n: nat)
    ensures n <= |s| && TrimLeft(s) == s[n..] && Blank(s[..n]) && (n < |s| ==> !IsSpace(s[n]))
  {
    hide IsSpace;
    LeftStep(s);
    if s != "" && IsSpace(s[0]) {
      var m := LeftPart(s[1..]);
      n := m + 1;
      assert s[1..][m..] == s[n..];
      assert forall i :: 0 < i < n ==> s[i] == s[1..][..m][i - 1];
    } else {
      n := 0;
      assert s[0..] == s;
    }
  }

  lemma {:induction false} RightPart(s: string) returns (n: nat)
    ensures n <= |s| && TrimRight(s) == s[..n] && Blank(s[n..]) && (n > 0 ==> !IsSpace(s[n - 1]))
  {
    hide IsSpace;
    RightStep(s);
    if s != "" && IsSpace(s[|s| - 1]) {
      var t := s[..|s| - 1];
      n := RightPart(t);
      assert t[..n] == s[..n];
      assert forall i :: n <= i < |t| ==> s[i] == t[n..][i - n];
    } else {
      n := |s|;
      assert s[..n] == s;
    }
  }

  /** Trimming takes white space off, and only a blank string vanishes. */
  lemma TrimPart(s: string)
    ensures Trim(s) == "" <==> Blank(s)
    ensures Bare(Trim(s)) <==> Bare(s)
    ensures ',' in Trim(s) <==> ',' in s
  {
    hide IsSpace, TrimLeft, TrimRight;
    CommaIsNoSpace();
    var a := LeftPart(s);
    var b := RightPart(s[a..]);
    var t := s[a..][..b];
    assert s == s[..a] + t + s[a..][b..];
    if b > 0 { assert t[b - 1] == s[a + b - 1]; }
    if Bare(s) {
      forall i | 0 <= i < |t| ensures IsSpace(t[i]) || t[i] == ',' {
        assert t[i] == s[a + i];
      }
    }
  }

  lemma CommaIsNoSpace()
    ensures !IsSpace(',')
  {
  }

  ghost predicate AllBlank(pieces: seq<string>) {
    forall i :: 0 <= i < |pieces| ==> Blank(pieces[i])
  }

  lemma {:induction false} SplitBlank(s: string)
    ensures AllBlank(Split(s)) <==> Bare(s)
    decreases |s|
  {
    hide IsSpace, Split, Blank, Bare, AllBlank;
    var k := FirstComma(s);
    PieceEnds(s, k);
    var first := s[..k];
    BareOrBlank(first);
    if k == |s| {
      assert first == s && [s] == [first] + [];
      BlankCons(first, []);
    } else {
      var rest := s[k + 1..];
      SplitBlank(rest);
      BlankCons(first, Split(rest));
      assert s == first + [','] + rest;
      BareParts(first, rest);
    }
  }

  lemma BlankCons(piece: string, pieces: seq<string>)
    ensures AllBlank([piece] + pieces) <==> Blank(piece) && AllBlank(pieces)
    ensures AllBlank([])
  {
    hide Blank;
    var all := [piece] + pieces;
    assert all[0] == piece && forall i :: 0 <= i < |pieces| ==> all[i + 1] == pieces[i];
  }

  lemma BareParts(a: string, b: string)
    ensures Bare(a + [','] + b) <==> Bare(a) && Bare(b)
  {
    hide IsSpace;
    var s := a + [','] + b;
    assert forall i :: 0 <= i < |a| ==> s[i] == a[i];
    assert forall i :: 0 <= i < |b| ==> s[|a| + 1 + i] == b[i];
  }

  /** Nothing is collected if and only if every piece is blank. */
  lemma {:induction false} CollectNothing(got: seq<Word>, pieces: seq<string>)
    requires |got| <= FREQ_LIST_NUM
    ensures Collect(got, pieces) == Numbers(got) <==> AllBlank(pieces)
    decreases |pieces|
  {
    hide Trim, IsNumber, Value, Blank, AllBlank;
    if pieces == [] {
      BlankCons("", []);
    } else {
      var rest := pieces[1..];
      assert pieces == [pieces[0]] + rest;
      TrimPart(pieces[0]);
      CollectOne(got, pieces[0], rest);
      BlankCons(pieces[0], rest);
      if Trim(pieces[0]) == "" {
        CollectNothing(got, rest);
      }
    }
  }

  /** An empty list is accepted if and only if the input is made of white space and commas, with at least
      one comma. */
  lemma CommasAlone(s: string)
    ensures Parse(s) == Numbers([]) <==> ',' in s && Bare(s)
  {
    hide Trim, Split, Collect, Blank, Bare, IsSpace, AllBlank;
    TrimPart(s);
    BareOrBlank(s);
    SplitBlank(Trim(s));
    CollectNothing([], Split(Trim(s)));
  }

  lemma BareOrBlank(s: string)
    ensures Blank(s) <==> Bare(s) && ',' !in s
  {
    CommaIsNoSpace();
  }

  /** So it happens: a comma. */
  lemma OneComma()
    ensures Parse(",") == Numbers([])
  {
    CommasAlone(",");
  }

  // ----- bands -----

  const BW_HZ: nat := 200_000
  const BANDS: nat := 8

  function Low(i: nat): nat
    requires i < BANDS
  {
    [223_000_000, 400_000_000, 433_050_000, 470_000_000, 779_000_000, 840_000_000, 863_000_000, 902_000_000][i]
  }

  function High(i: nat): nat
    requires i < BANDS
  {
    [235_000_000, 440_000_000, 434_790_000, 510_000_000, 787_000_000, 845_000_000, 870_000_000, 928_000_000][i]
  }

  function MaxNum(i: nat): nat {
    if i >= BANDS then 0 else [60, 200, 8, 200, 40, 25, 35, 130][i]
  }

  predicate InBand(freq: nat, i: nat)
    requires i < BANDS
  {
    Low(i) <= freq <= High(i)
  }

  /** The band of a frequency: the last one of the table that contains it. */
  ghost predicate BandOf(freq: nat, i: nat) {
    i < BANDS && InBand(freq, i) && forall j :: i < j < BANDS ==> !InBand(freq, j)
  }

  ghost predicate NoBand(freq: nat) {
    forall j :: 0 <= j < BANDS ==> !InBand(freq, j)
  }

  function Index(freq: nat, i: nat): nat
    requires i < BANDS && InBand(freq, i)
  {
    (freq - Low(i)) / BW_HZ
  }

  function IndexToFreq(index: nat, base: nat): nat {
    index * BW_HZ + base
  }

  /** The index is within the limit of its band, so it is never taken for the end mark, and stands
      for the highest grid frequency that is not above the one asked for. */
  lemma IndexIsRight(freq: nat, i: nat)
    requires i < BANDS && InBand(freq, i)
    ensures Index(freq, i) <= MaxNum(i) < 0xff
    ensures IndexToFreq(Index(freq, i), Low(i)) <= freq < IndexToFreq(Index(freq, i) + 1, Low(i))
  {
    assert i == 0 || i == 1 || i == 2 || i == 3 || i == 4 || i == 5 || i == 6 || i == 7;
  }

  /** The search from the last band down.  Without a band the base is 1 and the other results stay. */
  method BaseFreq(freq: Word, spectrumIdx: nat, actualFreq: Word) returns (base: nat, idx: nat, actual: Word)
    ensures NoBand(freq) ==> base == 1 && idx == spectrumIdx && actual == actualFreq
    ensures !NoBand(freq) ==>
              && idx < BANDS && BandOf(freq, idx) && InBand(freq, idx) && base == Low(idx)
              && actual == IndexToFreq(Index(freq, idx), base)
  {
    hide Low, High;
    var i := BANDS as int - 1;
    while i >= 0
      invariant -1 <= i < BANDS && forall j :: i < j < BANDS ==> !InBand(freq, j)
    {
      if Low(i) <= freq <= High(i) {
        assert InBand(freq, i);
        base := Low(i);
        var diff := freq - base;
        if diff % BW_HZ != 0 {
          actual := base + diff / BW_HZ * BW_HZ;
        } else {
          actual := freq;
        }
        return base, i, actual;
      }
      i := i - 1;
    }
    return 1, spectrumIdx, actualFreq;
  }

  ghost predicate AllIn(values: seq<Word>, n: nat, band: nat)
    requires n <= |values|
  {
    forall i :: 0 <= i < n ==> BandOf(values[i], band)
  }

  lemma OneBand(freq: nat, i: nat, j: nat)
    requires BandOf(freq, i) && BandOf(freq, j)
    ensures i == j
  {
  }

  lemma LowsDiffer(i: nat, j: nat)
    requires i < BANDS && j < BANDS
    ensures Low(i) == Low(j) <==> i == j
    ensures Low(i) > 1
  {
    assert i == 0 || i == 1 || i == 2 || i == 3 || i == 4 || i == 5 || i == 6 || i == 7;
    assert j == 0 || j == 1 || j == 2 || j == 3 || j == 4 || j == 5 || j == 6 || j == 7;
  }

  /** What is wrong with a list of numbers, if anything: 2 when a later one is outside the band of
      the first, 3 when the first has no band. */
  ghost function Verdict(values: seq<Word>): int {
    if values == [] then 0
    else if NoBand(values[0]) then 3
    else if exists b: nat :: b < BANDS && AllIn(values, |values|, b) then 0
    else 2
  }

  /** A list is in order if and only if all its numbers are taken for one band; if not, the answer tells
      whether the first is outside all bands. */
  lemma VerdictIs(values: seq<Word>)
    ensures Verdict(values) == 0 <==> values == [] || exists b: nat :: b < BANDS && AllIn(values, |values|, b)
    ensures Verdict(values) == 3 <==> values != [] && NoBand(values[0])
    ensures Verdict(values) in {0, 2, 3}
  {
    hide Low, High;
  }

  /** The index as it is stored: unsigned arithmetic, cut to a byte. */
  function Stored(actual: Word, base: nat): nat {
    (actual - base) % N.WORD / BW_HZ % 256
  }

  lemma StoredIsIndex(freq: Word, idx: nat, base: nat, actual: Word)
    requires BandOf(freq, idx) && base == Low(idx) && actual == IndexToFreq(Index(freq, idx), base)
    ensures Stored(actual, base) == Index(freq, idx) <= MaxNum(idx)
  {
    IndexIsRight(freq, idx);
    hide Low, High, MaxNum;
    assert actual - base == Index(freq, idx) * BW_HZ;
  }

  /** A first frequency without a band: the difference wraps, and the byte is beyond the limit of band 0. */
  lemma NoIndex()
    ensures Stored(0, 1) == 226 > MaxNum(0)
  {
  }

  lemma BaseFacts(freq: Word, idx: nat, base: nat, band: nat)
    requires if NoBand(freq) then base == 1 else BandOf(freq, idx) && base == Low(idx)
    ensures band < BANDS ==> (base == Low(band) <==> BandOf(freq, band))
    ensures band < BANDS && BandOf(freq, band) ==> !NoBand(freq) && idx == band
    ensures base > 0
  {
    if band < BANDS {
      LowsDiffer(band, band);
      if !NoBand(freq) {
        LowsDiffer(idx, band);
        if BandOf(freq, band) { OneBand(freq, idx, band); }
      }
    }
  }

  lemma AnotherBand(vs: seq<Word>, i: nat, band: nat)
    requires 0 < i < |vs| && band < BANDS && AllIn(vs, i, band) && !NoBand(vs[0]) && !BandOf(vs[i], band)
    ensures Verdict(vs) == 2
  {
    forall b: nat | b < BANDS ensures !AllIn(vs, |vs|, b) {
      if AllIn(vs, |vs|, b) {
        OneBand(vs[0], b, band);
        assert false;
      }
    }
  }

  lemma OneVerdict(vs: seq<Word>, band: nat)
    requires vs != [] ==> band < BANDS && AllIn(vs, |vs|, band) && !NoBand(vs[0])
    ensures Verdict(vs) == 0
  {
  }

  /** A frequency within a band is taken for that band, but for the band that lies inside band 1. */
  lemma TakenFor(freq: nat, b: nat)
    requires b < BANDS && InBand(freq, b)
    ensures BandOf(freq, if b == 1 && InBand(freq, 2) then 2 else b) && !NoBand(freq)
  {
    assert b == 0 || b == 1 || b == 2 || b == 3 || b == 4 || b == 5 || b == 6 || b == 7;
  }

  /** A list within one band is accepted if and only if that band is not band 1, or all of the list lies in
      band 2 inside it, or none of it does. */
  lemma BandInsideBand(vs: seq<Word>, b: nat)
    requires vs != [] && b < BANDS && forall i :: 0 <= i < |vs| ==> InBand(vs[i], b)
    ensures Verdict(vs) == 0 <==>
            || b != 1
            || (forall i :: 0 <= i < |vs| ==> InBand(vs[i], 2))
            || (forall i :: 0 <= i < |vs| ==> !InBand(vs[i], 2))
  {
    hide Low, High, BandOf, NoBand;
    forall i | 0 <= i < |vs| ensures BandOf(vs[i], if b == 1 && InBand(vs[i], 2) then 2 else b) && !NoBand(vs[i]) {
      TakenFor(vs[i], b);
    }
    if b != 1 || forall i :: 0 <= i < |vs| ==> !InBand(vs[i], 2) {
      assert AllIn(vs, |vs|, b);
    } else if forall i :: 0 <= i < |vs| ==> InBand(vs[i], 2) {
      assert AllIn(vs, |vs|, 2);
    } else {
      var i :| 0 <= i < |vs| && InBand(vs[i], 2);
      var j :| 0 <= j < |vs| && !InBand(vs[j], 2);
      forall c: nat | c < BANDS ensures !AllIn(vs, |vs|, c) {
        NotBoth(vs, i, j, c);
      }
    }
  }

  lemma NotBoth(vs: seq<Word>, i: nat, j: nat, c: nat)
    requires i < |vs| && j < |vs| && c < BANDS && BandOf(vs[i], 2) && BandOf(vs[j], 1)
    ensures !AllIn(vs, |vs|, c)
  {
    if BandOf(vs[i], c) { OneBand(vs[i], c, 2); }
  }

  /** So it happens: 433 and 434 MHz. */
  lemma TwoInBandOne()
    ensures InBand(433_000_000, 1) && InBand(434_000_000, 1) && Verdict([433_000_000, 434_000_000]) == 2
  {
    var vs := [433_000_000, 434_000_000];
    BandInsideBand(vs, 1);
    TakenFor(433_000_000, 1);
    assert !InBand(vs[0], 2) && InBand(vs[1], 2);
  }

  /** `at_get_freq_list` */
  method GetFreqList(freqStr: CString, freqList: array<nat>)
    returns (rc: int, freqNum: nat, spectrumIdx: nat, baseFreq: nat)
    requires freqList.Length == FREQ_LIST_NUM
    modifies freqList
    ensures !Parse(freqStr).Numbers? ==> rc == 1
    ensures Parse(freqStr).Numbers? ==> rc == Verdict(Parse(freqStr).values)
    ensures rc == 0 ==>
              var vs := Parse(freqStr).values;
              && freqNum == |vs| <= FREQ_LIST_NUM
              && (vs != [] ==> AllIn(vs, |vs|, spectrumIdx) && baseFreq == Low(spectrumIdx))
              && (forall i :: 0 <= i < |vs| ==>
                    && InBand(vs[i], spectrumIdx)
                    && freqList[i] == Index(vs[i], spectrumIdx) <= MaxNum(spectrumIdx))
              && (|vs| < FREQ_LIST_NUM ==> freqList[|vs|] == 0xff)
              && (vs == [] ==> spectrumIdx == 0 && baseFreq == 0)
  {
    hide Parse, Low, High, MaxNum, BandOf, NoBand;
    freqNum, spectrumIdx, baseFreq := 0, 0, 0;
    var freqArray := new Word[FREQ_LIST_NUM](_ => 0);
    var failed, count := StrToIntArray(freqStr, freqArray);
    if failed != 0 || count > FREQ_LIST_NUM {
      return 1, 0, 0, 0;
    }
    ghost var vs := Parse(freqStr).values;
    var base: nat, last: nat, idx: nat := 0, 0, 0;
    var actual: Word := 0;
    var i := 0;
    while i < count
      invariant i <= count == |vs| && freqArray[..count] == vs
      invariant if i == 0 then base == last == idx == actual == 0
                else idx < BANDS && base == last == Low(idx) && last > 0 && AllIn(vs, i, idx) && !NoBand(vs[0])
      invariant forall j :: 0 <= j < i ==> InBand(vs[j], idx) && freqList[j] == Index(vs[j], idx) <= MaxNum(idx)
    {
      assert freqArray[i] == vs[i];
      ghost var band := idx;
      base, idx, actual := BaseFreq(freqArray[i], idx, actual);
      BaseFacts(freqArray[i], idx, base, band);
      if last > 0 && base != last {
        AnotherBand(vs, i, band);
        return 2, 0, 0, 0;
      }
      last := base;
      freqList[i] := Stored(actual, base);
      if NoBand(vs[i]) {
        NoIndex();
      } else {
        StoredIsIndex(vs[i], idx, base, actual);
      }
      if freqList[i] > MaxNum(idx) {
        return 3, 0, 0, 0;
      }
      i := i + 1;
    }
    OneVerdict(vs, idx);
    if count < FREQ_LIST_NUM {
      freqList[count] := 0xff;
    }
    return 0, count, idx, base;
  }
}
