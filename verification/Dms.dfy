/** Printing an angle in degrees, minutes and seconds and reading it back. */
module Dms {
  import opened CStrings
  import opened Decimals
  import opened Reals

  /** Radians per degree, minute and second as the reader has them. */
  function Vm(n: nat): real
    requires n < 3
  {
    if n == 0 then 0.0174532925199433
    else if n == 1 then 0.0002908882086657216
    else 0.0000048481368110953599
  }

  // ----- The text of an angle

  /** Style of the printer: digits after the point and whether fields have fixed width. */
  datatype Style = Style(fract: nat, wide: bool)

  function Conv(fract: nat): real {
    180.0 * 3600.0 * Pow10(fract) as real / PI
  }

  /** The angle in units of the last printed digit of the seconds. */
  function Units(r: real, fract: nat): (u: nat) {
    UnitsNonNegative(r, fract);
    (Abs(r) * Conv(fract) + 0.5).Floor
  }

  lemma UnitsNonNegative(r: real, fract: nat)
    ensures Abs(r) * Conv(fract) >= 0.0 && Conv(fract) > 0.0
  {
    var (a, c) := (Abs(r), Conv(fract));
    assert a >= 0.0 && c > 0.0 ==> a * c >= 0.0;
  }

  datatype Fields = Fields(deg: nat, min: nat, sec: nat)

  /** Degrees, minutes and units of seconds. */
  function Split(u: nat, fract: nat): Fields {
    var res := Pow10(fract);
    var m := Quotient(u, 60 * res);
    Fields(m / 60, m % 60, Remainder(u, 60 * res))
  }

  /** The seconds with all their digits. */
  function SecText(sec: nat, style: Style): string {
    var res := Pow10(style.fract);
    var whole := if style.wide then Padded(Quotient(sec, res), 2) else Digits(Quotient(sec, res));
    if style.fract == 0 then whole else whole + "." + Padded(Remainder(sec, res), style.fract)
  }

  function DropZeros(s: string): (t: string)
    ensures t <= s
  {
    if |s| > 0 && s[|s|-1] == '0' then DropZeros(s[..|s|-1]) else s
  }

  /** The seconds as the narrow style leaves them: without trailing zeros and without a bare point. */
  function Stripped(s: string): (t: string)
    ensures t <= s
  {
    var t := DropZeros(s);
    if |t| > 0 && t[|t|-1] == '.' then t[..|t|-1] else t
  }

  function Letter(c: char): string {
    if c == '\0' then "" else [c]
  }

  /** The fields and the trailing letter; zero fields at the end are left out in the narrow style. */
  function Body(f: Fields, style: Style, letter: char): string {
    if style.wide then
      Digits(f.deg) + "d" + Padded(f.min, 2) + "'" + SecText(f.sec, style) + "\"" + Letter(letter)
    else if f.sec != 0 then
      Digits(f.deg) + "d" + Digits(f.min) + "'" + Stripped(SecText(f.sec, style)) + "\"" + Letter(letter)
    else if f.min != 0 then Digits(f.deg) + "d" + Digits(f.min) + "'" + Letter(letter)
    else Digits(f.deg) + "d" + Letter(letter)
  }

  /** The text of r: a letter for the sign when pos is one, otherwise a minus sign. */
  function Text(r: real, style: Style, pos: char, neg: char): string {
    var f := Split(Units(r, style.fract), style.fract);
    if r >= 0.0 then Body(f, style, pos)
    else if pos == '\0' then "-" + Body(f, style, '\0')
    else Body(f, style, neg)
  }

  // ----- Reading an angle

  datatype Reading = Radians(v: real, rest: string) | BadFormat

  predicate IsSpace(c: char) {
    c == ' ' || ('\t' <= c <= '\r')
  }

  predicate IsGraph(c: char) {
    '!' <= c <= '~'
  }

  predicate IsSign(c: char) {
    c == '+' || c == '-'
  }

  const MAX_WORK: nat := 64

  function SkipSpaces(s: string): string {
    if |s| > 0 && IsSpace(s[0]) then SkipSpaces(s[1..]) else s
  }

  /** The printable start of s, n characters at most. */
  function Word(s: string, n: nat): string {
    if n > 0 && |s| > 0 && IsGraph(s[0]) then [s[0]] + Word(s[1..], n - 1) else []
  }

  predicate StartsNumber(s: string) {
    |s| > 0 && (IsDigit(s[0]) || s[0] == '.')
  }

  /** The field that the mark c closes. */
  function Mark(c: char): (n: nat) {
    if c == 'D' || c == 'd' then 0 else if c == '\'' then 1 else if c == '"' then 2 else 3
  }

  /** Reads marked numbers from field nl on, adding to v. */
  function ReadFields(s: string, nl: nat, v: real): Reading
    decreases 3 - nl
  {
    if nl >= 3 || !StartsNumber(s) then Radians(v, s)
    else
      var (tv, t) := Strtod(s);
      if |t| > 0 && Mark(t[0]) < 3 then
        var n := Mark(t[0]);
        if n < nl then BadFormat else ReadFields(t[1..], n + 1, v + tv * Vm(n))
      else if |t| > 0 && (t[0] == 'r' || t[0] == 'R') then
        if nl != 0 then BadFormat else Radians(tv, t[1..])
      else Radians(v + tv * Vm(nl), t)
  }

  predicate PositiveLetter(c: char) {
    c in "NnEe"
  }

  predicate NegativeLetter(c: char) {
    c in "SsWw"
  }

  /** Applies the sign; a letter overrules a leading sign. */
  function Finish(negative: bool, r: Reading): Reading {
    if r.BadFormat? then r
    else if |r.rest| > 0 && PositiveLetter(r.rest[0]) then Radians(r.v, r.rest[1..])
    else if |r.rest| > 0 && NegativeLetter(r.rest[0]) then Radians(-r.v, r.rest[1..])
    else if negative then Radians(-r.v, r.rest)
    else r
  }

  /** The reading of the word w. */
  function ReadWord(w: string): Reading {
    if |w| > 0 && IsSign(w[0]) then Finish(w[0] == '-', ReadFields(w[1..], 0, 0.0))
    else Finish(false, ReadFields(w, 0, 0.0))
  }

  /** The reading of the text s; rest is what is left of its first word. */
  function Read(s: string): Reading {
    ReadWord(Word(SkipSpaces(s), MAX_WORK - 1))
  }

  // ----- Round trip

  /** The value of the fields with the reader's constants. */
  function FieldsValue(f: Fields, fract: nat): real {
    f.deg as real * Vm(0) + f.min as real * Vm(1) + f.sec as real / Pow10(fract) as real * Vm(2)
  }

  /** Whether stripping zeros leaves the seconds alone: without digits after the point it would also
      strip zeros before it. */
  predicate StripSafe(f: Fields, style: Style) {
    style.fract > 0 || style.wide || f.sec == 0 || f.sec % 10 != 0
  }

  /** v1 is v with a field of value tv added. */
  ghost predicate Adds(v1: real, v: real, tv: real, n: nat)
    requires n < 3
  {
    v1 == v + tv * Vm(n)
  }

  lemma FieldRead(s: string, mark: char, rest: string, nl: nat, v: real, v1: real)
    requires |s| > 0 && AllDigits(s) && nl <= Mark(mark) < 3 && Adds(v1, v, NatValue(s) as real, Mark(mark))
    ensures ReadFields(s + [mark] + rest, nl, v) == ReadFields(rest, Mark(mark) + 1, v1)
  {
    hide ReadFields, NatValue, Adds, Strtod;
    assert s + [mark] + rest == s + ([mark] + rest);
    StrtodWhole(s, [mark] + rest);
    ReadMarked(s + [mark] + rest, NatValue(s) as real, mark, rest, nl, v, v1);
  }

  /** A number closed by a mark is added and reading goes on behind the mark. */
  lemma ReadMarked(s: string, tv: real, mark: char, rest: string, nl: nat, v: real, v1: real)
    requires StartsNumber(s) && Strtod(s) == (tv, [mark] + rest) && nl <= Mark(mark) < 3
    requires Adds(v1, v, tv, Mark(mark))
    ensures ReadFields(s, nl, v) == ReadFields(rest, Mark(mark) + 1, v1)
  {
    hide Strtod, Vm;
    assert ([mark] + rest)[1..] == rest;
  }

  lemma {:induction false} DropZerosConcat(a: string, b: string)
    ensures DropZeros(a + b) == if |DropZeros(b)| == 0 then DropZeros(a) else a + DropZeros(b)
    decreases |b|
  {
    if |b| > 0 && b[|b|-1] == '0' {
      assert (a + b)[..|a + b|-1] == a + b[..|b|-1];
      DropZerosConcat(a, b[..|b|-1]);
    } else if |b| == 0 {
      assert a + b == a;
    }
  }

  /** Zeros at the end of the digits after the point have no value. */
  lemma {:induction false} DropZerosFrac(s: string)
    ensures FracValue(DropZeros(s)) == FracValue(s)
  {
    if |s| > 0 && s[|s|-1] == '0' {
      var t := s[..|s|-1];
      DropZerosFrac(t);
      FracValueSnoc(t, 0);
      assert s == t + [DigitChar(0)];
    }
  }

  /** What is left after stripping whole.frac. */
  lemma StrippedPoint(whole: string, frac: string)
    requires AllDigits(frac)
    ensures Stripped(whole + "." + frac)
         == if |DropZeros(frac)| == 0 then whole else whole + "." + DropZeros(frac)
  {
    var a := whole + ".";
    DropZerosConcat(a, frac);
    assert DropZeros(a) == a && a[..|a|-1] == whole;
    var f := DropZeros(frac);
    if |f| > 0 {
      assert (a + f)[|a + f|-1] == f[|f|-1];
      assert f <= frac && f[|f|-1] == frac[|f|-1];
    }
  }

  // ----- The seconds

  /** Seconds text t, closed by a double quote, reads as tv. */
  ghost predicate ReadsAs(t: string, tv: real) {
    StartsNumber(t) && forall rest: string | Ends(rest) :: Strtod(t + rest) == (tv, rest)
  }

  lemma WholeReads(s: string, tv: real)
    requires |s| > 0 && AllDigits(s) && tv == NatValue(s) as real
    ensures ReadsAs(s, tv)
  {
    hide NatValue, Strtod;
    forall rest: string | Ends(rest) ensures Strtod(s + rest) == (tv, rest) {
      StrtodWhole(s, rest);
    }
  }

  lemma PointReads(s: string, f: string, tv: real)
    requires |s| > 0 && AllDigits(s) && AllDigits(f) && tv == NatValue(s) as real + FracValue(f)
    ensures ReadsAs(s + "." + f, tv)
  {
    hide NatValue, FracValue, Strtod;
    forall rest: string | Ends(rest) ensures Strtod(s + "." + f + rest) == (tv, rest) {
      StrtodPoint(s, f, rest);
    }
  }

  lemma WholeAndRest(sec: nat, res: nat)
    requires res > 0
    ensures Quotient(sec, res) as real + Remainder(sec, res) as real / res as real == sec as real / res as real
  {
    DivMod(sec, res);
    var (q, r, p) := (Quotient(sec, res) as real, Remainder(sec, res) as real, res as real);
    assert sec as real == q * p + r;
    assert (q * p + r) / p == q + r / p;
  }

  /** The full seconds read as their exact value. */
  lemma SecTextReads(sec: nat, style: Style)
    requires style.wide ==> Quotient(sec, Pow10(style.fract)) < 100
    ensures ReadsAs(SecText(sec, style), sec as real / Pow10(style.fract) as real)
  {
    var res := Pow10(style.fract);
    var q := Quotient(sec, res);
    var whole := if style.wide then Padded(q, 2) else Digits(q);
    assert NatValue(whole) == q by {
      if style.wide {
        assert Pow10(2) == 100 by { assert Pow10(1) == 10 * Pow10(0); }
        PaddedValue(q, 2);
      } else {
        DigitsValue(q);
      }
    }
    WholeAndRest(sec, res);
    hide ReadsAs, Digits, Padded, NatValue, FracValue;
    var tv := sec as real / res as real;
    if style.fract == 0 {
      assert res == 1;
      WholeReads(whole, tv);
    } else {
      FracPaddedValue(Remainder(sec, res), style.fract);
      PointReads(whole, Padded(Remainder(sec, res), style.fract), tv);
    }
  }

  /** Zeros stripped before the point do change a number that ends with zeros. */
  lemma {:induction false} DropZerosNat(s: string)
    requires AllDigits(s) && NatValue(s) > 0
    ensures |DropZeros(s)| > 0 && AllDigits(DropZeros(s))
    ensures NatValue(DropZeros(s)) <= NatValue(s)
    ensures NatValue(DropZeros(s)) == NatValue(s) <==> s[|s|-1] != '0'
  {
    if s[|s|-1] == '0' {
      assert NatValue(s) == 10 * NatValue(s[..|s|-1]);
      DropZerosNat(s[..|s|-1]);
    }
  }

  lemma LastDigit(n: nat)
    ensures Digits(n)[|Digits(n)|-1] == DigitChar(n % 10)
    ensures DigitChar(n % 10) == '0' <==> n % 10 == 0
  {
  }

  /** Without digits after the point: zeros are stripped from the seconds themselves. */
  lemma StrippedWholeReads(sec: nat) returns (tv: real)
    requires sec != 0
    ensures ReadsAs(Stripped(Digits(sec)), tv)
    ensures tv == sec as real <==> sec % 10 != 0
  {
    DigitsValue(sec);
    var d := DropZeros(Digits(sec));
    DropZerosNat(Digits(sec));
    LastDigit(sec);
    assert Stripped(Digits(sec)) == d;
    tv := NatValue(d) as real;
    WholeReads(d, tv);
  }

  lemma AllDigitsPrefix(s: string, t: string)
    requires AllDigits(s) && t <= s
    ensures AllDigits(t)
  {
  }

  lemma EmptyFrac(s: string)
    requires |s| == 0
    ensures FracValue(s) == 0.0
  {
  }

  /** With digits after the point stripping keeps the value. */
  lemma StrippedPointReads(q: nat, frac: string, tv: real)
    requires AllDigits(frac) && tv == q as real + FracValue(frac)
    ensures ReadsAs(Stripped(Digits(q) + "." + frac), tv)
  {
    hide ReadsAs, FracValue, NatValue, DropZeros, Digits, Stripped;
    DigitsValue(q);
    StrippedPoint(Digits(q), frac);
    DropZerosFrac(frac);
    AllDigitsPrefix(frac, DropZeros(frac));
    if |DropZeros(frac)| == 0 {
      EmptyFrac(DropZeros(frac));
      WholeReads(Digits(q), tv);
    } else {
      PointReads(Digits(q), DropZeros(frac), tv);
    }
  }

  /** The stripped seconds read as their exact value, unless stripping was not safe. */
  lemma StrippedReads(sec: nat, style: Style) returns (tv: real)
    requires !style.wide && sec != 0
    ensures ReadsAs(Stripped(SecText(sec, style)), tv)
    ensures tv == sec as real / Pow10(style.fract) as real <==> style.fract > 0 || sec % 10 != 0
  {
    var res := Pow10(style.fract);
    WholeAndRest(sec, res);
    hide ReadsAs, FracValue;
    if style.fract == 0 {
      assert res == 1 && Quotient(sec, res) == sec;
      tv := StrippedWholeReads(sec);
    } else {
      var frac := Padded(Remainder(sec, res), style.fract);
      FracPaddedValue(Remainder(sec, res), style.fract);
      tv := sec as real / res as real;
      StrippedPointReads(Quotient(sec, res), frac, tv);
    }
  }

  // ----- The whole text

  predicate LetterOrNone(c: char) {
    c == '\0' || PositiveLetter(c) || NegativeLetter(c)
  }

  /** Fields that fit their width. */
  predicate FieldsFit(f: Fields, fract: nat) {
    f.min < 60 && Quotient(f.sec, Pow10(fract)) < 60
  }

  lemma SecondsRead(t: string, tv: real, letter: char, v: real, v1: real)
    requires ReadsAs(t, tv) && LetterOrNone(letter) && Adds(v1, v, tv, 2)
    ensures ReadFields(t + "\"" + Letter(letter), 2, v) == Radians(v1, Letter(letter))
  {
    hide Adds, ReadFields, Strtod;
    var rest := "\"" + Letter(letter);
    assert t + "\"" + Letter(letter) == t + rest;
    assert rest == ['"'] + Letter(letter);
    assert Ends(rest) && StartsNumber(t + rest);
    assert Strtod(t + rest) == (tv, rest);
    ReadMarked(t + rest, tv, '"', Letter(letter), 2, v, v1);
    ReadPast(Letter(letter), v1);
  }

  lemma ReadPast(s: string, v: real)
    ensures ReadFields(s, 3, v) == Radians(v, s)
  {
  }

  lemma ThreeFieldsText(deg: string, min: string, t: string, l: string, end: string)
    requires end == t + "\"" + l
    ensures deg + "d" + min + "'" + t + "\"" + l == deg + ['d'] + (min + ['\''] + end)
  {
  }

  /** Degrees, minutes and seconds in a row. */
  lemma ThreeFieldsRead(deg: string, min: string, t: string, tv: real, letter: char, v1: real, v2: real, v3: real)
    requires |deg| > 0 && AllDigits(deg) && |min| > 0 && AllDigits(min) && ReadsAs(t, tv) && LetterOrNone(letter)
    requires Adds(v1, 0.0, NatValue(deg) as real, 0) && Adds(v2, v1, NatValue(min) as real, 1) && Adds(v3, v2, tv, 2)
    ensures ReadFields(deg + "d" + min + "'" + t + "\"" + Letter(letter), 0, 0.0) == Radians(v3, Letter(letter))
  {
    hide ReadsAs, NatValue, Adds, ReadFields;
    var l := Letter(letter);
    var end := t + "\"" + l;
    ThreeFieldsText(deg, min, t, l, end);
    FieldRead(deg, 'd', min + ['\''] + end, 0, 0.0, v1);
    FieldRead(min, '\'', end, 1, v1, v2);
    SecondsRead(t, tv, letter, v2, v3);
  }

  lemma LetterEnds(letter: char, nl: nat, v: real)
    requires LetterOrNone(letter)
    ensures ReadFields(Letter(letter), nl, v) == Radians(v, Letter(letter))
  {
  }

  lemma TwoFieldsText(deg: string, min: string, l: string)
    ensures deg + "d" + min + "'" + l == deg + ['d'] + (min + ['\''] + l)
  {
  }

  lemma TwoFieldsRead(deg: string, min: string, letter: char, v1: real, v2: real)
    requires |deg| > 0 && AllDigits(deg) && |min| > 0 && AllDigits(min) && LetterOrNone(letter)
    requires Adds(v1, 0.0, NatValue(deg) as real, 0) && Adds(v2, v1, NatValue(min) as real, 1)
    ensures ReadFields(deg + "d" + min + "'" + Letter(letter), 0, 0.0) == Radians(v2, Letter(letter))
  {
    LetterEnds(letter, 2, v2);
    hide NatValue, Adds, ReadFields;
    var l := Letter(letter);
    TwoFieldsText(deg, min, l);
    FieldRead(deg, 'd', min + ['\''] + l, 0, 0.0, v1);
    FieldRead(min, '\'', l, 1, v1, v2);
  }

  lemma OneFieldRead(deg: string, letter: char, v1: real)
    requires |deg| > 0 && AllDigits(deg) && LetterOrNone(letter) && Adds(v1, 0.0, NatValue(deg) as real, 0)
    ensures ReadFields(deg + "d" + Letter(letter), 0, 0.0) == Radians(v1, Letter(letter))
  {
    LetterEnds(letter, 1, v1);
    hide NatValue, Adds, ReadFields;
    FieldRead(deg, 'd', Letter(letter), 0, 0.0, v1);
  }

  lemma TwoDigits(n: nat)
    requires n < 60
    ensures NatValue(Padded(n, 2)) == n
  {
    assert Pow10(2) == 10 * Pow10(1) && Pow10(1) == 10 * Pow10(0);
    PaddedValue(n, 2);
  }

  /** The printed fields read back; the value is theirs exactly when stripping was safe. */
  lemma BodyReads(f: Fields, style: Style, letter: char) returns (v: real)
    requires FieldsFit(f, style.fract) && LetterOrNone(letter)
    ensures ReadFields(Body(f, style, letter), 0, 0.0) == Radians(v, Letter(letter))
    ensures v == FieldsValue(f, style.fract) <==> StripSafe(f, style)
  {
    hide ReadFields, ReadsAs, NatValue, SecText, Stripped;
    DigitsValue(f.deg);
    DigitsValue(f.min);
    TwoDigits(f.min);
    var v1 := 0.0 + f.deg as real * Vm(0);
    var v2 := v1 + f.min as real * Vm(1);
    if style.wide {
      SecTextReads(f.sec, style);
      var tv := f.sec as real / Pow10(style.fract) as real;
      v := v2 + tv * Vm(2);
      ThreeFieldsRead(Digits(f.deg), Padded(f.min, 2), SecText(f.sec, style), tv, letter, v1, v2, v);
    } else if f.sec != 0 {
      var tv := StrippedReads(f.sec, style);
      v := v2 + tv * Vm(2);
      ThreeFieldsRead(Digits(f.deg), Digits(f.min), Stripped(SecText(f.sec, style)), tv, letter, v1, v2, v);
    } else if f.min != 0 {
      v := v2;
      TwoFieldsRead(Digits(f.deg), Digits(f.min), letter, v1, v2);
    } else {
      v := v1;
      OneFieldRead(Digits(f.deg), letter, v1);
    }
  }

  // ----- The text as a word

  predicate Graph(s: string) {
    forall i | 0 <= i < |s| :: IsGraph(s[i])
  }

  lemma {:induction false} WordOf(s: string, n: nat)
    requires Graph(s) && |s| <= n
    ensures Word(s, n) == s
  {
    if |s| > 0 {
      WordOf(s[1..], n - 1);
      assert s == [s[0]] + s[1..];
    }
  }

  lemma {:induction false} DigitsLength(n: nat, k: nat)
    requires n < Pow10(k) && k > 0
    ensures |Digits(n)| <= k
  {
    if n >= 10 {
      assert k > 1 by { assert Pow10(1) == 10 * Pow10(0); }
      DigitsLength(n / 10, k - 1);
    }
  }

  lemma SecTextShape(sec: nat, style: Style)
    requires Quotient(sec, Pow10(style.fract)) < 60
    ensures Graph(SecText(sec, style)) && |SecText(sec, style)| <= 3 + style.fract
  {
    assert Pow10(2) == 10 * Pow10(1) && Pow10(1) == 10 * Pow10(0);
    DigitsLength(Quotient(sec, Pow10(style.fract)), 2);
  }

  /** What the work buffer can hold. */
  lemma BodyShape(f: Fields, style: Style, letter: char)
    requires FieldsFit(f, style.fract) && LetterOrNone(letter) && f.deg < 0x8000_0000 && style.fract < 9
    ensures Graph(Body(f, style, letter)) && 0 < |Body(f, style, letter)| < MAX_WORK - 1
    ensures IsDigit(Body(f, style, letter)[0])
  {
    hide Padded, SecText, Stripped;
    Pow10Ten();
    DigitsLength(f.deg, 10);
    DigitsLength(f.min, 2);
    SecTextShape(f.sec, style);
    assert Graph(Digits(f.deg)) && Graph(Digits(f.min)) && Graph(Padded(f.min, 2)) && Graph(Letter(letter));
    assert Stripped(SecText(f.sec, style)) <= SecText(f.sec, style);
  }

  lemma Pow10Ten()
    ensures Pow10(2) == 100 && Pow10(10) == 10000000000
  {
    assert Pow10(1) == 10 && Pow10(2) == 100 && Pow10(3) == 1000 && Pow10(4) == 10000 && Pow10(5) == 100000;
    assert Pow10(6) == 1000000 && Pow10(7) == 10000000 && Pow10(8) == 100000000 && Pow10(9) == 1000000000;
  }

  function Signed(r: real, v: real): real {
    if r < 0.0 then -v else v
  }

  lemma SplitFits(u: nat, fract: nat)
    ensures FieldsFit(Split(u, fract), fract)
  {
    var res := Pow10(fract);
    var sec := Remainder(u, 60 * res);
    QuotientBelow(sec, res, 60);
  }

  lemma QuotientBelow(a: nat, b: nat, c: nat)
    requires b > 0 && a < c * b
    ensures Quotient(a, b) < c
  {
    DivMod(a, b);
    MultiplesOrdered(Quotient(a, b), c, b);
  }

  lemma MultiplesOrdered(q: nat, c: nat, b: nat)
    requires q * b < c * b
    ensures q < c
  {
  }

  /** A whole text whose fields read as v. */
  lemma TextReads(text: string, body: string, minus: bool, letter: char, v: real)
    requires Graph(body) && 0 < |body| < MAX_WORK - 1 && IsDigit(body[0]) && LetterOrNone(letter)
    requires ReadFields(body, 0, 0.0) == Radians(v, Letter(letter))
    requires text == (if minus then "-" + body else body) && (minus ==> letter == '\0')
    ensures Read(text) == Radians(if minus || NegativeLetter(letter) then -v else v, "")
  {
    hide ReadFields, Word;
    assert Graph(text) && !IsSpace(text[0]);
    WordOf(text, MAX_WORK - 1);
    assert minus ==> text[1..] == body;
    assert |Letter(letter)| > 0 ==> Letter(letter)[1..] == "";
  }

  /** Reading the printed text gives the value of the fields, with the sign of r, exactly when
      stripping zeros was safe; nothing of the text is left. */
  lemma RoundTrip(r: real, style: Style, pos: char, neg: char)
    requires style.fract < 9 && (pos == '\0' || (pos in "NnEe" && neg in "SsWw"))
    requires Split(Units(r, style.fract), style.fract).deg < 0x8000_0000
    ensures var f := Split(Units(r, style.fract), style.fract);
            (Read(Text(r, style, pos, neg)) == Radians(Signed(r, FieldsValue(f, style.fract)), ""))
            <==> StripSafe(f, style)
  {
    hide ReadFields, FieldsValue, Body, Split, Units, Read, StripSafe, Graph;
    var f := Split(Units(r, style.fract), style.fract);
    SplitFits(Units(r, style.fract), style.fract);
    var letter := if r >= 0.0 then pos else if pos == '\0' then '\0' else neg;
    var v := BodyReads(f, style, letter);
    BodyShape(f, style, letter);
    var minus := r < 0.0 && pos == '\0';
    TextReads(Text(r, style, pos, neg), Body(f, style, letter), minus, letter, v);
    SignOfLetter(r, pos, neg);
  }

  lemma SignOfLetter(r: real, pos: char, neg: char)
    requires (pos == '\0' || (pos in "NnEe" && neg in "SsWw"))
    ensures var letter := if r >= 0.0 then pos else if pos == '\0' then '\0' else neg;
            ((r < 0.0 && pos == '\0') || NegativeLetter(letter)) <==> r < 0.0
  {
  }

  // ----- Accuracy

  /** Radians per second of arc. */
  const SECOND: real := PI / 648000.0

  /** The fields are the units, split. */
  lemma SplitAddsUp(u: nat, fract: nat)
    ensures var f := Split(u, fract);
            u == (f.deg * 60 + f.min) * (60 * Pow10(fract)) + f.sec
  {
    DivMod(u, 60 * Pow10(fract));
  }

  lemma FieldsOverRes(u: real, d: real, m: real, s: real, res: real)
    requires res > 0.0 && u == (d * 60.0 + m) * (60.0 * res) + s
    ensures u / res == d * 3600.0 + m * 60.0 + s / res
  {
    assert (d * 60.0 + m) * (60.0 * res) == ((d * 60.0 + m) * 60.0) * res;
    assert (((d * 60.0 + m) * 60.0) * res) / res == (d * 60.0 + m) * 60.0;
  }

  /** The reader's constants are accurate to a relative error of 3e-16. */
  lemma ConstantsAccurate(d: real, m: real, s: real)
    requires d >= 0.0 && m >= 0.0 && s >= 0.0
    ensures Abs((d * Vm(0) + m * Vm(1) + s * Vm(2)) - (d * 3600.0 + m * 60.0 + s) * SECOND)
         <= 0.0000000000000003 * ((d * 3600.0 + m * 60.0 + s) * SECOND)
  {
  }

  lemma UnitsOverConv(u: real, fract: nat)
    ensures u / Conv(fract) == u / Pow10(fract) as real * SECOND
  {
    var res := Pow10(fract) as real;
    DivideTwice(u, res, 648000.0, PI);
    assert Conv(fract) == 648000.0 * res / PI;
  }

  lemma DivideTwice(u: real, res: real, k: real, p: real)
    requires res > 0.0 && k > 0.0 && p > 0.0
    ensures u / (k * res / p) == u / res * (p / k)
  {
    var c := k * res / p;
    var x := u / res * (p / k);
    assert c * p == k * res;
    assert x * c == u by {
      var q := u / res;
      assert q * res == u;
      var t := p / k;
      assert t * k == p;
      assert (t * c) * k == (t * k) * c == p * c == k * res;
      assert t * c == res by { Cancel(t * c, res, k); }
      assert (q * t) * c == q * (t * c);
    }
    assert c > 0.0;
    assert u / c == x;
  }

  lemma Cancel(x: real, y: real, k: real)
    requires k > 0.0 && x * k == y * k
    ensures x == y
  {
  }

  lemma FieldsAccurate(u: nat, fract: nat)
    ensures Abs(FieldsValue(Split(u, fract), fract) - u as real / Conv(fract))
         <= 0.0000000000000003 * (u as real / Conv(fract))
  {
    var f := Split(u, fract);
    var res := Pow10(fract) as real;
    SplitAddsUp(u, fract);
    FieldsOverRes(u as real, f.deg as real, f.min as real, f.sec as real, res);
    UnitsOverConv(u as real, fract);
    var sec := f.sec as real / res;
    FieldsClose(f.deg as real, f.min as real, sec, u as real / res, u as real / Conv(fract), FieldsValue(f, fract));
  }

  lemma FieldsClose(d: real, m: real, s: real, arc: real, exact: real, value: real)
    requires d >= 0.0 && m >= 0.0 && s >= 0.0 && arc == d * 3600.0 + m * 60.0 + s && exact == arc * SECOND
    requires value == d * Vm(0) + m * Vm(1) + s * Vm(2)
    ensures Abs(value - exact) <= 0.0000000000000003 * exact
  {
    ConstantsAccurate(d, m, s);
  }

  lemma UnitsClose(r: real, fract: nat)
    ensures Abs(Units(r, fract) as real / Conv(fract) - Abs(r)) <= 0.5 / Conv(fract)
  {
    UnitsNonNegative(r, fract);
    var (u, a, c) := (Units(r, fract) as real, Abs(r), Conv(fract));
    assert a * c - 0.5 <= u <= a * c + 0.5;
    QuotientClose(u, a, c);
  }

  lemma QuotientClose(u: real, a: real, c: real)
    requires c > 0.0 && a * c - 0.5 <= u <= a * c + 0.5
    ensures -0.5 / c <= u / c - a <= 0.5 / c
  {
    var d := u - a * c;
    assert u / c == a + d / c;
    assert (0.5 - d) / c >= 0.0 && (d + 0.5) / c >= 0.0;
  }

  /** Where stripping is safe, the reading is within half a printed unit of r, up to the accuracy of
      the reader's constants. */
  lemma ReadingAccurate(r: real, style: Style, pos: char, neg: char)
    requires style.fract < 9 && (pos == '\0' || (pos in "NnEe" && neg in "SsWw"))
    requires Split(Units(r, style.fract), style.fract).deg < 0x8000_0000
    requires StripSafe(Split(Units(r, style.fract), style.fract), style)
    ensures Read(Text(r, style, pos, neg)).Radians? && Read(Text(r, style, pos, neg)).rest == ""
    ensures Abs(Read(Text(r, style, pos, neg)).v - r)
         <= 0.5 / Conv(style.fract) + 0.0000000000000003 * (Units(r, style.fract) as real / Conv(style.fract))
  {
    RoundTrip(r, style, pos, neg);
    FieldsAccurate(Units(r, style.fract), style.fract);
    UnitsClose(r, style.fract);
    hide Read, Text, FieldsValue, Units, Conv, Split, StripSafe;
  }

  lemma TenSeconds(r: real)
    requires r == 10.0 * PI / 648000.0
    ensures Units(r, 0) == 10
  {
    assert Pow10(0) == 1;
    var c := Conv(0);
    assert c == 648000.0 / PI;
    assert r * c == 10.0;
    assert Abs(r) == r;
  }

  lemma TenSecondsText()
    ensures Split(10, 0) == Fields(0, 0, 10)
    ensures Body(Fields(0, 0, 10), Style(0, false), 'N') == "0d0'1\"N"
  {
    assert Pow10(0) == 1;
    assert Digits(1) == ['1'] && Digits(10) == Digits(1) + ['0'];
    assert DropZeros("1") == "1";
    assert "10"[..1] == "1" && DropZeros("10") == DropZeros("1");
  }

  /** Without digits after the point ten seconds are printed as one second. */
  lemma RoundTripExample()
    ensures var (r, style) := (10.0 * PI / 648000.0, Style(0, false));
            var f := Split(Units(r, 0), 0);
            Text(r, style, 'N', 'S') == "0d0'1\"N" && !StripSafe(f, style)
            && Read(Text(r, style, 'N', 'S')) != Radians(Signed(r, FieldsValue(f, 0)), "")
  {
    var r := 10.0 * PI / 648000.0;
    TenSeconds(r);
    TenSecondsText();
    hide Units, Body, Read, FieldsValue, Split;
    RoundTrip(r, Style(0, false), 'N', 'S');
  }

  // ----- The printer

  /** The conversion state of the printer. */
  class Printer {
    var style: Style
    var res: nat
    var res60: nat
    var conv: real

    ghost predicate Valid()
      reads this
    {
      style.fract < 9 && res == Pow10(style.fract) && res60 == 60 * res && conv == Conv(style.fract)
    }

    constructor ()
      ensures Valid() && style == Style(3, false)
    {
      style := Style(3, false);
      res := Pow10(3);
      res60 := 60 * Pow10(3);
      conv := Conv(3);
    }

    /** Sets the style; digit counts out of range leave it as it is. */
    method Set(fract: int, wide: bool)
      requires Valid()
      modifies this
      ensures Valid()
      ensures style == if 0 <= fract < 9 then Style(fract, wide) else old(style)
    {
      if 0 <= fract < 9 {
        res := 1;
        var i := 0;
        while i < fract
          invariant 0 <= i <= fract && res == Pow10(i)
        {
          res := res * 10;
          i := i + 1;
        }
        res60 := res * 60;
        conv := 180.0 * 3600.0 * res as real / PI;
        style := Style(fract, wide);
      }
    }

    /** Prints r into the buffer. */
    method Print(buf: array<char>, r: real, pos: char, neg: char)
      requires Valid() && NoNul(Long(r, style, pos, neg)) && |Long(r, style, pos, neg)| < buf.Length
      modifies buf
      ensures Holds(buf, Text(r, style, pos, neg))
    {
      hide Body, LongBody, Units;
      var a := r;
      var ss := 0;
      var sign := pos;
      if a < 0.0 {
        a := -a;
        if pos == '\0' {
          buf[0] := '-';
          ss := 1;
          sign := '\0';
        } else {
          sign := neg;
        }
      }
      var f := SplitAngle(a);
      SameUnits(r, a, style.fract);
      ghost var head := if ss == 1 then "-" else "";
      assert buf[..ss] == head;
      ghost var long := if style.wide || f.sec == 0 then Body(f, style, sign) else LongBody(f, style, sign);
      assert Long(r, style, pos, neg) == head + long;
      assert Text(r, style, pos, neg) == head + Body(f, style, sign);
      PrintFields(buf, ss, f, sign, head);
    }

    /** Prints the fields behind the first ss characters. */
    method PrintFields(buf: array<char>, ss: nat, f: Fields, sign: char, ghost head: string)
      requires Valid() && ss <= buf.Length && buf[..ss] == head
      requires var t := head + if style.wide || f.sec == 0 then Body(f, style, sign) else LongBody(f, style, sign);
               NoNul(t) && |t| < buf.Length
      modifies buf
      ensures Holds(buf, head + Body(f, style, sign))
    {
      hide Body, LongBody, SecText;
      if style.wide {
        WideIsBody(f, style, sign);
        Write(buf, ss, WideBody(f, style, sign));
      } else if f.sec != 0 {
        Write(buf, ss, LongBody(f, style, sign));
        var n := Strlen(buf, head + LongBody(f, style, sign));
        PrintStripped(buf, n, f, style, sign, head);
      } else {
        ShortBody(f, style, sign);
        if f.min != 0 {
          Write(buf, ss, Digits(f.deg) + "d" + Digits(f.min) + "'" + Letter(sign));
        } else {
          Write(buf, ss, Digits(f.deg) + "d" + Letter(sign));
        }
      }
    }

    /** The arithmetic of the printer on the absolute value a. */
    method SplitAngle(a: real) returns (f: Fields)
      requires Valid() && a >= 0.0
      ensures f == Split(Units(a, style.fract), style.fract)
    {
      UnitsNonNegative(a, style.fract);
      var u := (a * conv + 0.5).Floor;
      assert u == Units(a, style.fract);
      hide Units, Conv;
      var sec := Remainder(u, res60);
      var m := Quotient(u, res60);
      f := Fields(m / 60, m % 60, sec);
    }
  }

  lemma SameUnits(r: real, a: real, fract: nat)
    requires a == Abs(r)
    ensures Units(a, fract) == Units(r, fract)
  {
  }

  /** All fields, before zeros are stripped from the seconds. */
  function LongBody(f: Fields, style: Style, letter: char): string {
    Digits(f.deg) + "d" + Digits(f.min) + "'" + SecText(f.sec, style) + "\"" + Letter(letter)
  }

  lemma LongBodyParts(f: Fields, style: Style, letter: char, head: string, before: string, after: string)
    requires before == head + (Digits(f.deg) + "d" + Digits(f.min) + "'") && after == "\"" + Letter(letter)
    requires !style.wide && f.sec != 0
    ensures head + LongBody(f, style, letter) == before + SecText(f.sec, style) + after
    ensures head + Body(f, style, letter) == before + Stripped(SecText(f.sec, style)) + after
    ensures |after| == if letter == '\0' then 1 else 2
  {
    hide SecText, Stripped, Digits;
    var t := SecText(f.sec, style);
    assert LongBody(f, style, letter) == (Digits(f.deg) + "d" + Digits(f.min) + "'") + t + after;
    assert Body(f, style, letter) == (Digits(f.deg) + "d" + Digits(f.min) + "'") + Stripped(t) + after;
  }

  function WideBody(f: Fields, style: Style, letter: char): string {
    Digits(f.deg) + "d" + Padded(f.min, 2) + "'" + SecText(f.sec, style) + "\"" + Letter(letter)
  }

  lemma WideIsBody(f: Fields, style: Style, letter: char)
    requires style.wide
    ensures WideBody(f, style, letter) == Body(f, style, letter)
  {
  }

  /** Strips the printed text of length n. */
  method PrintStripped(buf: array<char>, n: nat, f: Fields, style: Style, sign: char, ghost head: string)
    requires !style.wide && f.sec != 0 && n == |head + LongBody(f, style, sign)|
    requires Holds(buf, head + LongBody(f, style, sign)) && NoNul(head + LongBody(f, style, sign))
    modifies buf
    ensures Holds(buf, head + Body(f, style, sign))
  {
    hide Body, LongBody, SecText, DropZeros, Stripped, NoNul, Holds;
    ghost var before := head + (Digits(f.deg) + "d" + Digits(f.min) + "'");
    ghost var after := "\"" + Letter(sign);
    LongBodyParts(f, style, sign, head, before, after);
    SecTextNonZero(f.sec, style);
    StripSeconds(buf, n - (if sign != '\0' then 3 else 2), before, SecText(f.sec, style), after);
  }

  lemma ShortBody(f: Fields, style: Style, letter: char)
    requires !style.wide && f.sec == 0
    ensures Body(f, style, letter) ==
      if f.min != 0 then Digits(f.deg) + "d" + Digits(f.min) + "'" + Letter(letter)
      else Digits(f.deg) + "d" + Letter(letter)
  {
  }

  /** Seconds that are not zero do not consist of zeros. */
  lemma SecTextNonZero(sec: nat, style: Style)
    requires !style.wide && sec != 0
    ensures |SecText(sec, style)| > 0 && |DropZeros(SecText(sec, style))| > 0
  {
    var res := Pow10(style.fract);
    var whole := Digits(Quotient(sec, res));
    if style.fract == 0 {
      assert res == 1 && Quotient(sec, res) == sec;
      DigitsValue(sec);
      DropZerosNat(whole);
    } else {
      var frac := Padded(Remainder(sec, res), style.fract);
      hide Digits, Padded;
      DropZerosConcat(whole + ".", frac);
      assert (whole + ".")[|whole|] == '.';
    }
  }

  /** Strips the zeros that end the seconds and then a bare point; the rest moves up. */
  method StripSeconds(buf: array<char>, last: nat, ghost before: string, ghost sec: string, ghost after: string)
    requires Holds(buf, before + sec + after) && NoNul(before + sec + after)
    requires |after| > 0 && |DropZeros(sec)| > 0 && last == |before| + |sec| - 1
    modifies buf
    ensures Holds(buf, before + Stripped(sec) + after)
  {
    ghost var t := before + sec + after;
    var q, p := last, last;
    assert sec[..p-|before|+1] == sec;
    while buf[p] == '0'
      invariant |before| <= p <= last
      invariant DropZeros(sec[..p-|before|+1]) == DropZeros(sec)
      decreases p
    {
      assert buf[p] == t[p] == sec[p-|before|];
      assert sec[..p-|before|+1][..p-|before|] == sec[..p-|before|];
      p := p - 1;
    }
    assert buf[p] == t[p] == sec[p-|before|];
    assert DropZeros(sec) == sec[..p-|before|+1];
    if buf[p] != '.' {
      p := p + 1;
    }
    q := q + 1;
    assert t[..p] == before + Stripped(sec) && t[q..] == after;
    if q != p {
      CopyDown(buf, p, q, t);
    } else {
      assert before + Stripped(sec) + after == t;
    }
  }

  /** The text before zeros are stripped. */
  function Long(r: real, style: Style, pos: char, neg: char): string {
    var f := Split(Units(r, style.fract), style.fract);
    var sign := if r >= 0.0 then pos else if pos == '\0' then '\0' else neg;
    (if r < 0.0 && pos == '\0' then "-" else "") +
    (if style.wide || f.sec == 0 then Body(f, style, sign) else LongBody(f, style, sign))
  }

  // ----- The reader

  lemma {:induction false} SkipFrom(s: string, i: nat)
    requires i <= |s| && forall k | 0 <= k < i :: IsSpace(s[k])
    ensures SkipSpaces(s) == SkipSpaces(s[i..])
  {
    if i > 0 {
      assert s[1..][i-1..] == s[i..];
      SkipFrom(s[1..], i - 1);
    } else {
      assert s[0..] == s;
    }
  }

  /** Copies the printable start of s to the work buffer and terminates it. */
  method CopyWord(s: string, work: array<char>) returns (k: nat)
    requires work.Length == MAX_WORK
    modifies work
    ensures k < MAX_WORK && work[..k] == Word(s, MAX_WORK - 1) && work[k] == '\0'
  {
    hide Word;
    var n := MAX_WORK;
    k := 0;
    assert s[0..] == s && work[..0] == [];
    while k < |s| && IsGraph(s[k]) && n - 1 != 0
      invariant 0 <= k <= |s| && n == MAX_WORK - k && n >= 1
      invariant Word(s, MAX_WORK - 1) == work[..k] + Word(s[k..], n - 1)
      decreases |s| - k
    {
      n := n - 1;
      WordStep(s, k, n);
      work[k] := s[k];
      assert work[..k+1] == work[..k] + [s[k]];
      k := k + 1;
    }
    WordStop(s, k, n - 1);
    work[k] := '\0';
  }

  lemma WordStep(s: string, k: nat, n: nat)
    requires k < |s| && n > 0 && IsGraph(s[k])
    ensures Word(s[k..], n) == [s[k]] + Word(s[k+1..], n - 1)
  {
    assert s[k..][1..] == s[k+1..];
  }

  lemma WordStop(s: string, k: nat, n: nat)
    requires k <= |s| && (k == |s| || !IsGraph(s[k]) || n == 0)
    ensures Word(s[k..], n) == []
  {
  }

  lemma StrtodSuffix(t: string)
    ensures |Strtod(t).1| <= |t| && Strtod(t).1 == t[|t| - |Strtod(t).1|..]
  {
  }

  /** What one round of the loop makes of the number tv before the text t; v1 is the new sum. */
  lemma ReadFieldsStep(s: string, nl: nat, v: real, tv: real, t: string, v1: real)
    requires nl < 3 && StartsNumber(s) && Strtod(s) == (tv, t)
    requires Adds(v1, v, tv, if |t| > 0 && Mark(t[0]) < 3 then Mark(t[0]) else nl)
    ensures |t| > 0 && Mark(t[0]) < 3 ==>
      ReadFields(s, nl, v) == if Mark(t[0]) < nl then BadFormat else ReadFields(t[1..], Mark(t[0]) + 1, v1)
    ensures |t| > 0 && (t[0] == 'r' || t[0] == 'R') ==>
      ReadFields(s, nl, v) == if nl != 0 then BadFormat else Radians(tv, t[1..])
    ensures |t| == 0 || (Mark(t[0]) == 3 && t[0] != 'r' && t[0] != 'R') ==> ReadFields(s, nl, v) == Radians(v1, t)
  {
    hide Strtod, Vm;
  }

  lemma ReadFieldsStop(s: string, nl: nat, v: real)
    requires nl >= 3 || !StartsNumber(s)
    ensures ReadFields(s, nl, v) == Radians(v, s)
  {
  }

  /** The loop over the fields of the word, from index s on. */
  method ReadLoop(word: string, start: nat) returns (r: Reading)
    requires start <= |word|
    ensures r == ReadFields(word[start..], 0, 0.0)
  {
    hide Strtod, Adds, ReadFields, StartsNumber;
    var s := start;
    var v := 0.0;
    var nl := 0;
    while nl < 3
      invariant start <= s <= |word| && nl <= 3
      invariant ReadFields(word[s..], nl, v) == ReadFields(word[start..], 0, 0.0)
      decreases 3 - nl
    {
      if !StartsNumber(word[s..]) {
        break;
      }
      var (tv, rest) := Strtod(word[s..]);
      StrtodSuffix(word[s..]);
      var at := |word| - |rest|;
      assert rest == word[at..];
      var n := if at < |word| && Mark(word[at]) < 3 then Mark(word[at]) else nl;
      var v1 := AddField(v, tv, n);
      ReadFieldsStep(word[s..], nl, v, tv, rest, v1);
      if at < |word| && Mark(word[at]) < 3 {
        if n < nl {
          return BadFormat;
        }
        assert rest[1..] == word[at+1..];
        v := v1;
        s := at + 1;
        nl := n + 1;
      } else if at < |word| && (word[at] == 'r' || word[at] == 'R') {
        if nl != 0 {
          return BadFormat;
        }
        assert rest[1..] == word[at+1..];
        return Radians(tv, word[at+1..]);
      } else {
        return Radians(v1, rest);
      }
    }
    ReadFieldsStop(word[s..], nl, v);
    r := Radians(v, word[s..]);
  }

  function AddField(v: real, tv: real, n: nat): (v1: real)
    requires n < 3
    ensures Adds(v1, v, tv, n)
  {
    v + tv * Vm(n)
  }

  /** Reads an angle from the start of the input. */
  method ReadAngle(input: string) returns (r: Reading)
    ensures r == Read(input)
  {
    hide Word, ReadFields;
    var i := 0;
    while i < |input| && IsSpace(input[i])
      invariant 0 <= i <= |input| && forall k | 0 <= k < i :: IsSpace(input[k])
    {
      i := i + 1;
    }
    SkipFrom(input, i);
    var work := new char[MAX_WORK];
    var k := CopyWord(input[i..], work);
    var word := work[..k];
    var s := 0;
    var sign := '+';
    if k > 0 && IsSign(word[0]) {
      sign := word[0];
      s := 1;
    }
    assert s == 0 ==> word[s..] == word;
    r := ReadLoop(word, s);
    r := Finish(sign == '-', r);
  }
}
