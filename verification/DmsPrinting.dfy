/** What the printer of angles writes, character by character. */
module DmsPrinting {
  import opened Decimals
  import opened Dms

  // ----- The wide style

  /** Width of the seconds: two digits, and a point and the digits behind it if there are any. */
  function SecondsWidth(fract: nat): nat {
    if fract == 0 then 2 else 3 + fract
  }

  lemma WideSeconds(sec: nat, fract: nat)
    requires Quotient(sec, Pow10(fract)) < 60
    ensures var t := SecText(sec, Style(fract, true));
            && |t| == SecondsWidth(fract) && NatValue(t[..2]) == Quotient(sec, Pow10(fract))
            && (fract > 0 ==> t[2] == '.' && NatValue(t[3..]) == Remainder(sec, Pow10(fract)))
  {
    var res := Pow10(fract);
    var whole := Padded(Quotient(sec, res), 2);
    TwoDigits(Quotient(sec, res));
    if fract > 0 {
      PaddedValue(Remainder(sec, res), fract);
      var frac := Padded(Remainder(sec, res), fract);
      assert (whole + "." + frac)[..2] == whole && (whole + "." + frac)[3..] == frac;
    } else {
      assert whole[..2] == whole;
    }
  }

  lemma Front(t: string, deg: string, min: string, rest: string)
    requires |min| == 2 && t == deg + "d" + min + "'" + rest
    ensures var n := |deg|;
            && |t| == n + 4 + |rest| && t[..n] == deg && t[n] == 'd' && t[n+1..n+3] == min && t[n+3] == '\''
            && t[n+4..] == rest
  {
  }

  lemma Back(rest: string, sec: string, end: string)
    requires |sec| >= 2 && rest == sec + "\"" + end
    ensures |rest| == |sec| + 1 + |end| && rest[..2] == sec[..2] && rest[|sec|] == '"' && rest[|sec|+1..] == end
    ensures |sec| > 2 ==> rest[2] == sec[2] && rest[3..|sec|] == sec[3..]
  {
  }

  /** The fields of a wide text, each at its place. */
  ghost predicate WideText(t: string, deg: string, min: nat, whole: nat, fract: nat, frac: nat, letter: char) {
    var n, w := |deg|, SecondsWidth(fract);
    && |t| == n + 5 + w + (if letter == '\0' then 0 else 1)
    && t[..n] == deg && t[n] == 'd' && NatValue(t[n+1..n+3]) == min && t[n+3] == '\''
    && NatValue(t[n+4..][..2]) == whole && t[n+4..][w] == '"'
    && (fract > 0 ==> t[n+4..][2] == '.' && NatValue(t[n+4..][3..w]) == frac)
    && (letter != '\0' ==> t[n+4..][w+1..] == [letter])
  }

  lemma WideParts(t: string, deg: string, min: string, sec: string, fract: nat, letter: char)
    requires |min| == 2 && |sec| == SecondsWidth(fract)
    requires t == deg + "d" + min + "'" + sec + "\"" + Letter(letter) && (fract > 0 ==> sec[2] == '.')
    ensures WideText(t, deg, NatValue(min), NatValue(sec[..2]), fract,
                     if fract > 0 then NatValue(sec[3..]) else 0, letter)
  {
    hide NatValue;
    var rest := sec + "\"" + Letter(letter);
    assert t == deg + "d" + min + "'" + rest;
    Front(t, deg, min, rest);
    Back(rest, sec, Letter(letter));
  }

  /** In the wide style every field has its place and width: the degrees as they are, two digits of
      minutes, and two digits of seconds with fract digits behind a point; the letter comes last. */
  lemma WideLayout(f: Fields, fract: nat, letter: char)
    requires FieldsFit(f, fract)
    ensures WideText(Body(f, Style(fract, true), letter), Digits(f.deg), f.min, Quotient(f.sec, Pow10(fract)),
                     fract, if fract > 0 then Remainder(f.sec, Pow10(fract)) else 0, letter)
  {
    var deg, min, sec := Digits(f.deg), Padded(f.min, 2), SecText(f.sec, Style(fract, true));
    TwoDigits(f.min);
    WideSeconds(f.sec, fract);
    hide Digits, Padded, SecText, NatValue, WideText, Letter;
    WideParts(Body(f, Style(fract, true), letter), deg, min, sec, fract, letter);
  }

  // ----- The narrow style

  lemma SmallDigits()
    ensures Digits(96) == "96" && Digits(4) == "4" && Digits(5) == "5" && Digits(0) == "0"
    ensures Padded(250, 3) == "250" && Padded(1, 3) == "001" && Pow10(3) == 1000
  {
    assert Digits(9) == "9";
    assert Pow10(1) == 10 && Pow10(2) == 100;
    assert Digits(96) == Digits(9) + [DigitChar(6)];
    assert Padded(250, 3) == Padded(25, 2) + [DigitChar(0)] && Padded(1, 3) == Padded(0, 2) + [DigitChar(1)];
    assert Padded(2, 1) == "2" && Padded(25, 2) == "25" && Padded(0, 1) == "0" && Padded(0, 2) == "00";
  }

  lemma Zeros()
    ensures DropZeros("5.250") == "5.25" && DropZeros("0.001") == "0.001"
  {
    assert "5.250"[..4] == "5.25";
  }

  /** In the narrow style zeros behind the point and fields of zero at the end are left out. */
  lemma NarrowExamples()
    ensures Body(Fields(96, 4, 5250), Style(3, false), 'W') == "96d4'5.25\"W"
    ensures Body(Fields(96, 0, 1), Style(3, false), '\0') == "96d0'0.001\""
    ensures Body(Fields(96, 4, 0), Style(3, false), 'N') == "96d4'N"
    ensures Body(Fields(96, 0, 0), Style(3, false), 'S') == "96dS"
  {
    SmallDigits();
    Zeros();
    hide Digits, Padded, Pow10, DropZeros;
    assert SecText(5250, Style(3, false)) == "5.250" && SecText(1, Style(3, false)) == "0.001";
  }

  // ----- Signs

  /** A letter says the sign, the first one also for zero; without letters a minus stands in front of
      negative angles only. */
  lemma SignsPrinted(r: real, style: Style, pos: char, neg: char)
    requires pos != '\0' ==> neg != '\0'
    ensures var t := Text(r, style, pos, neg);
            && |t| > 0 && (pos != '\0' ==> t[|t|-1] == if r < 0.0 then neg else pos)
            && (pos == '\0' ==> (t[0] == '-' <==> r < 0.0))
  {
    hide Digits, Padded, SecText, Stripped, Split, Units;
    var f := Split(Units(r, style.fract), style.fract);
    assert |Digits(f.deg)| > 0 && IsDigit(Digits(f.deg)[0]);
  }
}
