/** What the reader of angles makes of letters, signs, marks and blanks, character by character. */
module DmsReading {
  import opened Decimals
  import opened Dms

  // ----- Letters and signs

  /** The text body is an angle of value v on which a letter may follow. */
  ghost predicate Angle(body: string, v: real) {
    && 0 < |body| <= 61 && Graph(body) && !IsSign(body[0])
    && forall c: char :: c in "NnEeSsWw" ==> ReadFields(body + [c], 0, 0.0) == Radians(v, [c])
  }

  lemma WholeWords(t: string)
    requires 0 < |t| <= 62 && Graph(t)
    ensures Read(t) == ReadWord(t) && Read("+" + t) == ReadWord("+" + t) && Read("-" + t) == ReadWord("-" + t)
  {
    hide ReadWord;
    assert Graph("+" + t) && Graph("-" + t);
    assert SkipSpaces(t) == t && SkipSpaces("+" + t) == "+" + t && SkipSpaces("-" + t) == "-" + t;
    WordOf(t, MAX_WORK - 1);
    WordOf("+" + t, MAX_WORK - 1);
    WordOf("-" + t, MAX_WORK - 1);
  }

  lemma SignedWords(t: string)
    requires |t| > 0 && !IsSign(t[0])
    ensures ReadWord(t) == Finish(false, ReadFields(t, 0, 0.0))
    ensures ReadWord("+" + t) == Finish(false, ReadFields(t, 0, 0.0))
    ensures ReadWord("-" + t) == Finish(true, ReadFields(t, 0, 0.0))
  {
    hide ReadFields, Finish;
    assert ("+" + t)[1..] == t && ("-" + t)[1..] == t;
  }

  lemma FinishWithLetter(negative: bool, v: real, c: char)
    requires c in "NnEeSsWw"
    ensures Finish(negative, Radians(v, [c])) == Radians(if c in "SsWw" then -v else v, "")
  {
    assert [c][1..] == "";
  }

  /** A letter for north or east behind an angle gives its value, one for south or west the negative;
      nothing is left of the text, and a sign in front makes no difference. */
  lemma LettersRead(body: string, v: real, c: char)
    requires Angle(body, v) && c in "NnEeSsWw"
    ensures var value := if c == 'S' || c == 's' || c == 'W' || c == 'w' then -v else v;
            && Read(body + [c]) == Radians(value, "")
            && Read("+" + (body + [c])) == Radians(value, "")
            && Read("-" + (body + [c])) == Radians(value, "")
  {
    hide *;
    var t := body + [c];
    AngleAt(body, v, c);
    WholeWords(t);
    SignedWords(t);
    FinishWithLetter(false, v, c);
    FinishWithLetter(true, v, c);
  }

  lemma AngleAt(body: string, v: real, c: char)
    requires Angle(body, v) && c in "NnEeSsWw"
    ensures var t := body + [c]; 0 < |t| <= 62 && Graph(t) && !IsSign(t[0]) && ReadFields(t, 0, 0.0) == Radians(v, [c])
  {
    hide ReadFields;
  }

  /** Without a letter a plus in front changes nothing and a minus negates. */
  lemma SignsRead(body: string, v: real, rest: string)
    requires 0 < |body| <= 62 && Graph(body) && !IsSign(body[0]) && ReadFields(body, 0, 0.0) == Radians(v, rest)
    requires |rest| > 0 ==> rest[0] !in "NnEeSsWw"
    ensures Read(body) == Radians(v, rest) && Read("+" + body) == Radians(v, rest)
    ensures Read("-" + body) == Radians(-v, rest)
  {
    hide Read, ReadWord, ReadFields;
    WholeWords(body);
    SignedWords(body);
  }

  /** The printed fields are such an angle, with their value if stripping is safe. */
  lemma PrintedIsAngle(f: Fields, style: Style)
    requires FieldsFit(f, style.fract) && StripSafe(f, style) && f.deg < 0x8000_0000 && style.fract < 9
    ensures Angle(Body(f, style, '\0'), FieldsValue(f, style.fract))
  {
    hide Body, FieldsValue, StripSafe, ReadFields, FieldsFit, Graph;
    var body, v := Body(f, style, '\0'), FieldsValue(f, style.fract);
    BodyShape(f, style, '\0');
    BodyShape(f, style, 'N');
    LetterBehind(f, style, 'N');
    forall c: char | c in "NnEeSsWw" ensures ReadFields(body + [c], 0, 0.0) == Radians(v, [c]) {
      LetterBehind(f, style, c);
      var w := BodyReads(f, style, c);
    }
  }

  lemma LetterBehind(f: Fields, style: Style, c: char)
    requires c != '\0'
    ensures Body(f, style, c) == Body(f, style, '\0') + [c]
  {
    hide Digits, Padded, SecText, Stripped;
  }

  /** Ninety-six degrees west. */
  lemma WestExample()
    ensures Read("96d0'0\"W") == Radians(-(96.0 * 0.0174532925199433), "")
  {
    hide *;
    WestIsAngle();
    LettersRead("96d0'0\"", 96.0 * 0.0174532925199433, 'W');
    assert "96d0'0\"" + ['W'] == "96d0'0\"W";
  }

  lemma WestIsAngle()
    ensures Angle("96d0'0\"", 96.0 * 0.0174532925199433)
  {
    hide ReadFields;
    forall c: char | c in "NnEeSsWw"
      ensures ReadFields("96d0'0\"" + [c], 0, 0.0) == Radians(96.0 * 0.0174532925199433, [c])
    {
      WestFields(c);
    }
  }

  lemma WestFields(c: char)
    requires c in "NnEeSsWw"
    ensures ReadFields("96d0'0\"" + [c], 0, 0.0) == Radians(96.0 * 0.0174532925199433, [c])
  {
    var v := 96.0 * 0.0174532925199433;
    SmallNumbers();
    WholeReads("0", 0.0);
    assert Adds(v, 0.0, 96.0, 0) && Adds(v, v, 0.0, 1) && Adds(v, v, 0.0, 2);
    assert LetterOrNone(c);
    hide ReadFields, ReadsAs, NatValue, Adds, LetterOrNone;
    WestText(c);
    ThreeFieldsRead("96", "0", "0", 0.0, c, v, v, v);
  }

  lemma SmallNumbers()
    ensures NatValue("96") == 96 && NatValue("0") == 0
  {
    assert "9"[..0] == [] && "96"[..1] == "9" && "0"[..0] == [];
    assert NatValue("9") == 9;
  }

  lemma WestText(c: char)
    requires c != '\0'
    ensures "96" + "d" + "0" + "'" + "0" + "\"" + Letter(c) == "96d0'0\"" + [c]
  {
  }

  // ----- Marks

  /** Digits in front of a mark are degrees, minutes or seconds with the reader's constants. */
  lemma MarksRead(s: string, rest: string, v: real)
    requires |s| > 0 && AllDigits(s)
    ensures var n := NatValue(s) as real;
            && ReadFields(s + "d" + rest, 0, v) == ReadFields(rest, 1, v + n * 0.0174532925199433)
            && ReadFields(s + "D" + rest, 0, v) == ReadFields(rest, 1, v + n * 0.0174532925199433)
            && (forall nl: nat | nl < 2 ::
                 ReadFields(s + "'" + rest, nl, v) == ReadFields(rest, 2, v + n * 0.0002908882086657216))
            && (forall nl: nat | nl < 3 ::
                 ReadFields(s + "\"" + rest, nl, v) == Radians(v + n * 0.0000048481368110953599, rest))
  {
    hide ReadFields, NatValue;
    var n := NatValue(s) as real;
    FieldRead(s, 'd', rest, 0, v, v + n * 0.0174532925199433);
    FieldRead(s, 'D', rest, 0, v, v + n * 0.0174532925199433);
    forall nl: nat | nl < 2
      ensures ReadFields(s + "'" + rest, nl, v) == ReadFields(rest, 2, v + n * 0.0002908882086657216)
    {
      FieldRead(s, '\'', rest, nl, v, v + n * 0.0002908882086657216);
    }
    forall nl: nat | nl < 3
      ensures ReadFields(s + "\"" + rest, nl, v) == Radians(v + n * 0.0000048481368110953599, rest)
    {
      FieldRead(s, '"', rest, nl, v, v + n * 0.0000048481368110953599);
      ReadPast(rest, v + n * 0.0000048481368110953599);
    }
  }

  lemma NumberThen(s: string, c: char, rest: string)
    requires |s| > 0 && AllDigits(s) && !IsDigit(c) && c != '.'
    ensures Strtod(s + [c] + rest) == (NatValue(s) as real, [c] + rest) && StartsNumber(s + [c] + rest)
  {
    assert s + [c] + rest == s + ([c] + rest);
    StrtodWhole(s, [c] + rest);
  }

  /** A mark for a field that has been passed is an error: degrees behind anything, minutes behind
      minutes. */
  lemma MarksOutOfOrder(s: string, rest: string, v: real)
    requires |s| > 0 && AllDigits(s)
    ensures forall nl: nat | 1 <= nl < 3 ::
      ReadFields(s + "d" + rest, nl, v) == BadFormat && ReadFields(s + "D" + rest, nl, v) == BadFormat
    ensures ReadFields(s + "'" + rest, 2, v) == BadFormat
  {
    NumberThen(s, 'd', rest);
    NumberThen(s, 'D', rest);
    NumberThen(s, '\'', rest);
    hide Strtod, StartsNumber, Vm;
  }

  lemma RadianMark(s: string, c: char, rest: string, nl: nat, v: real)
    requires |s| > 0 && AllDigits(s) && (c == 'r' || c == 'R') && nl < 3
    ensures ReadFields(s + [c] + rest, nl, v) == if nl == 0 then Radians(NatValue(s) as real, rest) else BadFormat
  {
    NumberThen(s, c, rest);
    hide Strtod, StartsNumber, Vm, NatValue;
    assert ([c] + rest)[1..] == rest;
  }

  /** Radians stand alone: they end the reading, and behind any field they are an error. */
  lemma RadiansRead(s: string, rest: string, nl: nat, v: real)
    requires |s| > 0 && AllDigits(s) && nl < 3
    ensures ReadFields(s + "r" + rest, nl, v) == if nl == 0 then Radians(NatValue(s) as real, rest) else BadFormat
    ensures ReadFields(s + "R" + rest, nl, v) == if nl == 0 then Radians(NatValue(s) as real, rest) else BadFormat
  {
    hide ReadFields, NatValue;
    RadianMark(s, 'r', rest, nl, v);
    RadianMark(s, 'R', rest, nl, v);
  }

  /** A number without a mark counts for the next field and ends the reading. */
  lemma UnmarkedRead(s: string, rest: string, v: real)
    requires |s| > 0 && AllDigits(s) && Ends(rest)
    requires |rest| > 0 ==> rest[0] !in "dD'\"rR"
    ensures var n := NatValue(s) as real;
            && ReadFields(s + rest, 0, v) == Radians(v + n * 0.0174532925199433, rest)
            && ReadFields(s + rest, 1, v) == Radians(v + n * 0.0002908882086657216, rest)
            && ReadFields(s + rest, 2, v) == Radians(v + n * 0.0000048481368110953599, rest)
  {
    StrtodWhole(s, rest);
    assert StartsNumber(s + rest);
    hide Strtod, NatValue;
  }

  lemma PointRuns(t: string, f: string, tail: string)
    requires t == "." + (f + tail) && AllDigits(f) && Ends(tail)
    ensures |t| > 0 && t[0] == '.' && Run(t) == 0 && Run(t[1..]) == |f|
    ensures t[1..][..|f|] == f && t[1+|f|..] == tail && t[..0] == ""
  {
    RunOf(f, tail);
    assert t[1..] == f + tail;
  }

  lemma StrtodFromPoint(t: string, f: string, tail: string)
    requires t == "." + (f + tail) && AllDigits(f) && Ends(tail)
    ensures Strtod(t) == (if |f| > 0 then (FracValue(f), tail) else (0.0, t)) && StartsNumber(t) && t[0] == '.'
  {
    PointRuns(t, f, tail);
    assert NatValue("") == 0;
    hide FracValue, NatValue, Run, AllDigits;
  }

  lemma PointMarked(t: string, f: string, rest: string, v: real, v1: real)
    requires |f| > 0 && AllDigits(f) && t == "." + (f + (['d'] + rest)) && Adds(v1, v, FracValue(f), 0)
    ensures ReadFields(t, 0, v) == ReadFields(rest, 1, v1)
  {
    hide ReadFields, Strtod, FracValue, StartsNumber, Adds, AllDigits;
    StrtodFromPoint(t, f, ['d'] + rest);
    ReadMarked(t, FracValue(f), 'd', rest, 0, v, v1);
  }

  /** A number may begin with its point. */
  lemma PointFirst(t: string, f: string, rest: string, v: real)
    requires |f| > 0 && AllDigits(f) && t == "." + (f + (['d'] + rest))
    ensures ReadFields(t, 0, v) == ReadFields(rest, 1, v + FracValue(f) * 0.0174532925199433)
  {
    hide ReadFields, FracValue, AllDigits;
    PointMarked(t, f, rest, v, v + FracValue(f) * 0.0174532925199433);
  }

  /** A point alone is no number and ends the reading. */
  lemma PointAlone(t: string, rest: string, nl: nat, v: real)
    requires t == "." + rest && Ends(rest)
    ensures ReadFields(t, nl, v) == Radians(v, t)
  {
    assert rest == "" + rest;
    StrtodFromPoint(t, "", rest);
    hide Strtod, StartsNumber;
  }

  /** Where no digit and no point stands, the reading ends. */
  lemma NoNumber(s: string, nl: nat, v: real)
    requires |s| > 0 && s[0] != '.' && !('0' <= s[0] <= '9')
    ensures ReadFields(s, nl, v) == Radians(v, s) && ReadFields("", nl, v) == Radians(v, "")
  {
  }

  // ----- Words

  /** White space in front is skipped. */
  lemma SpacesSkipped(c: char, s: string)
    requires c == ' ' || 9 <= c as int <= 13
    ensures Read([c] + s) == Read(s)
  {
    hide ReadWord, Word;
    assert ([c] + s)[1..] == s;
  }

  lemma {:induction false} WordCut(s: string, t: string, n: nat)
    requires Graph(s) && (|s| == n || (|s| < n && |t| > 0 && !('!' <= t[0] <= '~')))
    ensures Word(s + t, n) == s
    decreases n
  {
    if |s| > 0 {
      WordCut(s[1..], t, n - 1);
      assert (s + t)[1..] == s[1..] + t && s == [s[0]] + s[1..];
    } else {
      assert s + t == t;
    }
  }

  /** The word ends behind 63 characters, or at a character that does not print. */
  lemma WordEnds(s: string, t: string)
    requires 0 < |s| <= 63 && forall i | 0 <= i < |s| :: '!' <= s[i] <= '~'
    requires |s| == 63 || (|t| > 0 && !('!' <= t[0] <= '~'))
    ensures Read(s + t) == Read(s)
  {
    assert Graph(s);
    WordCut(s, t, 63);
    WordOf(s, 63);
    assert SkipSpaces(s + t) == s + t && SkipSpaces(s) == s;
    hide ReadWord, Word;
  }
}
