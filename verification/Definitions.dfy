/** Definition strings: printing the used parameters of a coordinate system and splitting such a text
    into parameters again. */
module Definitions {
  import opened CStrings
  import opened Params

  // ----- Printing

  /** The used parameters, each behind a blank and a plus. */
  ghost function Printed(texts: seq<string>, used: seq<bool>): string
    requires |texts| == |used|
  {
    if |texts| == 0 then ""
    else Printed(texts[..|texts|-1], used[..|used|-1]) + if used[|used|-1] then " +" + texts[|texts|-1] else ""
  }

  ghost function Uses(nodes: seq<Param>): (r: seq<bool>)
    reads nodes
    ensures |r| == |nodes|
  {
    seq(|nodes|, i requires 0 <= i < |nodes| reads nodes => nodes[i].used)
  }

  /** Replaces the buffer by a larger one with the same string in it. */
  method Grow(buf: array<char>, size: nat, ghost t: string) returns (larger: array<char>)
    requires Holds(buf, t) && NoNul(t) && |t| < size
    ensures fresh(larger) && larger.Length == size && Holds(larger, t)
  {
    larger := new char[size](_ => '\0');
    var i := 0;
    while buf[i] != '\0'
      invariant i <= |t| && larger[..i] == t[..i] && Holds(buf, t)
      decreases |t| - i
    {
      larger[i] := buf[i];
      i := i + 1;
    }
    larger[i] := '\0';
  }

  lemma PrintedStep(texts: seq<string>, used: seq<bool>, i: nat)
    requires |texts| == |used| && i < |texts|
    ensures Printed(texts[..i+1], used[..i+1])
         == Printed(texts[..i], used[..i]) + if used[i] then " +" + texts[i] else ""
  {
    assert texts[..i+1][..i] == texts[..i] && used[..i+1][..i] == used[..i];
  }

  /** Appends one parameter, growing the buffer first if it might not fit. */
  method AppendParam(buf: array<char>, defMax: nat, text: string, ghost t: string)
    returns (definition: array<char>, size: nat)
    requires Holds(buf, t) && NoNul(t) && NoNul(text) && buf.Length == defMax
    modifies buf
    ensures definition == buf || fresh(definition)
    ensures definition.Length == size && Holds(definition, t + (" +" + text)) && NoNul(t + (" +" + text))
  {
    definition, size := buf, defMax;
    var l := |text| + 1;
    var n := Strlen(definition, t);
    if n + l + 5 > size {
      size := size * 2 + l + 5;
      definition := Grow(definition, size, t);
    }
    assert definition[..n] == t;
    Write(definition, n, " +");
    assert definition[..n+2] == t + " +";
    Write(definition, n + 2, text);
    assert t + " +" + text == t + (" +" + text);
  }

  /** The definition string of a parameter list, in a buffer that grows as needed. */
  method GetDef(head: Param?, ghost nodes: seq<Param>) returns (definition: array<char>)
    requires Linked(head, nodes) && forall i | 0 <= i < |nodes| :: NoNul(nodes[i].text)
    ensures fresh(definition) && Holds(definition, Printed(Texts(nodes), Uses(nodes)))
    ensures NoNul(Printed(Texts(nodes), Uses(nodes)))
  {
    hide Printed, NoNul, Holds;
    var defMax := 10;
    definition := EmptyBuffer(defMax);
    ghost var texts, used := Texts(nodes), Uses(nodes);
    PrintedEmpty(texts, used);
    ghost var t := "";
    var p := head;
    ghost var i := 0;
    while p != null
      invariant 0 <= i <= |nodes| && p == if i < |nodes| then nodes[i] else null
      invariant fresh(definition) && definition.Length == defMax && Holds(definition, t) && NoNul(t)
      invariant t == Printed(texts[..i], used[..i])
      decreases |nodes| - i
    {
      PrintedStep(texts, used, i);
      if p.used {
        definition, defMax := AppendParam(definition, defMax, p.text, t);
        t := t + (" +" + p.text);
      }
      p := p.next;
      i := i + 1;
    }
    assert texts[..i] == texts && used[..i] == used;
  }

  method EmptyBuffer(size: nat) returns (buf: array<char>)
    requires size > 0
    ensures fresh(buf) && buf.Length == size && Holds(buf, "") && NoNul("")
  {
    buf := new char[size](_ => '\0');
  }

  lemma PrintedEmpty(texts: seq<string>, used: seq<bool>)
    ensures Printed(texts[..0], used[..0]) == ""
  {
  }

  // ----- Splitting

  const MAX_ARG: nat := 200

  predicate IsBlank(c: char) {
    c == ' ' || c == '\t' || c == '\n'
  }

  /** What the splitter knows after a prefix of the text: the parameters so far, whether the last one
      was ended by a blank at its start, the blanks that may turn out to end it, and whether the next
      position follows a cleared character or starts the last parameter. */
  datatype Scan = Scan(args: seq<string>, dead: bool, blanks: string, afterNul: bool, atStart: bool, tooMany: bool)

  const START: Scan := Scan([], false, "", true, false, false)

  function Extend(st: Scan, c: char): Scan {
    if |st.args| > 0 && !st.dead then
      Scan(st.args[..|st.args|-1] + [st.args[|st.args|-1] + st.blanks + [c]], false, "", false, false, st.tooMany)
    else st.(blanks := "", afterNul := false, atStart := false)
  }

  function Step(st: Scan, c: char): Scan {
    if st.tooMany then st
    else if c == '+' && (st.afterNul || |st.blanks| > 0) then
      if |st.args| + 1 == MAX_ARG then st.(tooMany := true)
      else Scan(st.args + [""], false, "", false, true, false)
    else if IsBlank(c) then
      if st.afterNul || |st.args| == 0 || st.atStart then
        st.(dead := st.dead || st.atStart, afterNul := true, atStart := false)
      else st.(blanks := st.blanks + [c])
    else Extend(st, c)
  }

  function ScanFrom(st: Scan, s: string): Scan
    decreases |s|
  {
    if |s| == 0 then st else ScanFrom(Step(st, s[0]), s[1..])
  }

  datatype Arguments = Arguments(args: seq<string>) | TooMany

  /** The parameters that the text splits into. */
  function Split(s: string): Arguments {
    var st := ScanFrom(START, s);
    if st.tooMany then TooMany else Arguments(st.args)
  }

  // ----- Splitting in place

  /** The string t starts at index at. */
  ghost predicate HeldIn(cells: seq<char>, at: nat, t: string) {
    at + |t| < |cells| && cells[at..at+|t|] == t && cells[at+|t|] == '\0' && NoNul(t)
  }

  /** How the buffer and the argument vector stand after i characters. */
  ghost predicate InStep(buf: array<char>, argv: array<nat>, s: string, i: nat, blankCount: nat, argc: nat, st: Scan)
    reads buf, argv
  {
    && buf.Length == |s| + 1 && argv.Length == MAX_ARG && i <= |s|
    && (forall k | i <= k < |s| :: buf[k] == s[k]) && buf[|s|] == '\0'
    && argc == |st.args| < MAX_ARG && blankCount == |st.blanks| && !st.tooMany
    && (st.afterNul <==> i == 0 || buf[i-1] == '\0') && (st.afterNul ==> blankCount == 0)
    && (st.atStart <==> argc > 0 && argv[argc-1] == i)
    && (argc == 0 ==> blankCount == 0 && !st.dead)
    && (forall a | 0 <= a < argc - 1 :: HeldIn(buf[..], argv[a], st.args[a]) && argv[a] + |st.args[a]| < argv[argc-1])
    && (argc > 0 ==> LastInStep(buf[..], argv[argc-1], i, st))
  }

  /** How the last argument, which starts at index at, stands after i characters. */
  ghost predicate LastInStep(buf: seq<char>, at: nat, i: nat, st: Scan)
    requires |st.args| > 0 && i < |buf|
  {
    var last := st.args[|st.args|-1];
    && (st.afterNul ==> st.dead)
    && if st.dead then
         last == "" && at + |st.blanks| < i && buf[at] == '\0'
       else
         at + |last| + |st.blanks| == i && buf[at..at+|last|] == last && NoNul(last)
         && buf[at+|last|..i] == st.blanks && NoNul(st.blanks)
  }

  lemma ScanFromStep(st: Scan, s: string, i: nat)
    requires i < |s|
    ensures ScanFrom(st, s[i..]) == ScanFrom(Step(st, s[i]), s[i+1..])
  {
    assert s[i..][1..] == s[i+1..];
  }

  /** A character that stays in the text. */
  lemma KeepChar(buf: array<char>, argv: array<nat>, s: string, i: nat, blankCount: nat, argc: nat, st: Scan)
    requires InStep(buf, argv, s, i, blankCount, argc, st) && i < |s| && s[i] != '\0'
    requires !IsBlank(s[i]) && (s[i] == '+' ==> !st.afterNul && |st.blanks| == 0)
    ensures InStep(buf, argv, s, i + 1, 0, argc, Step(st, s[i]))
  {
    if argc > 0 && !st.dead {
      var at, last := argv[argc-1], st.args[argc-1];
      assert buf[at..i+1] == last + st.blanks + [s[i]];
    }
  }

  /** A blank that may end the last argument. */
  lemma CountBlank(buf: array<char>, argv: array<nat>, s: string, i: nat, blankCount: nat, argc: nat, st: Scan)
    requires InStep(buf, argv, s, i, blankCount, argc, st) && i < |s|
    requires IsBlank(s[i]) && !st.afterNul && argc > 0 && !st.atStart
    ensures InStep(buf, argv, s, i + 1, blankCount + 1, argc, Step(st, s[i]))
  {
    if !st.dead {
      var at, last := argv[argc-1], st.args[argc-1];
      assert buf[at+|last|..i+1] == st.blanks + [s[i]];
    }
  }

  lemma StaysHeld(was: seq<char>, now: seq<char>, at: nat, t: string)
    requires HeldIn(was, at, t) && |now| == |was| && forall k | at <= k <= at + |t| :: now[k] == was[k]
    ensures HeldIn(now, at, t)
  {
    assert now[at..at+|t|] == was[at..at+|t|];
  }

  /** A blank before the first argument or at the start of the last one is cleared. */
  method ClearBlank(buf: array<char>, argv: array<nat>, ghost s: string, i: nat, ghost blankCount: nat, argc: nat,
                    ghost st: Scan)
    requires InStep(buf, argv, s, i, blankCount, argc, st) && i < |s|
    requires IsBlank(s[i]) && (st.afterNul || argc == 0 || st.atStart)
    modifies buf
    ensures InStep(buf, argv, s, i + 1, blankCount, argc, Step(st, s[i]))
  {
    ghost var was := buf[..];
    buf[i] := '\0';
    forall a | 0 <= a < argc - 1 ensures HeldIn(buf[..], argv[a], st.args[a]) {
      StaysHeld(was, buf[..], argv[a], st.args[a]);
    }
  }

  /** Ends the last argument in front of its trailing blanks. */
  method EndLast(buf: array<char>, argv: array<nat>, ghost s: string, i: nat, blankCount: nat, argc: nat,
                 ghost st: Scan)
    requires InStep(buf, argv, s, i, blankCount, argc, st)
    requires blankCount > 0 || st.afterNul || buf[i] == '\0'
    modifies buf
    ensures blankCount > 0 ==> buf[i-blankCount] == '\0'
    ensures forall k | 0 <= k < buf.Length && (blankCount == 0 || k != i - blankCount) :: buf[k] == old(buf[k])
    ensures forall a | 0 <= a < argc :: HeldIn(buf[..], argv[a], st.args[a]) && argv[a] + |st.args[a]| < i + 1
    ensures blankCount > 0 || st.afterNul ==> forall a | 0 <= a < argc :: argv[a] + |st.args[a]| < i
  {
    hide HeldIn, NoNul;
    ghost var was := buf[..];
    if argc > 0 { LastBehind(was, argv[argc-1], i, st); }
    if blankCount > 0 {
      buf[i-blankCount] := '\0';
    }
    forall a | 0 <= a < argc - 1 ensures HeldIn(buf[..], argv[a], st.args[a]) {
      StaysHeld(was, buf[..], argv[a], st.args[a]);
    }
    if argc > 0 {
      LastHeld(was, buf[..], argv[argc-1], i, st);
    }
  }

  lemma LastBehind(was: seq<char>, at: nat, i: nat, st: Scan)
    requires |st.args| > 0 && i < |was| && LastInStep(was, at, i, st)
    ensures at + |st.blanks| <= i && (st.afterNul ==> at < i)
  {
  }

  /** Clearing the first pending blank ends the last argument. */
  lemma LastHeld(was: seq<char>, now: seq<char>, at: nat, i: nat, st: Scan)
    requires |st.args| > 0 && i < |was| == |now| && LastInStep(was, at, i, st)
    requires |st.blanks| > 0 || st.afterNul || was[i] == '\0'
    requires |st.blanks| > 0 ==> now[i-|st.blanks|] == '\0'
    requires forall k | 0 <= k < |was| && (|st.blanks| == 0 || k != i - |st.blanks|) :: now[k] == was[k]
    ensures HeldIn(now, at, st.args[|st.args|-1]) && at + |st.args[|st.args|-1]| < i + 1
    ensures |st.blanks| > 0 || st.afterNul ==> at + |st.args[|st.args|-1]| < i
  {
    var last := st.args[|st.args|-1];
    if !st.dead {
      assert now[at..at+|last|] == was[at..at+|last|];
    }
  }

  /** A plus that starts the next argument. */
  method StartArgument(buf: array<char>, argv: array<nat>, ghost s: string, i: nat, blankCount: nat, argc: nat,
                       ghost st: Scan)
    requires InStep(buf, argv, s, i, blankCount, argc, st) && i < |s|
    requires s[i] == '+' && (st.afterNul || blankCount > 0) && argc + 1 < MAX_ARG
    modifies buf, argv
    ensures InStep(buf, argv, s, i + 1, 0, argc + 1, Step(st, s[i]))
  {
    EndLast(buf, argv, s, i, blankCount, argc, st);
    argv[argc] := i + 1;
  }

  lemma InStepFacts(buf: array<char>, argv: array<nat>, s: string, i: nat, blankCount: nat, argc: nat, st: Scan)
    requires InStep(buf, argv, s, i, blankCount, argc, st) && i < |s|
    ensures buf.Length == |s| + 1 && argv.Length == MAX_ARG && argc == |st.args| < MAX_ARG && buf[i] == s[i]
    ensures blankCount == |st.blanks| && !st.tooMany
    ensures st.afterNul <==> i == 0 || buf[i-1] == '\0'
    ensures st.atStart <==> argc > 0 && argv[argc-1] == i
    ensures blankCount > 0 ==> !st.afterNul
  {
  }

  lemma {:induction false} TooManyStays(st: Scan, s: string)
    requires st.tooMany
    ensures ScanFrom(st, s).tooMany
    decreases |s|
  {
    if |s| > 0 {
      TooManyStays(Step(st, s[0]), s[1..]);
    }
  }

  /** The last argument is ended at the end of the text. */
  method FinishSplit(buf: array<char>, argv: array<nat>, ghost s: string, blankCount: nat, argc: nat, ghost st: Scan)
    requires InStep(buf, argv, s, |s|, blankCount, argc, st)
    modifies buf
    ensures argc == |st.args| < MAX_ARG && !st.tooMany && argv[..] == old(argv[..])
    ensures forall a | 0 <= a < argc :: HeldIn(buf[..], argv[a], st.args[a])
  {
    var i := buf.Length - 1;
    EndLast(buf, argv, s, i, blankCount, argc, st);
  }

  /** One round of the splitter; fails when the arguments run out. */
  method SplitChar(buf: array<char>, argv: array<nat>, ghost s: string, i: nat, blanks: nat, count: nat, ghost st: Scan)
    returns (ok: bool, blankCount: nat, argc: nat)
    requires InStep(buf, argv, s, i, blanks, count, st) && i < |s| && NoNul(s)
    modifies buf, argv
    ensures ok ==> InStep(buf, argv, s, i + 1, blankCount, argc, Step(st, s[i]))
    ensures !ok ==> Step(st, s[i]).tooMany && argc < MAX_ARG
  {
    InStepFacts(buf, argv, s, i, blanks, count, st);
    hide InStep;
    ok, blankCount, argc := true, blanks, count;
    if buf[i] == '+' {
      if i == 0 || buf[i-1] == '\0' || blankCount > 0 {
        if argc + 1 == MAX_ARG {
          ok := false;
          return;
        }
        StartArgument(buf, argv, s, i, blankCount, argc, st);
        argc := argc + 1;
        blankCount := 0;
      } else {
        KeepChar(buf, argv, s, i, blankCount, argc, st);
      }
    } else if IsBlank(buf[i]) {
      if i == 0 || buf[i-1] == '\0' || argc == 0 || argv[argc-1] == i {
        ClearBlank(buf, argv, s, i, blankCount, argc, st);
      } else {
        CountBlank(buf, argv, s, i, blankCount, argc, st);
        blankCount := blankCount + 1;
      }
    } else {
      KeepChar(buf, argv, s, i, blankCount, argc, st);
      blankCount := 0;
    }
  }

  lemma ScanEmpty(st: Scan, s: string)
    requires |s| == 0
    ensures ScanFrom(st, s) == st
  {
  }

  /** A copy of the text that can be cut up, and an empty argument vector. */
  method StartSplit(definition: string) returns (buf: array<char>, argv: array<nat>)
    requires NoNul(definition)
    ensures fresh(buf) && fresh(argv) && buf.Length == |definition| + 1 && argv.Length == MAX_ARG
    ensures InStep(buf, argv, definition, 0, 0, 0, START)
  {
    argv := new nat[MAX_ARG](_ => 0);
    buf := new char[|definition| + 1](_ => '\0');
    Write(buf, 0, definition);
    assert forall k | 0 <= k < |definition| :: buf[k] == buf[..|definition|][k];
  }

  /** Splits the text in place: copies it, clears separators and collects the starts of the
      arguments. */
  method SplitInPlace(definition: string) returns (ok: bool, buf: array<char>, argv: array<nat>, argc: nat)
    requires NoNul(definition)
    ensures fresh(buf) && fresh(argv) && argv.Length == MAX_ARG && argc < MAX_ARG
    ensures !ok <==> Split(definition).TooMany?
    ensures ok ==> argc == |Split(definition).args|
    ensures ok ==> forall a | 0 <= a < argc :: HeldIn(buf[..], argv[a], Split(definition).args[a])
  {
    hide InStep, Step, HeldIn;
    buf, argv := StartSplit(definition);
    argc := 0;
    var i, blankCount := 0, 0;
    ghost var st := START;
    assert definition[0..] == definition;
    while i < |definition|
      invariant i <= |definition| && buf.Length == |definition| + 1 && argv.Length == MAX_ARG
      invariant InStep(buf, argv, definition, i, blankCount, argc, st)
      invariant ScanFrom(st, definition[i..]) == ScanFrom(START, definition)
      decreases |definition| - i
    {
      ScanFromStep(st, definition, i);
      hide ScanFrom;
      ok, blankCount, argc := SplitChar(buf, argv, definition, i, blankCount, argc, st);
      if !ok {
        TooManyStays(Step(st, definition[i]), definition[i+1..]);
        return;
      }
      st := Step(st, definition[i]);
      i := i + 1;
    }
    ScanEmpty(st, definition[i..]);
    FinishSplit(buf, argv, definition, blankCount, argc, st);
    ok := true;
  }

  // ----- Round trip

  /** The splitter neither trims nor breaks the text: no blank at its ends and none before a plus. */
  predicate Clean(p: string) {
    && (|p| > 0 ==> !IsBlank(p[0]) && !IsBlank(p[|p|-1]))
    && forall i | 0 <= i < |p| - 1 :: IsBlank(p[i]) ==> p[i+1] != '+'
  }

  ghost predicate AllBlank(s: string) {
    forall i | 0 <= i < |s| :: IsBlank(s[i])
  }

  lemma {:induction false} ScanConcat(st: Scan, a: string, b: string)
    ensures ScanFrom(st, a + b) == ScanFrom(ScanFrom(st, a), b)
    decreases |a|
  {
    if |a| == 0 {
      assert a + b == b;
    } else {
      assert (a + b)[1..] == a[1..] + b;
      ScanConcat(Step(st, a[0]), a[1..], b);
    }
  }

  /** The scan stands behind a complete argument list. */
  function Behind(args: seq<string>, atStart: bool): Scan {
    Scan(args, false, "", false, atStart, false)
  }

  /** The scan stands j characters into the clean parameter p, after the arguments args. */
  function Inside(args: seq<string>, p: string, j: nat, blanks: nat): Scan
    requires blanks <= j <= |p|
  {
    Scan(args + [p[..j-blanks]], false, p[j-blanks..j], false, j == 0, false)
  }

  lemma LastIsBlank(p: string, j: nat, blanks: nat)
    requires 0 < blanks <= j <= |p| && AllBlank(p[j-blanks..j])
    ensures IsBlank(p[j-1])
  {
    assert p[j-blanks..j][blanks-1] == p[j-1];
  }

  lemma InsideStep(args: seq<string>, p: string, j: nat, blanks: nat)
    requires Clean(p) && blanks <= j < |p| && AllBlank(p[j-blanks..j]) && (j > 0 ==> blanks < j)
    ensures var b := if IsBlank(p[j]) then blanks + 1 else 0;
            b <= j + 1 && b < j + 1 && AllBlank(p[j+1-b..j+1]) &&
            Step(Inside(args, p, j, blanks), p[j]) == Inside(args, p, j + 1, b)
  {
    var st := Inside(args, p, j, blanks);
    if IsBlank(p[j]) {
      assert p[j-blanks..j+1] == p[j-blanks..j] + [p[j]];
    } else {
      if p[j] == '+' && blanks > 0 {
        LastIsBlank(p, j, blanks);
      }
      assert st.args[..|st.args|-1] == args;
      assert p[..j+1] == p[..j-blanks] + p[j-blanks..j] + [p[j]];
    }
  }

  lemma EndIsBlank(p: string, blanks: nat)
    requires blanks <= |p| && AllBlank(p[|p|-blanks..|p|])
    ensures blanks > 0 ==> IsBlank(p[|p|-1])
  {
    if blanks > 0 { LastIsBlank(p, |p|, blanks); }
  }

  lemma InsideWhole(args: seq<string>, p: string, blanks: nat)
    requires Clean(p) && blanks <= |p| && AllBlank(p[|p|-blanks..|p|]) && (|p| > 0 ==> blanks < |p|)
    ensures Inside(args, p, |p|, blanks) == Behind(args + [p], |p| == 0)
  {
    EndIsBlank(p, blanks);
    assert p[..|p|] == p && p[|p|..|p|] == "";
  }

  /** Scanning the rest of a clean parameter completes it. */
  lemma {:induction false} ScanParameter(args: seq<string>, p: string, j: nat, blanks: nat)
    requires Clean(p) && blanks <= j <= |p| && AllBlank(p[j-blanks..j]) && (j > 0 ==> blanks < j)
    ensures ScanFrom(Inside(args, p, j, blanks), p[j..]) == Behind(args + [p], |p| == 0)
    decreases |p| - j
  {
    hide Inside, Behind, ScanFrom, Step, Clean, IsBlank, AllBlank;
    if j == |p| {
      InsideWhole(args, p, blanks);
      ScanEmpty(Inside(args, p, j, blanks), p[j..]);
    } else {
      InsideStep(args, p, j, blanks);
      ScanFromStep(Inside(args, p, j, blanks), p, j);
      ScanParameter(args, p, j + 1, if IsBlank(p[j]) then blanks + 1 else 0);
    }
  }

  /** The scan behind a complete argument list, or at the very start. */
  function Ready(args: seq<string>, atStart: bool): Scan {
    if |args| == 0 then START else Behind(args, atStart)
  }

  /** A blank and a plus start the next argument. */
  lemma ScanSeparator(args: seq<string>, atStart: bool)
    requires |args| + 1 < MAX_ARG
    ensures ScanFrom(Ready(args, atStart), " +") == Inside(args, "", 0, 0)
  {
    var st := Ready(args, atStart);
    var st1 := Step(st, ' ');
    assert " +"[1..] == "+" && "+"[1..] == "";
    assert ScanFrom(st, " +") == ScanFrom(st1, "+") == ScanFrom(Step(st1, '+'), "") == Step(st1, '+');
  }

  lemma ScanOneMore(args: seq<string>, atStart: bool, p: string)
    requires |args| + 1 < MAX_ARG && Clean(p)
    ensures ScanFrom(Ready(args, atStart), " +" + p) == Behind(args + [p], |p| == 0)
  {
    hide ScanFrom, Ready, Clean;
    ScanConcat(Ready(args, atStart), " +", p);
    ScanSeparator(args, atStart);
    ScanParameter(args, p, 0, 0);
    assert p[0..] == p && Inside(args, "", 0, 0) == Inside(args, p, 0, 0);
  }

  /** All parameters printed, each behind a blank and a plus. */
  function Joined(ps: seq<string>): string {
    if |ps| == 0 then "" else Joined(ps[..|ps|-1]) + (" +" + ps[|ps|-1])
  }

  predicate LastEmpty(ps: seq<string>) {
    |ps| > 0 && |ps[|ps|-1]| == 0
  }

  /** Scanning the printed clean parameters yields them. */
  lemma {:induction false} ScanJoined(ps: seq<string>)
    requires |ps| < MAX_ARG && forall i | 0 <= i < |ps| :: Clean(ps[i])
    ensures ScanFrom(START, Joined(ps)) == Ready(ps, LastEmpty(ps))
  {
    if |ps| > 0 {
      hide ScanFrom, Clean;
      var before, p := ps[..|ps|-1], ps[|ps|-1];
      ScanJoined(before);
      ScanConcat(START, Joined(before), " +" + p);
      ScanOneMore(before, LastEmpty(before), p);
      assert before + [p] == ps;
    }
  }

  /** What every reachable scan satisfies. */
  ghost predicate Tidy(st: Scan) {
    && |st.args| < MAX_ARG && AllBlank(st.blanks)
    && (forall i | 0 <= i < |st.args| :: Clean(st.args[i]))
    && (|st.args| > 0 && !st.dead && |st.args[|st.args|-1]| == 0 ==> |st.blanks| == 0 && (st.atStart || st.tooMany))
    && (st.afterNul && !st.tooMany ==> |st.args| == 0 || st.dead)
  }

  /** A clean text stays clean when blanks and a character that is not blank follow. */
  lemma CleanExtended(last: string, blanks: string, c: char)
    requires Clean(last) && AllBlank(blanks) && !IsBlank(c)
    requires c == '+' ==> |blanks| == 0
    requires |last| == 0 ==> |blanks| == 0
    ensures Clean(last + blanks + [c])
  {
    var t := last + blanks + [c];
    forall i | 0 <= i < |t| - 1 && IsBlank(t[i]) ensures t[i+1] != '+' {
      if |last| <= i + 1 < |last| + |blanks| {
        assert t[i+1] == blanks[i+1-|last|];
      }
    }
  }

  lemma StepTidy(st: Scan, c: char)
    requires Tidy(st)
    ensures Tidy(Step(st, c))
  {
    if !st.tooMany && !(c == '+' && (st.afterNul || |st.blanks| > 0)) && !IsBlank(c) && |st.args| > 0 && !st.dead {
      hide Clean;
      CleanExtended(st.args[|st.args|-1], st.blanks, c);
    } else {
      assert Clean("");
    }
  }

  lemma {:induction false} ScanTidy(st: Scan, s: string)
    requires Tidy(st)
    ensures Tidy(ScanFrom(st, s))
    decreases |s|
  {
    if |s| > 0 {
      StepTidy(st, s[0]);
      ScanTidy(Step(st, s[0]), s[1..]);
    }
  }

  /** Whatever the text, the splitter yields clean parameters, at most 199 of them. */
  lemma SplitIsClean(s: string)
    requires Split(s).Arguments?
    ensures |Split(s).args| <= 199 && forall i | 0 <= i < |Split(s).args| :: Clean(Split(s).args[i])
  {
    ScanTidy(START, s);
  }

  /** Printing and splitting gives the parameters back exactly when each is clean and there are at
      most 199. */
  lemma SplitOfJoined(ps: seq<string>)
    ensures Split(Joined(ps)) == Arguments(ps) <==> |ps| <= 199 && forall i | 0 <= i < |ps| :: Clean(ps[i])
  {
    if |ps| < MAX_ARG && forall i | 0 <= i < |ps| :: Clean(ps[i]) {
      ScanJoined(ps);
    }
    if Split(Joined(ps)) == Arguments(ps) {
      SplitIsClean(Joined(ps));
    }
  }

  /** The parameters that are printed. */
  ghost function UsedTexts(texts: seq<string>, used: seq<bool>): seq<string>
    requires |texts| == |used|
  {
    if |texts| == 0 then []
    else UsedTexts(texts[..|texts|-1], used[..|used|-1]) + if used[|used|-1] then [texts[|texts|-1]] else []
  }

  lemma {:induction false} PrintedIsJoined(texts: seq<string>, used: seq<bool>)
    requires |texts| == |used|
    ensures Printed(texts, used) == Joined(UsedTexts(texts, used))
  {
    if |texts| > 0 {
      PrintedIsJoined(texts[..|texts|-1], used[..|used|-1]);
      var ps := UsedTexts(texts[..|texts|-1], used[..|used|-1]);
      var p := texts[|texts|-1];
      if used[|used|-1] {
        assert (ps + [p])[..|ps|] == ps;
      } else {
        assert ps + [] == ps;
      }
    }
  }

  /** The printed definition splits into the used parameters, in order, exactly when they are clean
      and at most 199. */
  lemma DefinitionRoundTrip(texts: seq<string>, used: seq<bool>)
    requires |texts| == |used|
    ensures var ps := UsedTexts(texts, used);
            Split(Printed(texts, used)) == Arguments(ps) <==> |ps| <= 199 && forall i | 0 <= i < |ps| :: Clean(ps[i])
  {
    PrintedIsJoined(texts, used);
    SplitOfJoined(UsedTexts(texts, used));
  }

  // ----- Texts as they are written

  predicate White(s: string) {
    forall i | 0 <= i < |s| :: s[i] == ' ' || s[i] == '\t' || s[i] == '\n'
  }

  lemma FirstPlus(p: string)
    requires Clean(p)
    ensures ScanFrom(START, "+" + p) == Behind([p], |p| == 0)
  {
    hide Clean;
    var none: seq<string> := [];
    assert Step(START, '+') == Inside(none, p, 0, 0);
    assert ("+" + p)[1..] == p && p[0..] == p;
    assert none + [p] == [p];
    hide Step, Inside, Behind;
    ScanParameter(none, p, 0, 0);
  }

  lemma {:induction false} PendingBlanks(args: seq<string>, blanks: string, ws: string)
    requires |args| > 0 && White(ws)
    ensures ScanFrom(Scan(args, false, blanks, false, false, false), ws)
         == Scan(args, false, blanks + ws, false, false, false)
    decreases |ws|
  {
    if |ws| == 0 {
      assert blanks + ws == blanks;
    } else {
      PendingBlanks(args, blanks + [ws[0]], ws[1..]);
      assert blanks + [ws[0]] + ws[1..] == blanks + ws;
    }
  }

  lemma NextPlus(args: seq<string>, ws: string, p: string)
    requires 0 < |args| < 199 && |ws| > 0 && White(ws) && Clean(p)
    ensures ScanFrom(Behind(args, false), ws + ("+" + p)) == Behind(args + [p], |p| == 0)
  {
    hide Clean;
    var st := Scan(args, false, ws, false, false, false);
    ScanConcat(Behind(args, false), ws, "+" + p);
    PendingBlanks(args, "", ws);
    assert "" + ws == ws;
    assert Step(st, '+') == Inside(args, p, 0, 0);
    assert ("+" + p)[1..] == p && p[0..] == p;
    hide Step, Inside, Behind;
    ScanParameter(args, p, 0, 0);
  }

  /** Any blanks, tabs and newlines between two parameters separate them. */
  lemma WhiteSeparates(a: string, ws: string, b: string)
    requires Clean(a) && |a| > 0 && |ws| > 0 && White(ws) && Clean(b)
    ensures Split("+" + a + (ws + ("+" + b))) == Arguments([a, b])
  {
    hide Clean, ScanFrom;
    ScanConcat(START, "+" + a, ws + ("+" + b));
    FirstPlus(a);
    NextPlus([a], ws, b);
    assert [a] + [b] == [a, b];
  }

  /** Behind any other character a plus is part of the parameter. */
  lemma OthersDoNot(c: char)
    requires c != ' ' && c != '\t' && c != '\n'
    ensures Split("+a" + [c] + "+b") == Arguments(["a" + [c] + "+b"])
  {
    var p := "a" + [c] + "+b";
    assert p == ['a', c, '+', 'b'] && Clean(p);
    assert "+a" + [c] + "+b" == "+" + p;
    hide Clean, ScanFrom;
    FirstPlus(p);
  }

  /** The printed form of three parameters of which the second one was not used. */
  lemma PrintedThree(a: string, b: string, c: string)
    ensures Printed([a, b, c], [true, false, true]) == " +" + a + " +" + c
  {
    var texts, used := [a, b, c], [true, false, true];
    PrintedStep(texts, used, 2);
    PrintedStep(texts, used, 1);
    PrintedStep(texts, used, 0);
    PrintedEmpty(texts, used);
    hide Printed;
    assert texts[..3] == texts && used[..3] == used;
    assert "" + (" +" + a) == " +" + a && " +" + a + "" == " +" + a;
    assert " +" + a + (" +" + c) == " +" + a + " +" + c;
  }

  // ----- From a list to its definition and back

  /** The length of the printed parameters. */
  function Bulk(ps: seq<string>): nat {
    if |ps| == 0 then 0 else Bulk(ps[..|ps|-1]) + |ps[|ps|-1]| + 2
  }

  lemma {:induction false} JoinedLength(ps: seq<string>)
    ensures |Joined(ps)| == Bulk(ps) && (|ps| > 0 ==> |Joined(ps)| > 0 && Joined(ps)[0] == ' ')
  {
    if |ps| > 0 { JoinedLength(ps[..|ps|-1]); }
  }

  /** What a scan has used up at least. */
  function Weight(st: Scan): nat {
    Bulk(st.args) + |st.blanks| + if st.afterNul then 1 else 0
  }

  lemma BulkSnoc(ps: seq<string>, p: string)
    ensures Bulk(ps + [p]) == Bulk(ps) + |p| + 2
  {
    assert (ps + [p])[..|ps|] == ps;
  }

  lemma StepWeight(st: Scan, c: char)
    ensures Weight(Step(st, c)) <= Weight(st) + 1
  {
    BulkSnoc(st.args, "");
    if |st.args| > 0 {
      BulkSnoc(st.args[..|st.args|-1], st.args[|st.args|-1] + st.blanks + [c]);
    }
  }

  lemma {:induction false} ScanWeight(st: Scan, s: string)
    ensures Weight(ScanFrom(st, s)) <= Weight(st) + |s|
    decreases |s|
  {
    if |s| > 0 {
      StepWeight(st, s[0]);
      ScanWeight(Step(st, s[0]), s[1..]);
    }
  }

  /** The arguments of a printed list are together no longer than the list. */
  lemma JoinedWeight(ps: seq<string>)
    requires |ps| > 0
    ensures Bulk(ScanFrom(START, Joined(ps)).args) <= Bulk(ps)
  {
    var s := Joined(ps);
    JoinedLength(ps);
    ScanWeight(Step(START, s[0]), s[1..]);
  }

  ghost function Stripped(args: seq<string>): (r: seq<string>)
    ensures |r| == |args|
  {
    seq(|args|, i requires 0 <= i < |args| => StripPlus(args[i]))
  }

  lemma {:induction false} StrippedBulk(args: seq<string>)
    ensures Bulk(Stripped(args)) <= Bulk(args)
    ensures Bulk(Stripped(args)) == Bulk(args) ==> Stripped(args) == args
  {
    if |args| > 0 {
      var before, last := args[..|args|-1], args[|args|-1];
      StrippedBulk(before);
      assert Stripped(args)[..|args|-1] == Stripped(before);
      assert args == before + [last] && Stripped(args) == Stripped(before) + [StripPlus(last)];
    }
  }

  /** The definition string builds a parameter list with exactly these texts. */
  ghost predicate Builds(definition: string, ps: seq<string>) {
    var r := Split(definition);
    r.Arguments? && |r.args| > 0 && Stripped(r.args) == ps
  }

  lemma PlusStripped(p: string)
    ensures StripPlus(p) == p <==> |p| == 0 || p[0] != '+'
  {
  }

  /** The printed definition builds the used parameters again exactly if there are between 1 and 199 of
      them and each is clean and does not start with a plus. */
  lemma ListRoundTrip(texts: seq<string>, used: seq<bool>)
    requires |texts| == |used|
    ensures var ps := UsedTexts(texts, used);
            Builds(Printed(texts, used), ps)
            <==> 1 <= |ps| <= 199 && forall i | 0 <= i < |ps| :: Clean(ps[i]) && (|ps[i]| > 0 ==> ps[i][0] != '+')
  {
    hide Clean, UsedTexts, Printed, Joined;
    var ps := UsedTexts(texts, used);
    PrintedIsJoined(texts, used);
    SplitOfJoined(ps);
    forall i | 0 <= i < |ps| ensures StripPlus(ps[i]) == ps[i] <==> |ps[i]| == 0 || ps[i][0] != '+' {
      PlusStripped(ps[i]);
    }
    if forall i | 0 <= i < |ps| :: |ps[i]| > 0 ==> ps[i][0] != '+' {
      assert Stripped(ps) == ps;
    }
    if Builds(Joined(ps), ps) {
      var args := Split(Joined(ps)).args;
      JoinedWeight(ps);
      StrippedBulk(args);
      assert args == ps;
      assert forall i | 0 <= i < |ps| :: Stripped(ps)[i] == ps[i];
    }
  }

  // ----- Building the list

  lemma CharsOf(cells: seq<char>, at: nat, t: string)
    requires HeldIn(cells, at, t)
    ensures at + |t| < |cells| && cells[at+|t|] == '\0'
    ensures forall k | at <= k < at + |t| :: cells[k] == t[k-at] && cells[k] != '\0'
  {
    forall k | at <= k < at + |t| ensures cells[k] == t[k-at] && cells[k] != '\0' {
      assert cells[k] == cells[at..at+|t|][k-at];
    }
  }

  /** Reads the string that starts at index at. */
  method ReadAt(buf: array<char>, at: nat, ghost t: string) returns (s: string)
    requires HeldIn(buf[..], at, t)
    ensures s == t
  {
    CharsOf(buf[..], at, t);
    s := "";
    var i := at;
    while buf[i] != '\0'
      invariant at <= i <= at + |t| && s == t[..i-at]
      decreases at + |t| - i
    {
      s := s + [buf[i]];
      i := i + 1;
    }
  }

  datatype Built = Failed(errno: int) | Built(start: Param)

  /** The parameter list of a definition string. */
  method InitPlus(definition: string) returns (r: Built, ghost nodes: seq<Param>)
    requires NoNul(definition)
    ensures r.Built? <==> Split(definition).Arguments? && |Split(definition).args| > 0
    ensures Split(definition).TooMany? ==> r == Failed(-44)
    ensures Split(definition) == Arguments([]) ==> r == Failed(-1)
    ensures r.Built? ==> Linked(r.start, nodes) && Texts(nodes) == Stripped(Split(definition).args)
    ensures r.Built? ==> forall i | 0 <= i < |nodes| :: fresh(nodes[i]) && !nodes[i].used
  {
    nodes := [];
    var ok, buf, argv, argc := SplitInPlace(definition);
    if !ok {
      return Failed(-44), nodes;
    }
    ghost var args := Split(definition).args;
    if argc == 0 {
      return Failed(-1), nodes;
    }
    hide Split, HeldIn;
    var start;
    start, nodes := BuildList(buf, argv, argc, args);
    r := Built.Built(start);
  }

  /** Makes one node for each argument. */
  method BuildList(buf: array<char>, argv: array<nat>, argc: nat, ghost args: seq<string>)
    returns (start: Param, ghost nodes: seq<Param>)
    requires 0 < argc == |args| <= argv.Length
    requires forall a | 0 <= a < argc :: HeldIn(buf[..], argv[a], args[a])
    ensures Linked(start, nodes) && Texts(nodes) == Stripped(args)
    ensures forall i | 0 <= i < |nodes| :: fresh(nodes[i]) && !nodes[i].used
  {
    hide HeldIn, Linked, Plain;
    EmptyList();
    ghost var texts := Stripped(args);
    var text := ReadAt(buf, argv[0], args[0]);
    start := new Param(text);
    var head := Append(null, null, start, [], []);
    nodes := [start];
    assert [] + [start] == nodes && [] + [start.text] == texts[..1];
    HeadFacts(head, nodes);
    var curr := start;
    var i := 1;
    while i < argc
      invariant 1 <= i <= argc && |nodes| == i && Linked(start, nodes) && curr == nodes[i-1]
      invariant Plain(nodes, texts[..i]) && forall k | 0 <= k < i :: fresh(nodes[k])
    {
      text := ReadAt(buf, argv[i], args[i]);
      var item := new Param(text);
      var same := Append(start, curr, item, nodes, texts[..i]);
      assert texts[..i+1] == texts[..i] + [item.text];
      curr := item;
      nodes := nodes + [item];
      i := i + 1;
    }
    assert texts[..i] == texts;
    PlainTexts(nodes, texts);
  }

  /** Prints a list and builds a list from the text. */
  method Rebuild(head: Param?, ghost nodes: seq<Param>) returns (r: Built, ghost copies: seq<Param>)
    requires Linked(head, nodes) && forall i | 0 <= i < |nodes| :: NoNul(nodes[i].text)
    ensures var ps := UsedTexts(Texts(nodes), Uses(nodes));
            r.Built? && Linked(r.start, copies) && Texts(copies) == ps
            <==> 1 <= |ps| <= 199 && forall i | 0 <= i < |ps| :: Clean(ps[i]) && (|ps[i]| > 0 ==> ps[i][0] != '+')
  {
    ghost var texts, used := Texts(nodes), Uses(nodes);
    ListRoundTrip(texts, used);
    hide Linked, Clean, Split, Printed, UsedTexts, Stripped;
    var buf := GetDef(head, nodes);
    HeldFromStart(buf, Printed(texts, used));
    var definition := ReadAt(buf, 0, Printed(texts, used));
    r, copies := InitPlus(definition);
  }

  lemma HeldFromStart(buf: array<char>, t: string)
    requires Holds(buf, t) && NoNul(t)
    ensures HeldIn(buf[..], 0, t)
  {
    assert buf[..][0..|t|] == buf[..|t|];
  }
}
