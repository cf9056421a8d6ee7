/**
  Inputs of the `errdefer` audit (scripts/dead-errdefer-audit.py): one on which it
  reports an `errdefer` where no function is open, one on which it misses an unreachable
  `errdefer`, and one whose table fits.
 */
module ErrdeferInputs {
  import opened Wrappers
  import opened Text
  import opened Parentheses
  import opened Errdefer
  import opened ErrdeferExact
  import opened ErrdeferOwn
  import opened ErrdeferFunctions

  // ---------------------------------------------------------------- a finding where no function is open

  /** A body that closes on its own line, and a block after it. */
  const ONE_LINE := ["fn f() u32 {}", "test {", "errdefer x;", "}"]

  const SIMPLE := Patterns(s => if "fn f(" <= s then Some(4) else None, s => "errdefer" <= s, s => false)

  lemma {:induction false} PlainStripped(s: string)
    requires forall i :: 0 <= i < |s| ==> s[i] != '"' && s[i] != '\'' && s[i] != '/' && s[i] != '\\'
    ensures Stripped(s) == s
  {
    hide LiteralEnd;
    if s != "" {
      PlainStripped(s[1..]);
    }
  }

  lemma OneMore(s: string, c: string)
    requires NeverClosesTooMuch(s) && |c| == 1 && Excess(s) + Excess(c) >= 0
    ensures NeverClosesTooMuch(s + c) && Excess(s + c) == Excess(s) + Excess(c)
  {
    hide Excess;
    ExcessAppend(s, c);
    forall q | 0 <= q <= |s| + 1 ensures Excess((s + c)[..q]) >= 0 {
      assert q <= |s| ==> (s + c)[..q] == s[..q];
      assert q > |s| ==> (s + c)[..q] == s + c;
    }
  }

  lemma {:induction false} PlainMore(s: string, t: string)
    requires NeverClosesTooMuch(s) && NoBraces(t)
    ensures NeverClosesTooMuch(s + t) && Excess(s + t) == Excess(s)
    decreases |t|
  {
    hide Excess, NeverClosesTooMuch;
    if t == "" {
      assert s + t == s;
    } else {
      var (init, last) := (t[..|t| - 1], t[|t| - 1..]);
      PlainMore(s, init);
      PlainExcess(last);
      NotNegative(s + init);
      OneMore(s + init, last);
      assert s + init + last == s + t;
    }
  }

  lemma NotNegative(s: string)
    requires NeverClosesTooMuch(s)
    ensures Excess(s) >= 0
  {
    assert s[..|s|] == s;
  }

  lemma Braces()
    ensures Excess("{") == 1 && Excess("}") == -1 && Excess("{}") == 0 && NeverClosesTooMuch("") && Excess("") == 0
  {
    assert "{"[..0] == "" && "}"[..0] == "" && "{}"[..1] == "{";
  }

  lemma OneLineText()
    ensures StripAll(ONE_LINE) == ONE_LINE
    ensures Flat(ONE_LINE, 0) == "" && Flat(ONE_LINE, 1) == "fn f() u32 {}"
    ensures Flat(ONE_LINE, 2) == "fn f() u32 {}test {"
    ensures NeverClosesTooMuch(Flat(ONE_LINE, 4)) && Excess(Flat(ONE_LINE, 4)) == 0
  {
    hide Excess, NeverClosesTooMuch, Stripped;
    PlainStripped("fn f() u32 {}");
    PlainStripped("test {");
    PlainStripped("errdefer x;");
    PlainStripped("}");
    assert Flat(ONE_LINE, 0) == "";
    assert Flat(ONE_LINE, 1) == "" + "fn f() u32 " + "{" + "}";
    assert Flat(ONE_LINE, 2) == "" + "fn f() u32 " + "{" + "}" + "test " + "{";
    assert Flat(ONE_LINE, 3) == "" + "fn f() u32 " + "{" + "}" + "test " + "{" + "errdefer x;";
    assert Flat(ONE_LINE, 4) == "" + "fn f() u32 " + "{" + "}" + "test " + "{" + "errdefer x;" + "}";
    hide Flat, StripAll;
    Braces();
    PlainMore("", "fn f() u32 ");
    OneMore("" + "fn f() u32 ", "{");
    OneMore("" + "fn f() u32 " + "{", "}");
    PlainMore("" + "fn f() u32 " + "{" + "}", "test ");
    OneMore("" + "fn f() u32 " + "{" + "}" + "test ", "{");
    PlainMore("" + "fn f() u32 " + "{" + "}" + "test " + "{", "errdefer x;");
    OneMore("" + "fn f() u32 " + "{" + "}" + "test " + "{" + "errdefer x;", "}");
  }

  lemma SimpleFinds()
    ensures SIMPLE.fn(ONE_LINE[0]) == Some(4) && SIMPLE.fn("fn f() u32 {} test {") == Some(4)
    ensures forall d :: 0 < d < 4 ==> SIMPLE.fn(ONE_LINE[d]) == None
    ensures SIMPLE.errdefer(ONE_LINE[2])
  {
    assert ONE_LINE[0][..5] == "fn f(";
    assert "fn f() u32 {} test {"[..5] == "fn f(";
    assert ONE_LINE[1][0] == 't' && ONE_LINE[2][0] == 'e' && ONE_LINE[3][0] == '}';
    assert ONE_LINE[2][..8] == "errdefer";
  }

  const RUN_ON := "fn f() u32 {} test {"

  lemma RunOnSignature()
    ensures Signature(ONE_LINE, 0, 0) == ONE_LINE[0] && Signature(ONE_LINE, 0, 1) == RUN_ON
    ensures OpensBody(RUN_ON, SIMPLE) && !OpensBody(ONE_LINE[0], SIMPLE) && Unended(ONE_LINE[0])
  {
    hide Excess, Rstrip;
    Trims();
    Braces();
    PlainExcess("fn f() u32 ");
    ExcessAppend("fn f() u32 ", "{}");
    PlainExcess(" test ");
    ExcessAppend("fn f() u32 " + "{}", " test ");
    ExcessAppend("fn f() u32 " + "{}" + " test ", "{");
    assert "fn f() u32 " + "{}" + " test " + "{" == RUN_ON;
  }

  lemma RunOnType()
    ensures ReturnType(RUN_ON, SIMPLE) == "u32 {} test"
  {
    hide ReturnType, Strip, Rstrip;
    SimpleFinds();
    Trims();
    ClosesAtOnce(RUN_ON);
    assert "fn f" + "()" + " u32 {} test " + "{" + "" == RUN_ON;
    ReturnTypeIs("fn f", "()", " u32 {} test ", "", SIMPLE);
  }

  lemma RunOnBody()
    ensures BodyOf(ONE_LINE, 0, SIMPLE) == Some((1, "u32 {} test"))
  {
    hide Signature, OpensBody, Unended, ReturnType, BodyLineFrom;
    RunOnSignature();
    RunOnType();
    assert Fails(ONE_LINE, 0, 0, SIMPLE);
    BodyLineIsLeast(ONE_LINE, 0, 0, 1, SIMPLE);
  }

  lemma Undeclared(lines: seq<string>, n: nat, pats: Patterns)
    requires n < |lines| && pats.fn(lines[n]) == None
    ensures FnOpen(lines, n + 1, pats) == FnOpen(lines, n, pats)
  {
    hide BodyOf;
  }

  /** Its declaration runs on to the block, and takes all before the block's brace for its type. */
  lemma RunsOn()
    ensures FnOpen(ONE_LINE, 4, SIMPLE) == map[1 := "u32 {} test"]
  {
    hide BodyOf;
    SimpleFinds();
    RunOnBody();
    assert FnOpen(ONE_LINE, 0, SIMPLE) == map[];
    assert FnOpen(ONE_LINE, 1, SIMPLE) == map[1 := "u32 {} test"];
    hide FnOpen;
    Undeclared(ONE_LINE, 1, SIMPLE);
    Undeclared(ONE_LINE, 2, SIMPLE);
    Undeclared(ONE_LINE, 3, SIMPLE);
  }

  lemma Trims()
    ensures Rstrip("fn f() u32 {}") == "fn f() u32 {}" && Rstrip("fn f() u32 {} test {") == "fn f() u32 {} test {"
    ensures Rstrip("") == "" && Strip(" u32 {} test ") == "u32 {} test"
  {
    assert " u32 {} test "[1..] == "u32 {} test ";
    assert "u32 {} test "[..11] == "u32 {} test";
  }

  lemma ClosesAtOnce(code: string)
    requires |code| >= 6 && code[4] == '(' && code[5] == ')'
    ensures IsFirstClose(code, 4, Some(5))
  {
    assert code[4..6] == "()" && "()"[..1] == "(" && "("[..0] == "";
  }

  // ---------------------------------------------------------------- brackets of simple texts

  predicate NoBrackets(s: string) {
    forall i :: 0 <= i < |s| ==>
      s[i] != '(' && s[i] != ')' && s[i] != '[' && s[i] != ']' && s[i] != '{' && s[i] != '}'
  }

  lemma {:induction false} NestAppend(s: string, t: string)
    ensures Nest(s + t) == Nest(s) + Nest(t)
    decreases |t|
  {
    if t == "" {
      assert s + t == s;
    } else {
      assert (s + t)[..|s + t| - 1] == s + t[..|t| - 1];
      NestAppend(s, t[..|t| - 1]);
    }
  }

  lemma {:induction false} PlainNest(s: string)
    requires NoBrackets(s)
    ensures Nest(s) == 0
  {
    if s != "" {
      PlainNest(s[..|s| - 1]);
    }
  }

  lemma Brackets()
    ensures Nest("{") == 1 && Nest("}") == -1 && Nest("(") == 1 && Nest(")") == -1 && Nest("") == 0
  {
    assert "{"[..0] == "" && "}"[..0] == "" && "("[..0] == "" && ")"[..0] == "";
  }

  /** `before (mid) after` leaves no bracket open. */
  lemma PlainPair(before: string, mid: string, after: string)
    requires NoBrackets(before) && NoBrackets(mid) && NoBrackets(after)
    ensures Nest(before + "(" + mid + ")" + after) == 0 && Nest(before + "{" + mid + "}" + after) == 0
  {
    hide Nest;
    Brackets();
    PlainNest(before);
    PlainNest(mid);
    PlainNest(after);
    NestAppend(before, "(");
    NestAppend(before + "(", mid);
    NestAppend(before + "(" + mid, ")");
    NestAppend(before + "(" + mid + ")", after);
    NestAppend(before, "{");
    NestAppend(before + "{", mid);
    NestAppend(before + "{" + mid, "}");
    NestAppend(before + "{" + mid + "}", after);
  }

  lemma {:induction false} GroupFrom(s: string, n: nat, end: nat)
    requires 0 < n <= end <= |s| && Nest(s[..end]) == 0 && forall k :: n <= k < end ==> Nest(s[..k]) != 0
    ensures GroupEnd(s, n) == Some(end)
    decreases end - n
  {
    if n < end {
      GroupFrom(s, n + 1, end);
    }
  }

  /** A group without brackets in it ends at its own. */
  lemma PlainGroup(mid: string, rest: string)
    requires NoBrackets(mid)
    ensures GroupEnd("{" + mid + "}" + rest, 1) == Some(|mid| + 2)
    ensures ("{" + mid + "}" + rest)[|mid| + 2..] == rest
  {
    hide Nest;
    var s := "{" + mid + "}" + rest;
    Brackets();
    forall k | 1 <= k < |mid| + 2 ensures Nest(s[..k]) != 0 {
      assert s[..k] == "{" + mid[..k - 1];
      PlainNest(mid[..k - 1]);
      NestAppend("{", mid[..k - 1]);
    }
    assert s[..|mid| + 2] == "{" + mid + "}";
    PlainNest(mid);
    NestAppend("{", mid);
    NestAppend("{" + mid, "}");
    GroupFrom(s, 1, |mid| + 2);
  }

  lemma LastAfter(lines: seq<string>, c: nat)
    requires lines != [] && c <= |lines[|lines| - 1]|
    ensures After(lines, |lines| - 1, c) == lines[|lines| - 1][c..]
  {
    assert lines[|lines| - 1][c..] + "" == lines[|lines| - 1][c..];
  }

  // ---------------------------------------------------------------- where the own brace is

  /** The declared function's own brace is closed on its line. */
  lemma OwnCloses(d: nat, e: nat, c: nat)
    requires d < 4 && IsOwn(ONE_LINE, d, e, c, SIMPLE)
    ensures !OpenAfter(ONE_LINE, 2, e, c)
  {
    hide Candidate, OpenAfter;
    SimpleFinds();
    OwnFirst();
    OwnIsUnique(ONE_LINE, 0, e, c, 0, 11, SIMPLE);
    FirstCloses();
  }

  lemma FirstCloses()
    ensures !OpenAfter(ONE_LINE, 2, 0, 11)
  {
    hide Excess, Flat;
    OneLineText();
    Braces();
    assert Flat(ONE_LINE, 2)[11..13] == "{}";
  }

  lemma OwnFirst()
    ensures IsOwn(ONE_LINE, 0, 0, 11, SIMPLE)
  {
    hide Nest, GroupEnd, Depth, Signature, FirstClose, MoreSignature;
    SimpleFinds();
    var text := "fn f() u32 ";
    assert Before(ONE_LINE, 0, 0, 11) == text;
    PlainNest(" u32 ");
    TopLevel("fn f()", " u32 ");
    assert text == "fn f()" + " u32 ";
    OneLineAfter();
  }

  lemma OneBlank(s: string)
    requires s != "" && !IsSpace(s[0])
    ensures Lstrip(" " + s) == s
  {
    assert (" " + s)[1..] == s;
  }

  lemma OneLineAfter()
    ensures !Continued(After(ONE_LINE, 0, 11))
  {
    hide Nest, GroupEnd;
    var rest := " " + After(ONE_LINE, 1, 0);
    assert After(ONE_LINE, 1, 0)[0] == 't';
    assert ONE_LINE[0][11..] == "{" + "" + "}";
    assert After(ONE_LINE, 0, 11) == "{" + "" + "}" + rest;
    PlainGroup("", rest);
    OneBlank(After(ONE_LINE, 1, 0));
  }

  /** On this file the audit reports line 3, where no function is open. */
  lemma ReportsOutsideFunctions(r: Result<seq<Finding>, Desync>)
    requires Outcome(ONE_LINE, SIMPLE, r)
    ensures r.Ok? && Finding(3, "u32 {} test", Strip("errdefer x;")) in r.value
    ensures forall t :: !InnermostFunction(StripAll(ONE_LINE), 2, t, SIMPLE)
  {
    hide Excess, NeverClosesTooMuch, Flat, FnOpen, Events, Strip, Stripped, Innermost, Ascending;
    ScanIsExact(ONE_LINE, SIMPLE, r);
    OneLineText();
    RunsOn();
    SimpleFinds();
    var f := Finding(3, "u32 {} test", Strip("errdefer x;"));
    BlockIsInnermost();
    PlainStripped("errdefer x;");
    assert Reports(ONE_LINE, FnOpen(ONE_LINE, 4, SIMPLE), 2, f, SIMPLE);
    assert ReportedBefore(ONE_LINE, FnOpen(ONE_LINE, 4, SIMPLE), 4, f, SIMPLE);
    forall d: nat, e: nat, c: nat ensures !FunctionOpen(ONE_LINE, 2, d, e, c, SIMPLE) {
      if d < 4 && IsOwn(ONE_LINE, d, e, c, SIMPLE) {
        OwnCloses(d, e, c);
      }
    }
  }

  lemma BlockOpen()
    ensures Position(ONE_LINE, 1, 5) == 18 && |Flat(ONE_LINE, 2)| == 19 && OpenAfter(ONE_LINE, 2, 1, 5)
    ensures Rfind(ONE_LINE[1], '{') == 5
  {
    hide Excess, Flat;
    OneLineText();
    Braces();
    assert Flat(ONE_LINE, 2)[18..19] == "{";
  }

  lemma BlockIsInnermost()
    ensures Innermost(Events(ONE_LINE, FnOpen(ONE_LINE, 4, SIMPLE), 2), Some("u32 {} test"))
  {
    hide FnOpen, Events, OpenAt, OpenIn, Flat, Rfind;
    var fnOpen := FnOpen(ONE_LINE, 4, SIMPLE);
    var events := Events(ONE_LINE, fnOpen, 2);
    BlockOpen();
    RunsOn();
    OpenIsOpen(ONE_LINE, fnOpen, 2, 18);
    FrameAt(ONE_LINE, fnOpen, 2, 1, 5, "u32 {} test");
    EventsMatchText(ONE_LINE, fnOpen, 2);
    OpenBounds(events);
    assert OpenAt(events, 18) && events[18].frame == Some("u32 {} test");
  }

  // ---------------------------------------------------------------- a readable file

  /** Braces within parentheses of the return type, and a body whose brace ends its line. */
  const PLAIN := ["fn f() u(.{}) {", "errdefer x;", "}"]

  lemma SimpleRegular()
    ensures Regular(SIMPLE)
  {
    forall s, t ensures KeepsMatch(SIMPLE, s, t) {
      if "fn f(" <= s {
        assert (s + " " + t)[..5] == s[..5];
      }
    }
  }

  lemma PlainFinds()
    ensures SIMPLE.fn(PLAIN[0]) == Some(4) && SIMPLE.fn(PLAIN[1]) == None && SIMPLE.fn(PLAIN[2]) == None
  {
    assert PLAIN[0][..5] == "fn f(" && PLAIN[1][0] == 'e' && PLAIN[2][0] == '}';
  }

  lemma PlainAfter()
    ensures !Continued(After(PLAIN, 0, 14))
  {
    hide Nest, GroupEnd, MoreSignature;
    LastAfter(PLAIN, 0);
    assert PLAIN[0][14..] == "{" && PLAIN[1][0..] == PLAIN[1] && PLAIN[2][0..] == "}";
    assert After(PLAIN, 1, 0) == "errdefer x;" + " " + "}";
    assert After(PLAIN, 0, 14) == "{" + " errdefer x; " + "}" + "";
    PlainGroup(" errdefer x; ", "");
    NothingMore();
  }

  lemma NothingMore()
    ensures !MoreSignature("")
  {
  }

  lemma PlainBefore()
    ensures BehindParameters("fn f() u(.{}) ", 4) && !BehindParameters("fn f() u(.", 4)
  {
    hide Nest, Depth, FirstClose;
    var (text, inner) := ("fn f() u(.{}) ", "fn f() u(.");
    ClosesAtOnce(text);
    FirstCloseIs(text, 4, 5);
    ClosesAtOnce(inner);
    FirstCloseIs(inner, 4, 5);
    Brackets();
    PlainNest(" u");
    PlainNest(".");
    PlainNest(" ");
    PlainPair(".", "", "");
    NestAppend(" u", "(");
    NestAppend(" u" + "(", ".");
    assert inner[6..] == " u" + "(" + ".";
    NestAppend(" u" + "(", "." + "{" + "" + "}" + "");
    NestAppend(" u" + "(" + ("." + "{" + "" + "}" + ""), ")");
    NestAppend(" u" + "(" + ("." + "{" + "" + "}" + "") + ")", " ");
    assert text[6..] == " u" + "(" + ("." + "{" + "" + "}" + "") + ")" + " ";
  }

  lemma PlainOwn()
    ensures IsOwn(PLAIN, 0, 0, 14, SIMPLE)
  {
    hide BehindParameters, Continued, Signature;
    PlainFinds();
    PlainAfter();
    PlainBefore();
    assert Before(PLAIN, 0, 0, 14) == "fn f() u(.{}) ";
    assert Before(PLAIN, 0, 0, 10) == "fn f() u(.";
  }

  /** Its table fits: parentheses in the return type do no harm. */
  lemma ReadableFile()
    ensures TableFits(PLAIN, SIMPLE)
  {
    hide TableFits, IsOwn, Excess;
    PlainFinds();
    PlainOwn();
    PlainVisible();
    SimpleRegular();
    ReadableFits(PLAIN, SIMPLE);
  }

  lemma PlainVisible()
    ensures Visible(PLAIN, 0, 0, 14, SIMPLE)
  {
    hide Excess, Signature;
    Braces();
    PlainExcess("fn f() u(.");
    ExcessAppend("fn f() u(.", "{}");
    PlainExcess(") ");
    ExcessAppend("fn f() u(." + "{}", ") ");
    assert Before(PLAIN, 0, 0, 14) == "fn f() u(." + "{}" + ") ";
    assert PLAIN[0][..15] == PLAIN[0];
  }

  // ---------------------------------------------------------------- an errdefer the audit misses

  /** A return type that is a `switch`, whose own brace ends a line. */
  const SWITCH := ["fn f() switch (X) {", "else => u8,", "} {", "errdefer x;", "}"]

  const PRONG := " " + "else => u8," + " "

  const SWITCH_TYPE := "switch (X) {" + PRONG + "}"

  const SWITCH_BEFORE := "fn f()" + (" " + SWITCH_TYPE + " ")

  lemma SwitchFinds()
    ensures SIMPLE.fn(SWITCH[0]) == Some(4) && SIMPLE.errdefer(SWITCH[3])
    ensures forall d :: 0 < d < 5 ==> SIMPLE.fn(SWITCH[d]) == None
  {
    assert SWITCH[0][..5] == "fn f(" && SWITCH[3][..8] == "errdefer";
    assert SWITCH[1][0] == 'e' && SWITCH[2][0] == '}' && SWITCH[3][0] == 'e' && SWITCH[4][0] == '}';
  }

  lemma SwitchStripped()
    ensures StripAll(SWITCH) == SWITCH
  {
    hide Stripped;
    PlainStripped("fn f() switch (X) {");
    PlainStripped("else => u8,");
    PlainStripped("} {");
    PlainStripped("errdefer x;");
    PlainStripped("}");
  }

  lemma SwitchText()
    ensures Flat(SWITCH, 0) == "" && Flat(SWITCH, 1) == "fn f() switch (X) {"
    ensures Flat(SWITCH, 2) == "fn f() switch (X) {else => u8,"
    ensures Flat(SWITCH, 3) == "fn f() switch (X) {else => u8,} {"
    ensures NeverClosesTooMuch(Flat(SWITCH, 5)) && Excess(Flat(SWITCH, 5)) == 0
  {
    hide Excess, NeverClosesTooMuch;
    var (a, b) := ("fn f() switch (X) ", "else => u8,");
    assert Flat(SWITCH, 0) == "";
    assert Flat(SWITCH, 1) == "" + a + "{";
    assert Flat(SWITCH, 2) == "" + a + "{" + b;
    assert Flat(SWITCH, 3) == "" + a + "{" + b + "}" + " " + "{";
    assert Flat(SWITCH, 4) == "" + a + "{" + b + "}" + " " + "{" + "errdefer x;";
    assert Flat(SWITCH, 5) == "" + a + "{" + b + "}" + " " + "{" + "errdefer x;" + "}";
    hide Flat;
    Braces();
    PlainMore("", a);
    OneMore("" + a, "{");
    PlainMore("" + a + "{", b);
    OneMore("" + a + "{" + b, "}");
    PlainMore("" + a + "{" + b + "}", " ");
    OneMore("" + a + "{" + b + "}" + " ", "{");
    PlainMore("" + a + "{" + b + "}" + " " + "{", "errdefer x;");
    OneMore("" + a + "{" + b + "}" + " " + "{" + "errdefer x;", "}");
  }

  /** The audit takes the brace of the `switch` for the body. */
  lemma SwitchTable()
    ensures FnOpen(SWITCH, 5, SIMPLE).Keys == {0}
  {
    hide BodyOf;
    SwitchFinds();
    SwitchBody();
    assert FnOpen(SWITCH, 0, SIMPLE) == map[];
    assert FnOpen(SWITCH, 1, SIMPLE).Keys == {0};
    hide FnOpen;
    Undeclared(SWITCH, 1, SIMPLE);
    Undeclared(SWITCH, 2, SIMPLE);
    Undeclared(SWITCH, 3, SIMPLE);
    Undeclared(SWITCH, 4, SIMPLE);
  }

  lemma SwitchBody()
    ensures BodyOf(SWITCH, 0, SIMPLE).Some? && BodyOf(SWITCH, 0, SIMPLE).value.0 == 0
  {
    hide Excess, Rstrip, ReturnType;
    var signature := "fn f() switch (X) " + "{";
    assert Signature(SWITCH, 0, 0) == signature;
    Braces();
    PlainExcess("fn f() switch (X) ");
    ExcessAppend("fn f() switch (X) ", "{");
    EndsPlainly(signature);
  }

  lemma EndsPlainly(s: string)
    requires s != "" && s[|s| - 1] == '{'
    ensures Rstrip(s) == s
  {
  }

  lemma BodyRest()
    ensures After(SWITCH, 2, 2) == "{" + " errdefer x; " + "}" + "" && After(SWITCH, 2, 0) == "} { errdefer x; }"
  {
    LastAfter(SWITCH, 0);
    assert SWITCH[4][0..] == "}" && SWITCH[3][0..] == SWITCH[3] && SWITCH[2][2..] == "{" && SWITCH[2][0..] == SWITCH[2];
    assert After(SWITCH, 3, 0) == "errdefer x; }";
  }

  lemma SwitchRest()
    ensures After(SWITCH, 0, 18) == "{" + PRONG + "}" + " { errdefer x; }"
  {
    BodyRest();
    assert SWITCH[1][0..] == "else => u8," && SWITCH[0][18..] == "{";
    assert "} { errdefer x; }" == "}" + " { errdefer x; }";
    JoinedAfter("else => u8,", " { errdefer x; }");
  }

  lemma JoinedAfter(c: string, rest: string)
    ensures "{" + (" " + (c + (" " + ("}" + rest)))) == "{" + (" " + c + " ") + "}" + rest
  {
  }

  lemma BodyEnds()
    ensures !Continued(After(SWITCH, 2, 2))
  {
    hide Nest, GroupEnd, After;
    BodyRest();
    PlainGroup(" errdefer x; ", "");
    NothingMore();
  }

  lemma SwitchGoesOn()
    ensures Continued(After(SWITCH, 0, 18))
  {
    hide Nest, GroupEnd, After;
    SwitchRest();
    PlainGroup(PRONG, " { errdefer x; }");
    OneBlank("{ errdefer x; }");
    assert " " + "{ errdefer x; }" == " { errdefer x; }";
  }

  lemma SwitchNest()
    ensures Nest(" " + SWITCH_TYPE + " ") == 0
  {
    hide Nest;
    PlainPair(" switch ", "X", " ");
    PlainPair("", PRONG, " ");
    var (a, b) := (" switch " + "(" + "X" + ")" + " ", "" + "{" + PRONG + "}" + " ");
    NestAppend(a, b);
    assert " " + "switch (X) {" == a + "{";
    Regroup(a, PRONG);
  }

  lemma Regroup(a: string, mid: string)
    requires " " + "switch (X) {" == a + "{"
    ensures " " + ("switch (X) {" + mid + "}") + " " == a + ("" + "{" + mid + "}" + " ")
  {
    assert " " + ("switch (X) {" + mid + "}") + " " == (" " + "switch (X) {") + mid + "}" + " ";
    assert a + ("" + "{" + mid + "}" + " ") == (a + "{") + mid + "}" + " ";
  }

  lemma TopLevel(head: string, tail: string)
    requires |head| == 6 && head[4] == '(' && head[5] == ')'
    requires Nest(tail) == 0 && forall i :: 0 <= i < |tail| ==> tail[i] != ';'
    ensures BehindParameters(head + tail, 4) && FirstClose(head + tail, 4, 4) == Some(5)
  {
    hide Nest, Depth, FirstClose;
    ClosesAtOnce(head + tail);
    FirstCloseIs(head + tail, 4, 5);
    assert (head + tail)[6..] == tail;
  }

  lemma SwitchTop()
    ensures BehindParameters(SWITCH_BEFORE, 4) && FirstClose(SWITCH_BEFORE, 4, 4) == Some(5)
  {
    hide Nest, BehindParameters, FirstClose;
    SwitchNest();
    TopLevel("fn f()", " " + SWITCH_TYPE + " ");
  }

  lemma SwitchPrefix()
    ensures Before(SWITCH, 0, 2, 2) == SWITCH_BEFORE
  {
    assert Signature(SWITCH, 0, 0) == SWITCH[0];
    assert Signature(SWITCH, 0, 1) == SWITCH[0] + " " + SWITCH[1];
    assert SWITCH[2][..2] == "} ";
    assert SWITCH[0] == "fn f()" + " " + "switch (X) {";
    JoinedBefore("fn f()", "switch (X) {", "else => u8,");
  }

  lemma JoinedBefore(a: string, b: string, c: string)
    ensures (a + " " + b) + " " + c + " " + "} " == a + (" " + (b + (" " + c + " ") + "}") + " ")
  {
    var r := a + " " + b + " " + c + " " + "}" + " ";
    assert (a + " " + b) + " " + c + " " + "} " == r;
  }

  lemma SwitchType()
    ensures OwnType(SWITCH, 0, 2, 2, SIMPLE) == SWITCH_TYPE
  {
    hide FirstClose, Strip, Before;
    SwitchTop();
    SwitchFinds();
    SwitchPrefix();
    assert SWITCH_BEFORE[6..] == " " + SWITCH_TYPE + " ";
    StripsBlanks(SWITCH_TYPE);
  }

  lemma StripsBlanks(s: string)
    requires s != "" && !IsSpace(s[0]) && !IsSpace(s[|s| - 1])
    ensures Strip(" " + s + " ") == s
  {
    assert " " + s + " " == " " + (s + " ");
    assert (s + " ")[0] == s[0] && (s + " ")[|s|] == ' ' && (s + " ")[..|s|] == s;
    OneBlank(s + " ");
    assert Rstrip(s) == s && IsSpace(' ');
  }

  lemma SwitchBraces(a: nat, b: nat)
    requires a < 5 && Earlier(a, b, 2, 2) && b < |SWITCH[a]| && SWITCH[a][b] == '{'
    ensures a == 0 && b == 18
  {
  }

  lemma SwitchOwn()
    ensures IsOwn(SWITCH, 0, 2, 2, SIMPLE)
  {
    hide BehindParameters, Continued, Before, After, OwnType;
    SwitchFinds();
    BodyEnds();
    SwitchGoesOn();
    SwitchPrefix();
    SwitchTop();
    forall a: nat, b: nat | a < 5 && Earlier(a, b, 2, 2) ensures !Candidate(SWITCH, 0, 4, a, b) {
      if b < |SWITCH[a]| && SWITCH[a][b] == '{' {
        SwitchBraces(a, b);
      }
    }
  }

  /** No typed frame is open at the `errdefer`. */
  lemma SwitchUntyped(t: string)
    ensures !Innermost(Events(SWITCH, FnOpen(SWITCH, 5, SIMPLE), 3), Some(t))
  {
    hide Excess, FnOpen, Events, OpenAt, OpenIn, Flat, Rfind;
    var fnOpen := FnOpen(SWITCH, 5, SIMPLE);
    var events := Events(SWITCH, fnOpen, 3);
    SwitchTable();
    EventsMatchText(SWITCH, fnOpen, 3);
    OpenBounds(events);
    forall p | OpenAt(events, p) ensures events[p].frame != Some(t) {
      var e, c := Locate(SWITCH, 3, p);
      OpenIsOpen(SWITCH, fnOpen, 3, p);
      FrameAt(SWITCH, fnOpen, 3, e, c, t);
      SwitchCloses(c);
    }
  }

  lemma SwitchCloses(c: nat)
    ensures Rfind(SWITCH[0], '{') == 18 && !OpenAfter(SWITCH, 3, 0, 18)
  {
    hide Excess, Flat;
    SwitchText();
    Braces();
    PlainExcess("else => u8,");
    ExcessAppend("{", "else => u8,");
    ExcessAppend("{" + "else => u8,", "}");
    assert Flat(SWITCH, 3)[18..31] == "{" + "else => u8," + "}";
  }

  lemma SwitchFunction()
    ensures InnermostFunction(SWITCH, 3, SWITCH_TYPE, SIMPLE)
  {
    hide IsOwn, OwnType, Excess, Flat, Rfind;
    SwitchFinds();
    SwitchOwn();
    SwitchType();
    SwitchText();
    Braces();
    assert Flat(SWITCH, 3)[32..33] == "{";
    assert Position(SWITCH, 2, 2) == 32;
    assert OpenAfter(SWITCH, 3, 2, 2);
    forall d: nat | 0 < d < 5 ensures !IsOwn(SWITCH, d, 2, 2, SIMPLE) { NotDeclared(SWITCH, d, 2, 2, SIMPLE); }
    assert FunctionOpen(SWITCH, 3, 0, 2, 2, SIMPLE);
    forall d: nat, e: nat, c: nat | FunctionOpen(SWITCH, 3, d, e, c, SIMPLE)
      ensures e < 5 && Position(SWITCH, e, c) <= 32
    {
      if d > 0 {
        NotDeclared(SWITCH, d, e, c, SIMPLE);
      } else {
        OwnIsUnique(SWITCH, 0, e, c, 2, 2, SIMPLE);
      }
    }
  }

  lemma NotDeclared(lines: seq<string>, d: nat, e: nat, c: nat, pats: Patterns)
    requires d < |lines| && pats.fn(lines[d]) == None
    ensures !IsOwn(lines, d, e, c, pats)
  {
  }

  /** On this file the audit reports nothing on line 4, whose `errdefer` no error can reach. */
  lemma MissesErrdefer(r: Result<seq<Finding>, Desync>)
    requires Outcome(SWITCH, SIMPLE, r)
    ensures r.Ok? && (forall f :: f in r.value ==> f.line != 4)
    ensures ReportsFunction(SWITCH, 3, Finding(4, SWITCH_TYPE, Strip("errdefer x;")), SIMPLE)
  {
    hide Excess, NeverClosesTooMuch, Flat, FnOpen, Events, Strip, Stripped, Innermost, Ascending, InnermostFunction;
    ScanIsExact(SWITCH, SIMPLE, r);
    SwitchStripped();
    SwitchText();
    SwitchFinds();
    SwitchFunction();
    PlainStripped("errdefer x;");
    forall f | f in r.value ensures f.line != 4 {
      SwitchUntyped(f.returnType);
      assert ReportedBefore(SWITCH, FnOpen(SWITCH, 5, SIMPLE), 5, f, SIMPLE);
    }
  }
}
