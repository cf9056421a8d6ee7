/**
  The braces of functions, defined by the grammar of Zig's function declarations and
  apart from the `errdefer` audit (scripts/dead-errdefer-audit.py): which brace is a
  declaration's own, and exactly when the audit finds it.
 */
module ErrdeferOwn {
  import opened Wrappers
  import opened Text
  import opened Parentheses
  import opened Errdefer
  import opened ErrdeferExact

  // ---------------------------------------------------------------- a declaration's own brace

  /** The text from the declaration's line to column `c` of line `e`, lines joined by blanks. */
  function Before(lines: seq<string>, index: nat, e: nat, c: nat): string
    requires index <= e < |lines| && c <= |lines[e]|
  {
    (if e == index then "" else Signature(lines, index, e - 1) + " ") + lines[e][..c]
  }

  /** How far brackets of all three kinds are open after `s`. */
  function Nest(s: string): int {
    if s == "" then 0
    else
      var c := s[|s| - 1];
      Nest(s[..|s| - 1])
      + (if c == '(' || c == '[' || c == '{' then 1 else if c == ')' || c == ']' || c == '}' then -1 else 0)
  }

  /** The text from column `c` of line `e` to the end of the file. */
  function After(lines: seq<string>, e: nat, c: nat): string
    requires e < |lines| && c <= |lines[e]|
    decreases |lines| - e
  {
    lines[e][c..] + (if e + 1 == |lines| then "" else " " + After(lines, e + 1, 0))
  }

  /** The characters up to where the bracket that opens `s` is closed, counting from `n`. */
  function GroupEnd(s: string, n: nat): (r: Option<nat>)
    ensures r.Some? ==> n <= r.value <= |s| && Nest(s[..r.value]) == 0
    decreases |s| - n
  {
    if n > |s| then None else if Nest(s[..n]) == 0 then Some(n) else GroupEnd(s, n + 1)
  }

  predicate IsWord(c: char) {
    'a' <= c <= 'z' || 'A' <= c <= 'Z' || '0' <= c <= '9' || c == '_'
  }

  /**
    What can follow a brace group within a return type, and no function body: the body,
    an error union, a field, an index, arguments, or the other branch of an `if`.
   */
  predicate MoreSignature(s: string) {
    var t := Lstrip(s);
    && t != ""
    && (t[0] in "{!.[(" || ("else" <= t && (|t| == 4 || !IsWord(t[4]))))
  }

  /** The group that opens `s` is part of a type: more signature follows it. */
  predicate Continued(s: string) {
    match GroupEnd(s, 1)
    case None => false
    case Some(n) => MoreSignature(s[n..])
  }

  /** Behind the parameter list, `text` leaves no bracket open and no `;` has ended the declaration. */
  predicate AtTopLevel(text: string, close: nat)
    requires close < |text|
  {
    && Nest(text[close + 1..]) == 0
    && forall k :: close < k < |text| && text[k] == ';' ==> Nest(text[close + 1..k]) != 0
  }

  /** What comes behind `text` stands behind the parameters, at top level. */
  predicate BehindParameters(text: string, paren: nat) {
    match FirstClose(text, paren, paren)
    case None => false
    case Some(close) => AtTopLevel(text, close)
  }

  /** A brace behind the parameters, at top level, whose group is no part of the return type. */
  predicate Candidate(lines: seq<string>, index: nat, paren: nat, e: nat, c: nat)
    requires index <= e < |lines|
  {
    && c < |lines[e]| && lines[e][c] == '{'
    && BehindParameters(Before(lines, index, e, c), paren) && !Continued(After(lines, e, c))
  }

  predicate Earlier(a: nat, b: nat, e: nat, c: nat) {
    a < e || (a == e && b < c)
  }

  /** The declaration on line `index` opens its body at column `c` of line `e`: the first such brace. */
  ghost predicate IsOwn(lines: seq<string>, index: nat, e: nat, c: nat, pats: Patterns)
    requires index < |lines|
  {
    && index <= e < |lines| && c < |lines[e]| && pats.fn(lines[index]).Some?
    && Candidate(lines, index, pats.fn(lines[index]).value, e, c)
    && forall a: nat, b: nat :: index <= a < |lines| && Earlier(a, b, e, c) ==>
         !Candidate(lines, index, pats.fn(lines[index]).value, a, b)
  }

  /** What stands between the parameter list and the brace. */
  function OwnType(lines: seq<string>, index: nat, e: nat, c: nat, pats: Patterns): string
    requires index <= e < |lines| && c <= |lines[e]| && pats.fn(lines[index]).Some?
  {
    var text := Before(lines, index, e, c);
    match FirstClose(text, pats.fn(lines[index]).value, pats.fn(lines[index]).value)
    case None => ""
    case Some(close) => Strip(text[close + 1..])
  }

  /** The audit takes the brace at column `c` of line `e` for the body of the declaration. */
  predicate Finds(lines: seq<string>, index: nat, e: nat, c: nat, pats: Patterns)
    requires index < |lines|
  {
    BodyAt(lines, index, e, pats) && e < |lines| && Rfind(lines[e], '{') == c
  }

  /** Line `k` ends in a brace that leaves one open, and that no container type claims. */
  predicate Misleads(lines: seq<string>, index: nat, k: nat, pats: Patterns)
    requires index <= k < |lines|
  {
    && EndsWith(Rstrip(lines[k]), '{')
    && var b := |Rstrip(lines[k])| - 1;
    && b <= |lines[k]| && Excess(Before(lines, index, k, b)) == 0 && !pats.container(Before(lines, index, k, b) + "{")
  }

  /**
    The brace ends its line, within reach of the declaration, with braces balanced from
    the start of the declaration's line and unclaimed as a container; no line before it
    ends in a `;`, and none in such a brace of the parameters or the return type.
   */
  predicate Visible(lines: seq<string>, index: nat, e: nat, c: nat, pats: Patterns)
    requires index <= e < |lines| && c < |lines[e]|
  {
    && Rstrip(lines[e]) == lines[e][..c + 1] && e <= index + 60
    && Excess(Before(lines, index, e, c)) == 0 && !pats.container(Before(lines, index, e, c) + "{")
    && forall k :: index <= k < e ==>
         Unended(Signature(lines, index, k)) && !Misleads(lines, index, k, pats)
  }

  // ---------------------------------------------------------------- prefixes

  lemma {:induction false} ExcessAppend(s: string, t: string)
    ensures Excess(s + t) == Excess(s) + Excess(t)
    decreases |t|
  {
    if t == "" {
      assert s + t == s;
    } else {
      assert (s + t)[..|s + t| - 1] == s + t[..|t| - 1];
      ExcessAppend(s, t[..|t| - 1]);
    }
  }

  lemma ExcessBrace()
    ensures Excess("{") == 1
  {
    assert "{"[..0] == "";
  }

  lemma {:induction false} ClosePrefix(s: string, t: string, opening: nat, index: nat)
    requires opening <= index && s <= t
    ensures FirstClose(s, opening, index).Some? ==> FirstClose(t, opening, index) == FirstClose(s, opening, index)
    ensures FirstClose(t, opening, index).Some? && FirstClose(t, opening, index).value < |s|
      ==> FirstClose(s, opening, index) == FirstClose(t, opening, index)
    decreases |s| - index
  {
    hide Depth;
    if index < |s| {
      assert s[opening..index + 1] == t[opening..index + 1];
      ClosePrefix(s, t, opening, index + 1);
    }
  }

  lemma SignatureParts(lines: seq<string>, index: nat, e: nat)
    requires index <= e < |lines|
    ensures Signature(lines, index, e) == (if e == index then "" else Signature(lines, index, e - 1) + " ") + lines[e]
  {
  }

  /** Up to its last brace, the text a signature accumulates. */
  lemma LineEnd(lines: seq<string>, index: nat, k: nat)
    requires index <= k < |lines| && EndsWith(Rstrip(lines[k]), '{')
    ensures var c := |Rstrip(lines[k])| - 1;
      && c < |lines[k]| && lines[k][c] == '{' && Rstrip(lines[k]) == lines[k][..c + 1]
      && Rstrip(Signature(lines, index, k)) == Before(lines, index, k, c) + "{"
      && Rfind(lines[k], '{') == c
  {
    var line, c := lines[k], |Rstrip(lines[k])| - 1;
    RstripPrefix(line);
    assert Rstrip(line) == line[..c] + "{";
    SignatureParts(lines, index, k);
    RstripAppend(if k == index then "" else Signature(lines, index, k - 1) + " ", line);
    assert forall i :: c < i < |line| ==> line[i] != '{';
  }

  /** A blank line adds nothing to what a signature accumulates. */
  lemma BlankLine(lines: seq<string>, index: nat, k: nat)
    requires index < k < |lines| && Rstrip(lines[k]) == ""
    ensures Rstrip(Signature(lines, index, k)) == Rstrip(Signature(lines, index, k - 1))
  {
    var before := Signature(lines, index, k - 1);
    assert Signature(lines, index, k) == (before + " ") + lines[k];
    RstripAppend(before + " ", lines[k]);
    RstripAppend(before, " ");
    assert Rstrip(" ") == "" by { assert " "[..0] == ""; }
  }

  lemma LastOfLine(lines: seq<string>, index: nat, k: nat)
    requires index <= k < |lines| && EndsWith(Rstrip(Signature(lines, index, k)), '{')
    requires Rstrip(lines[k]) != "" || k == index
    ensures EndsWith(Rstrip(lines[k]), '{')
  {
    SignatureParts(lines, index, k);
    RstripAppend(if k == index then "" else Signature(lines, index, k - 1) + " ", lines[k]);
    assert "" + lines[k] == lines[k];
  }

  // ---------------------------------------------------------------- when the audit finds it

  /** The text accumulated up to line `k` opens a body for the script exactly by such a brace. */
  lemma MisleadsIff(lines: seq<string>, index: nat, k: nat, pats: Patterns)
    requires index <= k < |lines| && (Rstrip(lines[k]) != "" || k == index)
    ensures OpensBody(Signature(lines, index, k), pats) <==> Misleads(lines, index, k, pats)
  {
    hide Signature, Excess, Before, Rstrip;
    if EndsWith(Rstrip(Signature(lines, index, k)), '{') {
      LastOfLine(lines, index, k);
    }
    if EndsWith(Rstrip(lines[k]), '{') {
      LineEnd(lines, index, k);
      ExcessAppend(Before(lines, index, k, |Rstrip(lines[k])| - 1), "{");
      ExcessBrace();
    }
  }

  lemma {:induction false} OpensOnlyMisled(lines: seq<string>, index: nat, k: nat, pats: Patterns)
    requires index <= k < |lines| && forall i :: index <= i <= k ==> !Misleads(lines, index, i, pats)
    ensures !OpensBody(Signature(lines, index, k), pats)
    decreases k
  {
    hide Signature, Excess, Before, Rstrip, Misleads;
    if Rstrip(lines[k]) == "" && k > index {
      BlankLine(lines, index, k);
      OpensOnlyMisled(lines, index, k - 1, pats);
    } else {
      MisleadsIff(lines, index, k, pats);
    }
  }

  lemma NoLastBrace(lines: seq<string>, index: nat, k: nat, pats: Patterns)
    requires index <= k < |lines| && Rstrip(lines[k]) == ""
    ensures !Misleads(lines, index, k, pats)
  {
  }

  /** The audit finds a declaration's own brace if and only if it is visible. */
  lemma OwnBraceFound(lines: seq<string>, index: nat, e: nat, c: nat, pats: Patterns)
    requires index < |lines| && IsOwn(lines, index, e, c, pats)
    ensures Finds(lines, index, e, c, pats) <==> Visible(lines, index, e, c, pats)
  {
    hide Signature, Excess, Before, BehindParameters, Continued, Rstrip, Unended, Misleads, BodyLineFrom;
    BodyLineIsLeast(lines, index, index, e, pats);
    if Visible(lines, index, e, c, pats) {
      forall k | index <= k < e ensures Fails(lines, index, k, pats) {
        OpensOnlyMisled(lines, index, k, pats);
      }
      assert EndsWith(Rstrip(lines[e]), '{');
      LineEnd(lines, index, e);
      ExcessAppend(Before(lines, index, e, c), "{");
      ExcessBrace();
    }
    if Finds(lines, index, e, c, pats) {
      BodyBrace(lines, index, pats);
      RstripPrefix(lines[e]);
      LineEnd(lines, index, e);
      ExcessAppend(Before(lines, index, e, c), "{");
      ExcessBrace();
      forall k | index <= k < e
        ensures Unended(Signature(lines, index, k)) && !Misleads(lines, index, k, pats)
      {
        assert Fails(lines, index, k, pats);
        if Rstrip(lines[k]) != "" || k == index {
          MisleadsIff(lines, index, k, pats);
        } else {
          NoLastBrace(lines, index, k, pats);
        }
      }
    }
  }

  /** A declaration has one own brace. */
  lemma OwnIsUnique(lines: seq<string>, index: nat, e: nat, c: nat, a: nat, b: nat, pats: Patterns)
    requires index < |lines| && IsOwn(lines, index, e, c, pats) && IsOwn(lines, index, a, b, pats)
    ensures e == a && c == b
  {
    hide Candidate;
    assert Earlier(a, b, e, c) || Earlier(e, c, a, b) || (e == a && c == b);
  }

  // ---------------------------------------------------------------- its return type

  /** What the first match of a pattern is, more text behind a blank does not change. */
  ghost predicate Regular(pats: Patterns) {
    forall s, t :: KeepsMatch(pats, s, t)
  }

  predicate KeepsMatch(pats: Patterns, s: string, t: string) {
    pats.fn(s).Some? ==> pats.fn(s + " " + t) == pats.fn(s)
  }

  lemma {:induction false} SameMatch(lines: seq<string>, index: nat, e: nat, pats: Patterns)
    requires index <= e < |lines| && Regular(pats) && pats.fn(lines[index]).Some?
    ensures pats.fn(Signature(lines, index, e)) == pats.fn(lines[index])
  {
    if e > index {
      SameMatch(lines, index, e - 1, pats);
      var before := Signature(lines, index, e - 1);
      assert KeepsMatch(pats, before, lines[e]);
    }
  }

  /** The type the audit notes for an own brace is what stands before it. */
  lemma TypeFound(lines: seq<string>, index: nat, e: nat, c: nat, pats: Patterns)
    requires index < |lines| && Regular(pats) && IsOwn(lines, index, e, c, pats) && Finds(lines, index, e, c, pats)
    ensures BodyOf(lines, index, pats) == Some((e, OwnType(lines, index, e, c, pats)))
  {
    hide Signature, Before, Rstrip, AtTopLevel, Strip, ReturnType, BodyLineFrom, FirstClose;
    var paren := pats.fn(lines[index]).value;
    var (text, signature) := (Before(lines, index, e, c), Signature(lines, index, e));
    BodyBrace(lines, index, pats);
    RstripPrefix(lines[e]);
    LineEnd(lines, index, e);
    SameMatch(lines, index, e, pats);
    RstripPrefix(signature);
    var close := FirstClose(text, paren, paren).value;
    var white := signature[|text| + 1..];
    assert signature == text + "{" + white;
    assert signature[..|text| + 1] == text + "{";
    ClosePrefix(text, signature, paren, paren);
    assert FirstClose(signature, paren, paren) == Some(close);
    assert text == text[..paren] + text[paren..close + 1] + text[close + 1..];
    assert signature == text[..paren] + text[paren..close + 1] + text[close + 1..] + "{" + white;
    AllWhite(white);
    ReturnTypeIs(text[..paren], text[paren..close + 1], text[close + 1..], white, pats);
  }

  lemma {:induction false} AllWhite(s: string)
    requires forall i :: 0 <= i < |s| ==> IsSpace(s[i])
    ensures Rstrip(s) == ""
  {
    hide IsSpace;
    if s != "" {
      AllWhite(s[..|s| - 1]);
    }
  }
}
