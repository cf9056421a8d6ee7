/**
  The `@import` calls of a lexed source and their in-place expansion
  (scripts/replay-confinement-audit.py).
 */
module ZigImports {
  import opened Wrappers
  import opened Text
  import opened Parentheses
  import opened ZigLexer

  // ---------------------------------------------------------------- parentheses

  method MatchingParenthesis(code: string, opening: int) returns (r: Option<nat>)
    ensures r == Matching(code, opening)
  {
    if opening < 0 {
      return None;
    }
    var depth := 0;
    var index: nat := opening;
    while index < |code|
      invariant opening <= index
      invariant index <= |code| ==> depth == Depth(code[opening..index])
      invariant FirstClose(code, opening, opening) == FirstClose(code, opening, index)
    {
      assert code[opening..index + 1][..index - opening] == code[opening..index];
      if code[index] == '(' {
        depth := depth + 1;
      } else if code[index] == ')' {
        depth := depth - 1;
        if depth == 0 {
          return Some(index);
        }
      }
      index := index + 1;
    }
    return None;
  }

  // ---------------------------------------------------------------- calls

  datatype Call = Call(start: nat, end: nat, value: seq<CodePoint>)
  datatype ImportError = Malformed | NotOneLiteral

  function SkipSpace(code: string, i: nat): (j: nat)
    requires i <= |code|
    ensures i <= j <= |code| && forall k :: i <= k < j ==> IsSpace(code[k])
    ensures j < |code| ==> !IsSpace(code[j])
    decreases |code| - i
  {
    if i < |code| && IsSpace(code[i]) then SkipSpace(code, i + 1) else i
  }

  const IMPORT := "@import"

  /** Where a match of `@import\s*\(` that starts at `i` ends. */
  function MatchEnd(code: string, i: nat): (r: Option<nat>)
    ensures r.Some? ==> i + |IMPORT| < r.value <= |code| && code[i] == '@' && code[r.value - 1] == '('
    ensures r.Some? ==> forall k :: i < k < r.value ==> code[k] != '@'
  {
    if i + |IMPORT| <= |code| && code[i..i + |IMPORT|] == IMPORT then
      assert forall k :: i <= k < i + |IMPORT| ==> code[k] == IMPORT[k - i];
      var j := SkipSpace(code, i + |IMPORT|);
      if j < |code| && code[j] == '(' then Some(j + 1) else None
    else None
  }

  /** A match of the pattern: the text `@import`, white space and a parenthesis, from `i` up to `end`. */
  predicate Matches(code: string, i: nat, end: nat) {
    && i + 8 <= end <= |code| && code[i..i + 7] == "@import" && code[end - 1] == '('
    && forall k :: i + 7 <= k < end - 1 ==> IsSpace(code[k])
  }

  lemma MatchMeans(code: string, i: nat, end: nat)
    ensures MatchEnd(code, i) == Some(end) <==> Matches(code, i, end)
    ensures Matches(code, i, end) ==> forall k :: i < k < end ==> code[k] != '@'
  {
    if Matches(code, i, end) {
      assert !IsSpace('(');
      SkipsTo(code, i + 7, end - 1);
      assert forall k :: i <= k < i + 7 ==> code[k] == "@import"[k - i];
    }
  }

  lemma {:induction false} SkipsTo(code: string, i: nat, j: nat)
    requires i <= j < |code| && !IsSpace(code[j]) && forall k :: i <= k < j ==> IsSpace(code[k])
    ensures SkipSpace(code, i) == j
    decreases j - i
  {
    hide IsSpace;
    if i < j {
      SkipsTo(code, i + 1, j);
    }
  }

  /** The string tokens between the parentheses. */
  function TokensWithin(strings: seq<StringToken>, opening: nat, close: nat): seq<StringToken> {
    if strings == [] then []
    else
      (if opening < strings[0].start && strings[0].end <= close then [strings[0]] else [])
      + TokensWithin(strings[1..], opening, close)
  }

  function CallAt(lexed: Lexed, start: nat, end: nat): (r: Result<Call, ImportError>)
    requires MatchEnd(lexed.code, start) == Some(end)
  {
    match Matching(lexed.code, end - 1)
    case None => Err(Malformed)
    case Some(close) =>
      var tokens := TokensWithin(lexed.strings, end - 1, close);
      if |tokens| != 1 || Strip(lexed.code[end..close]) != "" then Err(NotOneLiteral)
      else Ok(Call(start, close + 1, tokens[0].value))
  }

  /** The calls from `index` on; the matches of the pattern are found left to right. */
  function CallsFrom(lexed: Lexed, index: nat): Result<seq<Call>, ImportError>
    decreases |lexed.code| - index
  {
    if index >= |lexed.code| then Ok([])
    else
      match MatchEnd(lexed.code, index)
      case None => CallsFrom(lexed, index + 1)
      case Some(end) =>
        var call :- CallAt(lexed, index, end);
        var rest :- CallsFrom(lexed, end);
        Ok([call] + rest)
  }

  method ImportCalls(lexed: Lexed) returns (r: Result<seq<Call>, ImportError>)
    ensures r == CallsFrom(lexed, 0)
  {
    hide CallAt, MatchEnd;
    var calls: seq<Call> := [];
    var index := 0;
    Prepended([], [], CallsFrom(lexed, 0));
    while index < |lexed.code|
      invariant CallsFrom(lexed, 0) == Prepend(calls, CallsFrom(lexed, index))
      decreases |lexed.code| - index
    {
      match MatchEnd(lexed.code, index)
      case None =>
        index := index + 1;
      case Some(end) =>
        var call :- CallAtMatch(lexed, index, end);
        Prepended(calls, [call], CallsFrom(lexed, end));
        calls, index := calls + [call], end;
    }
    assert calls + [] == calls;
    return Ok(calls);
  }

  function Prepend(calls: seq<Call>, r: Result<seq<Call>, ImportError>): Result<seq<Call>, ImportError> {
    match r
    case Ok(rest) => Ok(calls + rest)
    case Err(e) => Err(e)
  }

  lemma Prepended(a: seq<Call>, b: seq<Call>, r: Result<seq<Call>, ImportError>)
    ensures Prepend(a, Prepend(b, r)) == Prepend(a + b, r) && Prepend([], r) == r
  {
    if r.Ok? {
      assert a + (b + r.value) == a + b + r.value;
      assert [] + r.value == r.value;
    }
  }

  lemma WithinStep(strings: seq<StringToken>, opening: nat, close: nat)
    ensures strings == [] ==> TokensWithin(strings, opening, close) == []
    ensures strings != [] ==>
      TokensWithin(strings, opening, close)
      == (if opening < strings[0].start && strings[0].end <= close then [strings[0]] else [])
         + TokensWithin(strings[1..], opening, close)
  {
  }

  method CallAtMatch(lexed: Lexed, start: nat, end: nat) returns (r: Result<Call, ImportError>)
    requires MatchEnd(lexed.code, start) == Some(end)
    ensures r == CallAt(lexed, start, end)
  {
    hide TokensWithin, Matching, MatchEnd, Strip;
    var close := MatchingParenthesis(lexed.code, end - 1);
    if close == None {
      return Err(Malformed);
    }
    var tokens: seq<StringToken> := [];
    assert lexed.strings[0..] == lexed.strings;
    for k := 0 to |lexed.strings|
      invariant TokensWithin(lexed.strings, end - 1, close.value)
             == tokens + TokensWithin(lexed.strings[k..], end - 1, close.value)
    {
      assert lexed.strings[k..][1..] == lexed.strings[k + 1..];
      WithinStep(lexed.strings[k..], end - 1, close.value);
      var token := lexed.strings[k];
      if end - 1 < token.start && token.end <= close.value {
        tokens := tokens + [token];
      }
    }
    WithinStep([], end - 1, close.value);
    assert lexed.strings[|lexed.strings|..] == [];
    if |tokens| != 1 || Strip(lexed.code[end..close.value]) != "" {
      return Err(NotOneLiteral);
    }
    return Ok(Call(start, close.value + 1, tokens[0].value));
  }

  /** String token `k` lies between the parentheses. */
  predicate Within(strings: seq<StringToken>, opening: int, close: int, k: nat)
    requires k < |strings|
  {
    opening < strings[k].start && strings[k].end <= close
  }

  ghost predicate OnlyWithin(strings: seq<StringToken>, opening: int, close: int, k: nat) {
    && k < |strings| && Within(strings, opening, close, k)
    && forall j :: 0 <= j < |strings| && Within(strings, opening, close, j) ==> j == k
  }

  lemma {:induction false} NoneWithin(strings: seq<StringToken>, opening: nat, close: nat)
    ensures TokensWithin(strings, opening, close) == [] <==>
      forall k :: 0 <= k < |strings| ==> !Within(strings, opening, close, k)
  {
    hide Within;
    if strings != [] {
      WithinTail(strings, opening, close);
      NoneWithin(strings[1..], opening, close);
      forall k | 0 <= k < |strings| - 1
        ensures Within(strings, opening, close, k + 1) == Within(strings[1..], opening, close, k)
      {
      }
    }
  }

  lemma {:induction false} OneWithin(strings: seq<StringToken>, opening: nat, close: nat)
    ensures |TokensWithin(strings, opening, close)| == 1 <==> exists k: nat :: OnlyWithin(strings, opening, close, k)
    ensures forall k: nat :: OnlyWithin(strings, opening, close, k) ==>
      TokensWithin(strings, opening, close) == [strings[k]]
  {
    hide Within;
    if strings != [] {
      var rest := strings[1..];
      WithinStep(strings, opening, close);
      WithinTail(strings, opening, close);
      NoneWithin(rest, opening, close);
      OneWithin(rest, opening, close);
      if Within(strings, opening, close, 0) {
        if TokensWithin(rest, opening, close) == [] {
          assert OnlyWithin(strings, opening, close, 0);
        } else {
          var k :| 0 <= k < |rest| && Within(rest, opening, close, k);
          assert Within(strings, opening, close, k + 1);
        }
      } else {
        forall k: nat | OnlyWithin(rest, opening, close, k) ensures OnlyWithin(strings, opening, close, k + 1) { }
        forall k: nat | OnlyWithin(strings, opening, close, k)
          ensures k > 0 && OnlyWithin(rest, opening, close, k - 1)
        {
          forall j | 0 <= j < |rest| && Within(rest, opening, close, j) ensures j == k - 1 {
            assert Within(strings, opening, close, j + 1);
          }
        }
      }
    }
  }

  lemma WithinTail(strings: seq<StringToken>, opening: nat, close: nat)
    requires strings != []
    ensures Within(strings, opening, close, 0) <==> opening < strings[0].start && strings[0].end <= close
    ensures forall k :: 0 < k < |strings| ==>
      (Within(strings, opening, close, k) <==> Within(strings[1..], opening, close, k - 1))
  {
  }

  /**
    An accepted call: the opening parenthesis ends the pattern, the call ends at the
    first parenthesis that balances it, only white space lies between in the code,
    and exactly one string token, whose value the call carries, lies between them.
   */
  ghost predicate WellFormed(lexed: Lexed, c: Call, opening: nat) {
    && Matches(lexed.code, c.start, opening + 1)
    && opening + 1 < c.end <= |lexed.code|
    && IsFirstClose(lexed.code, opening, Some(c.end - 1))
    && (forall k :: opening < k < c.end - 1 ==> IsSpace(lexed.code[k]))
    && OneToken(lexed.strings, opening, c.end - 1, c.value)
  }

  /** Exactly one token lies within the parentheses, and it has this value. */
  ghost predicate OneToken(strings: seq<StringToken>, opening: nat, close: nat, value: seq<CodePoint>) {
    exists t: nat :: OnlyWithin(strings, opening, close, t) && strings[t].value == value
  }

  lemma SingleToken(strings: seq<StringToken>, opening: nat, close: nat)
    requires |TokensWithin(strings, opening, close)| == 1
    ensures OneToken(strings, opening, close, TokensWithin(strings, opening, close)[0].value)
  {
    hide TokensWithin, OnlyWithin;
    OneWithin(strings, opening, close);
  }

  lemma CloseOf(code: string, opening: nat)
    requires Matching(code, opening).Some? && opening < |code| && code[opening] == '('
    ensures opening < Matching(code, opening).value < |code|
    ensures code[Matching(code, opening).value] == ')'
  {
    hide Depth, FirstClose;
  }

  lemma AcceptedCall(lexed: Lexed, start: nat, end: nat)
    requires MatchEnd(lexed.code, start) == Some(end) && CallAt(lexed, start, end).Ok?
    ensures var c := CallAt(lexed, start, end).value; c.start == start && WellFormed(lexed, c, end - 1)
    ensures forall k :: start < k < CallAt(lexed, start, end).value.end ==> lexed.code[k] != '@'
  {
    hide Matching, IsFirstClose, MatchEnd, Matches, Strip, TokensWithin, OneToken;
    MatchMeans(lexed.code, start, end);
    MatchBounds(lexed.code, start, end);
    var close := Matching(lexed.code, end - 1).value;
    CloseOf(lexed.code, end - 1);
    SingleToken(lexed.strings, end - 1, close);
    StripTrims(lexed.code[end..close]);
    forall k | end <= k < close ensures IsSpace(lexed.code[k]) {
      assert lexed.code[end..close][k - end] == lexed.code[k];
    }
  }

  // ---------------------------------------------------------------- which sources are accepted

  /** A call can be read: a parenthesis balances it, with one string and else only white space up to it. */
  ghost predicate Complete(lexed: Lexed, opening: int) {
    exists close: nat ::
      && IsFirstClose(lexed.code, opening, Some(close))
      && (forall k: nat :: opening < k < close ==> IsSpace(lexed.code[k]))
      && exists t: nat :: OnlyWithin(lexed.strings, opening, close, t)
  }

  lemma OneFirstClose(code: string, opening: nat, a: Option<nat>, b: Option<nat>)
    requires IsFirstClose(code, opening, a) && IsFirstClose(code, opening, b)
    ensures a == b
  {
    hide Closes;
    assert a.Some? ==> opening <= a.value by {
      if a.Some? { ClosesBehind(code, opening, a.value); }
    }
    assert b.Some? ==> opening <= b.value by {
      if b.Some? { ClosesBehind(code, opening, b.value); }
    }
  }

  lemma ClosesBehind(code: string, opening: nat, k: nat)
    requires Closes(code, opening, k)
    ensures opening <= k < |code|
  {
  }

  lemma CallReads(lexed: Lexed, start: nat, end: nat)
    requires MatchEnd(lexed.code, start) == Some(end)
    ensures CallAt(lexed, start, end).Ok? <==> Complete(lexed, end - 1)
    ensures CallAt(lexed, start, end) == Err(Malformed) <==> IsFirstClose(lexed.code, end - 1, None)
  {
    hide TokensWithin, Strip, OnlyWithin, IsFirstClose, MatchEnd;
    var code, opening := lexed.code, end - 1;
    var m := Matching(code, opening);
    MatchBounds(code, start, end);
    if m == None {
      if Complete(lexed, opening) {
        var close: nat :| IsFirstClose(code, opening, Some(close));
        OneFirstClose(code, opening, m, Some(close));
      }
    } else {
      var close := m.value;
      CloseOf(code, opening);
      OneWithin(lexed.strings, opening, close);
      StripTrims(code[end..close]);
      assert forall k :: end <= k < close ==> code[end..close][k - end] == code[k];
      if Complete(lexed, opening) {
        forall c: nat | IsFirstClose(code, opening, Some(c)) ensures c == close {
          OneFirstClose(code, opening, m, Some(c));
        }
      }
      if IsFirstClose(code, opening, None) {
        OneFirstClose(code, opening, m, None);
      }
    }
  }

  lemma MatchBounds(code: string, start: nat, end: nat)
    requires MatchEnd(code, start) == Some(end)
    ensures start < end <= |code| && code[end - 1] == '('
  {
  }

  /** Nothing closes the parenthesis, or what it encloses is not one literal. */
  ghost function Fault(lexed: Lexed, opening: int): ImportError {
    if IsFirstClose(lexed.code, opening, None) then Malformed else NotOneLiteral
  }

  /** The first match from `index` on that cannot be read. */
  ghost predicate FirstBad(lexed: Lexed, index: nat, i: nat, end: nat) {
    && index <= i && Matches(lexed.code, i, end) && !Complete(lexed, end - 1)
    && forall j: nat, f: nat :: index <= j < i && Matches(lexed.code, j, f) ==> Complete(lexed, f - 1)
  }

  /**
    A source is accepted exactly if every match can be read; otherwise the first one that
    cannot decides the error: malformed if nothing closes it, else not one literal.
   */
  lemma {:induction false} CallsMean(lexed: Lexed, index: nat)
    ensures CallsFrom(lexed, index).Ok? <==>
      forall i: nat, end: nat :: index <= i && Matches(lexed.code, i, end) ==> Complete(lexed, end - 1)
    ensures CallsFrom(lexed, index).Err? ==>
      exists i: nat, end: nat :: FirstBad(lexed, index, i, end)
        && CallsFrom(lexed, index).error == Fault(lexed, end - 1)
    decreases |lexed.code| - index
  {
    hide CallAt, MatchEnd, Matches, Complete, IsFirstClose;
    forall i: nat, end: nat ensures MatchEnd(lexed.code, i) == Some(end) <==> Matches(lexed.code, i, end) {
      MatchMeans(lexed.code, i, end);
    }
    forall i: nat, end: nat | Matches(lexed.code, i, end) ensures i < |lexed.code| && end > 0 {
      MatchStarts(lexed.code, i, end);
    }
    if index >= |lexed.code| {
    } else if MatchEnd(lexed.code, index) == None {
      CallsMean(lexed, index + 1);
      if CallsFrom(lexed, index).Err? {
        var i: nat, end: nat :| FirstBad(lexed, index + 1, i, end)
          && CallsFrom(lexed, index).error == Fault(lexed, end - 1);
        assert FirstBad(lexed, index, i, end);
      }
    } else {
      var end := MatchEnd(lexed.code, index).value;
      MatchBounds(lexed.code, index, end);
      NoMatchInside(lexed.code, index, end);
      CallReads(lexed, index, end);
      if CallAt(lexed, index, end).Err? {
        assert FirstBad(lexed, index, index, end);
      } else {
        CallsMean(lexed, end);
        if CallsFrom(lexed, index).Err? {
          var i: nat, f: nat :| FirstBad(lexed, end, i, f)
            && CallsFrom(lexed, index).error == Fault(lexed, f - 1);
          assert FirstBad(lexed, index, i, f);
        }
      }
    }
  }

  lemma MatchStarts(code: string, i: nat, end: nat)
    requires Matches(code, i, end)
    ensures i < end <= |code| && code[i] == '@'
  {
    assert code[i..i + 7][0] == code[i];
  }

  lemma NoMatchInside(code: string, index: nat, end: nat)
    requires MatchEnd(code, index) == Some(end)
    ensures forall j: nat, f: nat :: index < j < end ==> !Matches(code, j, f)
  {
    hide MatchEnd, Matches;
    MatchMeans(code, index, end);
    forall j: nat, f: nat | Matches(code, j, f) ensures j < |code| && code[j] == '@' {
      MatchStarts(code, j, f);
    }
  }

  predicate Disjoint(calls: seq<Call>) {
    forall i, j :: 0 <= i < j < |calls| ==> calls[i].end <= calls[j].start
  }

  /**
    On accepted input the calls are exactly the matches of the pattern; each is well
    formed, and their ranges are in order and disjoint.
   */
  lemma {:induction false} AcceptedCalls(lexed: Lexed, index: nat)
    requires CallsFrom(lexed, index).Ok?
    ensures var calls := CallsFrom(lexed, index).value;
      && Disjoint(calls)
      && (forall c :: c in calls ==> index <= c.start && exists o :: WellFormed(lexed, c, o))
      && (forall k: nat, end: nat :: index <= k && Matches(lexed.code, k, end) ==>
            exists c :: c in calls && c.start == k)
    decreases |lexed.code| - index
  {
    hide CallAt, MatchEnd, Matches, WellFormed;
    forall k: nat, end: nat ensures MatchEnd(lexed.code, k) == Some(end) <==> Matches(lexed.code, k, end) {
      MatchMeans(lexed.code, k, end);
    }
    forall k: nat, end: nat | Matches(lexed.code, k, end) ensures k < |lexed.code| {
      MatchStarts(lexed.code, k, end);
    }
    if index < |lexed.code| {
      match MatchEnd(lexed.code, index)
      case None =>
        AcceptedCalls(lexed, index + 1);
      case Some(end) =>
        AcceptedCalls(lexed, end);
        NoMatchInside(lexed.code, index, end);
        AcceptedCall(lexed, index, end);
        var first := CallAt(lexed, index, end).value;
        var rest := CallsFrom(lexed, end).value;
        assert first in CallsFrom(lexed, index).value;
        forall c | c in rest ensures first.end <= c.start {
          var o :| WellFormed(lexed, c, o);
          StartsWithAt(lexed, c, o);
        }
    }
  }

  lemma StartsWithAt(lexed: Lexed, c: Call, o: nat)
    requires WellFormed(lexed, c, o)
    ensures c.start < |lexed.code| && lexed.code[c.start] == '@'
    ensures c.start + 7 <= o < c.end <= |lexed.code|
  {
    MatchStarts(lexed.code, c.start, o + 1);
  }

  // ---------------------------------------------------------------- expansion

  const STD := "std"

  /** `output[start:end] = list("std".ljust(end - start))` */
  function Spliced(code: string, c: Call): (r: string)
    requires c.start <= c.end <= |code|
    ensures |r| >= |code|
  {
    var n := c.end - c.start;
    code[..c.start] + (if n <= |STD| then STD else Fit(STD, n)) + code[c.end..]
  }

  /** The call gives way to `std`, filled up with blanks where the call was longer. */
  lemma SplicedMeans(code: string, c: Call)
    requires c.start <= c.end <= |code|
    ensures Spliced(code, c)
      == code[..c.start] + ("std" + Spaces(if c.end - c.start > 3 then c.end - c.start - 3 else 0)) + code[c.end..]
  {
    assert "std" + Spaces(0) == "std";
  }

  predicate IsStd(c: Call) {
    c.value == [115, 116, 100]
  }

  function Expanded(code: string, calls: seq<Call>): string
    requires forall c :: c in calls ==> c.start <= c.end <= |code|
    decreases |calls|
  {
    if calls == [] then code
    else
      assert calls[0] in calls;
      Expanded(if IsStd(calls[0]) then Spliced(code, calls[0]) else code, calls[1..])
  }

  method ExpandStdImports(code: string, calls: seq<Call>) returns (output: string)
    requires forall c :: c in calls ==> c.start <= c.end <= |code|
    ensures output == Expanded(code, calls)
  {
    hide Spliced, IsStd;
    output := code;
    assert calls[0..] == calls;
    for i := 0 to |calls|
      invariant |output| >= |code|
      invariant Expanded(code, calls) == Expanded(output, calls[i..])
    {
      assert calls[i..][1..] == calls[i + 1..];
      assert calls[i] in calls;
      if !IsStd(calls[i]) {
        continue;
      }
      output := Spliced(output, calls[i]);
    }
  }

  predicate InStd(calls: seq<Call>, k: nat) {
    exists i :: 0 <= i < |calls| && Covers(calls[i], k)
  }

  /** A character of the expansion: `std` and blanks inside a `std` call, the code elsewhere. */
  predicate ExpandedAt(code: string, calls: seq<Call>, k: nat, c: char)
    requires k < |code|
  {
    && (!InStd(calls, k) ==> c == code[k])
    && (forall i :: 0 <= i < |calls| && Covers(calls[i], k) ==> c == StdChar(calls[i], k))
  }

  function StdChar(c: Call, k: nat): char
    requires c.start <= k
  {
    if k - c.start < 3 then "std"[k - c.start] else ' '
  }

  lemma SplicedAt(code: string, c: Call)
    requires c.start + 3 <= c.end <= |code|
    ensures |Spliced(code, c)| == |code|
    ensures forall k :: 0 <= k < |code| ==>
      Spliced(code, c)[k] ==
        if c.start <= k < c.end then StdChar(c, k) else code[k]
  {
  }

  /** Expanding disjoint calls keeps the length and every character outside the `std` calls. */
  lemma {:induction false} ExpansionInPlace(code: string, calls: seq<Call>)
    requires Disjoint(calls) && forall c :: c in calls ==> c.start + 3 <= c.end <= |code|
    ensures |Expanded(code, calls)| == |code|
    ensures forall k :: 0 <= k < |code| ==> ExpandedAt(code, calls, k, Expanded(code, calls)[k])
    decreases |calls|
  {
    hide Spliced;
    if calls != [] {
      var c, rest := calls[0], calls[1..];
      assert c in calls;
      hide StdChar;
      var next := if IsStd(c) then Spliced(code, c) else code;
      SplicedAt(code, c);
      ExpansionInPlace(next, rest);
      forall k | 0 <= k < |code| ensures ExpandedAt(code, calls, k, Expanded(code, calls)[k]) {
        ExpandedStep(code, calls, next, k);
      }
    }
  }

  predicate Covers(c: Call, k: nat) {
    IsStd(c) && c.start <= k < c.end
  }

  lemma ExpandedStep(code: string, calls: seq<Call>, next: string, k: nat)
    requires calls != [] && Disjoint(calls) && |next| == |code| && k < |code|
    requires forall c :: c in calls ==> c.start + 3 <= c.end <= |code|
    requires next[k] == if Covers(calls[0], k) then StdChar(calls[0], k) else code[k]
    requires |Expanded(next, calls[1..])| == |code|
    requires ExpandedAt(next, calls[1..], k, Expanded(next, calls[1..])[k])
    ensures ExpandedAt(code, calls, k, Expanded(next, calls[1..])[k])
  {
    hide Expanded, IsStd, StdChar;
    var rest := calls[1..];
    assert forall i :: 0 < i < |calls| ==> calls[i] == rest[i - 1];
    if Covers(calls[0], k) {
      assert forall i :: 0 <= i < |rest| ==> !Covers(rest[i], k);
    } else {
      assert InStd(calls, k) <==> InStd(rest, k) by {
        if i :| 0 <= i < |rest| && Covers(rest[i], k) {
          assert Covers(calls[i + 1], k);
        }
      }
    }
  }

  /** The whole pass on an accepted source: every range found stays valid in the expansion. */
  lemma ExpandedSource(source: string)
    requires CallsFrom(Lex(source), 0).Ok?
    ensures var lexed := Lex(source);
      var calls := CallsFrom(lexed, 0).value;
      && (forall c :: c in calls ==> c.start + 3 <= c.end <= |source|)
      && |Expanded(lexed.code, calls)| == |source|
      && forall k :: 0 <= k < |source| ==> ExpandedAt(lexed.code, calls, k, Expanded(lexed.code, calls)[k])
  {
    hide Expanded, WellFormed;
    var lexed := Lex(source);
    var calls := CallsFrom(lexed, 0).value;
    AcceptedCalls(lexed, 0);
    forall c | c in calls ensures c.start + 3 <= c.end <= |source| {
      var o :| WellFormed(lexed, c, o);
      StartsWithAt(lexed, c, o);
    }
    ExpansionInPlace(lexed.code, calls);
  }
}
