/**
  Where the pieces of a Zig source end (scripts/replay-confinement-audit.py), said by
  characters and positions and not by the functions that find the ends.
 */
module ZigPieces {
  import opened Text
  import opened ZigEscapes
  import opened ZigLexer

  // ---------------------------------------------------------------- extents

  predicate Stands(s: string, i: nat, a: char, b: char) {
    i + 1 < |s| && s[i] == a && s[i + 1] == b
  }

  /** Character `k` is escaped: an odd number of backslashes stands right before it, back to `from`. */
  predicate EscapedAt(s: string, from: nat, k: nat)
    requires k <= |s|
    decreases k
  {
    k > from && s[k - 1] == '\\' && !EscapedAt(s, from, k - 1)
  }

  predicate Unescaped(s: string, from: nat, quote: char, k: nat)
    requires k < |s|
  {
    s[k] == quote && !EscapedAt(s, from, k)
  }

  /** A literal whose text starts at `from` ends behind the first unescaped quote, or never. */
  predicate QuoteEnds(s: string, from: nat, quote: char, end: nat, closed: bool) {
    && from <= end <= |s|
    && (if closed then from < end && Unescaped(s, from, quote, end - 1) else end == |s|)
    && (forall k :: from <= k < (if closed then end - 1 else end) ==> !Unescaped(s, from, quote, k))
  }

  /** A line comment or a multi-line string takes everything up to the first newline. */
  predicate LineEnds(s: string, end: nat) {
    && 2 <= end <= |s|
    && (forall k :: 2 <= k < end ==> s[k] != '\n')
    && (end < |s| ==> s[end] == '\n')
  }

  /** The positions at which a comment's tokens start, read two characters at a time at `/*` and `*/`. */
  predicate IsReading(s: string, cuts: seq<nat>) {
    && cuts != [] && cuts[0] == 2
    && forall j :: 0 <= j < |cuts| - 1 ==>
      && cuts[j] < |s|
      && cuts[j + 1] == cuts[j] + (if Stands(s, cuts[j], '/', '*') || Stands(s, cuts[j], '*', '/') then 2 else 1)
  }

  /** How many comments are open behind those tokens. */
  function Nesting(s: string, cuts: seq<nat>): int {
    if |cuts| <= 1 then 1
    else
      var i := cuts[|cuts| - 2];
      Nesting(s, cuts[..|cuts| - 1])
      + if Stands(s, i, '/', '*') then 1 else if Stands(s, i, '*', '/') then -1 else 0
  }

  /** Some comment is open behind each proper part of the tokens. */
  predicate Nested(s: string, cuts: seq<nat>) {
    forall j :: 1 <= j < |cuts| ==> Nesting(s, cuts[..j]) > 0
  }

  /** A block comment ends at the first token at which openers and closers balance, or never. */
  ghost predicate CommentEnds(s: string, end: nat, closed: bool) {
    exists cuts ::
      && IsReading(s, cuts) && cuts[|cuts| - 1] == end && Nested(s, cuts)
      && if closed then Nesting(s, cuts) == 0 else Nesting(s, cuts) > 0 && end == |s|
  }

  /** `p` is what the source `s` starts with. */
  ghost predicate IsPiece(s: string, p: Piece) {
    var n := |p.text|;
    && 0 < n <= |s| && p.text == s[..n]
    && (p.kind != AtName && p.kind != Quoted && p.kind != CharLiteral ==> p.value == [])
    && if Stands(s, 0, '/', '/') then p.kind == LineComment && p.closed && LineEnds(s, n)
       else if Stands(s, 0, '/', '*') then p.kind == BlockComment && CommentEnds(s, n, p.closed)
       else if Stands(s, 0, '\\', '\\') then p.kind == Multiline && p.closed && LineEnds(s, n)
       else if Stands(s, 0, '@', '"') then p.kind == AtName && QuoteEnds(s, 2, '"', n, p.closed)
       else if s[0] == '"' then p.kind == Quoted && QuoteEnds(s, 1, '"', n, p.closed)
       else if s[0] == '\'' then p.kind == CharLiteral && QuoteEnds(s, 1, '\'', n, p.closed)
       else p.kind == Code && p.closed && n == 1
  }

  // ---------------------------------------------------------------- quotes

  /** What an escape takes behind its first character holds no quote and no backslash. */
  lemma EscapeTakes(rest: string, k: nat)
    requires 1 <= k < DecodeEscape(rest).1
    ensures rest[k] != '"' && rest[k] != '\'' && rest[k] != '\\'
  {
    hide HexValue, HexDigit;
    if rest[0] == 'u' && k >= 2 {
      var n := Find(rest[2..], '}');
      var digits := rest[2..2 + n];
      assert k - 2 < n ==> IsHex(digits[k - 2]);
    }
  }

  lemma {:induction false} QuoteExtent(s: string, from: nat, i: nat, quote: char)
    requires from <= i <= |s| && (i < |s| ==> !EscapedAt(s, from, i)) && (quote == '"' || quote == '\'')
    ensures var (n, _, closed) := Quote(s[i..], quote);
      && i + n <= |s|
      && (if closed then n > 0 && Unescaped(s, from, quote, i + n - 1) else i + n == |s|)
      && (forall k :: i <= k < (if closed then i + n - 1 else i + n) ==> !Unescaped(s, from, quote, k))
    decreases |s| - i
  {
    hide Quote, DecodeEscape;
    EscapeOfNothing(quote);
    if i < |s| {
      var rest := s[i..];
      QuoteStep(rest, quote);
      assert rest[1..] == s[i + 1..];
      if s[i] == '\\' && quote != '\\' {
        var n := DecodeEscape(s[i + 1..]).1;
        assert rest[1 + n..] == s[i + 1 + n..];
        EscapeSkips(s, from, i, quote);
        QuoteExtent(s, from, i + 1 + n, quote);
      } else if s[i] != quote {
        QuoteExtent(s, from, i + 1, quote);
      }
    } else {
      assert s[i..] == "";
    }
  }

  /** No quote that an escape takes is unescaped, and the character behind the escape is not escaped. */
  lemma EscapeSkips(s: string, from: nat, i: nat, quote: char)
    requires from <= i < |s| && s[i] == '\\' && !EscapedAt(s, from, i) && (quote == '"' || quote == '\'')
    ensures var n := DecodeEscape(s[i + 1..]).1;
      && i + 1 + n <= |s| && (forall k :: i <= k < i + 1 + n ==> !Unescaped(s, from, quote, k))
      && (i + 1 + n < |s| ==> !EscapedAt(s, from, i + 1 + n))
  {
    hide DecodeEscape;
    var rest := s[i + 1..];
    var n := DecodeEscape(rest).1;
    assert EscapedAt(s, from, i + 1);
    forall k | i + 2 <= k < i + 1 + n ensures s[k] != '"' && s[k] != '\'' && s[k] != '\\' {
      EscapeTakes(rest, k - i - 1);
      assert rest[k - i - 1] == s[k];
    }
    if rest != "" {
      assert n > 0;
      assert n == 1 ==> !EscapedAt(s, from, i + 2);
      assert n > 1 ==> s[i + n] != '\\';
    }
  }

  // ---------------------------------------------------------------- comments

  lemma {:induction false} CommentExtent(s: string, cuts: seq<nat>, depth: nat) returns (more: seq<nat>)
    requires IsReading(s, cuts) && cuts[|cuts| - 1] <= |s| && Nesting(s, cuts) == depth && Nested(s, cuts)
    ensures IsReading(s, more) && Nested(s, more)
    ensures var (n, closed) := BlockEnd(s[cuts[|cuts| - 1]..], depth);
      && more[|more| - 1] == cuts[|cuts| - 1] + n
      && if closed then Nesting(s, more) == 0 else Nesting(s, more) > 0 && more[|more| - 1] == |s|
    decreases |s| - cuts[|cuts| - 1]
  {
    hide BlockEnd, BlockToken, IsReading, Nested, Nesting;
    ReadingStarts(s, cuts);
    var i := cuts[|cuts| - 1];
    var rest := s[i..];
    BlockStep(rest, depth);
    more := cuts;
    if depth > 0 && i < |s| {
      var (n, next) := BlockToken(rest, depth);
      assert rest[n..] == s[i + n..];
      NextCut(s, cuts, depth);
      more := CommentExtent(s, cuts + [i + n], next);
    }
  }

  lemma ReadingStarts(s: string, cuts: seq<nat>)
    requires IsReading(s, cuts)
    ensures cuts != []
  {
  }

  /** One token more. */
  lemma NextCut(s: string, cuts: seq<nat>, depth: nat)
    requires IsReading(s, cuts) && cuts[|cuts| - 1] < |s| && Nesting(s, cuts) == depth > 0 && Nested(s, cuts)
    ensures var i := cuts[|cuts| - 1];
      var (n, next) := BlockToken(s[i..], depth);
      var longer := cuts + [i + n];
      IsReading(s, longer) && i + n <= |s| && Nesting(s, longer) == next && Nested(s, longer)
  {
    hide BlockToken;
    var i := cuts[|cuts| - 1];
    TokenStands(s, i, depth);
    var longer := cuts + [i + BlockToken(s[i..], depth).0];
    assert longer[..|cuts|] == cuts;
    hide Stands;
    forall j | 1 <= j < |longer| ensures Nesting(s, longer[..j]) > 0 {
      if j < |cuts| {
        assert longer[..j] == cuts[..j];
      }
    }
  }

  lemma TokenStands(s: string, i: nat, depth: nat)
    requires i < |s| && depth > 0
    ensures BlockToken(s[i..], depth)
      == if Stands(s, i, '/', '*') then (2, depth + 1)
         else if Stands(s, i, '*', '/') then (2, depth - 1)
         else (1, depth)
  {
    StandsIsPrefix(s, i);
  }

  lemma StandsIsPrefix(s: string, i: nat)
    requires i <= |s|
    ensures "/*" <= s[i..] <==> Stands(s, i, '/', '*')
    ensures "*/" <= s[i..] <==> Stands(s, i, '*', '/')
    ensures "//" <= s[i..] <==> Stands(s, i, '/', '/')
    ensures "\\\\" <= s[i..] <==> Stands(s, i, '\\', '\\')
    ensures "@\"" <= s[i..] <==> Stands(s, i, '@', '"')
  {
    if i + 1 < |s| {
      assert s[i..][0] == s[i] && s[i..][1] == s[i + 1];
    }
  }

  lemma CommentPiece(s: string)
    requires Stands(s, 0, '/', '*')
    ensures var (n, closed) := BlockEnd(s[2..], 1); CommentEnds(s, 2 + n, closed)
  {
    hide BlockEnd, Nesting;
    assert Nesting(s, [2]) == 1 by { OneCut(s); }
    var cuts := CommentExtent(s, [2], 1);
  }

  lemma OneCut(s: string)
    ensures Nesting(s, [2]) == 1
  {
  }

  // ---------------------------------------------------------------- every piece

  lemma LinePiece(s: string)
    requires |s| >= 2
    ensures LineEnds(s, LineEnd(s))
  {
    var n := Find(s[2..], '\n');
    forall k | 2 <= k < 2 + n ensures s[k] != '\n' {
      assert s[2..][..n][k - 2] == s[k];
    }
  }

  /** The piece the lexer takes is the one the characters say. */
  lemma FirstPiece(s: string)
    requires s != ""
    ensures IsPiece(s, NextPiece(s))
  {
    hide Quote, BlockEnd, LineEnd, LineEnds, CommentEnds, QuoteEnds;
    assert s[0..] == s;
    StandsIsPrefix(s, 0);
    if |s| >= 2 {
      LinePiece(s);
    }
    if Stands(s, 0, '/', '*') {
      CommentPiece(s);
    }
    QuotePieces(s);
  }

  lemma QuotePieces(s: string)
    ensures |s| >= 2 ==> var (n, _, closed) := Quote(s[2..], '"'); QuoteEnds(s, 2, '"', 2 + n, closed)
    ensures |s| >= 1 ==> var (n, _, closed) := Quote(s[1..], '"'); QuoteEnds(s, 1, '"', 1 + n, closed)
    ensures |s| >= 1 ==> var (n, _, closed) := Quote(s[1..], '\''); QuoteEnds(s, 1, '\'', 1 + n, closed)
  {
    hide Quote, Unescaped;
    if |s| >= 2 {
      QuoteExtent(s, 2, 2, '"');
    }
    if |s| >= 1 {
      QuoteExtent(s, 1, 1, '"');
      QuoteExtent(s, 1, 1, '\'');
    }
  }

  lemma PieceAtStep(p: Piece, rest: seq<Piece>, k: nat)
    requires p.text != "" && k < |SourceOf([p] + rest)|
    ensures |SourceOf([p] + rest)| == |p.text| + |SourceOf(rest)|
    ensures k < |p.text| ==> PieceAt([p] + rest, k) == (p, 0)
    ensures k >= |p.text| ==>
      var (q, start) := PieceAt(rest, k - |p.text|); PieceAt([p] + rest, k) == (q, start + |p.text|)
  {
    assert ([p] + rest)[1..] == rest;
  }

  /**
    Every character of a source lies in a piece that ends where the characters say, read
    from where it starts; the pieces before it end right there.
   */
  lemma {:induction false} PiecesMean(s: string, k: nat)
    requires k < |s|
    ensures SourceOf(Pieces(s)) == s
    ensures var (p, start) := PieceAt(Pieces(s), k);
      && start <= k < start + |p.text| && IsPiece(s[start..], p)
      && (start > 0 ==> var (q, before) := PieceAt(Pieces(s), start - 1); before + |q.text| == start)
    decreases |s|
  {
    hide NextPiece, IsPiece, Pieces, PieceAt, SourceOf;
    PiecesPartition(s);
    PiecesStep(s);
    FirstPiece(s);
    var n := |NextPiece(s).text|;
    var rest := s[n..];
    PiecesPartition(rest);
    PieceAtStep(NextPiece(s), Pieces(rest), k);
    if k < n {
      assert s[0..] == s;
    } else {
      PiecesMean(rest, k - n);
      var start := PieceAt(Pieces(rest), k - n).1;
      assert rest[start..] == s[n + start..];
      PieceAtStep(NextPiece(s), Pieces(rest), n + start - 1);
    }
  }

  // ---------------------------------------------------------------- escapes

  /** `c` is the hexadecimal digit `d`, in either case. */
  predicate HexAs(c: char, d: int) {
    || (0 <= d < 10 && c as int == '0' as int + d)
    || (10 <= d < 16 && (c as int == 'a' as int + d - 10 || c as int == 'A' as int + d - 10))
  }

  lemma HexDigits(c: char)
    ensures IsHex(c) <==> exists d :: HexAs(c, d)
    ensures forall d :: HexAs(c, d) ==> IsHex(c) && HexDigit(c) == d
  {
    if '0' <= c <= '9' {
      assert HexAs(c, c as int - '0' as int);
    } else if 'a' <= c <= 'f' {
      assert HexAs(c, c as int - 'a' as int + 10);
    } else if 'A' <= c <= 'F' {
      assert HexAs(c, c as int - 'A' as int + 10);
    }
  }

  function Base16(ds: seq<nat>): nat {
    if ds == [] then 0 else 16 * Base16(ds[..|ds| - 1]) + ds[|ds| - 1]
  }

  predicate AreDigits(s: string, ds: seq<nat>) {
    |s| == |ds| && forall i :: 0 <= i < |s| ==> HexAs(s[i], ds[i])
  }

  lemma {:induction false} DigitsMean(s: string, ds: seq<nat>)
    requires AreDigits(s, ds)
    ensures AllHex(s) && HexValue(s) == Base16(ds)
  {
    hide IsHex, HexDigit, HexAs;
    if s != "" {
      HexDigits(s[|s| - 1]);
      DigitsMean(s[..|s| - 1], ds[..|ds| - 1]);
    }
  }

  lemma {:induction false} DigitsOf(s: string) returns (ds: seq<nat>)
    requires AllHex(s)
    ensures AreDigits(s, ds)
  {
    hide IsHex, HexAs;
    ds := [];
    if s != "" {
      HexDigits(s[|s| - 1]);
      var init := DigitsOf(s[..|s| - 1]);
      var d :| HexAs(s[|s| - 1], d);
      ds := init + [d];
    }
  }

  /** `rest` starts with `u{`, the digits `ds` and `}`, and they name a code point. */
  predicate IsBraced(rest: string, ds: seq<nat>) {
    && |rest| >= |ds| + 3 && rest[0] == 'u' && rest[1] == '{' && rest[2 + |ds|] == '}'
    && ds != [] && AreDigits(rest[2..2 + |ds|], ds) && Base16(ds) <= 0x10FFFF
  }

  predicate IsPair(rest: string, a: int, b: int) {
    |rest| >= 3 && rest[0] == 'x' && HexAs(rest[1], a) && HexAs(rest[2], b)
  }

  /**
    What a backslash and the text behind it stand for: the seven short escapes, two
    hexadecimal digits behind `x`, digits in braces behind `u`; any other character,
    and `x` or `u` without that, stands for itself.
   */
  lemma EscapeMeans(rest: string)
    requires rest != ""
    ensures rest[0] == 'n' ==> DecodeEscape(rest) == ([10], 1)
    ensures rest[0] == 'r' ==> DecodeEscape(rest) == ([13], 1)
    ensures rest[0] == 't' ==> DecodeEscape(rest) == ([9], 1)
    ensures rest[0] == '0' ==> DecodeEscape(rest) == ([0], 1)
    ensures forall a, b :: IsPair(rest, a, b) ==> DecodeEscape(rest) == ([16 * a + b], 3)
    ensures forall ds :: IsBraced(rest, ds) ==> DecodeEscape(rest) == ([Base16(ds)], |ds| + 3)
    ensures rest[0] !in "nrt0" && (forall a, b :: !IsPair(rest, a, b)) && (forall ds :: !IsBraced(rest, ds)) ==>
      DecodeEscape(rest) == ([rest[0] as int], 1)
  {
    PairMeans(rest);
    BracedMeans(rest);
  }

  lemma PairMeans(rest: string)
    requires rest != ""
    ensures forall a, b :: IsPair(rest, a, b) ==> DecodeEscape(rest) == ([16 * a + b], 3)
    ensures rest[0] == 'x' && (forall a, b :: !IsPair(rest, a, b)) ==> DecodeEscape(rest) == ([rest[0] as int], 1)
  {
    hide HexAs, IsHex, HexDigit, HexValue;
    if |rest| >= 3 {
      HexDigits(rest[1]);
      HexDigits(rest[2]);
      if rest[0] == 'x' && IsHex(rest[1]) && IsHex(rest[2]) {
        var a :| HexAs(rest[1], a);
        var b :| HexAs(rest[2], b);
        assert IsPair(rest, a, b);
      }
    }
  }

  lemma BracedMeans(rest: string)
    requires rest != ""
    ensures forall ds :: IsBraced(rest, ds) ==> DecodeEscape(rest) == ([Base16(ds)], |ds| + 3)
    ensures rest[0] == 'u' && (forall ds :: !IsBraced(rest, ds)) ==> DecodeEscape(rest) == ([rest[0] as int], 1)
  {
    hide HexAs, IsHex, HexDigit, HexValue, Base16;
    forall ds | IsBraced(rest, ds) ensures DecodeEscape(rest) == ([Base16(ds)], |ds| + 3) {
      BracedTaken(rest, ds);
    }
    if |rest| >= 2 && rest[0] == 'u' && rest[1] == '{' {
      var n := Find(rest[2..], '}');
      if n < |rest| - 2 && n > 0 && AllHex(rest[2..2 + n]) {
        assert rest[2..][..n] == rest[2..2 + n];
        var ds := DigitsOf(rest[2..2 + n]);
        DigitsMean(rest[2..2 + n], ds);
        assert HexValue(rest[2..2 + n]) <= 0x10FFFF ==> IsBraced(rest, ds);
      }
    }
  }

  lemma BracedTaken(rest: string, ds: seq<nat>)
    requires IsBraced(rest, ds)
    ensures DecodeEscape(rest) == ([Base16(ds)], |ds| + 3)
  {
    hide HexAs, IsHex, HexDigit, HexValue, Base16;
    var digits := rest[2..2 + |ds|];
    DigitsMean(digits, ds);
    NoBrace(digits);
    assert rest[2..] == digits + ['}'] + rest[3 + |ds|..];
    FindAppend(digits, '}', rest[3 + |ds|..]);
  }

  /** Text without quotes of its kind and backslashes reads as it is, newlines too. */
  lemma {:induction false} PlainReads(text: string, quote: char, rest: string)
    requires quote !in text && '\\' !in text && quote != '\\'
    ensures Quote(text + [quote] + rest, quote) == (|text| + 1, CodePoints(text), true)
  {
    hide Quote, DecodeEscape;
    var s := text + [quote] + rest;
    QuoteStep(s, quote);
    if text != "" {
      assert text[0] in text && s[0] == text[0];
      assert s[1..] == text[1..] + [quote] + rest;
      PlainReads(text[1..], quote, rest);
      assert CodePoints(text) == [text[0] as int] + CodePoints(text[1..]);
    }
  }

  // ---------------------------------------------------------------- names

  /** A letter, an underscore or, behind the first place, a digit. */
  predicate NameAt(value: seq<CodePoint>, i: nat)
    requires i < |value|
  {
    || 'A' as int <= value[i] <= 'Z' as int || 'a' as int <= value[i] <= 'z' as int || value[i] == '_' as int
    || (i > 0 && '0' as int <= value[i] <= '9' as int)
  }

  /** `@"..."` shows an identifier bare, and blanks for anything else; the span is kept. */
  lemma NameShown(s: string, p: Piece)
    requires p in Pieces(s) && p.kind == AtName
    ensures var n := |p.value|;
      && |Shown(p)| == |p.text| >= n
      && if n > 0 && forall i :: 0 <= i < n ==> NameAt(p.value, i)
         then CodePoints(Shown(p)[..n]) == p.value && forall k :: n <= k < |p.text| ==> Shown(p)[k] == ' '
         else forall k :: 0 <= k < |p.text| ==> Shown(p)[k] == ' '
  {
    hide Pieces, CodePoints, NameAt, IsNameChar;
    NamesFit(s, p);
    ShownAs(p);
    IdentifierMeans(p.value);
    if IsIdentifier(p.value) {
      NameChars(p.value);
      assert Shown(p)[..|p.value|] == NameText(p.value);
    }
  }

  lemma IdentifierMeans(value: seq<CodePoint>)
    ensures IsIdentifier(value) <==> value != [] && forall i :: 0 <= i < |value| ==> NameAt(value, i)
  {
    assert forall i :: 0 <= i < |value| ==> (NameAt(value, i) <==> IsNameChar(value[i], i == 0));
  }

  lemma NameChars(value: seq<CodePoint>)
    requires IsIdentifier(value)
    ensures |NameText(value)| == |value| && CodePoints(NameText(value)) == value
  {
    forall i | 0 <= i < |value| ensures 0 <= value[i] < 0xD800 {
      assert IsNameChar(value[i], i == 0);
    }
  }

  // ---------------------------------------------------------------- string tokens

  /** A piece at `start`, read from `base`, and the token it makes. */
  predicate Makes(p: Piece, start: nat, base: nat, t: StringToken) {
    p.kind == Quoted && t.start == base + start && t.end == t.start + |p.text| && t.value == p.value
  }

  lemma {:induction false} TokensExact(pieces: seq<Piece>, base: nat, t: StringToken)
    requires forall p :: p in pieces ==> p.text != ""
    ensures t in StringsOf(pieces, base) <==>
      && base <= t.start < base + |SourceOf(pieces)|
      && var (p, start) := PieceAt(pieces, t.start - base); Makes(p, start, base, t)
  {
    hide PieceAt, StringsOf, TokenOf, SourceOf;
    StringsUnfold(pieces, base);
    if pieces != [] {
      var p, rest := pieces[0], pieces[1..];
      assert p in pieces && pieces == [p] + rest;
      TokensExact(rest, base + |p.text|, t);
      TokenIs(p, base, t);
      if base <= t.start < base + |SourceOf(pieces)| {
        PieceAtStep(p, rest, t.start - base);
      } else {
        SourceUnfolds(p, rest);
      }
    }
  }

  lemma SourceUnfolds(p: Piece, rest: seq<Piece>)
    ensures |SourceOf([p] + rest)| == |p.text| + |SourceOf(rest)|
  {
    assert ([p] + rest)[1..] == rest;
  }

  lemma StringsUnfold(pieces: seq<Piece>, base: nat)
    ensures pieces == [] ==> StringsOf(pieces, base) == [] && SourceOf(pieces) == ""
    ensures pieces != [] ==>
      StringsOf(pieces, base) == TokenOf(pieces[0], base) + StringsOf(pieces[1..], base + |pieces[0].text|)
  {
    hide TokenOf;
  }

  lemma TokenIs(p: Piece, base: nat, t: StringToken)
    ensures t in TokenOf(p, base) <==> Makes(p, 0, base, t)
  {
  }

  /** The string tokens are exactly the double-quoted pieces, each with its span and its value. */
  lemma StringsExact(s: string, t: StringToken)
    ensures |SourceOf(Pieces(s))| == |s|
    ensures t in Lex(s).strings <==>
      t.start < |s| && var (p, start) := PieceAt(Pieces(s), t.start); Makes(p, start, 0, t)
  {
    hide Pieces, PieceAt, StringsOf, SourceOf, Makes;
    PiecesPartition(s);
    PiecesStart(s);
    TokensExact(Pieces(s), 0, t);
  }
}
