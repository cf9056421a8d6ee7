/**
  The position-preserving lexer of the replay confinement audit
  (scripts/replay-confinement-audit.py).  `Pieces` cuts a source into comments,
  literals, `@"..."` names and single code characters; the loops of the script
  are proved to produce what the pieces say.
 */
module ZigLexer {
  import opened Text

  /** Decoded literals may hold any code point, surrogates included. */
  type CodePoint = n: int | 0 <= n <= 0x10FFFF

  datatype StringToken = StringToken(start: nat, end: nat, value: seq<CodePoint>)

  datatype Kind = Code | LineComment | BlockComment | Multiline | AtName | Quoted | CharLiteral

  /** A span of the source; `closed` is false when the input ended inside it. */
  datatype Piece = Piece(kind: Kind, text: string, value: seq<CodePoint>, closed: bool)

  // ---------------------------------------------------------------- escapes and quotes

  predicate IsHex(c: char) {
    '0' <= c <= '9' || 'A' <= c <= 'F' || 'a' <= c <= 'f'
  }

  function HexDigit(c: char): (d: nat)
    requires IsHex(c)
    ensures d < 16
  {
    if c <= '9' then c as int - '0' as int
    else if c <= 'F' then c as int - 'A' as int + 10
    else c as int - 'a' as int + 10
  }

  predicate AllHex(s: string) {
    forall i :: 0 <= i < |s| ==> IsHex(s[i])
  }

  function HexValue(s: string): nat
    requires AllHex(s)
  {
    if s == "" then 0 else 16 * HexValue(s[..|s| - 1]) + HexDigit(s[|s| - 1])
  }

  /** The escape whose text follows a backslash: its value and the characters it takes. */
  function DecodeEscape(rest: string): (r: (seq<CodePoint>, nat))
    ensures r.1 <= |rest| && |r.0| <= r.1 && (rest != "" ==> 1 <= r.1 && |r.0| == 1)
  {
    if rest == "" then ([], 0)
    else
      var c := rest[0];
      if c == 'n' then ([10], 1)
      else if c == 'r' then ([13], 1)
      else if c == 't' then ([9], 1)
      else if c == '0' then ([0], 1)
      else if c == '\\' || c == '"' || c == '\'' then ([c as int], 1)
      else if c == 'x' && 2 < |rest| && IsHex(rest[1]) && IsHex(rest[2]) then
        ([16 * HexDigit(rest[1]) + HexDigit(rest[2])], 3)
      else if c == 'u' && 1 < |rest| && rest[1] == '{' then
        var n := Find(rest[2..], '}');
        var digits := rest[2..2 + n];
        if n < |rest| - 2 && digits != "" && AllHex(digits) && HexValue(digits) <= 0x10FFFF then
          ([HexValue(digits)], n + 3)
        else ([c as int], 1)
      else ([c as int], 1)
  }

  /** Reading after an opening quote: characters taken, the value, and whether the quote closed. */
  function Quote(rest: string, quote: char): (r: (nat, seq<CodePoint>, bool))
    ensures r.0 <= |rest| && |r.1| + (if r.2 then 1 else 0) <= r.0
    ensures !r.2 ==> r.0 == |rest|
    decreases |rest|
  {
    if rest == "" then (0, [], false)
    else if rest[0] == quote then (1, [], true)
    else if rest[0] == '\\' then
      var (value, n) := DecodeEscape(rest[1..]);
      var tail := Quote(rest[1 + n..], quote);
      (1 + n + tail.0, value + tail.1, tail.2)
    else
      var tail := Quote(rest[1..], quote);
      (1 + tail.0, [rest[0] as int] + tail.1, tail.2)
  }

  lemma QuoteStep(r: string, quote: char)
    requires r != ""
    ensures r[0] == quote ==> Quote(r, quote) == (1, [], true)
    ensures r[0] != quote && r[0] == '\\' ==>
      var (value, n) := DecodeEscape(r[1..]);
      var tail := Quote(r[1 + n..], quote);
      Quote(r, quote) == (1 + n + tail.0, value + tail.1, tail.2)
    ensures r[0] != quote && r[0] != '\\' ==>
      var tail := Quote(r[1..], quote);
      Quote(r, quote) == (1 + tail.0, [r[0] as int] + tail.1, tail.2)
  {
    hide DecodeEscape;
  }

  method ReadQuoted(source: string, quoteIndex: nat, quote: char) returns (end: nat, value: seq<CodePoint>)
    requires quoteIndex < |source|
    ensures var q := Quote(source[quoteIndex + 1..], quote); end == quoteIndex + 1 + q.0 && value == q.1
  {
    hide DecodeEscape, Quote;
    value := [];
    var index := quoteIndex + 1;
    while index < |source|
      invariant quoteIndex < index <= |source|
      invariant var whole, left := Quote(source[quoteIndex + 1..], quote), Quote(source[index..], quote);
        whole.0 == index - quoteIndex - 1 + left.0 && whole.1 == value + left.1 && whole.2 == left.2
    {
      var c := source[index];
      QuoteStep(source[index..], quote);
      assert source[index..][1..] == source[index + 1..];
      if c == quote {
        return index + 1, value;
      }
      if c == '\\' {
        var (decoded, n) := DecodeEscape(source[index + 1..]);
        assert source[index..][1 + n..] == source[index + 1 + n..];
        value, index := value + decoded, index + 1 + n;
        continue;
      }
      value, index := value + [c as int], index + 1;
    }
    EscapeOfNothing(quote);
    return |source|, value;
  }

  /** Inside a block comment of nesting `depth`: the characters up to its end, and whether it ends. */
  function BlockEnd(rest: string, depth: nat): (r: (nat, bool))
    ensures r.0 <= |rest| && (!r.1 ==> r.0 == |rest|)
    decreases |rest|
  {
    if depth == 0 then (0, true)
    else if rest == "" then (0, false)
    else if "/*" <= rest then
      var tail := BlockEnd(rest[2..], depth + 1);
      (2 + tail.0, tail.1)
    else if "*/" <= rest then
      var tail := BlockEnd(rest[2..], depth - 1);
      (2 + tail.0, tail.1)
    else
      var tail := BlockEnd(rest[1..], depth);
      (1 + tail.0, tail.1)
  }

  // ---------------------------------------------------------------- pieces

  function LineEnd(rest: string): (n: nat)
    requires |rest| >= 2
    ensures 2 <= n <= |rest|
  {
    2 + Find(rest[2..], '\n')
  }

  function NextPiece(rest: string): (p: Piece)
    requires rest != ""
    ensures p.text != "" && p.text <= rest
    ensures !p.closed ==> p.text == rest
  {
    if "//" <= rest then Piece(LineComment, rest[..LineEnd(rest)], [], true)
    else if "/*" <= rest then
      var end := BlockEnd(rest[2..], 1);
      Piece(BlockComment, rest[..2 + end.0], [], end.1)
    else if "\\\\" <= rest then Piece(Multiline, rest[..LineEnd(rest)], [], true)
    else if "@\"" <= rest then
      var q := Quote(rest[2..], '"');
      Piece(AtName, rest[..2 + q.0], q.1, q.2)
    else if rest[0] == '"' then
      var q := Quote(rest[1..], '"');
      Piece(Quoted, rest[..1 + q.0], q.1, q.2)
    else if rest[0] == '\'' then
      var q := Quote(rest[1..], '\'');
      Piece(CharLiteral, rest[..1 + q.0], q.1, q.2)
    else Piece(Code, rest[..1], [], true)
  }

  function Pieces(rest: string): seq<Piece>
    decreases |rest|
  {
    if rest == "" then []
    else
      var p := NextPiece(rest);
      [p] + Pieces(rest[|p.text|..])
  }

  function Masked(text: string): (r: string)
    ensures |r| == |text|
  {
    seq(|text|, i requires 0 <= i < |text| => if text[i] == '\n' then '\n' else ' ')
  }

  predicate IsNameChar(n: int, first: bool) {
    65 <= n <= 90 || 97 <= n <= 122 || n == 95 || (!first && 48 <= n <= 57)
  }

  /** `[A-Za-z_][A-Za-z0-9_]*` */
  predicate IsIdentifier(value: seq<CodePoint>) {
    value != [] && forall i :: 0 <= i < |value| ==> IsNameChar(value[i], i == 0)
  }

  function NameText(value: seq<CodePoint>): (r: string)
    ensures |r| <= |value|
  {
    if IsIdentifier(value) then seq(|value|, i requires 0 <= i < |value| => value[i] as char) else ""
  }

  /** `s[:n].ljust(n)` */
  function Fit(s: string, n: nat): (r: string)
    ensures |r| == n
  {
    if |s| >= n then s[..n] else s + Spaces(n - |s|)
  }

  function Shown(p: Piece): (r: string)
    ensures |r| == |p.text|
  {
    match p.kind
    case Code => p.text
    case AtName => Fit(NameText(p.value), |p.text|)
    case _ => Masked(p.text)
  }

  function SourceOf(pieces: seq<Piece>): string {
    if pieces == [] then "" else pieces[0].text + SourceOf(pieces[1..])
  }

  function CodeOf(pieces: seq<Piece>): (r: string)
    ensures |r| == |SourceOf(pieces)|
  {
    if pieces == [] then "" else Shown(pieces[0]) + CodeOf(pieces[1..])
  }

  function StringsOf(pieces: seq<Piece>, base: nat): seq<StringToken> {
    if pieces == [] then []
    else
      var next := base + |pieces[0].text|;
      TokenOf(pieces[0], base) + StringsOf(pieces[1..], next)
  }

  function TokenOf(p: Piece, base: nat): seq<StringToken> {
    if p.kind == Quoted then [StringToken(base, base + |p.text|, p.value)] else []
  }

  datatype Lexed = Lexed(code: string, strings: seq<StringToken>)

  function Lex(source: string): (r: Lexed)
    ensures |r.code| == |source|
  {
    PiecesPartition(source);
    Lexed(CodeOf(Pieces(source)), StringsOf(Pieces(source), 0))
  }

  lemma BlockStep(r: string, depth: nat)
    ensures depth == 0 ==> BlockEnd(r, depth) == (0, true)
    ensures depth != 0 && r == "" ==> BlockEnd(r, depth) == (0, false)
    ensures depth != 0 && r != "" ==>
      var (n, next) := BlockToken(r, depth);
      var tail := BlockEnd(r[n..], next);
      BlockEnd(r, depth) == (n + tail.0, tail.1)
  {
  }

  /** The next token inside a block comment: its length and the nesting after it. */
  function BlockToken(r: string, depth: nat): (t: (nat, nat))
    requires r != "" && depth != 0
    ensures 1 <= t.0 <= |r|
  {
    if "/*" <= r then (2, depth + 1) else if "*/" <= r then (2, depth - 1) else (1, depth)
  }

  method SkipBlockComment(source: string, index: nat) returns (end: nat)
    requires index + 2 <= |source|
    ensures end == index + 2 + BlockEnd(source[index + 2..], 1).0
  {
    hide BlockEnd;
    var depth := 1;
    BlockStep(source[index + 2..], depth);
    end := index + 2;
    while end < |source| && depth != 0
      invariant index + 2 <= end <= |source|
      invariant 0 <= depth
      invariant BlockEnd(source[index + 2..], 1).0 == end - index - 2 + BlockEnd(source[end..], depth).0
    {
      BlockStep(source[end..], depth);
      if "/*" <= source[end..] {
        assert source[end..][2..] == source[end + 2..];
        depth, end := depth + 1, end + 2;
      } else if "*/" <= source[end..] {
        assert source[end..][2..] == source[end + 2..];
        depth, end := depth - 1, end + 2;
      } else {
        assert source[end..][1..] == source[end + 1..];
        end := end + 1;
      }
    }
    BlockStep(source[end..], depth);
  }

  /** One round of the lexer's loop: where the piece at `index` ends, its rendering and its token. */
  method LexStep(source: string, index: nat) returns (end: nat, shown: string, tokens: seq<StringToken>)
    requires index < |source|
    ensures var piece := NextPiece(source[index..]);
      && end == index + |piece.text| <= |source| && shown == Shown(piece)
      && tokens == TokenOf(piece, index)
  {
    hide Quote, BlockEnd, LineEnd, NameText, Fit, Masked, Shown;
    var rest := source[index..];
    ShownAs(NextPiece(rest));
    assert rest[1..] == source[index + 1..];
    assert |rest| >= 2 ==> rest[2..] == source[index + 2..];
    ghost var text := NextPiece(rest).text;
    assert text == rest[..|text|] == source[index..index + |text|];
    tokens := [];
    if "//" <= rest {
      end := index + LineEnd(rest);
      shown := Masked(source[index..end]);
    } else if "/*" <= rest {
      end := SkipBlockComment(source, index);
      shown := Masked(source[index..end]);
    } else if "\\\\" <= rest {
      end := index + LineEnd(rest);
      shown := Masked(source[index..end]);
    } else if "@\"" <= rest {
      var value;
      end, value := ReadQuoted(source, index + 1, '"');
      shown := Fit(NameText(value), end - index);
    } else if source[index] == '"' {
      var value;
      end, value := ReadQuoted(source, index, '"');
      tokens := [StringToken(index, end, value)];
      shown := Masked(source[index..end]);
    } else if source[index] == '\'' {
      var value;
      end, value := ReadQuoted(source, index, '\'');
      shown := Masked(source[index..end]);
    } else {
      end := index + 1;
      shown := [source[index]];
    }
    assert |text| == end - index;
  }

  method LexZig(source: string) returns (lexed: Lexed)
    ensures lexed == Lex(source)
  {
    hide *;
    var output: string := "";
    var strings: seq<StringToken> := [];
    var index := 0;
    assert source[0..] == source;
    PiecesPartition(source);
    while index < |source|
      invariant index <= |source|
      invariant CodeOf(Pieces(source)) == output + CodeOf(Pieces(source[index..]))
      invariant StringsOf(Pieces(source), 0) == strings + StringsOf(Pieces(source[index..]), index)
    {
      var end, shown, tokens := LexStep(source, index);
      assert source[index..][end - index..] == source[end..];
      LexUnfolds(source[index..], index);
      output, strings, index := output + shown, strings + tokens, end;
    }
    assert source[index..] == "";
    LexOfNothing(source, index);
    assert output + "" == output && strings + [] == strings;
    return Lexed(output, strings);
  }

  lemma LexUnfolds(rest: string, index: nat)
    requires rest != ""
    ensures var p := NextPiece(rest);
      var tail := Pieces(rest[|p.text|..]);
      && CodeOf(Pieces(rest)) == Shown(p) + CodeOf(tail)
      && StringsOf(Pieces(rest), index) == TokenOf(p, index) + StringsOf(tail, index + |p.text|)
  {
    hide NextPiece, Shown, TokenOf;
  }

  lemma LexOfNothing(source: string, index: nat)
    ensures CodeOf(Pieces("")) == "" && StringsOf(Pieces(""), index) == []
    ensures Lex(source) == Lexed(CodeOf(Pieces(source)), StringsOf(Pieces(source), 0))
  {
  }

  lemma ShownAs(p: Piece)
    ensures p.kind != Code && p.kind != AtName ==> Shown(p) == Masked(p.text)
    ensures p.kind == AtName ==> Shown(p) == Fit(NameText(p.value), |p.text|)
    ensures p.kind == Code ==> Shown(p) == p.text
  {
    hide Masked, Fit, NameText;
  }

  // ---------------------------------------------------------------- the pieces partition the source

  lemma {:induction false} PiecesPartition(s: string)
    ensures SourceOf(Pieces(s)) == s
    decreases |s|
  {
    hide NextPiece;
    if s != "" {
      PiecesPartition(s[|NextPiece(s).text|..]);
    }
  }

  /** The piece that covers position `k`, and where it starts. */
  function PieceAt(pieces: seq<Piece>, k: nat): (r: (Piece, nat))
    requires k < |SourceOf(pieces)|
    ensures r.1 <= k < r.1 + |r.0.text| && r.0 in pieces
  {
    if k < |pieces[0].text| then (pieces[0], 0)
    else
      var (p, start) := PieceAt(pieces[1..], k - |pieces[0].text|);
      (p, start + |pieces[0].text|)
  }

  lemma {:induction false} CodeInPiece(pieces: seq<Piece>, k: nat)
    requires k < |SourceOf(pieces)|
    ensures var (p, start) := PieceAt(pieces, k);
      SourceOf(pieces)[k] == p.text[k - start] && CodeOf(pieces)[k] == Shown(p)[k - start]
  {
    hide Shown;
    if k >= |pieces[0].text| {
      CodeInPiece(pieces[1..], k - |pieces[0].text|);
    }
  }

  /**
    The code has the source's length; it copies code characters, and comments and
    literals leave only blanks and their newlines.
   */
  lemma CodeMirrorsSource(s: string, k: nat)
    requires k < |s|
    ensures |Lex(s).code| == |s| == |SourceOf(Pieces(s))|
    ensures var (p, start) := PieceAt(Pieces(s), k);
      Lex(s).code[k] ==
        match p.kind
        case Code => s[k]
        case AtName => Fit(NameText(p.value), |p.text|)[k - start]
        case _ => if s[k] == '\n' then '\n' else ' '
  {
    hide Pieces, PieceAt, CodeOf, SourceOf;
    PiecesPartition(s);
    CodeInPiece(Pieces(s), k);
  }

  // ---------------------------------------------------------------- names

  lemma {:induction false} EveryPieceReads(s: string, p: Piece)
    requires p in Pieces(s)
    ensures p.text != "" && NextPiece(p.text + SuffixAfter(s, p)).text == p.text
    ensures NextPiece(p.text + SuffixAfter(s, p)) == p
    decreases |s|
  {
    hide NextPiece;
    var q := NextPiece(s);
    assert s == q.text + s[|q.text|..];
    if p != q {
      EveryPieceReads(s[|q.text|..], p);
    }
  }

  // The source text that follows (the first occurrence of) piece `p`.
  function SuffixAfter(s: string, p: Piece): string
    requires p in Pieces(s)
    decreases |s|
  {
    var q := NextPiece(s);
    if p == q then s[|q.text|..] else SuffixAfter(s[|q.text|..], p)
  }

  /** A decoded name is shorter than its `@"..."`, so cutting it to the span loses nothing. */
  lemma NamesFit(s: string, p: Piece)
    requires p in Pieces(s) && p.kind == AtName
    ensures |p.value| + (if p.closed then 3 else 2) <= |p.text|
    ensures Shown(p) == NameText(p.value) + Spaces(|p.text| - |NameText(p.value)|)
  {
    EveryPieceReads(s, p);
  }

  lemma NewlineAt(s: string, k: nat)
    requires k < |s|
    ensures |SourceOf(Pieces(s))| == |s|
    ensures Lex(s).code[k] == '\n' <==> s[k] == '\n' && PieceAt(Pieces(s), k).0.kind != AtName
    ensures s[k] == '\n' ==> '\n' in PieceAt(Pieces(s), k).0.text
  {
    hide NextPiece;
    PiecesPartition(s);
    CodeMirrorsSource(s, k);
    CodeInPiece(Pieces(s), k);
  }

  /** Newlines keep their positions exactly when no `@"..."` spans a line. */
  lemma NewlinesSurvive(s: string)
    ensures (forall k :: 0 <= k < |s| ==> (Lex(s).code[k] == '\n' <==> s[k] == '\n'))
       <==> (forall p :: p in Pieces(s) && p.kind == AtName ==> '\n' !in p.text)
  {
    hide *;
    PiecesPartition(s);
    forall k | 0 <= k < |s|
      ensures Lex(s).code[k] == '\n' <==> s[k] == '\n' && PieceAt(Pieces(s), k).0.kind != AtName
      ensures s[k] == '\n' ==> '\n' in PieceAt(Pieces(s), k).0.text
    {
      NewlineAt(s, k);
    }
    forall p | p in Pieces(s) && p.kind == AtName && '\n' in p.text
      ensures exists k :: 0 <= k < |s| && s[k] == '\n' && Lex(s).code[k] != '\n'
    {
      var k := NewlineInside(Pieces(s), p);
    }
  }

  lemma {:induction false} NewlineInside(pieces: seq<Piece>, p: Piece) returns (k: nat)
    requires p in pieces && '\n' in p.text
    ensures k < |SourceOf(pieces)| && SourceOf(pieces)[k] == '\n' && PieceAt(pieces, k).0 == p
  {
    if pieces[0] == p {
      k :| 0 <= k < |p.text| && p.text[k] == '\n';
    } else {
      var j := NewlineInside(pieces[1..], p);
      k := |pieces[0].text| + j;
    }
  }

  // ---------------------------------------------------------------- string tokens

  lemma {:induction false} PiecesStart(s: string)
    ensures forall p :: p in Pieces(s) ==> p.text != "" && (p.kind == Quoted ==> p.text[0] == '"')
    decreases |s|
  {
    if s != "" {
      assert NextPiece(s).kind == Quoted ==> s[0] == '"';
      hide NextPiece;
      PiecesStart(s[|NextPiece(s).text|..]);
    }
  }

  predicate InOrder(ts: seq<StringToken>) {
    forall i, j :: 0 <= i < j < |ts| ==> ts[i].end <= ts[j].start
  }

  /** Token `t` lies in `source`, which starts at `base`, and starts at a quote. */
  predicate TokenIn(t: StringToken, source: string, base: nat) {
    base <= t.start < t.end <= base + |source| && source[t.start - base] == '"'
  }

  predicate AllIn(ts: seq<StringToken>, source: string, base: nat) {
    forall i :: 0 <= i < |ts| ==> TokenIn(ts[i], source, base)
  }

  lemma {:induction false} TokensIn(pieces: seq<Piece>, base: nat)
    requires forall p :: p in pieces ==> p.text != "" && (p.kind == Quoted ==> p.text[0] == '"')
    ensures AllIn(StringsOf(pieces, base), SourceOf(pieces), base)
  {
    if pieces != [] {
      var next := base + |pieces[0].text|;
      var ts, tail := StringsOf(pieces, base), StringsOf(pieces[1..], next);
      assert pieces[0] in pieces;
      TokensIn(pieces[1..], next);
      forall i | 0 <= i < |ts| ensures TokenIn(ts[i], SourceOf(pieces), base) {
        var k := i - |TokenOf(pieces[0], base)|;
        if k >= 0 {
          assert ts[i] == tail[k] && TokenIn(tail[k], SourceOf(pieces[1..]), next);
        }
      }
    }
  }

  lemma {:induction false} TokensInOrder(pieces: seq<Piece>, base: nat)
    requires forall p :: p in pieces ==> p.text != "" && (p.kind == Quoted ==> p.text[0] == '"')
    ensures InOrder(StringsOf(pieces, base))
  {
    if pieces != [] {
      var next := base + |pieces[0].text|;
      var ts, tail := StringsOf(pieces, base), StringsOf(pieces[1..], next);
      TokensIn(pieces[1..], next);
      TokensInOrder(pieces[1..], next);
      assert ts == TokenOf(pieces[0], base) + tail;
    }
  }

  /** String tokens are in order and disjoint, lie in the source and start at a quote. */
  lemma StringsOrdered(s: string)
    ensures InOrder(Lex(s).strings)
    ensures AllIn(Lex(s).strings, s, 0)
  {
    hide AllIn, InOrder;
    PiecesPartition(s);
    PiecesStart(s);
    TokensIn(Pieces(s), 0);
    TokensInOrder(Pieces(s), 0);
  }

  // ---------------------------------------------------------------- composition at newlines

  predicate Closed(s: string) {
    forall p :: p in Pieces(s) ==> p.closed
  }

  // Below, `t` is a newline and the text after it; `"\nx"` is the probe for open pieces.

  lemma {:induction false} FindKeeps(r: string, c: char, t: string)
    ensures Find(r, c) < |r| ==> Find(r + t, c) == Find(r, c)
    ensures Find(r, c) == |r| ==> Find(r + t, c) == |r| + Find(t, c)
  {
    if r == "" {
      assert r + t == t;
    } else if r[0] != c {
      assert (r + t)[1..] == r[1..] + t;
      FindKeeps(r[1..], c, t);
    }
  }

  /** The lookahead of an escape never crosses a newline, unbounded as it is. */
  lemma EscapeStopsAtNewline(r: string, t: string)
    requires r != "" && t != "" && t[0] == '\n'
    ensures DecodeEscape(r + t) == DecodeEscape(r)
  {
    hide HexValue, HexDigit, Find;
    if |r| >= 2 && r[0] == 'u' && r[1] == '{' {
      var s := r + t;
      assert s[2..] == r[2..] + t;
      FindKeeps(r[2..], '}', t);
      var n := Find(s[2..], '}');
      if Find(r[2..], '}') < |r| - 2 {
        assert s[2..2 + n] == r[2..2 + n];
      } else if n < |s| - 2 {
        assert t[0] != '}';
        assert s[2..2 + n][|r| - 2] == '\n';
      }
    }
  }

  lemma QuoteOfNewline(t: string, quote: char)
    requires t != "" && t[0] == '\n' && (quote == '"' || quote == '\'')
    ensures t == "\nx" ==> !Quote(t, quote).2
    ensures DecodeEscape(t) == ([10], 1)
    ensures t == "\nx" ==> !Quote(t[1..], quote).2
  {
    if t == "\nx" {
      assert t[1..] == "x" && t[1..][1..] == "";
    }
  }

  lemma {:induction false} QuoteKeeps(r: string, quote: char, t: string)
    requires (quote == '"' || quote == '\'') && t != "" && t[0] == '\n'
    ensures Quote(r, quote).2 ==> Quote(r + t, quote) == Quote(r, quote)
    ensures !Quote(r, quote).2 && t == "\nx" ==> !Quote(r + t, quote).2
    decreases |r|
  {
    hide DecodeEscape, Quote;
    QuoteOfNewline(t, quote);
    EscapeOfNothing(quote);
    if r == "" {
      assert r + t == t;
    } else {
      QuoteStep(r, quote);
      QuoteStep(r + t, quote);
      assert (r + t)[1..] == r[1..] + t;
      if r[0] == quote {
      } else if r[0] != '\\' {
        QuoteKeeps(r[1..], quote, t);
      } else if r[1..] == "" {
        assert (r + t)[1..] == t && (r + t)[2..] == t[1..];
      } else {
        EscapeStopsAtNewline(r[1..], t);
        var n := DecodeEscape(r[1..]).1;
        assert (r + t)[1 + n..] == r[1 + n..] + t;
        QuoteKeeps(r[1 + n..], quote, t);
      }
    }
  }

  lemma EscapeOfNothing(quote: char)
    ensures DecodeEscape("") == ([], 0) && Quote("", quote) == (0, [], false)
  {
  }

  lemma {:induction false} BlockKeeps(r: string, depth: nat, t: string)
    requires t != "" && t[0] == '\n'
    ensures BlockEnd(r, depth).1 ==> BlockEnd(r + t, depth) == BlockEnd(r, depth)
    ensures !BlockEnd(r, depth).1 && t == "\nx" ==> !BlockEnd(r + t, depth).1
    decreases |r|
  {
    hide BlockEnd;
    BlockStep(r, depth);
    BlockStep(r + t, depth);
    if depth > 0 && r == "" {
      assert r + t == t;
      if t == "\nx" {
        BlockOfProbe(depth);
      }
    } else if depth > 0 {
      PrefixKeeps(r, t);
      var (n, next) := BlockToken(r, depth);
      assert BlockToken(r + t, depth) == (n, next) && (r + t)[n..] == r[n..] + t;
      BlockKeeps(r[n..], next, t);
    }
  }

  lemma BlockOfProbe(depth: nat)
    requires depth > 0
    ensures !BlockEnd("\nx", depth).1
  {
    hide BlockEnd;
    assert "\nx"[1..] == "x" && "x"[1..] == "";
    assert "\nx"[0] == '\n' && "x"[0] == 'x';
    assert BlockToken("\nx", depth) == (1, depth) == BlockToken("x", depth);
    BlockStep("\nx", depth);
    BlockStep("x", depth);
    BlockStep("", depth);
  }

  // No two-character opener ends at a newline.
  lemma PrefixKeeps(r: string, t: string)
    requires r != "" && t != "" && t[0] == '\n'
    ensures ("//" <= r + t <==> "//" <= r) && ("\\\\" <= r + t <==> "\\\\" <= r) && ("@\"" <= r + t <==> "@\"" <= r)
    ensures ("/*" <= r + t <==> "/*" <= r) && ("*/" <= r + t <==> "*/" <= r)
  {
    assert (r + t)[0] == r[0] && (r + t)[1] == if |r| >= 2 then r[1] else '\n';
  }

  lemma PieceKeeps(r: string, t: string)
    requires r != "" && t != "" && t[0] == '\n'
    ensures NextPiece(r).closed ==> NextPiece(r + t) == NextPiece(r)
    ensures !NextPiece(r).closed && t == "\nx" ==> !NextPiece(r + t).closed
  {
    hide Quote, BlockEnd, Find, LineEnd;
    PrefixKeeps(r, t);
    assert (r + t)[1..] == r[1..] + t;
    if |r| >= 2 {
      assert (r + t)[2..] == r[2..] + t;
    }
    if "//" <= r || "\\\\" <= r {
      LineKeeps(r, t);
      assert (r + t)[..LineEnd(r)] == r[..LineEnd(r)];
    } else if "/*" <= r {
      BlockKeeps(r[2..], 1, t);
      var n := BlockEnd(r[2..], 1).0;
      assert (r + t)[..2 + n] == r[..2 + n];
    } else if "@\"" <= r {
      QuoteKeeps(r[2..], '"', t);
      var n := Quote(r[2..], '"').0;
      assert (r + t)[..2 + n] == r[..2 + n];
    } else if r[0] == '"' || r[0] == '\'' {
      QuoteKeeps(r[1..], r[0], t);
      var n := Quote(r[1..], r[0]).0;
      assert (r + t)[..1 + n] == r[..1 + n];
    } else {
      assert (r + t)[..1] == r[..1];
    }
  }

  lemma LineKeeps(r: string, t: string)
    requires |r| >= 2 && t != "" && t[0] == '\n'
    ensures LineEnd(r + t) == LineEnd(r)
  {
    assert (r + t)[2..] == r[2..] + t;
    FindKeeps(r[2..], '\n', t);
  }

  const NEWLINE := Piece(Code, "\n", [], true)

  lemma NewlinePiece(b: string)
    ensures Pieces("\n" + b) == [NEWLINE] + Pieces(b)
  {
    hide Pieces;
    var t := "\n" + b;
    assert t[..1] == "\n" && t[1..] == b;
    assert t[0] == '\n';
    hide Quote, BlockEnd, LineEnd;
    assert NextPiece(t) == NEWLINE;
    PiecesStep(t);
  }

  lemma PiecesStep(s: string)
    requires s != ""
    ensures Pieces(s) == [NextPiece(s)] + Pieces(s[|NextPiece(s).text|..])
  {
    hide NextPiece;
  }

  lemma {:induction false} PiecesCompose(a: string, b: string)
    requires Closed(a)
    ensures Pieces(a + ("\n" + b)) == Pieces(a) + [NEWLINE] + Pieces(b)
    decreases |a|
  {
    hide NextPiece, Pieces, Closed;
    var t := "\n" + b;
    NewlinePiece(b);
    NoPieces();
    if a == "" {
      assert a + t == t;
      assert [] + [NEWLINE] == [NEWLINE];
    } else {
      PiecesStep(a);
      ClosedStep(a);
      var p := NextPiece(a);
      PieceKeeps(a, t);
      var rest := a[|p.text|..];
      assert (a + t)[|p.text|..] == rest + t;
      PiecesStep(a + t);
      PiecesCompose(rest, b);
      assert [p] + (Pieces(rest) + [NEWLINE] + Pieces(b)) == ([p] + Pieces(rest)) + [NEWLINE] + Pieces(b);
    }
  }

  lemma NoPieces()
    ensures Pieces("") == []
  {
  }

  lemma ClosedStep(s: string)
    requires s != ""
    ensures Closed(s) <==> NextPiece(s).closed && Closed(s[|NextPiece(s).text|..])
  {
    hide NextPiece, Pieces;
    PiecesStep(s);
    var rest := Pieces(s[|NextPiece(s).text|..]);
    assert NextPiece(s) in Pieces(s);
    forall q | q in rest ensures q in Pieces(s) { }
  }

  function Shifted(ts: seq<StringToken>, n: nat): seq<StringToken> {
    seq(|ts|, i requires 0 <= i < |ts| => StringToken(ts[i].start + n, ts[i].end + n, ts[i].value))
  }

  lemma {:induction false} StringsShift(pieces: seq<Piece>, base: nat, n: nat)
    ensures StringsOf(pieces, base + n) == Shifted(StringsOf(pieces, base), n)
  {
    hide TokenOf;
    if pieces != [] {
      TokenShift(pieces[0], base, n);
      StringsShift(pieces[1..], base + |pieces[0].text|, n);
    }
  }

  lemma TokenShift(p: Piece, base: nat, n: nat)
    ensures TokenOf(p, base + n) == Shifted(TokenOf(p, base), n)
  {
  }

  lemma {:induction false} Appended(a: seq<Piece>, b: seq<Piece>)
    ensures CodeOf(a + b) == CodeOf(a) + CodeOf(b)
    ensures SourceOf(a + b) == SourceOf(a) + SourceOf(b)
  {
    hide Shown;
    if a == [] {
      assert a + b == b;
    } else {
      assert (a + b)[1..] == a[1..] + b;
      Appended(a[1..], b);
    }
  }

  lemma {:induction false} StringsAppended(a: seq<Piece>, b: seq<Piece>, base: nat)
    ensures StringsOf(a + b, base) == StringsOf(a, base) + StringsOf(b, base + |SourceOf(a)|)
  {
    hide TokenOf;
    if a == [] {
      assert a + b == b;
    } else {
      assert (a + b)[1..] == a[1..] + b;
      StringsAppended(a[1..], b, base + |a[0].text|);
    }
  }

  predicate Composes(a: string, b: string) {
    Lex(a + ("\n" + b))
      == Lexed(Lex(a).code + ("\n" + Lex(b).code), Lex(a).strings + Shifted(Lex(b).strings, |a| + 1))
  }

  lemma ClosedComposes(a: string, b: string)
    requires Closed(a)
    ensures Composes(a, b)
  {
    hide Pieces, Shown, CodeOf, StringsOf, SourceOf, Closed, Shifted, NEWLINE;
    PiecesCompose(a, b);
    PiecesPartition(a);
    Appended(Pieces(a) + [NEWLINE], Pieces(b));
    Appended(Pieces(a), [NEWLINE]);
    StringsAppended(Pieces(a) + [NEWLINE], Pieces(b), 0);
    StringsAppended(Pieces(a), [NEWLINE], 0);
    NewlineShown();
    assert |SourceOf(Pieces(a) + [NEWLINE])| == |a| + 1;
    assert CodeOf(Pieces(a)) + "\n" + CodeOf(Pieces(b)) == CodeOf(Pieces(a)) + ("\n" + CodeOf(Pieces(b)));
    assert StringsOf(Pieces(a) + [NEWLINE], 0) == StringsOf(Pieces(a), 0);
    assert 0 + |SourceOf(Pieces(a) + [NEWLINE])| == |a| + 1;
    StringsShift(Pieces(b), 0, |a| + 1);
  }

  lemma NewlineShown()
    ensures CodeOf([NEWLINE]) == "\n" == SourceOf([NEWLINE]) && forall n :: StringsOf([NEWLINE], n) == []
  {
    assert CodeOf([NEWLINE]) == Shown(NEWLINE) + CodeOf([]);
  }

  // The code of a source that ends inside a piece ends with a blank.
  lemma {:induction false} OpenEndsBlank(a: string)
    requires !Closed(a)
    ensures !Closed(a + "\nx") && CodeOf(Pieces(a + "\nx")) != "" 
    ensures var code := CodeOf(Pieces(a + "\nx")); code[|code| - 1] == ' '
    decreases |a|
  {
    hide NextPiece, Shown;
    var s, p := a + "\nx", NextPiece(a);
    PiecesStep(a);
    PieceKeeps(a, "\nx");
    PiecesStep(s);
    if p.closed {
      var rest := a[|p.text|..];
      assert s[|p.text|..] == rest + "\nx";
      var q :| q in Pieces(a) && !q.closed;
      assert q in Pieces(rest);
      OpenEndsBlank(rest);
      var r :| r in Pieces(rest + "\nx") && !r.closed;
      assert r in Pieces(s);
    } else {
      assert NextPiece(s) in Pieces(s);
      OpenPieceEndsBlank(s);
      assert s[|s|..] == "";
    }
  }

  lemma OpenPieceEndsBlank(s: string)
    requires s != "" && !NextPiece(s).closed && s[|s| - 1] == 'x'
    ensures var shown := Shown(NextPiece(s)); |shown| == |s| && shown[|s| - 1] == ' '
  {
    hide Quote, BlockEnd;
  }

  /**
    Lexing composes at a newline, whatever follows, exactly when the first part ends
    inside no quote and no block comment.
   */
  lemma LexComposes(a: string)
    ensures Closed(a) <==> forall b :: Composes(a, b)
  {
    if Closed(a) {
      forall b ensures Composes(a, b) { ClosedComposes(a, b); }
    } else {
      OpenEndsBlank(a);
      assert "\n" + "x" == "\nx";
      if Composes(a, "x") {
        ComposedEnds(a);
      }
    }
  }

  lemma ComposedEnds(a: string)
    requires Composes(a, "x")
    ensures var code := Lex(a + ("\n" + "x")).code; code[|code| - 1] == 'x'
  {
    ProbeCode();
  }

  lemma ProbeCode()
    ensures Lex("x").code == "x"
  {
    PiecesStep("x");
    assert NextPiece("x") == Piece(Code, "x", [], true);
  }

  // ---------------------------------------------------------------- nothing is left to lex

  predicate Harmless(c: char) {
    c != '"' && c != '\'' && c != '/' && c != '*' && c != '\\'
  }

  /** No comment or literal starts anywhere in `c`. */
  predicate Quiet(c: string) {
    && (forall k :: 0 <= k < |c| ==> c[k] != '"' && c[k] != '\'')
    && (forall k :: 0 <= k < |c| - 1 ==> !Opens(c[k], c[k + 1]))
  }

  predicate Opens(a: char, b: char) {
    (a == '/' && (b == '/' || b == '*')) || (a == '\\' && b == '\\')
  }

  lemma ShownHarmless(p: Piece)
    requires p.kind != Code
    ensures forall c :: c in Shown(p) ==> Harmless(c)
  {
    ShownAs(p);
  }

  lemma CodePiece(s: string)
    requires s != "" && NextPiece(s).kind == Code
    ensures NextPiece(s).text == [s[0]] && s[0] != '"' && s[0] != '\''
    ensures |s| >= 2 ==> !Opens(s[0], s[1])
  {
  }

  lemma QuietPiece(c: string)
    requires Quiet(c) && c != ""
    ensures NextPiece(c) == Piece(Code, [c[0]], [], true)
  {
    hide Quote, BlockEnd, LineEnd;
    if |c| >= 2 {
      assert !Opens(c[0], c[1]) && c[1] != '"';
    }
    assert c[..1] == [c[0]];
  }

  lemma {:induction false} CodeIsQuiet(s: string)
    ensures var code := CodeOf(Pieces(s));
      Quiet(code) && (code != "" && !Harmless(code[0]) ==> s != "" && s[0] == code[0])
    decreases |s|
  {
    hide NextPiece, Shown, Pieces, Quiet, Harmless, Opens;
    NoPieces();
    if s != "" {
      var p := NextPiece(s);
      var rest := s[|p.text|..];
      var code := CodeOf(Pieces(rest));
      PiecesStep(s);
      CodeIsQuiet(rest);
      if p.kind == Code {
        ShownAs(p);
        CodePiece(s);
        if code != "" { HarmlessOpensNothing(s[0], code[0]); }
        CodeJoin(s[0], code);
      } else {
        ShownHarmless(p);
        assert Shown(p)[0] in Shown(p);
        HarmlessJoin(Shown(p), code);
      }
    } else {
      QuietEmpty();
    }
  }

  lemma HarmlessOpensNothing(a: char, b: char)
    ensures Harmless(b) ==> !Opens(a, b)
    ensures Harmless(a) ==> !Opens(a, b)
  {
  }

  lemma QuietEmpty()
    ensures Quiet("")
  {
  }

  lemma CodeJoin(c: char, b: string)
    requires c != '"' && c != '\'' && Quiet(b) && (b != "" ==> !Opens(c, b[0]))
    ensures Quiet([c] + b)
  {
    hide Opens;
    QuietJoin([c], b);
  }

  lemma HarmlessJoin(a: string, b: string)
    requires a != "" && Quiet(b) && forall c :: c in a ==> Harmless(c)
    ensures Quiet(a + b)
  {
    hide Opens;
    forall k | 0 <= k < |a| ensures a[k] != '"' && a[k] != '\'' && forall c :: !Opens(a[k], c) {
      assert a[k] in a;
      forall c ensures !Opens(a[k], c) { HarmlessOpensNothing(a[k], c); }
    }
    QuietJoin(a, b);
  }

  lemma QuietJoin(a: string, b: string)
    requires a != "" && Quiet(a) && Quiet(b) && (b != "" ==> !Opens(a[|a| - 1], b[0]))
    ensures Quiet(a + b)
  {
    hide Opens;
    var c := a + b;
    forall k | 0 <= k < |c| - 1 ensures !Opens(c[k], c[k + 1]) {
      if k < |a| - 1 {
        assert !Opens(a[k], a[k + 1]);
      } else if k >= |a| {
        assert !Opens(b[k - |a|], b[k - |a| + 1]);
      }
    }
  }

  lemma {:induction false} QuietLexesToItself(c: string)
    requires Quiet(c)
    ensures Lex(c) == Lexed(c, [])
    ensures forall n :: StringsOf(Pieces(c), n) == []
    decreases |c|
  {
    hide NextPiece, Pieces, Shown, TokenOf, Quiet;
    NoPieces();
    if c != "" {
      QuietPiece(c);
      PiecesStep(c);
      ShownAs(NextPiece(c));
      QuietTail(c);
      QuietLexesToItself(c[1..]);
      forall n ensures StringsOf(Pieces(c), n) == [] { CodeHasNoToken(NextPiece(c), n); }
    }
  }

  lemma CodeHasNoToken(p: Piece, n: nat)
    requires p.kind == Code
    ensures TokenOf(p, n) == []
  {
  }

  lemma QuietTail(c: string)
    requires Quiet(c) && c != ""
    ensures Quiet(c[1..])
  {
    forall k | 0 <= k < |c| - 2 ensures !Opens(c[1..][k], c[1..][k + 1]) {
      assert !Opens(c[k + 1], c[k + 2]);
    }
  }

  /** The code holds no comment and no literal any more: lexing it again changes nothing. */
  lemma LexIsIdempotent(s: string)
    ensures Lex(Lex(s).code) == Lexed(Lex(s).code, [])
  {
    CodeIsQuiet(s);
    QuietLexesToItself(Lex(s).code);
  }
}
