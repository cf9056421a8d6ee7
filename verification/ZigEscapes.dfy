/**
  What quoted Zig text means to the lexer (scripts/replay-confinement-audit.py):
  every sequence of code points can be written in quotes and reads back as itself.
 */
module ZigEscapes {
  import opened Text
  import opened ZigLexer

  function HexChar(d: nat): (c: char)
    requires d < 16
    ensures IsHex(c) && HexDigit(c) == d
  {
    if d < 10 then ('0' as int + d) as char else ('a' as int + d - 10) as char
  }

  function HexText(n: nat): (s: string)
    ensures s != "" && AllHex(s)
  {
    if n < 16 then [HexChar(n)] else HexText(n / 16) + [HexChar(n % 16)]
  }

  lemma {:induction false} HexReads(n: nat)
    ensures HexValue(HexText(n)) == n
  {
    if n < 16 {
      assert [HexChar(n)][..0] == "";
    } else {
      HexReads(n / 16);
      assert HexText(n)[..|HexText(n)| - 1] == HexText(n / 16);
    }
  }

  /** One code point, written plainly or by one of the escapes. */
  function Escaped(n: CodePoint): (s: string)
    ensures s != ""
  {
    if n == 10 then "\\n"
    else if n == 13 then "\\r"
    else if n == 9 then "\\t"
    else if n == 0 then "\\0"
    else if n == 92 then "\\\\"
    else if n == 34 then "\\\""
    else if n == 39 then "\\'"
    else if 32 <= n < 127 then [n as char]
    else if n < 256 then "\\x" + [HexChar(n / 16), HexChar(n % 16)]
    else "\\u{" + HexText(n) + "}"
  }

  function Written(value: seq<CodePoint>): string {
    if value == [] then "" else Escaped(value[0]) + Written(value[1..])
  }

  /** A braced escape is read up to its own brace, whatever follows. */
  lemma BracedReads(n: CodePoint, rest: string)
    ensures DecodeEscape("u{" + HexText(n) + "}" + rest) == ([n], |HexText(n)| + 3)
  {
    hide HexText, HexChar, HexValue, HexDigit, Find;
    var digits := HexText(n);
    var s := "u{" + digits + "}" + rest;
    HexReads(n);
    NoBrace(digits);
    FindAppend(digits, '}', rest);
    assert s[2..] == digits + ['}'] + rest;
    assert s[2..2 + |digits|] == digits;
    assert s[0] == 'u' && s[1] == '{';
  }

  lemma PairReads(n: nat, rest: string)
    requires n < 256
    ensures DecodeEscape(['x', HexChar(n / 16), HexChar(n % 16)] + rest) == ([n], 3)
  {
    hide HexChar, HexDigit, HexValue, Find;
    var s := ['x', HexChar(n / 16), HexChar(n % 16)] + rest;
    assert s[0] == 'x' && s[1] == HexChar(n / 16) && s[2] == HexChar(n % 16);
  }

  lemma EscapeReads(n: CodePoint, rest: string)
    requires Escaped(n)[0] == '\\'
    ensures DecodeEscape((Escaped(n) + rest)[1..]) == ([n], |Escaped(n)| - 1)
  {
    hide HexText, HexChar, HexValue, HexDigit, Find;
    var s := (Escaped(n) + rest)[1..];
    if n >= 256 {
      BracedReads(n, rest);
      hide DecodeEscape;
      assert s == "u{" + HexText(n) + "}" + rest;
    } else if n >= 127 || (n < 32 && n != 0 && n != 9 && n != 10 && n != 13) {
      PairReads(n, rest);
      hide DecodeEscape;
      assert s == ['x', HexChar(n / 16), HexChar(n % 16)] + rest;
    } else {
      assert s[0] == Escaped(n)[1];
    }
  }

  lemma NoBrace(digits: string)
    requires AllHex(digits)
    ensures '}' !in digits
  {
  }

  /** Reading what was written gives the value back and stops at its closing quote. */
  lemma {:induction false} WrittenReads(value: seq<CodePoint>, quote: char, rest: string)
    requires quote == '"' || quote == '\''
    ensures Quote(Written(value) + [quote] + rest, quote) == (|Written(value)| + 1, value, true)
  {
    hide Quote, DecodeEscape, Escaped;
    var s := Written(value) + [quote] + rest;
    QuoteStep(s, quote);
    if value != [] {
      var (n, tail) := (value[0], Written(value[1..]) + [quote] + rest);
      assert s == Escaped(n) + tail;
      WrittenReads(value[1..], quote, rest);
      EscapedStart(n);
      assert s[|Escaped(n)|..] == tail;
      if Escaped(n)[0] == '\\' {
        EscapeReads(n, tail);
        assert s[1..] == (Escaped(n) + tail)[1..];
      }
      assert [n] + value[1..] == value;
    }
  }

  lemma EscapedStart(n: CodePoint)
    ensures Escaped(n)[0] != '"' && Escaped(n)[0] != '\''
    ensures Escaped(n)[0] != '\\' ==> |Escaped(n)| == 1 && Escaped(n)[0] as int == n
    ensures Escaped(n)[0] == '\\' ==> |Escaped(n)| >= 2
  {
    hide HexText, HexChar;
  }

  function CodePoints(s: string): (v: seq<CodePoint>)
    ensures |v| == |s|
  {
    seq(|s|, i requires 0 <= i < |s| => s[i] as int)
  }

  lemma {:induction false} NameIsPlain(name: string)
    requires forall i :: 0 <= i < |name| ==> IsNameChar(name[i] as int, false)
    ensures Written(CodePoints(name)) == name
  {
    if name != "" {
      NameIsPlain(name[1..]);
      assert CodePoints(name)[1..] == CodePoints(name[1..]);
      assert Escaped(name[0] as int) == [name[0]];
    }
  }

  /** `@"name"` is shown as the bare name, padded to its span; string literals carry their value. */
  lemma NameIsShown(name: string, rest: string)
    requires IsIdentifier(CodePoints(name))
    ensures var p := NextPiece("@\"" + name + "\"" + rest);
      && p == Piece(AtName, "@\"" + name + "\"", CodePoints(name), true)
      && Shown(p) == name + Spaces(3)
  {
    hide Quote, BlockEnd, LineEnd;
    var s := "@\"" + name + "\"" + rest;
    forall i | 0 <= i < |name| ensures IsNameChar(name[i] as int, false) {
      assert IsNameChar(CodePoints(name)[i], i == 0);
    }
    NameIsPlain(name);
    WrittenReads(CodePoints(name), '"', rest);
    assert s[2..] == name + ['"'] + rest;
    assert s[..2 + |name| + 1] == "@\"" + name + "\"";
    assert s[0] == '@' && s[1] == '"';
    assert NameText(CodePoints(name)) == name;
  }

  lemma LiteralCarriesValue(value: seq<CodePoint>, rest: string)
    ensures NextPiece("\"" + Written(value) + "\"" + rest)
      == Piece(Quoted, "\"" + Written(value) + "\"", value, true)
  {
    hide Quote, BlockEnd, LineEnd, Written;
    var s := "\"" + Written(value) + "\"" + rest;
    WrittenReads(value, '"', rest);
    assert s[1..] == Written(value) + ['"'] + rest;
    assert s[..1 + |Written(value)| + 1] == "\"" + Written(value) + "\"";
    assert s[0] == '"';
  }

  lemma NewlineQuoted()
    ensures Quote("a\nb\"", '"') == (4, [97, 10, 98], true)
  {
    hide Quote, DecodeEscape;
    QuoteStep("a\nb\"", '"');
    QuoteStep("\nb\"", '"');
    QuoteStep("b\"", '"');
    QuoteStep("\"", '"');
    assert "a\nb\""[1..] == "\nb\"" && "\nb\""[1..] == "b\"" && "b\""[1..] == "\"";
    assert [98] + [] == [98] && [10] + [98] == [10, 98] && [97] + [10, 98] == [97, 10, 98];
    assert Quote("b\"", '"') == (2, [98], true);
    assert Quote("\nb\"", '"') == (3, [10, 98], true);
  }

  lemma NewlinePieceOf()
    ensures NextPiece("@\"a\nb\"") == Piece(AtName, "@\"a\nb\"", [97, 10, 98], true)
  {
    hide Quote, BlockEnd, LineEnd;
    var s := "@\"a\nb\"";
    NewlineQuoted();
    assert s[2..] == "a\nb\"" && s[..2] == "@\"" && s[..6] == s && s[0] == '@';
    var p := NextPiece(s);
    assert p.kind == AtName && p.text == s[..6];
  }

  /** A newline inside `@"..."` is lost from the code: the name is no identifier, so blanks take its place. */
  lemma NewlineLost()
    ensures Lex("@\"a\nb\"").code == Spaces(6) && Lex("@\"a\nb\"").strings == []
  {
    hide NextPiece, Pieces, Quote;
    var s := "@\"a\nb\"";
    NewlinePieceOf();
    var p := NextPiece(s);
    assert !IsNameChar(p.value[1], false);
    NoPieces();
    PiecesStep(s);
    assert s[|p.text|..] == "";
    assert Shown(p) == "" + Spaces(6) == Spaces(6);
    assert CodeOf([p]) == Spaces(6) + "" == Spaces(6);
  }
}
