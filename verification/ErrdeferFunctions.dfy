/**
  What the `errdefer` audit (scripts/dead-errdefer-audit.py) reports of functions: its
  typed frames are the open functions exactly where its table of bodies fits, and then
  it reports exactly the `errdefer`s of functions whose return type shows no error.
 */
module ErrdeferFunctions {
  import opened Wrappers
  import opened Text
  import opened Parentheses
  import opened Errdefer
  import opened ErrdeferExact
  import opened ErrdeferOwn

  // ---------------------------------------------------------------- functions, by their own braces

  /** Column `c` of line `e`, as a position in the text of all lines. */
  function Position(lines: seq<string>, e: nat, c: nat): nat
    requires e < |lines|
  {
    |Flat(lines, e)| + c
  }

  /** The brace at position `p` of `text` is not closed in it. */
  predicate OpenIn(text: string, p: nat) {
    p < |text| && text[p] == '{' && forall q :: p < q <= |text| ==> Excess(text[p..q]) >= 1
  }

  predicate OpenAfter(lines: seq<string>, n: nat, e: nat, c: nat)
    requires n <= |lines|
  {
    e < n && OpenIn(Flat(lines, n), Position(lines, e, c))
  }

  /** The function declared on line `d` has its body open at the start of line `n`. */
  ghost predicate FunctionOpen(lines: seq<string>, n: nat, d: nat, e: nat, c: nat, pats: Patterns)
    requires n <= |lines|
  {
    Owns(lines, d, e, c, pats) && OpenAfter(lines, n, e, c)
  }

  /** The brace at column `c` of line `e` is the own brace of line `d`'s declaration, and of no later one. */
  ghost predicate Owns(lines: seq<string>, d: nat, e: nat, c: nat, pats: Patterns) {
    && d < |lines| && IsOwn(lines, d, e, c, pats)
    && forall later :: d < later < |lines| ==> !IsOwn(lines, later, e, c, pats)
  }

  /** `t` is the return type of the innermost function open at the start of line `n`. */
  ghost predicate InnermostFunction(lines: seq<string>, n: nat, t: string, pats: Patterns)
    requires n <= |lines|
  {
    exists d: nat, e: nat, c: nat :: FunctionOpen(lines, n, d, e, c, pats) && OwnType(lines, d, e, c, pats) == t
      && Deepest(lines, n, Position(lines, e, c), pats)
  }

  ghost predicate Deepest(lines: seq<string>, n: nat, p: nat, pats: Patterns)
    requires n <= |lines|
  {
    forall d: nat, e: nat, c: nat :: FunctionOpen(lines, n, d, e, c, pats) ==> Position(lines, e, c) <= p
  }

  /** The last brace of line `e` is the own brace of a function with return type `t`. */
  ghost predicate EntryFits(lines: seq<string>, e: nat, t: string, pats: Patterns) {
    exists d: nat, c: nat ::
      Owns(lines, d, e, c, pats) && Rfind(lines[e], '{') == c && OwnType(lines, d, e, c, pats) == t
  }

  /** Every entry of the table is an own brace with its type, and no body open past its line is missing. */
  ghost predicate TableFits(lines: seq<string>, pats: Patterns) {
    var fnOpen := FnOpen(lines, |lines|, pats);
    && (forall e: nat :: e in fnOpen ==> EntryFits(lines, e, fnOpen[e], pats))
    && (forall d: nat, e: nat, c: nat :: d < |lines| && IsOwn(lines, d, e, c, pats) ==> Entered(lines, e, c, fnOpen))
  }

  predicate Entered(lines: seq<string>, e: nat, c: nat, fnOpen: map<nat, string>) {
    e < |lines| && OpenAfter(lines, e + 1, e, c) ==> e in fnOpen && Rfind(lines[e], '{') == c
  }

  // ---------------------------------------------------------------- positions and events

  lemma {:induction false} FlatPrefix(lines: seq<string>, m: nat, n: nat)
    requires m <= n <= |lines|
    ensures Flat(lines, m) <= Flat(lines, n)
  {
    if m < n {
      FlatPrefix(lines, m, n - 1);
    }
  }

  /** Open later means open before. */
  lemma OpenEarlier(lines: seq<string>, m: nat, n: nat, e: nat, c: nat)
    requires e < m <= n <= |lines| && c < |lines[e]| && OpenAfter(lines, n, e, c)
    ensures OpenAfter(lines, m, e, c)
  {
    hide Excess;
    FlatPrefix(lines, m, n);
    FlatPrefix(lines, e + 1, m);
    var (s, t, p) := (Flat(lines, m), Flat(lines, n), Position(lines, e, c));
    assert |Flat(lines, e + 1)| == |Flat(lines, e)| + |lines[e]|;
    assert forall q :: p < q <= |s| ==> s[p..q] == t[p..q];
  }

  lemma {:induction false} EventsPrefix(lines: seq<string>, fnOpen: map<nat, string>, m: nat, n: nat)
    requires m <= n <= |lines|
    ensures Events(lines, fnOpen, m) <= Events(lines, fnOpen, n)
  {
    hide LineEvents;
    if m < n {
      EventsPrefix(lines, fnOpen, m, n - 1);
    }
  }

  /** The event of a column, found at its position. */
  lemma EventAt(lines: seq<string>, fnOpen: map<nat, string>, n: nat, e: nat, c: nat)
    requires e < n <= |lines| && c < |lines[e]|
    ensures Position(lines, e, c) < |Events(lines, fnOpen, n)|
    ensures Events(lines, fnOpen, n)[Position(lines, e, c)] == LineEvents(lines[e], Get(fnOpen, e))[c]
  {
    hide LineEvents;
    EventsMatchText(lines, fnOpen, e);
    EventsPrefix(lines, fnOpen, e + 1, n);
    var events := Events(lines, fnOpen, e + 1);
    assert events == Events(lines, fnOpen, e) + LineEvents(lines[e], Get(fnOpen, e));
    LineLength(lines[e], Get(fnOpen, e));
    assert events[Position(lines, e, c)] == Events(lines, fnOpen, n)[Position(lines, e, c)];
  }

  lemma LineLength(line: string, fn: Option<string>)
    ensures |LineEvents(line, fn)| == |line|
  {
  }

  /** Every position is a column of a line. */
  lemma {:induction false} Locate(lines: seq<string>, n: nat, p: nat) returns (e: nat, c: nat)
    requires n <= |lines| && p < |Flat(lines, n)|
    ensures e < n && c < |lines[e]| && Position(lines, e, c) == p
  {
    if p < |Flat(lines, n - 1)| {
      e, c := Locate(lines, n - 1, p);
    } else {
      e, c := n - 1, p - |Flat(lines, n - 1)|;
    }
  }

  lemma OpenIsOpen(lines: seq<string>, fnOpen: map<nat, string>, n: nat, p: nat)
    requires n <= |lines|
    ensures OpenAt(Events(lines, fnOpen, n), p) <==> OpenIn(Flat(lines, n), p)
  {
    hide Excess, Height;
    var events, text := Events(lines, fnOpen, n), Flat(lines, n);
    EventsMatchText(lines, fnOpen, n);
    forall q | p < q <= |text| ensures Height(events[p..q]) == Excess(text[p..q]) {
      HeightIsExcess(events[p..q], text[p..q]);
    }
  }

  /** A typed frame stands exactly at the last brace of a line of the table. */
  lemma FrameAt(lines: seq<string>, fnOpen: map<nat, string>, n: nat, e: nat, c: nat, t: string)
    requires e < n <= |lines| && c < |lines[e]| && OpenAfter(lines, n, e, c)
    ensures Position(lines, e, c) < |Events(lines, fnOpen, n)|
    ensures Events(lines, fnOpen, n)[Position(lines, e, c)].Open?
    ensures Events(lines, fnOpen, n)[Position(lines, e, c)].frame == Some(t)
      <==> e in fnOpen && fnOpen[e] == t && Rfind(lines[e], '{') == c
  {
    hide Events, Flat;
    EventAt(lines, fnOpen, n, e, c);
    OpenIsOpen(lines, fnOpen, n, Position(lines, e, c));
  }

  predicate FrameIs(events: seq<Event>, p: nat, t: string) {
    p < |events| && events[p] == Open(Some(t))
  }

  // ---------------------------------------------------------------- typed frames and functions

  /** The brace at column `c` of line `e`, open at line `n`, has a typed frame exactly if it is a function's. */
  ghost predicate FrameFits(lines: seq<string>, n: nat, e: nat, c: nat, t: string, pats: Patterns) {
    n <= |lines| && e < n && c < |lines[e]| && OpenAfter(lines, n, e, c) ==>
      (FrameIs(Events(lines, FnOpen(lines, |lines|, pats), n), Position(lines, e, c), t)
       <==> exists d: nat :: FunctionHere(lines, n, d, e, c, t, pats))
  }

  ghost predicate FunctionHere(lines: seq<string>, n: nat, d: nat, e: nat, c: nat, t: string, pats: Patterns)
    requires n <= |lines|
  {
    FunctionOpen(lines, n, d, e, c, pats) && OwnType(lines, d, e, c, pats) == t
  }

  /** At every line the typed frames are exactly the open functions, each with its return type. */
  ghost predicate FramesFit(lines: seq<string>, pats: Patterns) {
    forall n: nat, e: nat, c: nat, t :: FrameFits(lines, n, e, c, t, pats)
  }

  lemma {:induction false} LastOwner(lines: seq<string>, d: nat, e: nat, c: nat, pats: Patterns) returns (last: nat)
    requires d < |lines| && IsOwn(lines, d, e, c, pats)
    ensures Owns(lines, last, e, c, pats)
    decreases |lines| - d
  {
    hide IsOwn;
    if later: nat :| d < later < |lines| && IsOwn(lines, later, e, c, pats) {
      last := LastOwner(lines, later, e, c, pats);
    } else {
      last := d;
    }
  }

  lemma OneOwner(lines: seq<string>, a: nat, b: nat, e: nat, c: nat, pats: Patterns)
    requires Owns(lines, a, e, c, pats) && Owns(lines, b, e, c, pats)
    ensures a == b
  {
    hide IsOwn;
  }

  lemma OwnsBounds(lines: seq<string>, d: nat, e: nat, c: nat, pats: Patterns)
    requires Owns(lines, d, e, c, pats)
    ensures e < |lines| && c < |lines[e]| && d <= e && pats.fn(lines[d]).Some?
  {
    hide Candidate;
  }

  /** Behind a last brace of a line that ends it, the line leaves that brace open. */
  lemma TableBraceOpen(lines: seq<string>, e: nat, pats: Patterns) returns (c: nat)
    requires e in FnOpen(lines, |lines|, pats)
    ensures e < |lines| && Rfind(lines[e], '{') == c && c < |lines[e]| && OpenAfter(lines, e + 1, e, c)
  {
    hide FnOpen, Excess, Rstrip, Rfind;
    c := TableBrace(lines, e, pats);
    var (text, p) := (Flat(lines, e + 1), Position(lines, e, c));
    assert text == Flat(lines, e) + lines[e];
    forall q | p < q <= |text| ensures Excess(text[p..q]) >= 1 {
      assert text[p..q] == "{" + lines[e][c + 1..q - |Flat(lines, e)|];
      WhiteBehind(lines[e], c, q - |Flat(lines, e)|);
    }
  }

  lemma TableBrace(lines: seq<string>, e: nat, pats: Patterns) returns (c: nat)
    requires e in FnOpen(lines, |lines|, pats)
    ensures e < |lines| && Rfind(lines[e], '{') == c && c < |lines[e]| && lines[e][c] == '{'
    ensures forall i :: c < i < |lines[e]| ==> IsSpace(lines[e][i])
  {
    hide FnOpen, TypedFrames, LineEvents, BodyOf, Excess, Signature;
    OneFrameEach(lines, |lines|, e, pats);
    var i :| 0 <= i < |lines| && LastDeclares(lines, i, |lines|, e, FnOpen(lines, |lines|, pats)[e], pats);
    BodyBrace(lines, i, pats);
    RstripPrefix(lines[e]);
    c := Rfind(lines[e], '{');
  }

  lemma WhiteBehind(line: string, c: nat, q: nat)
    requires c < q <= |line| && forall i :: c < i < |line| ==> IsSpace(line[i])
    ensures Excess("{" + line[c + 1..q]) == 1
  {
    hide Excess;
    PlainExcess(line[c + 1..q]);
    ExcessAppend("{", line[c + 1..q]);
    ExcessBrace();
  }

  predicate NoBraces(s: string) {
    forall i :: 0 <= i < |s| ==> s[i] != '{' && s[i] != '}'
  }

  lemma {:induction false} PlainExcess(s: string)
    requires NoBraces(s)
    ensures Excess(s) == 0
  {
    if s != "" {
      PlainExcess(s[..|s| - 1]);
    }
  }

  lemma EntryOwner(lines: seq<string>, e: nat, pats: Patterns) returns (d: nat, c: nat)
    requires TableFits(lines, pats) && e in FnOpen(lines, |lines|, pats)
    ensures Owns(lines, d, e, c, pats) && Rfind(lines[e], '{') == c
    ensures OwnType(lines, d, e, c, pats) == FnOpen(lines, |lines|, pats)[e]
  {
    hide Candidate, FnOpen, OwnType, Entered;
    assert EntryFits(lines, e, FnOpen(lines, |lines|, pats)[e], pats);
    d, c :| Owns(lines, d, e, c, pats) && Rfind(lines[e], '{') == c
      && OwnType(lines, d, e, c, pats) == FnOpen(lines, |lines|, pats)[e];
  }

  /** A typed frame, by the table. */
  lemma TypedAt(lines: seq<string>, n: nat, e: nat, c: nat, t: string, pats: Patterns)
    requires e < n <= |lines| && c < |lines[e]| && OpenAfter(lines, n, e, c)
    ensures var fnOpen := FnOpen(lines, |lines|, pats);
      FrameIs(Events(lines, fnOpen, n), Position(lines, e, c), t)
      <==> e in fnOpen && fnOpen[e] == t && Rfind(lines[e], '{') == c
  {
    hide Events, Flat, FnOpen, OpenIn;
    FrameAt(lines, FnOpen(lines, |lines|, pats), n, e, c, t);
  }

  /** Where the table fits, a frame open at line `n` is typed exactly if it is a function's. */
  lemma FitsAtLine(lines: seq<string>, n: nat, e: nat, c: nat, t: string, pats: Patterns)
    requires TableFits(lines, pats)
    ensures FrameFits(lines, n, e, c, t, pats)
  {
    hide Events, Position, OwnType, IsOwn, FnOpen, OpenIn, FrameIs, EntryFits, OpenAfter;
    if n <= |lines| && e < n && c < |lines[e]| && OpenAfter(lines, n, e, c) {
      var fnOpen := FnOpen(lines, |lines|, pats);
      TypedAt(lines, n, e, c, t, pats);
      if e in fnOpen && fnOpen[e] == t && Rfind(lines[e], '{') == c {
        var d, b := EntryOwner(lines, e, pats);
        assert FunctionHere(lines, n, d, e, c, t, pats);
      }
      if d: nat :| FunctionHere(lines, n, d, e, c, t, pats) {
        OpenEarlier(lines, e + 1, n, e, c);
        assert Entered(lines, e, c, fnOpen);
        var o, b := EntryOwner(lines, e, pats);
        OneOwner(lines, d, o, e, c, pats);
      }
    }
  }

  /** The typed frames are the open functions at every line if and only if the table fits. */
  lemma FramesFitIff(lines: seq<string>, pats: Patterns)
    ensures FramesFit(lines, pats) <==> TableFits(lines, pats)
  {
    hide FrameFits, TableFits;
    if TableFits(lines, pats) {
      forall n: nat, e: nat, c: nat, t ensures FrameFits(lines, n, e, c, t, pats) {
        FitsAtLine(lines, n, e, c, t, pats);
      }
    }
    if FramesFit(lines, pats) {
      FramesGiveTable(lines, pats);
    }
  }

  lemma FramesGiveTable(lines: seq<string>, pats: Patterns)
    requires FramesFit(lines, pats)
    ensures TableFits(lines, pats)
  {
    hide Events, Position, OwnType, IsOwn, FnOpen, OpenIn, FrameIs, EntryFits, OpenAfter, FramesFit, Owns;
    var fnOpen := FnOpen(lines, |lines|, pats);
    forall e: nat | e in fnOpen ensures EntryFits(lines, e, fnOpen[e], pats) {
      FramesGiveEntry(lines, e, pats);
    }
    forall d: nat, e: nat, c: nat | d < |lines| && IsOwn(lines, d, e, c, pats) ensures Entered(lines, e, c, fnOpen) {
      FramesEnter(lines, d, e, c, pats);
    }
  }

  lemma FramesGiveEntry(lines: seq<string>, e: nat, pats: Patterns)
    requires FramesFit(lines, pats) && e in FnOpen(lines, |lines|, pats)
    ensures EntryFits(lines, e, FnOpen(lines, |lines|, pats)[e], pats)
  {
    hide Events, Position, OwnType, Owns, FnOpen, FrameIs, OpenAfter;
    var t := FnOpen(lines, |lines|, pats)[e];
    var c := TableBraceOpen(lines, e, pats);
    TypedAt(lines, e + 1, e, c, t, pats);
    assert FrameFits(lines, e + 1, e, c, t, pats);
    var d: nat :| FunctionHere(lines, e + 1, d, e, c, t, pats);
  }

  lemma FramesEnter(lines: seq<string>, d: nat, e: nat, c: nat, pats: Patterns)
    requires FramesFit(lines, pats) && d < |lines| && IsOwn(lines, d, e, c, pats)
    ensures Entered(lines, e, c, FnOpen(lines, |lines|, pats))
  {
    hide Events, Position, OwnType, FnOpen, FrameIs, OpenAfter, IsOwn;
    var o := LastOwner(lines, d, e, c, pats);
    OwnsBounds(lines, o, e, c, pats);
    if OpenAfter(lines, e + 1, e, c) {
      var t := OwnType(lines, o, e, c, pats);
      assert FunctionHere(lines, e + 1, o, e, c, t, pats);
      assert FrameFits(lines, e + 1, e, c, t, pats);
      TypedAt(lines, e + 1, e, c, t, pats);
    }
  }

  // ---------------------------------------------------------------- when the table fits

  /** The audit can read the declaration on line `d`, or its misreading leaves no trace. */
  ghost predicate Readable(lines: seq<string>, d: nat, pats: Patterns)
    requires d < |lines| && pats.fn(lines[d]).Some?
  {
    || (exists e: nat, c: nat :: IsOwn(lines, d, e, c, pats) && Visible(lines, d, e, c, pats))
    || ((forall e: nat, c: nat :: IsOwn(lines, d, e, c, pats) ==> !OpenAfter(lines, e + 1, e, c))
        && forall end :: BodyAt(lines, d, end, pats) ==> Reclaimed(lines, d, end, pats))
  }

  /** A later declaration has its body on line `end`. */
  predicate Reclaimed(lines: seq<string>, d: nat, end: nat, pats: Patterns) {
    exists later :: d < later < |lines| && pats.fn(lines[later]).Some? && BodyAt(lines, later, end, pats)
  }

  ghost predicate AllReadable(lines: seq<string>, pats: Patterns) {
    forall d :: 0 <= d < |lines| && pats.fn(lines[d]).Some? ==> Readable(lines, d, pats)
  }

  lemma {:induction false} InTable(lines: seq<string>, n: nat, d: nat, e: nat, pats: Patterns)
    requires d < n <= |lines| && pats.fn(lines[d]).Some? && BodyAt(lines, d, e, pats)
    ensures e in FnOpen(lines, n, pats)
  {
    hide BodyOf;
    if d < n - 1 {
      InTable(lines, n - 1, d, e, pats);
    }
  }

  /** A function open behind its own line is in the table, at the last brace of that line. */
  lemma OwnInTable(lines: seq<string>, d: nat, e: nat, c: nat, pats: Patterns)
    requires AllReadable(lines, pats) && d < |lines| && IsOwn(lines, d, e, c, pats) && OpenAfter(lines, e + 1, e, c)
    ensures Finds(lines, d, e, c, pats) && e in FnOpen(lines, |lines|, pats)
  {
    hide BodyAt, OpenAfter, FnOpen, Candidate, Reclaimed;
    assert Readable(lines, d, pats);
    var a: nat, b: nat :| IsOwn(lines, d, a, b, pats) && Visible(lines, d, a, b, pats);
    OwnIsUnique(lines, d, e, c, a, b, pats);
    OwnBraceFound(lines, d, e, c, pats);
    InTable(lines, |lines|, d, e, pats);
  }

  /** Every entry of the table is a function's own brace and its return type. */
  lemma TableIsOwn(lines: seq<string>, end: nat, pats: Patterns) returns (d: nat, c: nat)
    requires AllReadable(lines, pats) && Regular(pats) && end in FnOpen(lines, |lines|, pats)
    ensures d < |lines| && IsOwn(lines, d, end, c, pats) && Finds(lines, d, end, c, pats)
    ensures FnOpen(lines, |lines|, pats)[end] == OwnType(lines, d, end, c, pats)
    ensures forall later :: d < later < |lines| && pats.fn(lines[later]).Some? ==> !BodyAt(lines, later, end, pats)
  {
    hide OpenAfter, FnOpen, Candidate, OwnType, TypedFrames, LineEvents, BodyOf;
    OneFrameEach(lines, |lines|, end, pats);
    var i :| 0 <= i < |lines| && LastDeclares(lines, i, |lines|, end, FnOpen(lines, |lines|, pats)[end], pats);
    d := i;
    assert BodyAt(lines, d, end, pats) && !Reclaimed(lines, d, end, pats);
    assert Readable(lines, d, pats);
    var e: nat, b: nat :| IsOwn(lines, d, e, b, pats) && Visible(lines, d, e, b, pats);
    OwnBraceFound(lines, d, e, b, pats);
    TypeFound(lines, d, e, b, pats);
    c := b;
  }

  /** Where every declaration is readable the table fits. */
  lemma ReadableFits(lines: seq<string>, pats: Patterns)
    requires AllReadable(lines, pats) && Regular(pats)
    ensures TableFits(lines, pats)
  {
    hide AllReadable, Regular, FnOpen, OwnType, Candidate, BodyAt, OpenAfter, Owns;
    var fnOpen := FnOpen(lines, |lines|, pats);
    forall e: nat | e in fnOpen ensures EntryFits(lines, e, fnOpen[e], pats) {
      ReadableEntry(lines, e, pats);
    }
    forall d: nat, e: nat, c: nat | d < |lines| && IsOwn(lines, d, e, c, pats) ensures Entered(lines, e, c, fnOpen) {
      if OpenAfter(lines, e + 1, e, c) {
        OwnInTable(lines, d, e, c, pats);
      }
    }
  }

  lemma ReadableEntry(lines: seq<string>, e: nat, pats: Patterns)
    requires AllReadable(lines, pats) && Regular(pats) && e in FnOpen(lines, |lines|, pats)
    ensures EntryFits(lines, e, FnOpen(lines, |lines|, pats)[e], pats)
  {
    hide AllReadable, Regular, FnOpen, OwnType, Candidate, BodyAt, OpenAfter;
    var d, c := TableIsOwn(lines, e, pats);
    var b := TableBraceOpen(lines, e, pats);
    forall later | d < later < |lines| ensures !IsOwn(lines, later, e, c, pats) {
      if IsOwn(lines, later, e, c, pats) {
        OwnInTable(lines, later, e, c, pats);
      }
    }
    assert Owns(lines, d, e, c, pats);
  }

  // ---------------------------------------------------------------- the innermost function

  /** A function open at line `n` has a typed frame there. */
  lemma FunctionHasFrame(lines: seq<string>, n: nat, d: nat, e: nat, c: nat, pats: Patterns)
    requires n <= |lines| && FramesFit(lines, pats) && FunctionOpen(lines, n, d, e, c, pats)
    ensures var events := Events(lines, FnOpen(lines, |lines|, pats), n);
      && OpenAt(events, Position(lines, e, c))
      && events[Position(lines, e, c)].frame == Some(OwnType(lines, d, e, c, pats))
  {
    hide FnOpen, Events, Flat, OpenIn, OwnType, IsOwn, OpenAt, Position;
    OwnsBounds(lines, d, e, c, pats);
    OpenIsOpen(lines, FnOpen(lines, |lines|, pats), n, Position(lines, e, c));
    assert FunctionHere(lines, n, d, e, c, OwnType(lines, d, e, c, pats), pats);
    assert FrameFits(lines, n, e, c, OwnType(lines, d, e, c, pats), pats);
  }

  /** A typed frame open at line `n` is a function open there. */
  lemma FrameIsFunction(lines: seq<string>, n: nat, p: nat, t: string, pats: Patterns)
      returns (d: nat, e: nat, c: nat)
    requires n <= |lines| && FramesFit(lines, pats)
    requires var events := Events(lines, FnOpen(lines, |lines|, pats), n);
      OpenAt(events, p) && events[p].frame == Some(t)
    ensures FunctionOpen(lines, n, d, e, c, pats) && OwnType(lines, d, e, c, pats) == t && Position(lines, e, c) == p
  {
    hide FnOpen, Events, OwnType, IsOwn, Excess, Height;
    var fnOpen := FnOpen(lines, |lines|, pats);
    EventsMatchText(lines, fnOpen, n);
    e, c := Locate(lines, n, p);
    OpenIsOpen(lines, fnOpen, n, p);
    assert FrameIs(Events(lines, fnOpen, n), Position(lines, e, c), t);
    assert FrameFits(lines, n, e, c, t, pats);
    d :| FunctionHere(lines, n, d, e, c, t, pats);
  }

  /** Where the frames fit, the innermost typed frame is the innermost function. */
  lemma InnermostIsFunction(lines: seq<string>, n: nat, t: string, pats: Patterns)
    requires n <= |lines| && FramesFit(lines, pats)
    ensures Innermost(Events(lines, FnOpen(lines, |lines|, pats), n), Some(t))
       <==> InnermostFunction(lines, n, t, pats)
  {
    hide FramesFit, FnOpen, Events, Flat, OwnType, OpenAfter, Candidate, OpenAt, Position;
    var events := Events(lines, FnOpen(lines, |lines|, pats), n);
    OpenBounds(events);
    if Innermost(events, Some(t)) {
      var p :| OpenAt(events, p) && events[p].frame == Some(t)
        && forall q :: p < q && OpenAt(events, q) ==> events[q].frame == None;
      var d, e, c := FrameIsFunction(lines, n, p, t, pats);
      DeepestFrame(lines, n, p, t, pats);
    }
    if InnermostFunction(lines, n, t, pats) {
      var d: nat, e: nat, c: nat :| FunctionOpen(lines, n, d, e, c, pats) && OwnType(lines, d, e, c, pats) == t
        && Deepest(lines, n, Position(lines, e, c), pats);
      FunctionHasFrame(lines, n, d, e, c, pats);
      var p := Position(lines, e, c);
      forall q | p < q && OpenAt(events, q) ensures events[q].frame == None {
        if events[q].frame.Some? {
          var d', e', c' := FrameIsFunction(lines, n, q, events[q].frame.value, pats);
        }
      }
    }
  }

  lemma DeepestFrame(lines: seq<string>, n: nat, p: nat, t: string, pats: Patterns)
    requires n <= |lines| && FramesFit(lines, pats)
    requires var events := Events(lines, FnOpen(lines, |lines|, pats), n);
      forall q :: p < q && OpenAt(events, q) ==> events[q].frame == None
    ensures Deepest(lines, n, p, pats)
  {
    hide FramesFit, FnOpen, Events, Flat, OwnType, OpenAfter, Candidate, OpenAt, Position;
    forall d: nat, e: nat, c: nat | FunctionOpen(lines, n, d, e, c, pats) ensures Position(lines, e, c) <= p {
      FunctionHasFrame(lines, n, d, e, c, pats);
    }
  }

  // ---------------------------------------------------------------- what the audit reports

  /** `f` reports line `i`: an `errdefer` whose innermost open function has a return type that shows no error. */
  ghost predicate ReportsFunction(raw: seq<string>, i: int, f: Finding, pats: Patterns) {
    && 0 <= i < |raw|
    && f.line == i + 1 && f.text == Strip(raw[i])
    && pats.errdefer(Stripped(raw[i]))
    && InnermostFunction(StripAll(raw), i, f.returnType, pats)
    && '!' !in f.returnType && f.returnType != "type" && f.returnType != "anyerror"
  }

  /** Where the table fits the audit reports exactly the unreachable `errdefer`s. */
  lemma ReportsAreFunctions(raw: seq<string>, pats: Patterns, r: Result<seq<Finding>, Desync>, f: Finding)
    requires Exact(raw, pats, r) && r.Ok? && TableFits(StripAll(raw), pats)
    ensures f in r.value <==> exists i :: ReportsFunction(raw, i, f, pats)
  {
    hide TableFits, FramesFit, FnOpen, Events, Flat, Innermost, InnermostFunction, Stripped, Strip, Excess, Ascending;
    var lines := StripAll(raw);
    var fnOpen := FnOpen(lines, |lines|, pats);
    FramesFitIff(lines, pats);
    forall i | 0 <= i < |raw| ensures Reports(raw, fnOpen, i, f, pats) <==> ReportsFunction(raw, i, f, pats) {
      InnermostIsFunction(lines, i, f.returnType, pats);
    }
    assert f in r.value <==> ReportedBefore(raw, fnOpen, |raw|, f, pats);
  }

  /** The audit of one file, with its promise: about braces always, about functions where its table fits. */
  method Audit(raw: seq<string>, pats: Patterns) returns (r: Result<seq<Finding>, Desync>)
    ensures Exact(raw, pats, r)
    ensures r.Ok? && TableFits(StripAll(raw), pats) ==>
      forall f :: f in r.value <==> exists i :: ReportsFunction(raw, i, f, pats)
  {
    hide Exact, TableFits, ReportsFunction;
    r := Scan(raw, pats);
    ScanIsExact(raw, pats, r);
    if r.Ok? && TableFits(StripAll(raw), pats) {
      forall f ensures f in r.value <==> exists i :: ReportsFunction(raw, i, f, pats) {
        ReportsAreFunctions(raw, pats, r, f);
      }
    }
  }
}
