/**
  What quoted scalars of a workflow mean (scripts/release-audit.py): a quoted text is
  evaluated with its quotes, whatever `#`, commas or white space it holds, wherever it
  stands: as a value, as a list item or within an inline list.
 */
module WorkflowQuotes {
  import opened Wrappers
  import opened Text
  import opened Workflow
  import opened WorkflowBlocks
  import opened WorkflowRoundTrip
  import opened WorkflowScalars

  // ---------------------------------------------------------------- quoted texts

  /** An odd number of backslashes stands right before position `k`. */
  predicate EscapedAt(t: string, k: nat)
    requires k <= |t|
  {
    k > 0 && t[k - 1] == '\\' && !EscapedAt(t, k - 1)
  }

  /** Text between two quotes `q` that does not end the quotation early. */
  predicate Inside(t: string, q: char) {
    if q == '\'' then '\'' !in t
    else q == '"' && !EscapedAt(t, |t|) && forall k :: 0 <= k < |t| && t[k] == '"' ==> EscapedAt(t, k)
  }

  function Quoted(t: string, q: char): string {
    [q] + t + [q]
  }

  predicate IsWhite(s: string) {
    forall i :: 0 <= i < |s| ==> IsSpace(s[i])
  }

  /** White space, or white space and a comment behind it. */
  predicate IsTail(s: string) {
    IsWhite(s) || exists n :: 0 < n < |s| && s[n] == '#' && IsWhite(s[..n])
  }

  // ---------------------------------------------------------------- comments around quotes

  /** The quote state of a text that goes on: it depends on the state before only. */
  lemma StateStep(s: string, c: char)
    ensures var (quote, escaped) := QuoteState(s);
      QuoteState(s + [c]) ==
        if escaped then (quote, false)
        else if quote == Some('"') && c == '\\' then (quote, true)
        else if (c == '\'' || c == '"') && quote == None then (Some(c), false)
        else if quote == Some(c) then (None, false)
        else (quote, false)
  {
    assert (s + [c])[..|s|] == s;
  }

  /** Characters that are no quotes leave the state outside quotes. */
  lemma {:induction false} PlainState(s: string, t: string)
    requires QuoteState(s) == (None, false) && forall c :: c in t ==> c != '\'' && c != '"'
    ensures QuoteState(s + t) == (None, false)
  {
    hide QuoteState;
    if t == "" {
      assert s + t == s;
    } else {
      var init := t[..|t| - 1];
      forall c | c in init ensures c != '\'' && c != '"' {
        assert c in t;
      }
      PlainState(s, init);
      assert t[|t| - 1] in t;
      StateStep(s + t[..|t| - 1], t[|t| - 1]);
      assert s + t[..|t| - 1] + [t[|t| - 1]] == s + t;
    }
  }

  /** Within the quotes the state is that quote, escaped where a backslash of the text escapes. */
  lemma {:induction false} InsideState(s: string, t: string, q: char, k: nat)
    requires QuoteState(s) == (None, false) && Inside(t, q) && k <= |t|
    ensures QuoteState(s + [q] + t[..k]) == (Some(q), q == '"' && EscapedAt(t, k))
  {
    hide QuoteState;
    var before := s + [q];
    if k == 0 {
      StateStep(s, q);
      assert before + t[..0] == before;
    } else {
      InsideState(s, t, q, k - 1);
      StateStep(before + t[..k - 1], t[k - 1]);
      assert before + t[..k - 1] + [t[k - 1]] == before + t[..k];
      assert t[k - 1] in t;
    }
  }

  lemma QuotedState(s: string, t: string, q: char)
    requires QuoteState(s) == (None, false) && Inside(t, q)
    ensures QuoteState(s + Quoted(t, q)) == (None, false)
  {
    hide QuoteState;
    InsideState(s, t, q, |t|);
    assert t[..|t|] == t;
    StateStep(s + [q] + t, q);
    assert s + [q] + t + [q] == s + Quoted(t, q);
  }

  /** No comment starts up to the end of a quotation. */
  lemma NoCommentInside(s: string, t: string, q: char, rest: string, k: nat)
    requires QuoteState(s) == (None, false) && Inside(t, q) && |s| <= k < |s + Quoted(t, q)|
    ensures !Comments(s + Quoted(t, q) + rest, k)
  {
    hide QuoteState;
    var all := s + Quoted(t, q) + rest;
    if |s| < k <= |s| + |t| {
      InsideState(s, t, q, k - |s| - 1);
      assert all[..k] == s + [q] + t[..k - |s| - 1];
    }
  }

  /** A stretch of a scalar: text without quotes and `#`, or a quotation. */
  datatype Segment = Bare(text: string) | Quotation(text: string, quote: char)

  predicate Sound(g: Segment) {
    match g
    case Bare(text) => forall c :: c in text ==> c != '#' && c != '\'' && c != '"'
    case Quotation(text, quote) => Inside(text, quote)
  }

  function SegmentText(g: Segment): string {
    match g case Bare(text) => text case Quotation(text, quote) => Quoted(text, quote)
  }

  function TextOf(gs: seq<Segment>): string {
    if gs == [] then "" else SegmentText(gs[0]) + TextOf(gs[1..])
  }

  lemma SegmentQuiet(s: string, g: Segment, rest: string)
    requires QuoteState(s) == (None, false) && Sound(g)
    ensures QuoteState(s + SegmentText(g)) == (None, false)
    ensures forall k :: |s| <= k < |s + SegmentText(g)| ==> !Comments(s + SegmentText(g) + rest, k)
  {
    hide QuoteState, Inside, Comments;
    match g
    case Bare(text) =>
      PlainState(s, text);
      forall k | |s| <= k < |s + text| ensures !Comments(s + text + rest, k) {
        assert (s + text + rest)[k] == text[k - |s|] && text[k - |s|] in text;
        NotHash(s + text + rest, k);
      }
    case Quotation(t, q) =>
      QuotedState(s, t, q);
      forall k | |s| <= k < |s + Quoted(t, q)| ensures !Comments(s + Quoted(t, q) + rest, k) {
        NoCommentInside(s, t, q, rest, k);
      }
  }

  lemma NotHash(value: string, k: nat)
    requires k < |value| && value[k] != '#'
    ensures !Comments(value, k)
  {
  }

  /** A text of sound segments leaves no quotation open and starts no comment. */
  lemma {:induction false} SegmentsQuiet(s: string, gs: seq<Segment>, rest: string)
    requires QuoteState(s) == (None, false) && forall g :: g in gs ==> Sound(g)
    ensures QuoteState(s + TextOf(gs)) == (None, false)
    ensures forall k :: |s| <= k < |s + TextOf(gs)| ==> !Comments(s + TextOf(gs) + rest, k)
    decreases |gs|
  {
    hide QuoteState, Sound, SegmentText, Comments;
    if gs == [] {
      assert s + TextOf(gs) == s;
    } else {
      var first := SegmentText(gs[0]);
      assert gs[0] in gs;
      SegmentQuiet(s, gs[0], TextOf(gs[1..]) + rest);
      SegmentsQuiet(s + first, gs[1..], rest);
      assert s + first + TextOf(gs[1..]) == s + TextOf(gs);
      assert s + first + (TextOf(gs[1..]) + rest) == s + TextOf(gs) + rest;
    }
  }

  lemma {:induction false} RstripWhite(s: string, w: string)
    requires IsWhite(w)
    ensures Rstrip(s + w) == Rstrip(s)
  {
    hide IsSpace;
    if w == "" {
      assert s + w == s;
    } else {
      assert (s + w)[..|s + w| - 1] == s + w[..|w| - 1];
      RstripWhite(s, w[..|w| - 1]);
    }
  }

  lemma WhiteIsPlain(w: string)
    requires IsWhite(w)
    ensures forall c :: c in w ==> c != '#' && c != '\'' && c != '"'
  {
  }

  /** The tail is dropped, and nothing of the segments is. */
  lemma TailDropped(gs: seq<Segment>, tail: string)
    requires IsTail(tail) && forall g :: g in gs ==> Sound(g)
    ensures Uncommented(TextOf(gs) + tail) == Rstrip(TextOf(gs))
  {
    hide QuoteState, Sound, Comments, Uncommented, IsSpace, TextOf;
    var text := TextOf(gs);
    var value := text + tail;
    assert QuoteState("") == (None, false) by { NothingRead(); }
    assert "" + text == text;
    SegmentsQuiet("", gs, tail);
    if IsWhite(tail) {
      WhiteIsPlain(tail);
      forall k | |text| <= k < |value| ensures !Comments(value, k) {
        assert value[k] == tail[k - |text|] && tail[k - |text|] in tail;
        NotHash(value, k);
      }
      UncommentedMeans(value, |value|);
      assert value[..|value|] == value;
      RstripWhite(text, tail);
    } else {
      var n :| 0 < n < |tail| && tail[n] == '#' && IsWhite(tail[..n]);
      WhiteIsPlain(tail[..n]);
      forall k | |text| <= k < |text| + n ensures !Comments(value, k) {
        assert value[k] == tail[..n][k - |text|] && tail[..n][k - |text|] in tail[..n];
        NotHash(value, k);
      }
      PlainState(text, tail[..n]);
      assert value[..|text| + n] == text + tail[..n];
      assert value[|text| + n - 1] == tail[..n][n - 1];
      HashComments(value, |text| + n);
      UncommentedMeans(value, |text| + n);
      RstripWhite(text, tail[..n]);
    }
  }

  lemma NothingRead()
    ensures QuoteState("") == (None, false)
  {
  }

  lemma HashComments(value: string, i: nat)
    requires 0 < i < |value| && value[i] == '#' && IsSpace(value[i - 1]) && QuoteState(value[..i]) == (None, false)
    ensures Comments(value, i)
  {
  }

  // ---------------------------------------------------------------- quoted scalars

  lemma {:induction false} LstripWhite(w: string, s: string)
    requires IsWhite(w)
    ensures Lstrip(w + s) == Lstrip(s)
  {
    hide IsSpace;
    if w == "" {
      assert w + s == s;
    } else {
      assert (w + s)[1..] == w[1..] + s;
      LstripWhite(w[1..], s);
    }
  }

  lemma StripAround(lead: string, s: string)
    requires IsWhite(lead) && s != "" && Trimmed(s)
    ensures Strip(Rstrip(lead + s)) == s
  {
    hide IsSpace;
    LstripWhite(lead, s);
    TrimmedFixed(s);
    assert (lead + s)[|lead + s| - 1] == s[|s| - 1];
  }

  lemma QuotedTrims(t: string, q: char)
    requires q == '\'' || q == '"'
    ensures Trimmed(Quoted(t, q)) && |Quoted(t, q)| >= 2
    ensures Quoted(t, q)[0] == q == Quoted(t, q)[|Quoted(t, q)| - 1]
  {
  }

  lemma InsideQuotes(t: string, q: char)
    requires Inside(t, q)
    ensures q == '\'' || q == '"'
  {
  }

  lemma TwoSegments(a: Segment, b: Segment)
    ensures TextOf([a, b]) == SegmentText(a) + SegmentText(b)
  {
    hide SegmentText;
    assert [a, b][1..] == [b] && [b][1..] == [];
    assert TextOf([b]) == SegmentText(b) + "" == SegmentText(b);
  }

  /** The step of a scalar from its stripped text to the evaluator. */
  lemma QuotedEvaluates(s: string, v: string, eval: Evaluator)
    requires Strip(Uncommented(s)) == v && |v| > 0 && (v[0] == '\'' || v[0] == '"') && v[|v| - 1] == v[0]
    ensures ScalarOf(s, eval) == eval(v)
  {
    hide Uncommented, Strip, ScalarsOf, SplitCommas;
  }

  /** A quotation is evaluated, whatever white space is around it and whatever comment behind it. */
  lemma QuotedScalar(lead: string, t: string, q: char, tail: string, eval: Evaluator)
    requires IsWhite(lead) && Inside(t, q) && IsTail(tail)
    ensures ScalarOf(lead + [q] + t + [q] + tail, eval) == eval([q] + t + [q])
  {
    hide Uncommented, Strip, Rstrip, ScalarOf, Inside, IsTail, Trimmed;
    var v := [q] + t + [q];
    InsideQuotes(t, q);
    QuotedTrims(t, q);
    WhiteIsPlain(lead);
    TwoSegments(Bare(lead), Quotation(t, q));
    TailDropped([Bare(lead), Quotation(t, q)], tail);
    StripAround(lead, v);
    assert lead + [q] + t + [q] + tail == lead + v + tail;
    QuotedEvaluates(lead + v + tail, v, eval);
  }

  // ---------------------------------------------------------------- inline lists

  /** The items of an inline list are read one by one; the first that fails decides the error. */
  lemma {:induction false} ScalarsMean(parts: seq<string>, bound: nat, eval: Evaluator)
    requires forall p :: p in parts ==> |p| <= bound
    ensures var r := ScalarsOf(parts, bound, eval);
      match r
      case Ok(items) =>
        |items| == |parts| && forall k :: 0 <= k < |parts| ==> ScalarOf(parts[k], eval) == Ok(items[k])
      case Err(e) =>
        exists k :: 0 <= k < |parts| && FirstFails(parts, k, e, eval)
  {
    hide ScalarOf;
    if parts != [] {
      assert parts[0] in parts;
      var rest := parts[1..];
      forall p | p in rest ensures |p| <= bound { assert p in parts; }
      ScalarsMean(rest, bound, eval);
      match ScalarOf(parts[0], eval)
      case Err(e) =>
        assert FirstFails(parts, 0, e, eval);
      case Ok(v) =>
        match ScalarsOf(rest, bound, eval)
        case Ok(items) =>
        case Err(e) =>
          var k :| 0 <= k < |rest| && FirstFails(rest, k, e, eval);
          forall j | 0 <= j < k + 1 ensures ScalarOf(parts[j], eval).Ok? {
            assert j > 0 ==> parts[j] == rest[j - 1];
          }
          assert FirstFails(parts, k + 1, e, eval);
    }
  }

  predicate FirstFails(parts: seq<string>, k: nat, e: YamlError, eval: Evaluator)
    requires k < |parts|
  {
    ScalarOf(parts[k], eval) == Err(e) && forall j :: 0 <= j < k ==> ScalarOf(parts[j], eval).Ok?
  }

  /** An item of an inline list: a quotation without commas, or a plain text that is no list itself. */
  predicate ListItem(g: Segment) {
    && Sound(g) && ',' !in SegmentText(g)
    && (g.Bare? ==> g.text != "" && Trimmed(g.text) && !(g.text[0] == '[' && g.text[|g.text| - 1] == ']'))
  }

  /** What an item stands for: quotations are evaluated, keywords and other texts as everywhere. */
  function ItemValue(g: Segment, eval: Evaluator): Parsed<Value> {
    match g
    case Quotation(t, q) => eval([q] + t + [q])
    case Bare(text) =>
      if text == "true" then Ok(Bool(true))
      else if text == "false" then Ok(Bool(false))
      else if text == "null" then Ok(Null)
      else Ok(Str(text))
  }

  function Texts(gs: seq<Segment>): (r: seq<string>)
    ensures |r| == |gs|
  {
    seq(|gs|, k requires 0 <= k < |gs| => SegmentText(gs[k]))
  }

  lemma BareReads(lead: string, text: string, eval: Evaluator)
    requires IsWhite(lead) && ListItem(Bare(text))
    ensures ScalarOf(lead + text, eval) == ItemValue(Bare(text), eval)
  {
    hide Uncommented, Strip, Rstrip, ScalarOf, Trimmed, IsSpace;
    WhiteIsPlain(lead);
    TwoSegments(Bare(lead), Bare(text));
    assert IsTail("") && lead + text + "" == lead + text;
    TailDropped([Bare(lead), Bare(text)], "");
    StripAround(lead, text);
    assert text[0] in text;
    ScalarStands(lead + text, text, eval);
  }

  lemma ItemReadsAs(lead: string, g: Segment, eval: Evaluator)
    requires IsWhite(lead) && ListItem(g)
    ensures ScalarOf(lead + SegmentText(g), eval) == ItemValue(g, eval)
  {
    hide ScalarOf, Inside;
    match g
    case Bare(text) => BareReads(lead, text, eval);
    case Quotation(t, q) =>
      assert IsTail("");
      QuotedScalar(lead, t, q, "", eval);
      assert lead + [q] + t + [q] + "" == lead + Quoted(t, q);
  }

  /** The parts between the commas are the items, every one but the first behind a blank. */
  lemma {:induction false} TextsSplit(texts: seq<string>, lead: string)
    requires texts != [] && ',' !in lead && forall k :: 0 <= k < |texts| ==> ',' !in texts[k]
    ensures SplitCommas(lead + Commas(texts)) == Parts(texts, lead)
  {
    var s, head := lead + Commas(texts), lead + texts[0];
    assert ',' !in head;
    if |texts| == 1 {
      FindNone(s, ',');
      assert s == head && Parts(texts[1..], " ") == [];
    } else {
      var tail := " " + Commas(texts[1..]);
      assert s == head + [','] + tail;
      FindAppend(head, ',', tail);
      assert s[..|head|] == head && s[|head| + 1..] == tail;
      TextsSplit(texts[1..], " ");
    }
  }

  lemma {:induction false} PartAt(texts: seq<string>, lead: string, k: nat)
    requires k < |texts|
    ensures |Parts(texts, lead)| == |texts|
    ensures Parts(texts, lead)[k] == (if k == 0 then lead else " ") + texts[k]
    decreases |texts|
  {
    if |texts| > 1 {
      PartAt(texts[1..], " ", if k == 0 then 0 else k - 1);
    } else {
      assert Parts(texts[1..], " ") == [];
    }
  }

  /** The items with their separators and the closing bracket, as segments. */
  function Spread(gs: seq<Segment>): seq<Segment> {
    if gs == [] then [Bare("]")]
    else [gs[0], Bare(if |gs| == 1 then "" else ", ")] + Spread(gs[1..])
  }

  lemma {:induction false} SpreadText(gs: seq<Segment>)
    requires forall k :: 0 <= k < |gs| ==> Sound(gs[k])
    ensures TextOf(Spread(gs)) == Commas(Texts(gs)) + "]"
    ensures forall g :: g in Spread(gs) ==> Sound(g)
  {
    hide SegmentText, Sound, TextOf, Commas;
    NoCommas();
    if gs == [] {
      TextStep(Bare("]"), []);
      BareText("]");
      assert Texts(gs) == [];
    } else {
      var rest := Spread(gs[1..]);
      var comma := if |gs| == 1 then "" else ", ";
      SpreadText(gs[1..]);
      assert Spread(gs) == [gs[0]] + ([Bare(comma)] + rest);
      TextStep(gs[0], [Bare(comma)] + rest);
      TextStep(Bare(comma), rest);
      BareText(comma);
      assert Texts(gs)[1..] == Texts(gs[1..]);
      CommasStep(Texts(gs));
      assert SegmentText(gs[0]) + (comma + (Commas(Texts(gs[1..])) + "]")) == Commas(Texts(gs)) + "]";
    }
  }

  lemma TextStep(g: Segment, gs: seq<Segment>)
    ensures TextOf([g] + gs) == SegmentText(g) + TextOf(gs) && TextOf([]) == ""
    ensures g == Bare("]") ==> TextOf([g]) == SegmentText(g)
  {
    hide SegmentText;
    assert ([g] + gs)[1..] == gs && [g][1..] == [];
    assert SegmentText(g) + "" == SegmentText(g);
  }

  lemma NoCommas()
    ensures Commas([]) == "" && Sound(Bare("]")) && Sound(Bare("")) && Sound(Bare(", "))
  {
  }

  lemma CommasStep(texts: seq<string>)
    requires texts != []
    ensures Commas(texts) == texts[0] + (if |texts| == 1 then "" else ", ") + Commas(texts[1..])
  {
    if |texts| == 1 {
      assert Commas(texts[1..]) == "";
      assert texts[0] + "" + "" == texts[0];
    }
  }

  lemma BareText(text: string)
    ensures SegmentText(Bare(text)) == text
  {
  }

  lemma ItemTrims(g: Segment)
    requires ListItem(g)
    ensures SegmentText(g) != "" && Trimmed(SegmentText(g)) && ',' !in SegmentText(g) && Sound(g)
  {
    hide Inside, Trimmed;
    if g.Quotation? {
      InsideQuotes(g.text, g.quote);
      QuotedTrims(g.text, g.quote);
    }
  }

  lemma {:induction false} CommasTrims(texts: seq<string>)
    requires texts != [] && forall k :: 0 <= k < |texts| ==> texts[k] != "" && Trimmed(texts[k])
    ensures Commas(texts) != "" && Trimmed(Commas(texts))
  {
    hide IsSpace;
    if |texts| > 1 {
      CommasTrims(texts[1..]);
    }
  }

  lemma ListStands(s: string, v: string, inner: string, eval: Evaluator)
    requires Strip(Uncommented(s)) == v && |v| >= 2 && v[0] == '[' && v[|v| - 1] == ']'
    requires Strip(v[1..|v| - 1]) == inner != ""
    requires forall p :: p in SplitCommas(inner) ==> |p| <= |inner|
    ensures ScalarOf(s, eval)
      == match ScalarsOf(SplitCommas(inner), |inner|, eval) case Ok(items) => Ok(List(items)) case Err(e) => Err(e)
  {
    hide Uncommented, Strip, ScalarsOf, SplitCommas;
  }

  lemma BracketsTrim(inner: string)
    ensures var v := "[" + inner + "]";
      |v| >= 2 && v[0] == '[' && v[|v| - 1] == ']' && v[1..|v| - 1] == inner && Trimmed(v)
  {
  }

  /** The values of the items, or the error of the first that has none. */
  ghost predicate ItemsRead(gs: seq<Segment>, r: Parsed<Value>, eval: Evaluator) {
    match r
    case Ok(v) =>
      v.List? && |v.items| == |gs| && forall k :: 0 <= k < |gs| ==> ItemValue(gs[k], eval) == Ok(v.items[k])
    case Err(e) =>
      exists k :: 0 <= k < |gs| && ItemValue(gs[k], eval) == Err(e)
        && forall j :: 0 <= j < k ==> ItemValue(gs[j], eval).Ok?
  }

  /** An inline list of quotations and plain texts reads as their values, whatever comment follows it. */
  lemma QuotedList(gs: seq<Segment>, tail: string, eval: Evaluator)
    requires gs != [] && IsTail(tail) && forall k :: 0 <= k < |gs| ==> ListItem(gs[k])
    ensures ItemsRead(gs, ScalarOf("[" + Commas(Texts(gs)) + "]" + tail, eval), eval)
  {
    hide *;
    var texts := Texts(gs);
    var inner := Commas(texts);
    var v := "[" + inner + "]";
    TextsAre(gs);
    CommasTrims(texts);
    ListUncommented(gs, tail);
    BracketsTrim(inner);
    StripTrims(v);
    StripTrims(inner);
    NoSpaceNoComma();
    TextsSplit(texts, "");
    assert "" + inner == inner;
    SplitParts(inner);
    ListStands(v + tail, v, inner, eval);
    ScalarsMean(SplitCommas(inner), |inner|, eval);
    PartsValues(gs, eval);
    SameItems(gs, ScalarsOf(SplitCommas(inner), |inner|, eval), eval);
    assert "[" + Commas(Texts(gs)) + "]" + tail == v + tail;
  }

  lemma TextsAre(gs: seq<Segment>)
    requires gs != [] && forall k :: 0 <= k < |gs| ==> ListItem(gs[k])
    ensures Texts(gs) != []
    ensures forall k :: 0 <= k < |gs| ==>
      Sound(gs[k]) && Texts(gs)[k] != "" && Trimmed(Texts(gs)[k]) && ',' !in Texts(gs)[k]
  {
    hide ListItem, Trimmed, Sound, SegmentText;
    forall k | 0 <= k < |gs|
      ensures Sound(gs[k]) && Texts(gs)[k] != "" && Trimmed(Texts(gs)[k]) && ',' !in Texts(gs)[k]
    {
      ItemTrims(gs[k]);
    }
  }

  lemma ListUncommented(gs: seq<Segment>, tail: string)
    requires gs != [] && IsTail(tail) && forall k :: 0 <= k < |gs| ==> Sound(gs[k])
    ensures var v := "[" + Commas(Texts(gs)) + "]"; Strip(Uncommented(v + tail)) == v
  {
    hide Uncommented, Strip, Rstrip, Sound, IsTail, Trimmed, Spread, Texts, Commas;
    var v := "[" + Commas(Texts(gs)) + "]";
    SpreadText(gs);
    var all := [Bare("[")] + Spread(gs);
    assert all[1..] == Spread(gs);
    BareText("[");
    assert TextOf(all) == "[" + (Commas(Texts(gs)) + "]") == v;
    assert Sound(Bare("[")) by { BracketSound(); }
    TailDropped(all, tail);
    BracketsTrim(Commas(Texts(gs)));
    StripAround("", v);
    assert "" + v == v;
  }

  lemma BracketSound()
    ensures Sound(Bare("["))
  {
  }

  /** The parts read as the items. */
  lemma PartsValues(gs: seq<Segment>, eval: Evaluator)
    requires forall k :: 0 <= k < |gs| ==> ListItem(gs[k])
    ensures |Parts(Texts(gs), "")| == |gs|
    ensures forall k :: 0 <= k < |gs| ==> ScalarOf(Parts(Texts(gs), "")[k], eval) == ItemValue(gs[k], eval)
  {
    hide ScalarOf, ItemValue, ListItem, SegmentText, Parts;
    if gs == [] {
      NoParts();
    } else {
      PartAt(Texts(gs), "", 0);
      forall k | 0 <= k < |gs| ensures ScalarOf(Parts(Texts(gs), "")[k], eval) == ItemValue(gs[k], eval) {
        PartAt(Texts(gs), "", k);
        ItemReadsAs(if k == 0 then "" else " ", gs[k], eval);
      }
    }
  }

  lemma NoParts()
    ensures Parts([], "") == []
  {
  }

  lemma SameItems(gs: seq<Segment>, r: Parsed<seq<Value>>, eval: Evaluator)
    requires var parts := Parts(Texts(gs), "");
      && |parts| == |gs| && (forall k :: 0 <= k < |gs| ==> ScalarOf(parts[k], eval) == ItemValue(gs[k], eval))
      && match r
         case Ok(items) =>
           |items| == |parts| && forall k :: 0 <= k < |parts| ==> ScalarOf(parts[k], eval) == Ok(items[k])
         case Err(e) => exists k :: 0 <= k < |parts| && FirstFails(parts, k, e, eval)
    ensures ItemsRead(gs, match r case Ok(items) => Ok(List(items)) case Err(e) => Err(e), eval)
  {
    hide ScalarOf, ItemValue, Parts, Texts;
  }

  // ---------------------------------------------------------------- quotations in documents

  /** A quotation can be printed as a value exactly if it can be evaluated, and that is its meaning. */
  lemma QuotedPrints(t: string, q: char, eval: Evaluator)
    requires Inside(t, q)
    ensures Printable(Plain([q] + t + [q]), eval) <==> eval([q] + t + [q]).Ok?
    ensures eval([q] + t + [q]).Ok? ==> Ok(Meaning(Plain([q] + t + [q]), eval)) == eval([q] + t + [q])
    ensures ':' !in t ==> (PrintableItem(Plain([q] + t + [q]), eval) <==> eval([q] + t + [q]).Ok?)
    ensures ':' !in t ==>
      (PrintableKey([q] + t + [q], eval) <==> exists key :: key != "" && eval([q] + t + [q]) == Ok(Str(key)))
  {
    hide ScalarOf, Inside, Trimmed;
    var v := [q] + t + [q];
    InsideQuotes(t, q);
    QuotedTrims(t, q);
    assert IsTail("");
    QuotedScalar("", t, q, "", eval);
    assert "" + [q] + t + [q] + "" == v;
    assert v[0] == q;
    assert v !in HEADERS;
  }

  lemma {:induction false} RstripTail(s: string, tail: string)
    requires IsTail(tail)
    ensures exists short ::
      IsTail(short) && short <= tail && Rstrip(s + tail) == (if short == "" then Rstrip(s) else s + short)
    decreases |tail|
  {
    hide IsSpace;
    if IsWhite(tail) {
      RstripWhite(s, tail);
      assert IsTail("");
    } else {
      var n :| 0 < n < |tail| && tail[n] == '#' && IsWhite(tail[..n]);
      var all, m := s + tail, |tail| - 1;
      if IsSpace(tail[m]) {
        assert m > n by { HashIsNoSpace(); }
        assert tail[..m][..n] == tail[..n];
        assert all[..|all| - 1] == s + tail[..m];
        RstripTail(s, tail[..m]);
      } else {
        assert all[|all| - 1] == tail[m];
        assert tail <= tail;
      }
    }
  }

  lemma HashIsNoSpace()
    ensures !IsSpace('#')
  {
  }

  /** What is stripped off the end of a quotation and its tail makes no difference. */
  lemma StrippedQuotation(t: string, q: char, tail: string, eval: Evaluator)
    requires Inside(t, q) && IsTail(tail)
    ensures ScalarOf(Strip([q] + t + [q] + tail), eval) == eval([q] + t + [q])
  {
    hide ScalarOf, Inside, IsTail, Rstrip, IsSpace;
    var v := [q] + t + [q];
    InsideQuotes(t, q);
    QuotedTrims(t, q);
    assert Lstrip(v + tail) == v + tail by { FirstKept(v + tail); }
    RstripTail(v, tail);
    var short :| IsTail(short) && short <= tail && Rstrip(v + tail) == (if short == "" then Rstrip(v) else v + short);
    TrimmedFixed(v);
    QuotedScalar("", t, q, short, eval);
    assert "" + [q] + t + [q] + short == v + short;
    assert short == "" ==> v + short == v;
  }

  lemma FirstKept(s: string)
    requires s != "" && (s[0] == '\'' || s[0] == '"')
    ensures Lstrip(s) == s
  {
  }

  /** A document of one quoted item, at any column and with any tail, is the list of what it evaluates to. */
  lemma QuotedItem(col: nat, t: string, q: char, tail: string, eval: Evaluator)
    requires Inside(t, q) && IsTail(tail) && ':' !in t && ':' !in tail
    ensures WorkflowParser([Spaces(col) + "- " + [q] + t + [q] + tail], eval).Document()
      == match eval([q] + t + [q]) case Ok(v) => Ok(List([v])) case Err(e) => Err(e)
  {
    hide ScalarOf, Inside, IsTail, Strip, Indentation, MappingOf;
    var line := Spaces(col) + "- " + [q] + t + [q] + tail;
    var p := WorkflowParser([line], eval);
    var rest := [q] + t + [q] + tail;
    assert line == Spaces(col) + ("- " + rest);
    InsideQuotes(t, q);
    DashLine(col, rest);
    StrippedQuotation(t, q, tail, eval);
    NoColon(rest);
    assert p.ContentAt(0) == 0 && p.ContentAt(1) == 1;
    assert p.ItemAt(Strip(rest), 1, col)
      == match eval([q] + t + [q]) case Ok(v) => Ok((v, 1)) case Err(e) => Err(e);
    ListOfOne(p, col, Strip(rest));
  }

  lemma DashLine(col: nat, rest: string)
    ensures var line := Spaces(col) + ("- " + rest);
      && Indentation(line) == Ok(col) && col + 2 <= |line| && "- " <= line[col..] && line[col + 2..] == rest
      && Strip(line) != "" && Strip(line)[0] == '-'
  {
    RenderedLine(col, "- " + rest);
    assert (Spaces(col) + ("- " + rest))[col..] == "- " + rest;
    DashKept(col, "- " + rest);
  }

  lemma DashKept(col: nat, s: string)
    requires s != "" && s[0] == '-'
    ensures Strip(Spaces(col) + s) != "" && Strip(Spaces(col) + s)[0] == '-'
  {
    var line := Spaces(col) + s;
    StripTrims(line);
    assert line[col] == '-' && !IsSpace('-');
    LstripSpaces(col, s);
    assert Lstrip(s) == s;
    RstripPrefix(s);
  }

  lemma NoColon(s: string)
    requires ':' !in s
    ensures ':' !in Strip(s)
  {
    LstripSuffix(s);
    RstripPrefix(Lstrip(s));
    assert forall c :: c in Strip(s) ==> c in Lstrip(s);
  }

  lemma ListOfOne(p: WorkflowParser, col: nat, raw: string)
    requires |p.lines| == 1 && p.ContentAt(0) == 0 && p.ContentAt(1) == 1
    requires Indentation(p.lines[0]) == Ok(col) && p.IsItem(p.lines[0], col) && Strip(p.lines[0][col + 2..]) == raw
    requires p.ItemAt(raw, 1, col).Ok? ==> p.ItemAt(raw, 1, col).value.1 == 1
    ensures p.Document() == match p.ItemAt(raw, 1, col) case Err(e) => Err(e) case Ok((v, _)) => Ok(List([v]))
  {
    hide WorkflowParser.ItemAt, Strip, Indentation;
    match p.ItemAt(raw, 1, col)
    case Err(e) =>
      assert p.ListAt(0, col, []) == Err(e);
    case Ok((v, _)) =>
      assert p.ListAt(1, col, [v]) == Ok(([v], 1));
      assert p.ListAt(0, col, []) == p.ListAt(1, col, [] + [v]);
      assert [] + [v] == [v];
  }

  /**
    So a quoted string is read as an item if and only if no colon stands in it or in the
    comment behind it: with one the line is split there and read as a mapping.
   */
  lemma QuotedItemIff(col: nat, t: string, q: char, tail: string, text: string, eval: Evaluator)
    requires Inside(t, q) && IsTail(tail) && eval([q] + t + [q]) == Ok(Str(text))
    ensures WorkflowParser([Spaces(col) + "- " + [q] + t + [q] + tail], eval).Document() == Ok(List([Str(text)]))
      <==> ':' !in t && ':' !in tail
  {
    hide *;
    if ':' !in t && ':' !in tail {
      QuotedItem(col, t, q, tail, eval);
    } else {
      var line := Spaces(col) + "- " + [q] + t + [q] + tail;
      var p := WorkflowParser([line], eval);
      var rest := [q] + t + [q] + tail;
      assert line == Spaces(col) + ("- " + rest);
      assert ':' in rest;
      DashLine(col, rest);
      ColonKept(rest);
      DashItem(p, col);
      ColonMaps(p, Strip(rest), col);
      ListOfOne(p, col, Strip(rest));
    }
  }

  lemma ColonKept(s: string)
    requires ':' in s
    ensures ':' in Strip(s)
  {
    assert !IsSpace(':');
    hide IsSpace;
    LstripSuffix(s);
    RstripPrefix(Lstrip(s));
    var k :| 0 <= k < |s| && s[k] == ':';
    var j := k - (|s| - |Lstrip(s)|);
    assert Lstrip(s)[j] == ':';
    assert Strip(s)[j] == ':';
  }

  lemma DashItem(p: WorkflowParser, col: nat)
    requires |p.lines| == 1 && Strip(p.lines[0]) != "" && Strip(p.lines[0])[0] == '-'
    requires col <= |p.lines[0]| && "- " <= p.lines[0][col..]
    ensures p.ContentAt(0) == 0 && p.ContentAt(1) == 1 && p.IsItem(p.lines[0], col)
  {
    hide Strip;
  }

  /** An item with a colon is a mapping, if it is anything. */
  lemma ColonMaps(p: WorkflowParser, raw: string, col: nat)
    requires |p.lines| == 1 && p.ContentAt(1) == 1 && ':' in raw
    ensures p.ItemAt(raw, 1, col).Ok? ==> p.ItemAt(raw, 1, col).value.1 == 1 && p.ItemAt(raw, 1, col).value.0.Map?
  {
    hide MappingOf, WorkflowParser.ValueAt, WorkflowParser.MapAt;
  }

  /**
    A colon behind an item counts even in its comment: the quotation becomes the key of
    a mapping whose value is the rest of the comment.
   */
  lemma ColonInComment(t: string, q: char, rest: string, eval: Evaluator)
    requires Inside(t, q) && ':' !in t && rest != "" && rest !in HEADERS && PrintableText(rest, eval)
    requires exists key :: key != "" && eval([q] + t + [q]) == Ok(Str(key))
    ensures WorkflowParser(["- " + [q] + t + [q] + " #: " + rest], eval).Document()
      == Ok(List([Map([Entry(eval([q] + t + [q]).value.s, ScalarOf(rest, eval).value)])]))
  {
    hide *;
    var v := [q] + t + [q];
    var raw := v + " #: " + rest;
    var line := "- " + v + " #: " + rest;
    var p := WorkflowParser([line], eval);
    InsideQuotes(t, q);
    QuotedTrims(t, q);
    PrintableTrims(rest, eval);
    TrimmedPair(v, " #: ", rest);
    NoSpaces();
    assert line == Spaces(0) + ("- " + raw);
    assert line == "- " + [q] + t + [q] + " #: " + rest;
    DashLine(0, raw);
    DashItem(p, 0);
    CommentedKey(t, q, rest, eval);
    assert raw[|v| + 2] == ':';
    ItemOfColon(p, raw, eval(v).value.s, rest);
    ListOfOne(p, 0, raw);
  }

  lemma NoSpaces()
    ensures Spaces(0) == ""
  {
  }

  lemma PrintableTrims(text: string, eval: Evaluator)
    requires PrintableText(text, eval)
    ensures Trimmed(text) && ScalarOf(text, eval).Ok?
  {
  }

  lemma ItemOfColon(p: WorkflowParser, raw: string, key: string, rest: string)
    requires |p.lines| == 1 && p.ContentAt(1) == 1 && ':' in raw && rest != "" && rest !in HEADERS
    requires MappingOf(raw, 1, p.eval) == Ok((key, rest)) && ScalarOf(rest, p.eval).Ok?
    ensures p.ItemAt(raw, 1, 0) == Ok((Map([Entry(key, ScalarOf(rest, p.eval).value)]), 1))
  {
    hide MappingOf, ScalarOf, WorkflowParser.MapAt, WorkflowParser.NestedAt, WorkflowParser.BlockLines;
  }

  lemma TrimmedPair(a: string, b: string, c: string)
    requires a != "" && c != "" && Trimmed(a) && Trimmed(c)
    ensures Strip(a + b + c) == a + b + c
  {
    TrimmedFixed(a + b + c);
  }

  lemma CommentedKey(t: string, q: char, rest: string, eval: Evaluator)
    requires Inside(t, q) && ':' !in t && Trimmed(rest)
    requires exists key :: key != "" && eval([q] + t + [q]) == Ok(Str(key))
    ensures MappingOf([q] + t + [q] + " #: " + rest, 1, eval) == Ok((eval([q] + t + [q]).value.s, rest))
  {
    hide ScalarOf, Inside, IsSpace, Strip, IsTail, Find, Trimmed;
    var v := [q] + t + [q];
    InsideQuotes(t, q);
    QuotedTrims(t, q);
    FirstColon(v + " #", " " + rest);
    assert v + " #" + [':'] + (" " + rest) == v + " #: " + rest;
    BlankStrips(rest);
    TrimmedPair2(v);
    BlankComment();
    QuotedScalar("", t, q, " #", eval);
    assert "" + [q] + t + [q] + " #" == v + " #";
  }

  lemma FirstColon(a: string, b: string)
    requires ':' !in a
    ensures var s := a + [':'] + b; ':' in s && Find(s, ':') == |a| && s[..|a|] == a && s[|a| + 1..] == b
  {
    FindAppend(a, ':', b);
    assert (a + [':'] + b)[|a|] == ':';
  }

  lemma BlankStrips(s: string)
    requires Trimmed(s)
    ensures Strip(" " + s) == s
  {
    hide IsSpace;
    BlankIsSpace();
    LstripWhite(" ", s);
    StripTrims(s);
    assert Strip(" " + s) == Strip(s);
  }

  lemma BlankIsSpace()
    ensures IsWhite(" ")
  {
  }

  lemma BlankComment()
    ensures IsTail(" #")
  {
    assert " #"[1] == '#' && IsWhite(" #"[..1]);
  }

  lemma TrimmedPair2(v: string)
    requires v != "" && Trimmed(v)
    ensures Strip(v + " #") == v + " #"
  {
    HashIsNoSpace();
    TrimmedFixed(v + " #");
  }

  /** The tag trigger of the release workflow reads as the pattern the policy asks for. */
  lemma ReleaseTags(eval: Evaluator)
    requires eval("'v*'") == Ok(Str("v*"))
    ensures WorkflowOf("on:\n  push:\n    tags:\n      - 'v*'\n", eval)
      == Ok(Map([Entry("on", Map([Entry("push", Map([Entry("tags", List([Str("v*")]))]))]))]))
  {
    hide *;
    var leaf := Plain("'v*'");
    var tags := Mapping([Field("tags", Sequence([leaf]))]);
    var push := Mapping([Field("push", tags)]);
    var tree := Mapping([Field("on", push)]);
    TagItem(eval);
    PlainKey("tags", eval);
    PlainKey("push", eval);
    PlainKey("on", eval);
    OneItem(leaf, eval);
    OneField("tags", Sequence([leaf]), eval);
    OneField("push", tags, eval);
    OneField("on", push, eval);
    TagLines();
    BreaklessLines();
    FourLines("on:", "  push:", "    tags:", "      - 'v*'");
    assert "on:" + "\n" + "  push:" + "\n" + "    tags:" + "\n" + "      - 'v*'" + "\n"
        == "on:\n  push:\n    tags:\n      - 'v*'\n";
    SourceRoundTrip(tree, eval);
  }

  lemma TagItem(eval: Evaluator)
    requires eval("'v*'") == Ok(Str("v*"))
    ensures PrintableItem(Plain("'v*'"), eval) && Meaning(Plain("'v*'"), eval) == Str("v*")
  {
    hide Printable, PrintableItem, Meaning;
    assert Inside("v*", '\'');
    QuotedPrints("v*", '\'', eval);
    assert ['\''] + "v*" + ['\''] == "'v*'";
  }

  lemma PlainKey(key: string, eval: Evaluator)
    requires key in {"on", "push", "tags"}
    ensures PrintableKey(key, eval) && KeyName(key, eval) == key
  {
    hide ScalarOf;
    PlainText(key, eval);
  }

  lemma OneItem(t: Tree, eval: Evaluator)
    requires PrintableItem(t, eval)
    ensures Printable(Sequence([t]), eval) && Meaning(Sequence([t]), eval) == List([Meaning(t, eval)])
  {
    hide PrintableItem;
    assert [t][1..] == [];
    assert PrintableItems([], eval) && PrintableItems([t], eval);
    assert MeaningOfItems([t], eval) == [Meaning(t, eval)] + MeaningOfItems([], eval);
  }

  lemma OneField(key: string, t: Tree, eval: Evaluator)
    requires PrintableKey(key, eval) && KeyName(key, eval) == key && Printable(t, eval)
    ensures Printable(Mapping([Field(key, t)]), eval)
    ensures Meaning(Mapping([Field(key, t)]), eval) == Map([Entry(key, Meaning(t, eval))])
  {
    hide PrintableKey, KeyName;
    var f := Field(key, t);
    assert [f][1..] == [];
    assert MeaningOfFields([], eval) == [] && Keys([]) == {};
    assert PrintableFields([], eval) && PrintableFields([f], eval);
    assert MeaningOfFields([f], eval) == [Entry(key, Meaning(t, eval))] + MeaningOfFields([], eval);
  }

  lemma FieldLines(key: string, t: Tree, col: nat, below: seq<string>)
    requires t.Mapping? || t.Sequence?
    requires below == if t.Mapping? then RenderFields(t.fields, col + 2) else RenderItems(t.items, col + 2)
    ensures RenderFields([Field(key, t)], col) == [Spaces(col) + key + ":"] + below
  {
    hide Spaces;
    var f := Field(key, t);
    assert [f][1..] == [];
    assert RenderFields([], col) == [];
    assert FieldText(f) == key + ":" + "" == key + ":";
    assert Spaces(col) + (key + ":") == Spaces(col) + key + ":";
    assert RenderFields([f], col) == [Spaces(col) + FieldText(f)] + below + [];
  }

  lemma ItemLine(text: string, col: nat)
    ensures RenderItems([Plain(text)], col) == [Spaces(col) + "- " + text]
  {
    assert [Plain(text)][1..] == [];
    assert RenderItems([], col) == [];
  }

  lemma TagLines()
    ensures var tags := Mapping([Field("tags", Sequence([Plain("'v*'")]))]);
      var tree := Mapping([Field("on", Mapping([Field("push", tags)]))]);
      Render(tree) == ["on:", "  push:", "    tags:", "      - 'v*'"]
  {
    hide RenderFields, RenderItems, Unlines, Breakless, Spaces;
    var items := Sequence([Plain("'v*'")]);
    var tags := Mapping([Field("tags", items)]);
    var push := Mapping([Field("push", tags)]);
    Blanks();
    ItemLine("'v*'", 6);
    FieldLines("tags", items, 4, ["      - 'v*'"]);
    FieldLines("push", tags, 2, ["    tags:", "      - 'v*'"]);
    FieldLines("on", push, 0, ["  push:", "    tags:", "      - 'v*'"]);
  }

  lemma Blanks()
    ensures Spaces(0) + "on" + ":" == "on:" && Spaces(2) + "push" + ":" == "  push:"
    ensures Spaces(4) + "tags" + ":" == "    tags:" && Spaces(6) + "- " + "'v*'" == "      - 'v*'"
  {
  }

  lemma BreaklessLines()
    ensures Breakless("on:") && Breakless("  push:") && Breakless("    tags:") && Breakless("      - 'v*'")
  {
  }

  lemma FourLines(a: string, b: string, c: string, d: string)
    ensures Unlines([a, b, c, d]) == a + "\n" + b + "\n" + c + "\n" + d + "\n"
  {
    assert [a, b, c, d][1..] == [b, c, d] && [b, c, d][1..] == [c, d] && [c, d][1..] == [d] && [d][1..] == [];
    assert Unlines([d]) == d + "\n" + "";
    assert Unlines([c, d]) == c + "\n" + Unlines([d]);
    assert Unlines([b, c, d]) == b + "\n" + Unlines([c, d]);
    assert Unlines([a, b, c, d]) == a + "\n" + Unlines([b, c, d]);
  }
}
