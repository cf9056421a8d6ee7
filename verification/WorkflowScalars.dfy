/**
  What scalars and block scalars of a workflow mean (scripts/release-audit.py).
 */
module WorkflowScalars {
  import opened Wrappers
  import opened Text
  import opened Workflow
  import opened WorkflowRoundTrip

  // ---------------------------------------------------------------- scalars

  lemma {:induction false} NoComment(s: string, index: nat)
    requires index <= |s| && forall c :: c in s ==> c != '#' && c != '\'' && c != '"'
    ensures CommentStart(s, index, None, false) == |s|
    decreases |s| - index
  {
    if index < |s| {
      assert s[index] in s;
      NoComment(s, index + 1);
    }
  }

  lemma TrimmedFixed(s: string)
    requires Trimmed(s)
    ensures Lstrip(s) == s == Rstrip(s)
  {
  }

  lemma PlainUncommented(s: string)
    requires Trimmed(s) && forall c :: c in s ==> c != '#' && c != '\'' && c != '"'
    ensures Strip(Uncommented(s)) == s
  {
    hide CommentStart;
    NoComment(s, 0);
    assert s[..|s|] == s;
    TrimmedFixed(s);
  }

  /** A text that is neither quoted nor bracketed is a keyword or stands for itself, unmatched quotes and all. */
  lemma ScalarStands(s: string, v: string, eval: Evaluator)
    requires Strip(Uncommented(s)) == v && v != "" && !((v[0] == '\'' || v[0] == '"') && v[|v| - 1] == v[0])
    requires !(v[0] == '[' && v[|v| - 1] == ']')
    ensures ScalarOf(s, eval)
      == if v == "true" then Ok(Bool(true)) else if v == "false" then Ok(Bool(false))
         else if v == "null" then Ok(Null) else Ok(Str(v))
  {
    hide Uncommented, Strip, ScalarsOf, SplitCommas;
  }

  lemma ScalarLists(s: string, v: string, inner: string, items: seq<Value>, eval: Evaluator)
    requires Strip(Uncommented(s)) == v && |v| >= 2 && v[0] == '[' && v[|v| - 1] == ']'
    requires Strip(v[1..|v| - 1]) == inner
    requires if inner == "" then items == []
             else ScalarsOf(SplitCommas(inner), |inner|, eval) == Ok(items)
    ensures ScalarOf(s, eval) == Ok(List(items))
  {
    hide Uncommented, Strip, ScalarsOf, SplitCommas;
  }

  /** An unquoted text without comments that is no keyword and no inline list stands for itself. */
  lemma PlainText(s: string, eval: Evaluator)
    requires s != "" && Trimmed(s) && s != "true" && s != "false" && s != "null"
    requires forall c :: c in s ==> c != '#' && c != '\'' && c != '"'
    requires !(s[0] == '[' && s[|s| - 1] == ']')
    ensures ScalarOf(s, eval) == Ok(Str(s)) && PrintableText(s, eval)
    ensures ':' !in s && !("- " <= s) ==> PrintableKey(s, eval)
  {
    hide ScalarOf, Uncommented, Strip, Trimmed;
    PlainUncommented(s);
    assert s[0] in s;
    ScalarStands(s, s, eval);
  }

  /** The keywords. */
  lemma Keywords(eval: Evaluator)
    ensures ScalarOf("true", eval) == Ok(Bool(true)) && ScalarOf("false", eval) == Ok(Bool(false))
    ensures ScalarOf("null", eval) == Ok(Null) && ScalarOf("", eval) == Ok(Null) && ScalarOf("[]", eval) == Ok(List([]))
  {
    hide Uncommented, Strip, ScalarsOf, SplitCommas;
    PlainUncommented("true");
    PlainUncommented("false");
    PlainUncommented("null");
    PlainUncommented("");
    PlainUncommented("[]");
    StripTrims("");
    assert "[]"[1..1] == "";
    assert ScalarOf("", eval) == Ok(Null);
    hide ScalarOf;
    ScalarStands("true", "true", eval);
    ScalarStands("false", "false", eval);
    ScalarStands("null", "null", eval);
    ScalarLists("[]", "[]", "", [], eval);
  }

  /** An item of an inline list that stands for itself. */
  predicate InlineItem(s: string) {
    && s != "" && Trimmed(s) && s != "true" && s != "false" && s != "null"
    && (forall c :: c in s ==> c != '#' && c != '\'' && c != '"' && c != ',')
    && !(s[0] == '[' && s[|s| - 1] == ']')
  }

  function Commas(items: seq<string>): string {
    if items == [] then ""
    else if |items| == 1 then items[0]
    else items[0] + ", " + Commas(items[1..])
  }

  /** The parts between the commas: every item but the first has a blank before it. */
  function Parts(items: seq<string>, lead: string): seq<string> {
    if items == [] then [] else [lead + items[0]] + Parts(items[1..], " ")
  }

  lemma {:induction false} FindNone(s: string, c: char)
    requires c !in s
    ensures Find(s, c) == |s|
  {
  }

  lemma {:induction false} CommasSplit(items: seq<string>, lead: string)
    requires items != [] && ',' !in lead && forall i :: 0 <= i < |items| ==> InlineItem(items[i])
    ensures SplitCommas(lead + Commas(items)) == Parts(items, lead)
  {
    hide InlineItem;
    InlineFacts(items[0]);
    var s, head := lead + Commas(items), lead + items[0];
    assert ',' !in head;
    if |items| == 1 {
      FindNone(s, ',');
      assert s == head && Parts(items[1..], " ") == [];
    } else {
      var tail := " " + Commas(items[1..]);
      assert s == head + [','] + tail;
      FindAppend(head, ',', tail);
      assert s[..|head|] == head && s[|head| + 1..] == tail;
      CommasSplit(items[1..], " ");
    }
  }

  lemma InlineFacts(s: string)
    requires InlineItem(s)
    ensures s != "" && Trimmed(s) && !IsSpace(s[0]) && ',' !in s
    ensures forall c :: c in s ==> c != '#' && c != '\'' && c != '"'
  {
  }

  lemma ItemReads(lead: string, s: string, eval: Evaluator)
    requires InlineItem(s) && (lead == "" || lead == " ")
    ensures ScalarOf(lead + s, eval) == Ok(Str(s))
  {
    hide ScalarOf, CommentStart, Rstrip, Lstrip, Strip, Trimmed;
    var t := lead + s;
    assert forall c :: c in t ==> c in lead || c in s;
    NoComment(t, 0);
    assert t[..|t|] == t;
    assert s[0] in s;
    LeadStrips(lead, s);
    ScalarStands(t, s, eval);
  }

  lemma LeadStrips(lead: string, s: string)
    requires s != "" && Trimmed(s) && (lead == "" || lead == " ")
    ensures Rstrip(lead + s) == lead + s && Strip(lead + s) == s
  {
    assert (lead + s)[|lead + s| - 1] == s[|s| - 1];
    LstripSpaces(|lead|, s);
    assert Spaces(|lead|) + s == lead + s;
    TrimmedFixed(s);
  }

  lemma {:induction false} PartsRead(items: seq<string>, lead: string, bound: nat, eval: Evaluator)
    requires (lead == "" || lead == " ") && forall i :: 0 <= i < |items| ==> InlineItem(items[i])
    requires forall p :: p in Parts(items, lead) ==> |p| <= bound
    ensures ScalarsOf(Parts(items, lead), bound, eval) == Ok(Strings(items))
  {
    hide ScalarOf, InlineItem;
    if items != [] {
      ItemReads(lead, items[0], eval);
      var rest := Parts(items[1..], " ");
      assert Parts(items, lead)[1..] == rest;
      forall p | p in rest ensures |p| <= bound { assert p in Parts(items, lead); }
      PartsRead(items[1..], " ", bound, eval);
    }
  }

  function Strings(items: seq<string>): seq<Value> {
    if items == [] then [] else [Str(items[0])] + Strings(items[1..])
  }

  lemma {:induction false} CommasFacts(items: seq<string>)
    requires items != [] && forall i :: 0 <= i < |items| ==> InlineItem(items[i])
    ensures Commas(items) != "" && Trimmed(Commas(items))
    ensures forall c :: c in Commas(items) ==> c != '#' && c != '\'' && c != '"'
  {
    hide InlineItem;
    InlineFacts(items[0]);
    if |items| > 1 {
      CommasFacts(items[1..]);
    }
  }

  /** An inline list reads as the list of its items. */
  lemma InlineList(items: seq<string>, eval: Evaluator)
    requires items != [] && forall i :: 0 <= i < |items| ==> InlineItem(items[i])
    ensures ScalarOf("[" + Commas(items) + "]", eval) == Ok(List(Strings(items)))
  {
    hide *;
    var inner := Commas(items);
    var s := "[" + inner + "]";
    CommasFacts(items);
    Bracketed(inner);
    PlainUncommented(s);
    StripTrims(inner);
    NoSpaceNoComma();
    CommasSplit(items, "");
    assert "" + inner == inner;
    SplitParts(inner);
    PartsRead(items, "", |inner|, eval);
    ScalarLists(s, s, inner, Strings(items), eval);
  }

  lemma NoSpaceNoComma()
    ensures ',' !in ""
  {
  }

  lemma SplitParts(s: string)
    ensures forall p :: p in SplitCommas(s) ==> |p| <= |s|
  {
    hide SplitCommas;
  }

  lemma Bracketed(inner: string)
    requires forall c :: c in inner ==> c != '#' && c != '\'' && c != '"'
    ensures var s := "[" + inner + "]";
      && |s| >= 2 && s[0] == '[' && s[|s| - 1] == ']' && s[1..|s| - 1] == inner && Trimmed(s)
      && forall c :: c in s ==> c != '#' && c != '\'' && c != '"'
  {
  }

  // ---------------------------------------------------------------- folded blocks

  function JoinWith(lines: seq<string>, sep: string): string {
    if lines == [] then ""
    else if |lines| == 1 then lines[0]
    else lines[0] + sep + JoinWith(lines[1..], sep)
  }

  lemma {:induction false} JoinedFacts(lines: seq<string>)
    requires lines != [] && forall i :: 0 <= i < |lines| ==> lines[i] != "" && Trimmed(lines[i])
    ensures Join(lines) != "" && Trimmed(Join(lines)) && |JoinWith(lines, " ")| == |Join(lines)|
  {
    if |lines| > 1 {
      JoinedFacts(lines[1..]);
    }
  }

  lemma {:induction false} FoldedAt(lines: seq<string>, k: nat)
    requires lines != [] && forall i :: 0 <= i < |lines| ==> lines[i] != "" && Trimmed(lines[i]) && '\n' !in lines[i]
    requires k < |Join(lines)| == |JoinWith(lines, " ")|
    ensures Fold(Join(lines))[k] == JoinWith(lines, " ")[k]
    decreases |lines|
  {
    hide Trimmed;
    if |lines| == 1 {
      assert lines[0][k] in lines[0];
    } else {
      var (head, tail) := (lines[0], lines[1..]);
      JoinedFacts(tail);
      TrimmedEnds(head);
      TrimmedEnds(Join(tail));
      var n := |head|;
      assert Join(lines) == head + "\n" + Join(tail);
      if k < n {
        assert head[k] in head;
      } else if k > n {
        FoldedAt(tail, k - n - 1);
        FoldShift(head, Join(tail), k - n - 1);
      }
    }
  }

  lemma TrimmedEnds(s: string)
    requires s != "" && Trimmed(s)
    ensures !IsSpace(s[0]) && !IsSpace(s[|s| - 1])
  {
  }

  lemma FoldShift(head: string, t: string, k: nat)
    requires k < |t| && t != "" && !IsSpace(t[0])
    ensures Fold(head + "\n" + t)[|head| + 1 + k] == Fold(t)[k]
  {
    var s := head + "\n" + t;
    assert s[|head| + 1 + k] == t[k];
    assert IsSpace('\n');
  }

  /** Folding joins the lines of a paragraph by blanks. */
  lemma FoldedParagraph(lines: seq<string>)
    requires lines != [] && forall i :: 0 <= i < |lines| ==> lines[i] != "" && Trimmed(lines[i]) && '\n' !in lines[i]
    ensures BlockText(">", lines) == JoinWith(lines, " ") + "\n"
  {
    hide Fold, Trimmed, Join, JoinWith, BlockText;
    JoinedFacts(lines);
    var joined := Join(lines);
    forall k | 0 <= k < |joined| ensures Fold(joined)[k] == JoinWith(lines, " ")[k] {
      FoldedAt(lines, k);
    }
    assert Fold(joined) == JoinWith(lines, " ");
    FoldKeepsEnd(joined);
    FoldedText(lines);
  }

  lemma FoldedText(lines: seq<string>)
    ensures var v := Fold(Join(lines));
      BlockText(">", lines) == if v != "" && v[|v| - 1] != '\n' then v + "\n" else v
  {
    hide Join, Fold;
    assert ">"[1..] == "" != "-";
  }

  lemma FoldKeepsEnd(s: string)
    requires s != "" && Trimmed(s)
    ensures Fold(s)[|s| - 1] == s[|s| - 1] != '\n'
  {
    assert IsSpace('\n');
  }
}
