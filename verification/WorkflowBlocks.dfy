/**
  What block scalars mean (scripts/release-audit.py), said of their lines: how lines are
  joined, which trailing blank lines count, and when that is what YAML's headers ask for.
 */
module WorkflowBlocks {
  import opened Text
  import opened Workflow

  predicate NoNewlines(ls: seq<string>) {
    forall i :: 0 <= i < |ls| ==> '\n' !in ls[i]
  }

  /** The lines without one blank line at their end. */
  function DropBlank(ls: seq<string>): seq<string> {
    if ls != [] && ls[|ls| - 1] == "" then ls[..|ls| - 1] else ls
  }

  /** The lines without the blank lines at their end. */
  function TrimBlanks(ls: seq<string>): (r: seq<string>)
    ensures r <= ls
  {
    if ls != [] && ls[|ls| - 1] == "" then TrimBlanks(ls[..|ls| - 1]) else ls
  }

  /** Two lines join by a blank in a folded block: text meets text. */
  predicate Folds(a: string, b: string) {
    a != "" && b != "" && !IsSpace(a[|a| - 1]) && !IsSpace(b[0])
  }

  function Joined(folded: bool, ls: seq<string>): string {
    if ls == [] then ""
    else if |ls| == 1 then ls[0]
    else ls[0] + (if folded && Folds(ls[0], ls[1]) then " " else "\n") + Joined(folded, ls[1..])
  }

  /** `-` drops all trailing blank lines; every other header drops one and ends in a newline. */
  function BlockMeaning(header: string, ls: seq<string>): string
    requires header in HEADERS
  {
    var folded := header[0] == '>';
    if header[1..] == "-" then Joined(folded, TrimBlanks(ls))
    else if DropBlank(ls) == [] then ""
    else Joined(folded, DropBlank(ls)) + "\n"
  }

  // ---------------------------------------------------------------- joining

  lemma {:induction false} JoinedPlainly(ls: seq<string>)
    ensures Joined(false, ls) == Join(ls)
  {
    if |ls| > 1 {
      JoinedPlainly(ls[1..]);
    }
  }

  /** Behind a newline, folding looks at the rest only. */
  lemma FoldShifts(head: string, t: string, k: nat)
    requires k < |t|
    ensures Fold(head + "\n" + t)[|head| + 1 + k] == Fold(t)[k]
  {
    var s := head + "\n" + t;
    assert s[|head| + 1 + k] == t[k] && s[|head| + k] == if k == 0 then '\n' else t[k - 1];
    assert k + 1 < |t| ==> s[|head| + 2 + k] == t[k + 1];
    assert IsSpace('\n');
  }

  lemma JoinStarts(ls: seq<string>)
    requires ls != []
    ensures Join(ls) != "" ==> Join(ls)[0] == if ls[0] != "" then ls[0][0] else '\n'
    ensures Join(ls) == "" ==> ls[0] == ""
  {
  }

  lemma FoldHead(head: string, t: string, first: string)
    requires '\n' !in head
    requires t != "" ==> t[0] == if first != "" then first[0] else '\n'
    requires t == "" ==> first == ""
    ensures Fold(head + "\n" + t)[..|head|] == head
    ensures Fold(head + "\n" + t)[|head|] == if Folds(head, first) then ' ' else '\n'
  {
    var s, n := head + "\n" + t, |head|;
    assert forall k :: 0 <= k < n ==> s[k] == head[k] && head[k] in head;
    assert n > 0 ==> s[n - 1] == head[n - 1];
    assert t != "" ==> s[n + 1] == t[0];
    assert IsSpace('\n');
  }

  lemma {:induction false} JoinedFolded(ls: seq<string>)
    requires NoNewlines(ls)
    ensures Joined(true, ls) == Fold(Join(ls))
  {
    hide Fold, Folds;
    if |ls| > 1 {
      var (head, t) := (ls[0], Join(ls[1..]));
      JoinedFolded(ls[1..]);
      JoinStarts(ls[1..]);
      FoldHead(head, t, ls[1]);
      var r := Fold(head + "\n" + t);
      assert r == Joined(true, ls) by {
        assert r[|head| + 1..] == Fold(t) by {
          forall k | 0 <= k < |t| ensures r[|head| + 1 + k] == Fold(t)[k] {
            FoldShifts(head, t, k);
          }
        }
        assert r == r[..|head|] + [r[|head|]] + r[|head| + 1..];
      }
    } else {
      FoldOne(Join(ls));
    }
  }

  lemma FoldOne(s: string)
    requires '\n' !in s
    ensures Fold(s) == s
  {
    assert forall k :: 0 <= k < |s| ==> s[k] in s;
  }

  lemma {:induction false} JoinedBlank(folded: bool, ls: seq<string>)
    requires ls != []
    ensures Joined(folded, ls + [""]) == Joined(folded, ls) + "\n"
  {
    var all := ls + [""];
    if |ls| == 1 {
      assert all[1..] == [""];
    } else {
      assert all[1..] == ls[1..] + [""];
      JoinedBlank(folded, ls[1..]);
    }
  }

  lemma {:induction false} JoinedEnds(folded: bool, ls: seq<string>)
    requires ls != [] && ls[|ls| - 1] != ""
    ensures Joined(folded, ls) != ""
    ensures Joined(folded, ls)[|Joined(folded, ls)| - 1] == ls[|ls| - 1][|ls[|ls| - 1]| - 1]
  {
    if |ls| > 1 {
      JoinedEnds(folded, ls[1..]);
    }
  }

  lemma {:induction false} JoinedTrims(folded: bool, ls: seq<string>)
    requires NoNewlines(ls)
    ensures RstripNewlines(Joined(folded, ls)) == Joined(folded, TrimBlanks(ls))
    decreases |ls|
  {
    if ls != [] {
      var init, last := ls[..|ls| - 1], ls[|ls| - 1];
      if last == "" {
        JoinedTrims(folded, init);
        assert ls == init + [""];
        if init != [] {
          JoinedBlank(folded, init);
          assert (Joined(folded, init) + "\n")[..|Joined(folded, init)|] == Joined(folded, init);
        }
      } else {
        JoinedEnds(folded, ls);
        assert last[|last| - 1] in last;
      }
    }
  }

  /** The parser's text of a block, for every header. */
  lemma BlockMeans(header: string, ls: seq<string>)
    requires header in HEADERS && NoNewlines(ls)
    ensures BlockText(header, ls) == BlockMeaning(header, ls)
  {
    hide Fold, Join, Joined;
    var folded := header[0] == '>';
    var text := Joined(folded, ls);
    JoinedPlainly(ls);
    JoinedFolded(ls);
    JoinedTrims(folded, ls);
    JoinedNothing(folded);
    if ls != [] && ls[|ls| - 1] == "" {
      assert ls == DropBlank(ls) + [""];
      if DropBlank(ls) != [] {
        JoinedBlank(folded, DropBlank(ls));
      }
    } else if ls != [] {
      JoinedEnds(folded, ls);
      assert ls[|ls| - 1][|ls[|ls| - 1]| - 1] in ls[|ls| - 1];
    }
  }

  lemma JoinedNothing(folded: bool)
    ensures Joined(folded, []) == "" && Joined(folded, [""]) == ""
  {
  }

  // ---------------------------------------------------------------- which lines a literal block keeps

  function Unlines(lines: seq<string>): string {
    if lines == [] then "" else lines[0] + "\n" + Unlines(lines[1..])
  }

  lemma {:induction false} UnlinesJoin(ls: seq<string>)
    requires ls != []
    ensures Unlines(ls) == Joined(false, ls) + "\n"
  {
    if |ls| > 1 {
      UnlinesJoin(ls[1..]);
    } else {
      assert Unlines(ls[1..]) == "";
    }
  }

  lemma LiteralIs(header: string, ls: seq<string>)
    requires (header == "|" || header == "|+") && NoNewlines(ls)
    ensures BlockText(header, ls) == Unlines(DropBlank(ls))
  {
    hide BlockText, Joined;
    BlockMeans(header, ls);
    if DropBlank(ls) != [] {
      UnlinesJoin(DropBlank(ls));
    }
  }

  lemma {:induction false} UnlinesBlank(ls: seq<string>)
    ensures Unlines(ls + [""]) == Unlines(ls) + "\n"
  {
    if ls == [] {
      assert [""][1..] == [] && ls + [""] == [""];
    } else {
      assert (ls + [""])[1..] == ls[1..] + [""];
      UnlinesBlank(ls[1..]);
    }
  }

  lemma {:induction false} TrimLength(ls: seq<string>)
    ensures |Unlines(ls)| == |Unlines(TrimBlanks(ls))| + |ls| - |TrimBlanks(ls)|
    decreases |ls|
  {
    if ls != [] && ls[|ls| - 1] == "" {
      var init := ls[..|ls| - 1];
      assert ls == init + [""];
      UnlinesBlank(init);
      TrimLength(init);
    }
  }

  lemma DropLength(ls: seq<string>)
    ensures |Unlines(DropBlank(ls))| == |Unlines(ls)| - (|ls| - |DropBlank(ls)|)
    ensures TrimBlanks(DropBlank(ls)) == TrimBlanks(ls)
  {
    if ls != [] && ls[|ls| - 1] == "" {
      assert ls == DropBlank(ls) + [""];
      UnlinesBlank(DropBlank(ls));
    }
  }

  /** `|+` should keep every line, and does exactly when the last one is not blank. */
  lemma KeepIff(ls: seq<string>)
    requires NoNewlines(ls)
    ensures BlockText("|+", ls) == Unlines(ls) <==> ls == [] || ls[|ls| - 1] != ""
  {
    hide BlockText, Unlines, NoNewlines;
    LiteralIs("|+", ls);
    DropLength(ls);
  }

  /** `|` should drop every trailing blank line, and does exactly when there is at most one. */
  lemma ClipIff(ls: seq<string>)
    requires NoNewlines(ls)
    ensures BlockText("|", ls) == Unlines(TrimBlanks(ls)) <==> |ls| - |TrimBlanks(ls)| <= 1
  {
    hide BlockText, Unlines, NoNewlines;
    LiteralIs("|", ls);
    DropLength(ls);
    TrimLength(ls);
    TrimLength(DropBlank(ls));
  }

  /** `|-` drops every trailing blank line and the last newline. */
  lemma StripMeans(ls: seq<string>)
    requires NoNewlines(ls)
    ensures BlockText("|-", ls) == Join(TrimBlanks(ls))
  {
    hide BlockText, Joined;
    BlockMeans("|-", ls);
    JoinedPlainly(TrimBlanks(ls));
  }

  lemma {:induction false} UnlinesInjective(a: seq<string>, b: seq<string>)
    requires NoNewlines(a) && NoNewlines(b) && Unlines(a) == Unlines(b)
    ensures a == b
  {
    if a != [] && b != [] {
      var s := Unlines(a);
      FindAppend(a[0], '\n', Unlines(a[1..]));
      FindAppend(b[0], '\n', Unlines(b[1..]));
      assert a[0] + ['\n'] + Unlines(a[1..]) == s == b[0] + ['\n'] + Unlines(b[1..]);
      assert |a[0]| == |b[0]|;
      assert a[0] == s[..|a[0]|] == b[0];
      assert Unlines(a[1..]) == s[|a[0]| + 1..] == Unlines(b[1..]);
      UnlinesInjective(a[1..], b[1..]);
      assert a == [a[0]] + a[1..] && b == [b[0]] + b[1..];
    }
  }

  /** Two literal blocks mean the same exactly when their lines agree up to one trailing blank line. */
  lemma LiteralSameIff(a: seq<string>, b: seq<string>)
    requires NoNewlines(a) && NoNewlines(b)
    ensures BlockText("|", a) == BlockText("|", b) <==> DropBlank(a) == DropBlank(b)
  {
    hide BlockText, Unlines;
    LiteralIs("|", a);
    LiteralIs("|", b);
    if Unlines(DropBlank(a)) == Unlines(DropBlank(b)) {
      UnlinesInjective(DropBlank(a), DropBlank(b));
    }
  }
}
