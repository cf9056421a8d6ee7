/** Failure-compatible result type shared by the models. */
module Wrappers {
  datatype Option<+T> = None | Some(value: T)

  datatype Result<+T, +E> = Ok(value: T) | Err(error: E) {
    predicate IsFailure() {
      Err?
    }

    function PropagateFailure<U>(): Result<U, E>
      requires Err?
    {
      Err(error)
    }

    function Extract(): T
      requires Ok?
    {
      value
    }
  }
}

/** The Python `str` operations the audited scripts rely on. */
module Text {

  /** `str.isspace` for one character: the Unicode white-space characters Python strips. */
  predicate IsSpace(c: char) {
    var n := c as int;
    || 9 <= n <= 13
    || 28 <= n <= 32
    || n == 0x85 || n == 0xA0 || n == 0x1680
    || 0x2000 <= n <= 0x200A
    || n == 0x2028 || n == 0x2029 || n == 0x202F || n == 0x205F || n == 0x3000
  }

  /** The code points, one by one. */
  lemma WhiteSpace(c: char)
    ensures IsSpace(c) <==> c as int in {
      0x09, 0x0A, 0x0B, 0x0C, 0x0D, 0x1C, 0x1D, 0x1E, 0x1F, 0x20, 0x85, 0xA0, 0x1680,
      0x2000, 0x2001, 0x2002, 0x2003, 0x2004, 0x2005, 0x2006, 0x2007, 0x2008, 0x2009, 0x200A,
      0x2028, 0x2029, 0x202F, 0x205F, 0x3000}
  {
  }

  function Lstrip(s: string): string {
    if s != "" && IsSpace(s[0]) then Lstrip(s[1..]) else s
  }

  function Rstrip(s: string): string {
    if s != "" && IsSpace(s[|s| - 1]) then Rstrip(s[..|s| - 1]) else s
  }

  function Strip(s: string): string {
    Rstrip(Lstrip(s))
  }

  predicate Trimmed(s: string) {
    s == "" || (!IsSpace(s[0]) && !IsSpace(s[|s| - 1]))
  }

  /** `s.rstrip("\n")` */
  function RstripNewlines(s: string): string {
    if s != "" && s[|s| - 1] == '\n' then RstripNewlines(s[..|s| - 1]) else s
  }

  /** `len(s) - len(s.lstrip(" "))` */
  function LeadingBlanks(s: string): nat {
    if s != "" && s[0] == ' ' then 1 + LeadingBlanks(s[1..]) else 0
  }

  function Spaces(n: nat): string {
    seq(n, _ => ' ')
  }

  /** The first index of `c` in `s`, or `|s|`. */
  function Find(s: string, c: char): (i: nat)
    ensures i <= |s| && c !in s[..i]
    ensures i < |s| ==> s[i] == c
  {
    if s == "" || s[0] == c then 0 else 1 + Find(s[1..], c)
  }

  function Join(lines: seq<string>): string {
    if lines == [] then ""
    else if |lines| == 1 then lines[0]
    else lines[0] + "\n" + Join(lines[1..])
  }

  lemma {:induction false} LstripSuffix(s: string)
    ensures |Lstrip(s)| <= |s| && Lstrip(s) == s[|s| - |Lstrip(s)|..]
    ensures forall i :: 0 <= i < |s| - |Lstrip(s)| ==> IsSpace(s[i])
    ensures Lstrip(s) != "" ==> !IsSpace(Lstrip(s)[0])
  {
    hide IsSpace;
    if s != "" && IsSpace(s[0]) {
      var (rest, n) := (s[1..], |Lstrip(s)|);
      LstripSuffix(rest);
      assert rest[|rest| - n..] == s[|s| - n..];
      assert forall i :: 0 < i < |s| ==> s[i] == rest[i - 1];
    }
  }

  lemma {:induction false} RstripPrefix(s: string)
    ensures |Rstrip(s)| <= |s| && Rstrip(s) == s[..|Rstrip(s)|]
    ensures forall i :: |Rstrip(s)| <= i < |s| ==> IsSpace(s[i])
    ensures Rstrip(s) != "" ==> !IsSpace(Rstrip(s)[|Rstrip(s)| - 1])
  {
    hide IsSpace;
    if s != "" && IsSpace(s[|s| - 1]) {
      RstripPrefix(s[..|s| - 1]);
    }
  }

  /** Stripping yields a trimmed string, and trimmed strings are its fixed points. */
  lemma StripTrims(s: string)
    ensures |Strip(s)| <= |s| && Trimmed(Strip(s))
    ensures Trimmed(s) ==> Strip(s) == s
    ensures Strip(s) == "" <==> forall i :: 0 <= i < |s| ==> IsSpace(s[i])
  {
    LstripSuffix(s);
    RstripPrefix(Lstrip(s));
  }

  lemma {:induction false} LstripSpaces(n: nat, s: string)
    ensures Lstrip(Spaces(n) + s) == Lstrip(s)
    ensures LeadingBlanks(Spaces(n) + s) == n + LeadingBlanks(s)
  {
    if n == 0 {
      assert Spaces(n) + s == s;
    } else {
      assert (Spaces(n) + s)[1..] == Spaces(n - 1) + s;
      LstripSpaces(n - 1, s);
    }
  }

  lemma {:induction false} FindAppend(s: string, c: char, t: string)
    requires c !in s
    ensures Find(s + [c] + t, c) == |s|
  {
    if s == "" {
      assert s + [c] + t == [c] + t;
    } else {
      assert (s + [c] + t)[1..] == s[1..] + [c] + t;
      FindAppend(s[1..], c, t);
    }
  }
}

/** Matching of parentheses, as two of the audits do it. */
module Parentheses {
  import opened Wrappers

  /** How far `(` outnumbers `)`. */
  function Depth(s: string): int {
    if s == "" then 0
    else Depth(s[..|s| - 1]) + (if s[|s| - 1] == '(' then 1 else if s[|s| - 1] == ')' then -1 else 0)
  }

  /** The count of one kind minus that of the other. */
  lemma {:induction false} DepthCounts(s: string)
    ensures Depth(s) + multiset(s)[')'] == multiset(s)['(']
  {
    if s != "" {
      var init, last := s[..|s| - 1], s[|s| - 1];
      DepthCounts(init);
      assert s == init + [last];
      assert multiset(s) == multiset(init) + multiset{last};
    }
  }

  /** `k` closes the group that `opening` opens. */
  predicate Closes(code: string, opening: int, k: int) {
    0 <= opening <= k < |code| && code[k] == ')' && Depth(code[opening..k + 1]) == 0
  }

  ghost predicate IsFirstClose(code: string, opening: int, r: Option<nat>) {
    match r
    case Some(k) => Closes(code, opening, k) && forall j :: opening <= j < k ==> !Closes(code, opening, j)
    case None => forall j :: opening <= j ==> !Closes(code, opening, j)
  }

  /** The first position from `index` on that closes `opening`. */
  function FirstClose(code: string, opening: nat, index: nat): (r: Option<nat>)
    requires opening <= index
    ensures r.Some? ==> index <= r.value && Closes(code, opening, r.value)
    ensures forall j :: index <= j && (r.Some? ==> j < r.value) ==> !Closes(code, opening, j)
    decreases |code| - index
  {
    if index >= |code| then None
    else if Closes(code, opening, index) then Some(index)
    else FirstClose(code, opening, index + 1)
  }

  function Matching(code: string, opening: int): (r: Option<nat>)
    ensures IsFirstClose(code, opening, r)
  {
    if opening < 0 then None else FirstClose(code, opening, opening)
  }
}
