/** The parts of Go's strings package that the modelled files use. */
module Strings {

  /** strings.HasPrefix */
  predicate HasPrefix(s: string, pre: string) { pre <= s }

  /** strings.HasSuffix */
  predicate HasSuffix(s: string, suf: string) { |suf| <= |s| && s[|s| - |suf|..] == suf }

  /** strings.IndexByte: the first occurrence of c, or -1. */
  function IndexOf(s: string, c: char): (i: int)
    ensures -1 <= i < |s|
    ensures i >= 0 ==> s[i] == c && forall j :: 0 <= j < i ==> s[j] != c
    ensures i < 0 ==> c !in s
  {
    if s == "" then -1
    else if s[0] == c then 0
    else
      var i := IndexOf(s[1..], c);
      if i < 0 then -1 else i + 1
  }

  /** strings.LastIndexByte: the last occurrence of c, or -1. */
  function LastIndexOf(s: string, c: char): (i: int)
    ensures -1 <= i < |s|
    ensures i >= 0 ==> s[i] == c && forall j :: i < j < |s| ==> s[j] != c
    ensures i < 0 ==> c !in s
  {
    if s == "" then -1
    else if s[|s| - 1] == c then |s| - 1
    else LastIndexOf(s[..|s| - 1], c)
  }

  /** strings.Split for a one-character separator: never empty, and no part contains the separator. */
  function Split(s: string, c: char): (parts: seq<string>)
    ensures |parts| >= 1
    ensures forall p :: p in parts ==> c !in p
    ensures c !in s ==> parts == [s]
  {
    var i := IndexOf(s, c);
    if i < 0 then [s] else [s[..i]] + Split(s[i + 1..], c)
  }

  lemma SplitCons(a: string, s: string, c: char)
    requires c !in a
    ensures Split(a + [c] + s, c) == [a] + Split(s, c)
  {
    var t := a + [c] + s;
    FirstSeparator(a, s, c);
    hide IndexOf;
    assert Split(t, c) == [t[..|a|]] + Split(t[|a| + 1..], c);
  }

  lemma FirstSeparator(a: string, s: string, c: char)
    requires c !in a
    ensures var t := a + [c] + s; IndexOf(t, c) == |a| && t[..|a|] == a && t[|a| + 1..] == s
  {
    hide IndexOf;
    var t := a + [c] + s;
    assert t[|a|] == c && forall j :: 0 <= j < |a| ==> t[j] == a[j];
  }

  /** strings.Join */
  function Join(parts: seq<string>, c: char): string {
    if |parts| == 0 then ""
    else if |parts| == 1 then parts[0]
    else parts[0] + [c] + Join(parts[1..], c)
  }

  /** Splitting a joined string gives the parts back. */
  lemma {:induction false} SplitJoin(parts: seq<string>, c: char)
    requires |parts| >= 1 && forall p :: p in parts ==> c !in p
    ensures Split(Join(parts, c), c) == parts
  {
    if |parts| > 1 {
      SplitCons(parts[0], Join(parts[1..], c), c);
      SplitJoin(parts[1..], c);
    }
  }

  lemma JoinCons(a: string, parts: seq<string>, c: char)
    requires |parts| >= 1
    ensures Join([a] + parts, c) == a + [c] + Join(parts, c)
  {
    assert ([a] + parts)[1..] == parts;
  }

  /** Joining the parts of a split gives the string back. */
  lemma {:induction false} JoinSplit(s: string, c: char)
    ensures Join(Split(s, c), c) == s
    decreases |s|
  {
    hide *;
    var i := IndexOf(s, c);
    if i >= 0 {
      SplitStep(s, c);
      CutAt(s, i);
      JoinSplit(s[i + 1..], c);
      JoinCons(s[..i], Split(s[i + 1..], c), c);
    } else {
      JoinOne(s, c);
    }
  }

  lemma SplitStep(s: string, c: char)
    requires IndexOf(s, c) >= 0
    ensures var i := IndexOf(s, c); Split(s, c) == [s[..i]] + Split(s[i + 1..], c)
  {
    hide IndexOf;
  }

  lemma CutAt(s: string, i: nat)
    requires i < |s|
    ensures s == s[..i] + [s[i]] + s[i + 1..]
  {
  }

  lemma JoinOne(s: string, c: char)
    ensures Join([s], c) == s
  {
  }

  /** unicode.IsSpace */
  predicate IsSpace(c: char) {
    var x := c as int;
    || 0x09 <= x <= 0x0D || x == 0x20 || x == 0x85 || x == 0xA0 || x == 0x1680 || 0x2000 <= x <= 0x200A
    || x == 0x2028 || x == 0x2029 || x == 0x202F || x == 0x205F || x == 0x3000
  }

  lemma AsciiSpaces(c: char)
    requires c as int < 0x80
    ensures IsSpace(c) <==> c == ' ' || '\t' <= c <= '\r'
  {
  }

  /** strings.TrimSpace: the middle of s, without the spaces around it. */
  function TrimSpace(s: string): (t: string)
    ensures |t| <= |s| && forall c :: c in t ==> c in s
    ensures t != "" ==> !IsSpace(t[0]) && !IsSpace(t[|t| - 1])
    ensures s != "" && !IsSpace(s[0]) && !IsSpace(s[|s| - 1]) ==> t == s
    decreases |s|
  {
    if s == "" then ""
    else if IsSpace(s[0]) then TrimSpace(s[1..])
    else if IsSpace(s[|s| - 1]) then TrimSpace(s[..|s| - 1])
    else s
  }

  /** strings.Trim with a cutset of one character. */
  function Trim(s: string, c: char): (t: string)
    ensures |t| <= |s| && forall x :: x in t ==> x in s
    ensures t != "" ==> t[0] != c && t[|t| - 1] != c
    ensures s != "" && s[0] != c && s[|s| - 1] != c ==> t == s
    decreases |s|
  {
    if s == "" then ""
    else if s[0] == c then Trim(s[1..], c)
    else if s[|s| - 1] == c then Trim(s[..|s| - 1], c)
    else s
  }

  predicate AllSpaces(s: string) { forall c :: c in s ==> IsSpace(c) }

  /** The ends of t, if it has any, are no spaces. */
  predicate Trimmed(t: string) { t != "" ==> !IsSpace(t[0]) && !IsSpace(t[|t| - 1]) }

  /** TrimSpace takes exactly the spaces around the text off. */
  lemma {:induction false} TrimSpaceIs(a: string, t: string, b: string)
    requires AllSpaces(a) && AllSpaces(b) && Trimmed(t)
    ensures TrimSpace(a + t + b) == t
    decreases |a| + |b|
  {
    hide IsSpace;
    var s := a + t + b;
    if a != "" {
      assert a[0] in a && s[1..] == a[1..] + t + b;
      TrimSpaceIs(a[1..], t, b);
    } else if b != "" {
      var n := |b| - 1;
      assert b[n] in b && s[|s| - 1] == b[n] && s[..|s| - 1] == a + t + b[..n];
      TrimSpaceIs(a, t, b[..n]);
      if IsSpace(s[0]) { SpaceFirst(t, b); }
    } else {
      assert s == t;
    }
  }

  /** Text that starts with a space, before spaces: there is no text. */
  lemma SpaceFirst(t: string, b: string)
    requires b != "" && AllSpaces(b) && Trimmed(t) && IsSpace(("" + t + b)[0])
    ensures t == "" && TrimSpace("" + t + b) == ""
  {
    hide IsSpace;
    assert "" + t + b == b;
    TrimSpaces(b);
  }

  lemma {:induction false} TrimSpaces(b: string)
    requires AllSpaces(b)
    ensures TrimSpace(b) == ""
  {
    hide IsSpace;
    if b != "" {
      assert b[0] in b;
      TrimSpaces(b[1..]);
    }
  }

  /** The text is what TrimSpace keeps, with spaces around it. */
  lemma {:induction false} TrimSpaceKeeps(s: string) returns (a: string, b: string)
    ensures AllSpaces(a) && AllSpaces(b) && Trimmed(TrimSpace(s)) && s == a + TrimSpace(s) + b
    decreases |s|
  {
    hide IsSpace, TrimSpace, AllSpaces;
    a, b := "", "";
    TrimSpaceStep(s);
    NoSpaces();
    if s == "" {
    } else if IsSpace(s[0]) {
      a, b := TrimSpaceKeeps(s[1..]);
      SpaceAtFront(s, a, TrimSpace(s), b);
      a := [s[0]] + a;
    } else if IsSpace(s[|s| - 1]) {
      a, b := TrimSpaceKeeps(s[..|s| - 1]);
      SpaceAtEnd(s, a, TrimSpace(s), b);
      b := b + [s[|s| - 1]];
    }
  }

  lemma NoSpaces()
    ensures AllSpaces("")
  {
  }

  lemma SpaceAtFront(s: string, a: string, t: string, b: string)
    requires s != "" && IsSpace(s[0]) && s[1..] == a + t + b && AllSpaces(a)
    ensures s == ([s[0]] + a) + t + b && AllSpaces([s[0]] + a)
  {
    hide IsSpace;
    assert s == [s[0]] + s[1..];
  }

  lemma SpaceAtEnd(s: string, a: string, t: string, b: string)
    requires s != "" && IsSpace(s[|s| - 1]) && s[..|s| - 1] == a + t + b && AllSpaces(b)
    ensures s == a + t + (b + [s[|s| - 1]]) && AllSpaces(b + [s[|s| - 1]])
  {
    hide IsSpace;
    assert s == s[..|s| - 1] + [s[|s| - 1]];
  }

  lemma TrimSpaceStep(s: string)
    ensures TrimSpace(s) == if s == "" then ""
                            else if IsSpace(s[0]) then TrimSpace(s[1..])
                            else if IsSpace(s[|s| - 1]) then TrimSpace(s[..|s| - 1])
                            else s
  {
    hide IsSpace;
  }

  predicate AllOf(s: string, c: char) { forall k :: 0 <= k < |s| ==> s[k] == c }

  /** Trim takes exactly the characters c around the text off. */
  lemma {:induction false} TrimIs(a: string, t: string, b: string, c: char)
    requires AllOf(a, c) && AllOf(b, c) && (t != "" ==> t[0] != c && t[|t| - 1] != c)
    ensures Trim(a + t + b, c) == t
    decreases |a| + |b|
  {
    var s := a + t + b;
    if a != "" {
      assert s[1..] == a[1..] + t + b;
      TrimIs(a[1..], t, b, c);
    } else if b != "" {
      var n := |b| - 1;
      assert s[|s| - 1] == b[n] && s[..|s| - 1] == a + t + b[..n];
      if t == "" {
        assert s == b + t + "";
        TrimIs(b[1..], t, "", c);
        assert s[1..] == b[1..] + t + "";
      } else {
        TrimIs(a, t, b[..n], c);
      }
    } else {
      assert s == t;
    }
  }

  // ---------- substrings ----------

  predicate OccursAt(s: string, sub: string, i: nat) { i + |sub| <= |s| && s[i..i + |sub|] == sub }

  /** strings.LastIndex */
  function LastIndex(s: string, sub: string): (i: int)
    ensures -1 <= i <= |s|
    ensures i >= 0 ==> OccursAt(s, sub, i) && forall j :: i < j <= |s| ==> !OccursAt(s, sub, j)
    ensures i < 0 ==> i == -1 && forall j :: 0 <= j <= |s| ==> !OccursAt(s, sub, j)
  {
    LastIndexUpTo(s, sub, |s|)
  }

  function LastIndexUpTo(s: string, sub: string, n: nat): (i: int)
    requires n <= |s|
    ensures -1 <= i <= n
    ensures i >= 0 ==> OccursAt(s, sub, i)
    ensures forall j :: i < j <= n ==> !OccursAt(s, sub, j)
  {
    if OccursAt(s, sub, n) then n else if n == 0 then -1 else LastIndexUpTo(s, sub, n - 1)
  }

  /** strings.Index */
  function Index(s: string, sub: string): (i: int)
    ensures -1 <= i <= |s|
    ensures i >= 0 ==> OccursAt(s, sub, i) && forall j :: 0 <= j < i ==> !OccursAt(s, sub, j)
    ensures i < 0 ==> i == -1 && forall j :: 0 <= j <= |s| ==> !OccursAt(s, sub, j)
  {
    IndexFrom(s, sub, 0)
  }

  function IndexFrom(s: string, sub: string, n: nat): (i: int)
    requires n <= |s|
    ensures i >= 0 ==> n <= i <= |s| && OccursAt(s, sub, i) && forall j :: n <= j < i ==> !OccursAt(s, sub, j)
    ensures i < 0 ==> i == -1 && forall j :: n <= j <= |s| ==> !OccursAt(s, sub, j)
    decreases |s| - n
  {
    if OccursAt(s, sub, n) then n else if n == |s| then -1 else IndexFrom(s, sub, n + 1)
  }
}
