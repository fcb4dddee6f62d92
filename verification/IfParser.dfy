/** The If-header parser of server/webdav/if.go: every loop is proved against the grammar of IfGrammar. */
module IfParser {
  import opened Common
  import opened Strings
  import opened LockTable
  import opened IfGrammar

  /** lex */
  method Lex(text: string) returns (token: Token, remaining: string)
    ensures (token, remaining) == FirstToken(text)
  {
    hide TokenAt;
    var s := text;
    while |s| > 0 && (s[0] == '\t' || s[0] == ' ')
      invariant s[Blanks(s)..] == text[Blanks(text)..]
      decreases |s|
    {
      assert s[1..][Blanks(s[1..])..] == s[Blanks(s)..];
      s := s[1..];
    }
    assert Blanks(s) == 0 && s[0..] == s;
    token, remaining := LexWord(s);
  }

  /** The part of lex after the blanks. */
  method LexWord(s: string) returns (token: Token, remaining: string)
    ensures (token, remaining) == TokenAt(s)
  {
    if |s| == 0 { return Eof, ""; }
    var i := 0;
    while i < |s| && !(s[i] in "\t ()<>[]")
      invariant 0 <= i <= |s| && WordLen(s) == i + WordLen(s[i..])
    {
      assert s[i..][1..] == s[i + 1..];
      i := i + 1;
    }
    assert i == WordLen(s);
    if i != 0 {
      if s[..i] == "Not" { return NotWord, s[i..]; }
      return Str(s[..i]), s[i..];
    }
    var j;
    if s[0] == '<' {
      j := IndexOf(s, '>');
      if j < 0 { return Bad, ""; }
      return Angle(s[1..j]), s[j + 1..];
    } else if s[0] == '[' {
      j := IndexOf(s, ']');
      if j < 0 { return Bad, ""; }
      return Square(s[1..j]), s[j + 1..];
    }
    return Single(s[0]), s[1..];
  }

  /** r is what is left of s after at least one token. */
  predicate Later(r: string, s: string) { |r| < |s| && r == s[|s| - |r|..] }

  lemma LaterTrans(r: string, s: string, t: string)
    requires Later(r, s) && Later(s, t)
    ensures Later(r, t)
  {
  }

  lemma HeadIsFirst(s: string)
    ensures Head(Tokens(s)) == FirstToken(s).0
    ensures Tokens(s) != [] ==> Tokens(s)[1..] == Tokens(FirstToken(s).1) && Later(FirstToken(s).1, s)
  {
    hide FirstToken;
  }

  /** parseCondition */
  method ParseCondition(text: string) returns (c: Condition, remaining: string, ok: bool)
    ensures ReadCond(Tokens(text)) == if ok then Some((c, Tokens(remaining))) else None
    ensures ok ==> Later(remaining, text)
  {
    hide Tokens, FirstToken;
    var token, s := Lex(text);
    HeadIsFirst(text);
    var not := false;
    if token.NotWord? {
      not := true;
      HeadIsFirst(s);
      ghost var s' := s;
      token, s := Lex(s);
      if Tokens(s') != [] { LaterTrans(s, s', text); }
    }
    match token
    case Str(t) => return Condition(not, t, ""), s, true;
    case Angle(t) => return Condition(not, t, ""), s, true;
    case Square(t) => return Condition(not, "", t), s, true;
    case Eof | Bad | NotWord | Single(_) => return Condition(false, "", ""), "", false;
  }

  /** parseList */
  method ParseList(text: string) returns (conditions: seq<Condition>, remaining: string, ok: bool)
    ensures ReadList(Tokens(text)) == if ok then Some((conditions, Tokens(remaining))) else None
    ensures ok ==> Later(remaining, text)
  {
    hide Tokens, FirstToken, ReadCond;
    HeadIsFirst(text);
    var token, s := Lex(text);
    if token != Single('(') { return [], "", false; }
    conditions := [];
    while true
      invariant ReadConds(Tokens(text)[1..], []) == ReadConds(Tokens(s), conditions)
      invariant Later(s, text)
      decreases |s|
    {
      HeadIsFirst(s);
      token, remaining := Lex(s);
      if token == Single(')') {
        if |conditions| == 0 { return [], "", false; }
        return conditions, remaining, true;
      }
      var c, rest, cOk := ParseCondition(s);
      if !cOk { return [], "", false; }
      conditions := conditions + [c];
      s := rest;
    }
  }

  /** The text has no blank at its end, so what is left of it is empty once no token is left. */
  predicate Trimmed(s: string) { s == "" || !IsBlank(s[|s| - 1]) }

  lemma TrimmedEnd(r: string, s: string)
    requires Trimmed(s) && Later(r, s)
    ensures Trimmed(r) && (Tokens(r) == [] <==> r == "")
  {
    hide FirstToken;
  }

  /** parseNoTagLists */
  method ParseNoTagLists(text: string) returns (h: Option<seq<IfList>>)
    requires Trimmed(text)
    ensures h == ReadNoTags(Tokens(text), [])
  {
    hide Tokens, ReadList;
    var lists, s := [], text;
    while true
      invariant Trimmed(s) && ReadNoTags(Tokens(text), []) == ReadNoTags(Tokens(s), lists)
      decreases |s|
    {
      var l, remaining, ok := ParseList(s);
      if !ok { return None; }
      lists := lists + [IfList("", l)];
      TrimmedEnd(remaining, s);
      if remaining == "" { return Some(lists); }
      s := remaining;
    }
  }

  /** parseTaggedLists */
  method ParseTaggedLists(text: string) returns (h: Option<seq<IfList>>)
    requires Trimmed(text)
    ensures h == ReadTagged(Tokens(text), true, "", [])
  {
    hide Tokens, FirstToken, ReadConds;
    var lists, s, resourceTag, n, first := [], text, "", 0, true;
    while true
      invariant Trimmed(s) && n >= 0
      invariant ReadTagged(Tokens(text), true, "", []) == ReadTagged(Tokens(s), first || n > 0, resourceTag, lists)
      decreases |s|
    {
      HeadIsFirst(s);
      var token, remaining := Lex(s);
      if token.Angle? {
        if !first && n == 0 { return None; }
        TrimmedEnd(remaining, s);
        resourceTag, n := token.text, 0;
        s := remaining;
      } else if token == Single('(') {
        n := n + 1;
        var l, rest, ok := ParseList(s);
        if !ok { return None; }
        lists := lists + [IfList(resourceTag, l)];
        TrimmedEnd(rest, s);
        if rest == "" { return Some(lists); }
        s := rest;
      } else {
        return None;
      }
      first := false;
    }
  }

  /** parseIfHeader accepts exactly the headers of the grammar, and returns what they mean. */
  method ParseIfHeader(httpHeader: string) returns (h: Option<seq<IfList>>)
    ensures match h
            case Some(lists) => Denotes(httpHeader, lists)
            case None => forall lists :: !Denotes(httpHeader, lists)
  {
    hide Tokens, FirstToken, ReadNoTags, ReadTagged, TrimSpace;
    var s := TrimSpace(httpHeader);
    HeadIsFirst(s);
    forall lists ensures Denotes(httpHeader, lists) <==> ReadHeader(Tokens(s)) == Some(lists) {
      ReadIsDenotes(httpHeader, lists);
    }
    hide Denotes;
    var token, _ := Lex(s);
    if token == Single('(') {
      h := ParseNoTagLists(s);
    } else if token.Angle? {
      h := ParseTaggedLists(s);
    } else {
      h := None;
    }
  }
}
