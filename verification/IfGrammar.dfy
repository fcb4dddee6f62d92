/** The If header of section 10.4.2 of RFC 4918: its tokens as server/webdav/if.go reads them, its grammar, and
    its printed form. The parser of module IfParser is proved against it. */
module IfGrammar {
  import opened Common
  import opened Strings
  import opened LockTable

  // ---------- tokens ----------

  datatype Token = Eof | Bad | NotWord | Str(text: string) | Angle(text: string) | Square(text: string) | Single(c: char)

  predicate IsBlank(c: char) { c == '\t' || c == ' ' }

  predicate Delimits(c: char) { IsBlank(c) || c == '(' || c == ')' || c == '<' || c == '>' || c == '[' || c == ']' }

  /** How many blanks s starts with. */
  function Blanks(s: string): (n: nat)
    ensures n <= |s| && (forall k :: 0 <= k < n ==> IsBlank(s[k])) && (n < |s| ==> !IsBlank(s[n]))
  {
    if s != "" && IsBlank(s[0]) then Blanks(s[1..]) + 1 else 0
  }

  /** How many characters s starts with that do not delimit. */
  function WordLen(s: string): (n: nat)
    ensures n <= |s| && (forall k :: 0 <= k < n ==> !Delimits(s[k])) && (n < |s| ==> Delimits(s[n]))
  {
    if s != "" && !Delimits(s[0]) then WordLen(s[1..]) + 1 else 0
  }

  /** The first token of s, and the text after it. */
  function FirstToken(s: string): (r: (Token, string))
    ensures |r.1| <= |s| && r.1 == s[|s| - |r.1|..]
    ensures r.0 != Eof ==> |r.1| < |s|
    ensures r.0 == Eof <==> Blanks(s) == |s|
  {
    TokenAt(s[Blanks(s)..])
  }

  /** The token that starts where t does. */
  function TokenAt(t: string): (r: (Token, string))
    ensures |r.1| <= |t| && r.1 == t[|t| - |r.1|..]
    ensures r.0 != Eof ==> |r.1| < |t|
    ensures r.0 == Eof <==> t == ""
  {
    var n := WordLen(t);
    if t == "" then (Eof, "")
    else if n > 0 then (if t[..n] == "Not" then NotWord else Str(t[..n]), t[n..])
    else if t[0] == '<' then
      var j := IndexOf(t, '>');
      if j < 0 then (Bad, "") else (Angle(t[1..j]), t[j + 1..])
    else if t[0] == '[' then
      var j := IndexOf(t, ']');
      if j < 0 then (Bad, "") else (Square(t[1..j]), t[j + 1..])
    else (Single(t[0]), t[1..])
  }

  function Tokens(s: string): seq<Token>
    decreases |s|
  {
    var (token, rest) := FirstToken(s);
    if token.Eof? then [] else [token] + Tokens(rest)
  }

  // ---------- the grammar ----------

  /** Condition = ["Not"] (State-token | "[" entity-tag "]"); the parser also takes a bare word as a token. */
  datatype Cond = Cond(not: bool, token: Token)

  type List = seq<Cond>

  datatype Group = Group(tag: string, lists: seq<List>)

  datatype Header = NoTags(lists: seq<List>) | Tagged(groups: seq<Group>)

  predicate CondOk(c: Cond) { c.token.Str? || c.token.Angle? || c.token.Square? }

  predicate ListOk(l: List) { l != [] && forall c :: c in l ==> CondOk(c) }

  predicate ListsOk(ls: seq<List>) { ls != [] && forall l :: l in ls ==> ListOk(l) }

  predicate HeaderOk(h: Header) {
    match h
    case NoTags(ls) => ListsOk(ls)
    case Tagged(gs) => gs != [] && forall g :: g in gs ==> ListsOk(g.lists)
  }

  function CondTokens(c: Cond): seq<Token> { (if c.not then [NotWord] else []) + [c.token] }

  function CondsTokens(cs: seq<Cond>): seq<Token> {
    if cs == [] then [] else CondTokens(cs[0]) + CondsTokens(cs[1..])
  }

  function ListTokens(l: List): seq<Token> { [Single('(')] + CondsTokens(l) + [Single(')')] }

  function ListsTokens(ls: seq<List>): seq<Token> {
    if ls == [] then [] else ListTokens(ls[0]) + ListsTokens(ls[1..])
  }

  function GroupsTokens(gs: seq<Group>): seq<Token> {
    if gs == [] then [] else [Angle(gs[0].tag)] + ListsTokens(gs[0].lists) + GroupsTokens(gs[1..])
  }

  function HeaderTokens(h: Header): seq<Token> {
    match h
    case NoTags(ls) => ListsTokens(ls)
    case Tagged(gs) => GroupsTokens(gs)
  }

  // ---------- what a header means ----------

  /** ifList and ifHeader */
  datatype IfList = IfList(resourceTag: string, conditions: seq<Condition>)

  function CondMeaning(c: Cond): Condition {
    match c.token
    case Square(etag) => Condition(c.not, "", etag)
    case Str(token) => Condition(c.not, token, "")
    case Angle(token) => Condition(c.not, token, "")
    case Eof | Bad | NotWord | Single(_) => Condition(c.not, "", "")
  }

  function ListMeaning(l: List): seq<Condition> {
    if l == [] then [] else [CondMeaning(l[0])] + ListMeaning(l[1..])
  }

  function ListsMeaning(tag: string, ls: seq<List>): seq<IfList> {
    if ls == [] then [] else [IfList(tag, ListMeaning(ls[0]))] + ListsMeaning(tag, ls[1..])
  }

  function GroupsMeaning(gs: seq<Group>): seq<IfList> {
    if gs == [] then [] else ListsMeaning(gs[0].tag, gs[0].lists) + GroupsMeaning(gs[1..])
  }

  function Meaning(h: Header): seq<IfList> {
    match h
    case NoTags(ls) => ListsMeaning("", ls)
    case Tagged(gs) => GroupsMeaning(gs)
  }

  /** The text is a header of the grammar with this meaning. */
  ghost predicate Denotes(text: string, meaning: seq<IfList>) {
    exists h :: HeaderOk(h) && Tokens(TrimSpace(text)) == HeaderTokens(h) && meaning == Meaning(h)
  }

  // ---------- reading tokens ----------

  function Head(ts: seq<Token>): Token { if ts == [] then Eof else ts[0] }

  function ReadCond(ts: seq<Token>): (r: Option<(Condition, seq<Token>)>)
    ensures r.Some? ==> |r.value.1| < |ts|
  {
    var not := Head(ts).NotWord?;
    var us := if not then ts[1..] else ts;
    var t := Head(us);
    if t.Str? || t.Angle? then Some((Condition(not, t.text, ""), us[1..]))
    else if t.Square? then Some((Condition(not, "", t.text), us[1..]))
    else None
  }

  /** The conditions up to the closing parenthesis, after those already read. */
  function ReadConds(ts: seq<Token>, acc: seq<Condition>): (r: Option<(seq<Condition>, seq<Token>)>)
    ensures r.Some? ==> |r.value.1| < |ts|
    decreases |ts|
  {
    if Head(ts) == Single(')') then (if acc == [] then None else Some((acc, ts[1..])))
    else
      var c := ReadCond(ts);
      if c.None? then None else ReadConds(c.value.1, acc + [c.value.0])
  }

  function ReadList(ts: seq<Token>): (r: Option<(seq<Condition>, seq<Token>)>)
    ensures r.Some? ==> |r.value.1| < |ts|
  {
    if Head(ts) != Single('(') then None else ReadConds(ts[1..], [])
  }

  function ReadNoTags(ts: seq<Token>, acc: seq<IfList>): Option<seq<IfList>>
    decreases |ts|
  {
    var l := ReadList(ts);
    if l.None? then None
    else
      var lists := acc + [IfList("", l.value.0)];
      if l.value.1 == [] then Some(lists) else ReadNoTags(l.value.1, lists)
  }

  /** `open` says that the current tag needs no list before the next tag: it is the first, or has one. */
  function ReadTagged(ts: seq<Token>, open: bool, tag: string, acc: seq<IfList>): Option<seq<IfList>>
    decreases |ts|
  {
    var t := Head(ts);
    if t.Angle? then (if !open then None else ReadTagged(ts[1..], false, t.text, acc))
    else
      var l := ReadList(ts);
      if l.None? then None
      else
        var lists := acc + [IfList(tag, l.value.0)];
        if l.value.1 == [] then Some(lists) else ReadTagged(l.value.1, true, tag, lists)
  }

  function ReadHeader(ts: seq<Token>): Option<seq<IfList>> {
    if Head(ts) == Single('(') then ReadNoTags(ts, [])
    else if Head(ts).Angle? then ReadTagged(ts, true, "", [])
    else None
  }

  // ---------- every header of the grammar is read ----------

  lemma ReadCondTokens(c: Cond, rest: seq<Token>)
    requires CondOk(c)
    ensures ReadCond(CondTokens(c) + rest) == Some((CondMeaning(c), rest))
  {
    var ts := CondTokens(c) + rest;
    assert (if c.not then ts[1..] else ts) == [c.token] + rest;
  }

  lemma {:induction false} ReadCondsTokens(l: seq<Cond>, acc: seq<Condition>, rest: seq<Token>)
    requires (forall c :: c in l ==> CondOk(c)) && acc + ListMeaning(l) != []
    ensures ReadConds(CondsTokens(l) + [Single(')')] + rest, acc) == Some((acc + ListMeaning(l), rest))
  {
    var ts := CondsTokens(l) + [Single(')')] + rest;
    if l == [] {
      assert ts == [Single(')')] + rest && acc + [] == acc;
    } else {
      var tail := CondsTokens(l[1..]) + [Single(')')] + rest;
      assert ts == CondTokens(l[0]) + tail;
      ReadCondTokens(l[0], tail);
      assert Head(ts) == Head(CondTokens(l[0]));
      assert acc + ListMeaning(l) == acc + [CondMeaning(l[0])] + ListMeaning(l[1..]);
      ReadCondsTokens(l[1..], acc + [CondMeaning(l[0])], rest);
    }
  }

  lemma ReadListTokens(l: List, rest: seq<Token>)
    requires ListOk(l)
    ensures ReadList(ListTokens(l) + rest) == Some((ListMeaning(l), rest))
  {
    hide ReadConds, CondsTokens, CondOk;
    var ts := ListTokens(l) + rest;
    assert ts == [Single('(')] + (CondsTokens(l) + [Single(')')] + rest);
    assert ts[1..] == CondsTokens(l) + [Single(')')] + rest;
    ReadCondsTokens(l, [], rest);
    assert [] + ListMeaning(l) == ListMeaning(l);
  }

  lemma {:induction false} ReadNoTagsTokens(ls: seq<List>, acc: seq<IfList>)
    requires ListsOk(ls)
    ensures ReadNoTags(ListsTokens(ls), acc) == Some(acc + ListsMeaning("", ls))
    decreases |ls|
  {
    hide ReadList, ListTokens, ListOk;
    var rest := ListsTokens(ls[1..]);
    assert ListOk(ls[0]);
    ReadListTokens(ls[0], rest);
    var acc' := acc + [IfList("", ListMeaning(ls[0]))];
    assert acc + ListsMeaning("", ls) == acc' + ListsMeaning("", ls[1..]);
    if |ls| > 1 {
      ListsNotEmpty(ls[1..]);
      ReadNoTagsTokens(ls[1..], acc');
    } else {
      assert rest == [] && acc' + ListsMeaning("", []) == acc' && ls[1..] == [];
    }
  }

  lemma ListsNotEmpty(ls: seq<List>)
    requires ls != []
    ensures Head(ListsTokens(ls)) == Single('(')
  {
  }

  lemma GroupsNotEmpty(gs: seq<Group>)
    requires gs != []
    ensures Head(GroupsTokens(gs)) == Angle(gs[0].tag)
  {
  }

  /** The lists of one group. */
  lemma {:induction false} ReadTaggedLists(ls: seq<List>, rest: seq<Token>, open: bool, tag: string, acc: seq<IfList>)
    requires ListsOk(ls)
    ensures var lists := acc + ListsMeaning(tag, ls);
            ReadTagged(ListsTokens(ls) + rest, open, tag, acc)
            == if rest == [] then Some(lists) else ReadTagged(rest, true, tag, lists)
    decreases |ls|
  {
    hide ReadList, ListTokens, ListOk;
    var tail := ListsTokens(ls[1..]) + rest;
    ListsNotEmpty(ls);
    assert ListsTokens(ls) + rest == ListTokens(ls[0]) + tail;
    assert Head(ListsTokens(ls) + rest) == Head(ListsTokens(ls));
    assert ListOk(ls[0]);
    ReadListTokens(ls[0], tail);
    var acc' := acc + [IfList(tag, ListMeaning(ls[0]))];
    assert acc + ListsMeaning(tag, ls) == acc' + ListsMeaning(tag, ls[1..]);
    if |ls| > 1 {
      ListsNotEmpty(ls[1..]);
      ReadTaggedLists(ls[1..], rest, true, tag, acc');
    } else {
      assert tail == rest && acc' + ListsMeaning(tag, []) == acc' && ls[1..] == [];
    }
  }

  lemma ReadTag(t: string, ts: seq<Token>, tag: string, acc: seq<IfList>)
    ensures ReadTagged([Angle(t)] + ts, true, tag, acc) == ReadTagged(ts, false, t, acc)
  {
    assert ([Angle(t)] + ts)[1..] == ts;
  }

  lemma {:induction false} ReadGroupsTokens(gs: seq<Group>, tag: string, acc: seq<IfList>)
    requires gs != [] && forall g :: g in gs ==> ListsOk(g.lists)
    ensures ReadTagged(GroupsTokens(gs), true, tag, acc) == Some(acc + GroupsMeaning(gs))
    decreases |gs|
  {
    hide ListsTokens, ListsMeaning, ListsOk, ReadTagged;
    var g, rest := gs[0], GroupsTokens(gs[1..]);
    assert ListsOk(g.lists);
    var acc' := acc + ListsMeaning(g.tag, g.lists);
    assert acc + GroupsMeaning(gs) == acc' + GroupsMeaning(gs[1..]);
    assert GroupsTokens(gs) == [Angle(g.tag)] + (ListsTokens(g.lists) + rest);
    ReadTag(g.tag, ListsTokens(g.lists) + rest, tag, acc);
    ReadTaggedLists(g.lists, rest, false, g.tag, acc);
    if |gs| > 1 {
      GroupsNotEmpty(gs[1..]);
      ReadGroupsTokens(gs[1..], g.tag, acc');
    } else {
      assert rest == [] && acc' + GroupsMeaning([]) == acc' && gs[1..] == [];
    }
  }

  lemma ReadHeaderTokens(h: Header)
    requires HeaderOk(h)
    ensures ReadHeader(HeaderTokens(h)) == Some(Meaning(h))
  {
    hide ListsOk, ReadNoTags, ReadTagged, ListsTokens, GroupsTokens;
    match h
    case NoTags(ls) =>
      assert ls != [] by { assert ListsOk(ls); assert HeaderOk(h); NotEmptyLists(ls); }
      ListsNotEmpty(ls);
      ReadNoTagsTokens(ls, []);
      assert [] + ListsMeaning("", ls) == ListsMeaning("", ls);
    case Tagged(gs) =>
      GroupsNotEmpty(gs);
      ReadGroupsTokens(gs, "", []);
      assert [] + GroupsMeaning(gs) == GroupsMeaning(gs);
  }

  lemma NotEmptyLists(ls: seq<List>)
    requires ListsOk(ls)
    ensures ls != []
  {
  }

  // ---------- whatever is read is in the grammar ----------

  lemma CondRead(ts: seq<Token>) returns (c: Cond)
    requires ReadCond(ts).Some?
    ensures CondOk(c) && ts == CondTokens(c) + ReadCond(ts).value.1 && CondMeaning(c) == ReadCond(ts).value.0
  {
    var us := if Head(ts).NotWord? then ts[1..] else ts;
    c := Cond(Head(ts).NotWord?, us[0]);
  }

  lemma {:induction false} CondsRead(ts: seq<Token>, acc: seq<Condition>) returns (l: seq<Cond>)
    requires ReadConds(ts, acc).Some?
    ensures forall c :: c in l ==> CondOk(c)
    ensures var (cs, rest) := ReadConds(ts, acc).value;
            ts == CondsTokens(l) + [Single(')')] + rest && cs == acc + ListMeaning(l) != []
    decreases |ts|
  {
    if Head(ts) == Single(')') {
      l := [];
    } else {
      hide CondOk, CondTokens, CondMeaning;
      var c := CondRead(ts);
      var (first, rest) := ReadCond(ts).value;
      hide ReadCond;
      var tail := CondsRead(rest, acc + [first]);
      l := [c] + tail;
      assert l[1..] == tail;
      assert acc + [first] + ListMeaning(tail) == acc + ListMeaning(l);
    }
  }

  lemma ListRead(ts: seq<Token>) returns (l: List)
    requires ReadList(ts).Some?
    ensures ListOk(l) && ts == ListTokens(l) + ReadList(ts).value.1 && ListMeaning(l) == ReadList(ts).value.0
  {
    hide ReadConds, CondOk, CondMeaning, CondsTokens;
    l := CondsRead(ts[1..], []);
    assert [] + ListMeaning(l) == ListMeaning(l);
  }

  lemma {:induction false} NoTagsRead(ts: seq<Token>, acc: seq<IfList>) returns (ls: seq<List>)
    requires ReadNoTags(ts, acc).Some?
    ensures ListsOk(ls) && ts == ListsTokens(ls) && ReadNoTags(ts, acc).value == acc + ListsMeaning("", ls)
    decreases |ts|
  {
    hide ListOk, ListTokens, ListMeaning;
    var l := ListRead(ts);
    var (conditions, rest) := ReadList(ts).value;
    hide ReadList;
    var acc' := acc + [IfList("", conditions)];
    if rest == [] {
      ls := [l];
      assert ls[1..] == [];
    } else {
      var tail := NoTagsRead(rest, acc');
      ls := [l] + tail;
      assert ls[1..] == tail;
      assert acc' + ListsMeaning("", tail) == acc + ListsMeaning("", ls);
    }
  }

  lemma {:induction false} TaggedRead(ts: seq<Token>, open: bool, tag: string, acc: seq<IfList>)
    returns (ls: seq<List>, gs: seq<Group>)
    requires ReadTagged(ts, open, tag, acc).Some?
    ensures (forall l :: l in ls ==> ListOk(l)) && (forall g :: g in gs ==> ListsOk(g.lists)) && (!open ==> ls != [])
    ensures ts == ListsTokens(ls) + GroupsTokens(gs) && (Head(ts).Angle? ==> ls == [] && gs != [])
    ensures ReadTagged(ts, open, tag, acc).value == acc + ListsMeaning(tag, ls) + GroupsMeaning(gs)
    decreases |ts|
  {
    hide ListOk, ListTokens, ListMeaning;
    if Head(ts).Angle? {
      var ls', gs' := TaggedRead(ts[1..], false, ts[0].text, acc);
      ls, gs := [], [Group(ts[0].text, ls')] + gs';
      assert gs[1..] == gs';
      assert acc + ListsMeaning(ts[0].text, ls') + GroupsMeaning(gs') == acc + [] + GroupsMeaning(gs);
    } else {
      var l := ListRead(ts);
      var (conditions, rest) := ReadList(ts).value;
      hide ReadList;
      var acc' := acc + [IfList(tag, conditions)];
      if rest == [] {
        ls, gs := [l], [];
        assert ls[1..] == [];
      } else {
        var ls', gs' := TaggedRead(rest, true, tag, acc');
        ls, gs := [l] + ls', gs';
        assert ls[1..] == ls';
        assert acc' + ListsMeaning(tag, ls') == acc + ListsMeaning(tag, ls);
      }
    }
  }

  lemma HeaderRead(ts: seq<Token>) returns (h: Header)
    requires ReadHeader(ts).Some?
    ensures HeaderOk(h) && ts == HeaderTokens(h) && ReadHeader(ts).value == Meaning(h)
  {
    hide ListOk, ReadNoTags, ReadTagged;
    if Head(ts) == Single('(') {
      var ls := NoTagsRead(ts, []);
      assert [] + ListsMeaning("", ls) == ListsMeaning("", ls);
      h := NoTags(ls);
    } else {
      var ls, gs := TaggedRead(ts, true, "", []);
      assert [] + ListsMeaning("", ls) + GroupsMeaning(gs) == GroupsMeaning(gs);
      assert ListsTokens(ls) + GroupsTokens(gs) == GroupsTokens(gs);
      h := Tagged(gs);
    }
  }

  /** Reading the tokens decides the grammar, and finds the meaning: in particular it is unique. */
  lemma ReadIsDenotes(text: string, meaning: seq<IfList>)
    ensures Denotes(text, meaning) <==> ReadHeader(Tokens(TrimSpace(text))) == Some(meaning)
  {
    hide HeaderOk, HeaderTokens, Meaning, ReadHeader, Tokens, TrimSpace;
    var ts := Tokens(TrimSpace(text));
    if ReadHeader(ts).Some? { var h := HeaderRead(ts); }
    if h :| HeaderOk(h) && ts == HeaderTokens(h) && meaning == Meaning(h) { ReadHeaderTokens(h); }
  }
}
