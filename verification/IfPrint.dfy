/** The printed form of a parsed If header: parsing it gives the header back, and every header that the parser
    returns can be printed. */
module IfPrint {
  import opened Common
  import opened Strings
  import opened LockTable
  import opened IfGrammar

  // ---------- printing ----------

  function CondText(c: Condition): string {
    (if c.not then "Not " else "") + if c.etag != "" then "[" + c.etag + "]" else "<" + c.token + ">"
  }

  function CondsText(cs: seq<Condition>): string {
    if cs == [] then ""
    else if |cs| == 1 then CondText(cs[0])
    else CondText(cs[0]) + " " + CondsText(cs[1..])
  }

  function ListText(l: IfList, tagged: bool): string {
    (if tagged then "<" + l.resourceTag + "> " else "") + "(" + CondsText(l.conditions) + ")"
  }

  function ListsText(lists: seq<IfList>, tagged: bool): string {
    if lists == [] then ""
    else if |lists| == 1 then ListText(lists[0], tagged)
    else ListText(lists[0], tagged) + " " + ListsText(lists[1..], tagged)
  }

  predicate HasTags(lists: seq<IfList>) { exists l :: l in lists && l.resourceTag != "" }

  function HeaderText(lists: seq<IfList>): string { ListsText(lists, HasTags(lists)) }

  // ---------- headers that can be printed ----------

  predicate CondPrintable(c: Condition) {
    (c.token == "" || c.etag == "") && '>' !in c.token && ']' !in c.etag
  }

  predicate ListPrintable(l: IfList) {
    l.conditions != [] && '>' !in l.resourceTag && forall c :: c in l.conditions ==> CondPrintable(c)
  }

  predicate Printable(lists: seq<IfList>) { lists != [] && forall l :: l in lists ==> ListPrintable(l) }

  // ---------- the tokens of the pieces ----------

  lemma BlankFirst(s: string)
    ensures Tokens(" " + s) == Tokens(s)
  {
    hide TokenAt;
    assert (" " + s)[1..] == s;
    assert (" " + s)[Blanks(" " + s)..] == s[Blanks(s)..];
  }

  /** Blanks and tabs in front of a token make no difference. */
  lemma {:induction false} BlanksFirst(b: string, s: string)
    requires forall k :: 0 <= k < |b| ==> b[k] == ' ' || b[k] == '\t'
    ensures Tokens(b + s) == Tokens(s)
    decreases |b|
  {
    hide Tokens, FirstToken;
    if b == "" {
      assert b + s == s;
    } else {
      assert b + s == [b[0]] + (b[1..] + s);
      BlanksFirst(b[1..], s);
      OneBlankFirst(b[0], b[1..] + s);
    }
  }

  lemma OneBlankFirst(c: char, s: string)
    requires c == ' ' || c == '\t'
    ensures Tokens([c] + s) == Tokens(s)
  {
    hide TokenAt;
    var t := [c] + s;
    assert t[1..] == s;
    assert t[Blanks(t)..] == s[Blanks(s)..];
  }

  const DELIMITERS := "\t ()<>[]"

  lemma DelimitersAre(c: char)
    ensures Delimits(c) <==> c in DELIMITERS
  {
  }

  /** A word goes up to the next of the characters that delimit. */
  lemma WordFirst(w: string, s: string)
    requires w != "" && (forall c :: c in w ==> c !in DELIMITERS) && (s != "" ==> s[0] in DELIMITERS)
    ensures Tokens(w + s) == [if w == "Not" then NotWord else Str(w)] + Tokens(s)
  {
    hide Tokens, Blanks, WordLen, Delimits;
    var t := w + s;
    forall k | 0 <= k < |w| ensures t[k] == w[k] && !Delimits(t[k]) {
      assert w[k] in w;
      DelimitersAre(w[k]);
    }
    if s != "" {
      DelimitersAre(s[0]);
      assert t[|w|] == s[0];
    }
    BlankDelimits(t[0]);
    assert WordLen(t) == |w| && Blanks(t) == 0;
    assert t[0..] == t && t[..|w|] == w && t[|w|..] == s;
    assert FirstToken(t) == (if w == "Not" then NotWord else Str(w), s);
    TokensCons(t);
  }

  lemma BlankDelimits(c: char)
    ensures IsBlank(c) ==> Delimits(c)
  {
  }

  lemma AngleFirst(x: string, s: string)
    requires '>' !in x
    ensures Tokens("<" + x + ">" + s) == [Angle(x)] + Tokens(s)
  {
    hide IndexOf, Tokens, WordLen, Blanks;
    var t := "<" + x + ">" + s;
    Enclosed('<', x, '>', s);
    NoBlank(t);
    assert FirstToken(t) == (Angle(x), s);
    TokensCons(t);
  }

  lemma SquareFirst(x: string, s: string)
    requires ']' !in x
    ensures Tokens("[" + x + "]" + s) == [Square(x)] + Tokens(s)
  {
    hide IndexOf, Tokens, WordLen, Blanks;
    var t := "[" + x + "]" + s;
    Enclosed('[', x, ']', s);
    NoBlank(t);
    assert FirstToken(t) == (Square(x), s);
    TokensCons(t);
  }

  lemma Enclosed(open: char, x: string, close: char, s: string)
    requires close !in x && open != close
    ensures var t := [open] + x + [close] + s;
            IndexOf(t, close) == |x| + 1 && t[1..|x| + 1] == x && t[|x| + 2..] == s && t[0] == open
  {
    hide IndexOf;
    var t := [open] + x + [close] + s;
    assert t[|x| + 1] == close && forall k :: 0 <= k < |x| ==> t[k + 1] == x[k];
    assert forall k :: 1 <= k <= |x| ==> t[k] == x[k - 1];
  }

  lemma NoBlank(t: string)
    requires t != "" && Delimits(t[0]) && !IsBlank(t[0])
    ensures Blanks(t) == 0 && t[0..] == t && WordLen(t) == 0
  {
  }

  lemma SingleFirst(c: char, s: string)
    requires c == '(' || c == ')'
    ensures Tokens([c] + s) == [Single(c)] + Tokens(s)
  {
    hide Tokens, WordLen, Blanks;
    var t := [c] + s;
    NoBlank(t);
    assert t[1..] == s;
    assert FirstToken(t) == (Single(c), s);
    TokensCons(t);
  }

  lemma TokensCons(t: string)
    requires !FirstToken(t).0.Eof?
    ensures Tokens(t) == [FirstToken(t).0] + Tokens(FirstToken(t).1)
  {
    hide FirstToken;
  }

  lemma NotFirst(s: string)
    ensures Tokens("Not " + s) == [NotWord] + Tokens(s)
  {
    hide Tokens, Blanks;
    var t := "Not " + s;
    NotStarts(s);
    assert FirstToken(t) == (NotWord, " " + s);
    TokensCons(t);
    BlankFirst(s);
  }

  lemma NotStarts(s: string)
    ensures var t := "Not " + s; Blanks(t) == 0 && t[0..] == t && WordLen(t) == 3 && t[..3] == "Not" && t[3..] == " " + s
  {
    var t := "Not " + s;
    assert t[0] == 'N' && t[1] == 'o' && t[2] == 't' && t[3] == ' ';
  }

  // ---------- the tokens of a printed header ----------

  function CondTree(c: Condition): Cond { Cond(c.not, if c.etag != "" then Square(c.etag) else Angle(c.token)) }

  function ListTree(cs: seq<Condition>): List {
    if cs == [] then [] else [CondTree(cs[0])] + ListTree(cs[1..])
  }

  lemma CondTextTokens(c: Condition, s: string)
    requires CondPrintable(c)
    ensures Tokens(CondText(c) + s) == CondTokens(CondTree(c)) + Tokens(s)
  {
    hide Tokens;
    var body := if c.etag != "" then "[" + c.etag + "]" else "<" + c.token + ">";
    if c.etag != "" { SquareFirst(c.etag, s); } else { AngleFirst(c.token, s); }
    if c.not {
      NotFirst(body + s);
      assert CondText(c) + s == "Not " + (body + s);
      assert [NotWord] + [CondTree(c).token] + Tokens(s) == [NotWord] + ([CondTree(c).token] + Tokens(s));
    } else {
      assert CondText(c) + s == body + s && CondTokens(CondTree(c)) == [CondTree(c).token];
    }
  }

  lemma {:induction false} CondsTextTokens(cs: seq<Condition>, s: string)
    requires forall c :: c in cs ==> CondPrintable(c)
    ensures Tokens(CondsText(cs) + s) == CondsTokens(ListTree(cs)) + Tokens(s)
    decreases |cs|
  {
    hide *;
    if cs == [] {
      NoConds(s);
    } else {
      CondsTextTokens(cs[1..], s);
      var after := if |cs| == 1 then s else " " + (CondsText(cs[1..]) + s);
      AfterCond(cs, s);
      CondTextTokens(cs[0], after);
      CondsCons(cs, Tokens(s));
    }
  }

  lemma NoConds(s: string)
    ensures Tokens(CondsText([]) + s) == CondsTokens(ListTree([])) + Tokens(s)
  {
    hide Tokens;
    assert CondsText([]) + s == s;
    assert CondsTokens(ListTree([])) + Tokens(s) == Tokens(s);
  }

  lemma AfterCond(cs: seq<Condition>, s: string)
    requires cs != []
    ensures var after := if |cs| == 1 then s else " " + (CondsText(cs[1..]) + s);
            CondsText(cs) + s == CondText(cs[0]) + after && Tokens(after) == Tokens(CondsText(cs[1..]) + s)
  {
    hide Tokens, CondText;
    if |cs| > 1 {
      BlankFirst(CondsText(cs[1..]) + s);
    } else {
      assert CondsText(cs[1..]) + s == s;
    }
  }

  lemma CondsCons(cs: seq<Condition>, rest: seq<Token>)
    requires cs != []
    ensures CondsTokens(ListTree(cs)) + rest == CondTokens(CondTree(cs[0])) + (CondsTokens(ListTree(cs[1..])) + rest)
  {
    hide CondTokens, CondTree;
    assert ListTree(cs)[1..] == ListTree(cs[1..]);
  }

  lemma ListTextTokens(l: IfList, tagged: bool, s: string)
    requires ListPrintable(l)
    ensures Tokens(ListText(l, tagged) + s)
            == (if tagged then [Angle(l.resourceTag)] else []) + ListTokens(ListTree(l.conditions)) + Tokens(s)
  {
    hide Tokens, CondsText, CondsTokens, CondPrintable;
    var inner := CondsText(l.conditions);
    var list := "(" + inner + ")" + s;
    SingleFirst(')', s);
    CondsTextTokens(l.conditions, ")" + s);
    SingleFirst('(', inner + (")" + s));
    assert list == "(" + (inner + (")" + s));
    assert Tokens(list) == ListTokens(ListTree(l.conditions)) + Tokens(s);
    if tagged {
      AngleFirst(l.resourceTag, " " + list);
      BlankFirst(list);
      assert ListText(l, tagged) + s == "<" + l.resourceTag + ">" + (" " + list);
      assert [Angle(l.resourceTag)] + ListTokens(ListTree(l.conditions)) + Tokens(s) == [Angle(l.resourceTag)] + Tokens(list);
    } else {
      assert ListText(l, tagged) + s == list;
      assert [] + ListTokens(ListTree(l.conditions)) == ListTokens(ListTree(l.conditions));
    }
  }

  function Lists(lists: seq<IfList>): seq<List> {
    if lists == [] then [] else [ListTree(lists[0].conditions)] + Lists(lists[1..])
  }

  function Groups(lists: seq<IfList>): seq<Group> {
    if lists == [] then [] else [Group(lists[0].resourceTag, [ListTree(lists[0].conditions)])] + Groups(lists[1..])
  }

  function Tree(lists: seq<IfList>): Header {
    if HasTags(lists) then Tagged(Groups(lists)) else NoTags(Lists(lists))
  }

  /** The tokens of the trees of these lists. */
  function TreeTokens(lists: seq<IfList>, tagged: bool): seq<Token> {
    if tagged then GroupsTokens(Groups(lists)) else ListsTokens(Lists(lists))
  }

  lemma {:induction false} ListsTextTokens(lists: seq<IfList>, tagged: bool)
    requires forall l :: l in lists ==> ListPrintable(l)
    ensures Tokens(ListsText(lists, tagged)) == TreeTokens(lists, tagged)
    decreases |lists|
  {
    if lists != [] {
      hide *;
      ListsTextTokens(lists[1..], tagged);
      TreesCons(lists, tagged);
      var after := if |lists| == 1 then "" else " " + ListsText(lists[1..], tagged);
      ListTextTokens(lists[0], tagged, after);
      AfterFirst(lists, tagged);
    }
  }

  lemma AfterFirst(lists: seq<IfList>, tagged: bool)
    requires lists != []
    ensures var after := if |lists| == 1 then "" else " " + ListsText(lists[1..], tagged);
            ListsText(lists, tagged) == ListText(lists[0], tagged) + after && Tokens(after) == Tokens(ListsText(lists[1..], tagged))
  {
    hide Tokens, ListText;
    if |lists| > 1 { BlankFirst(ListsText(lists[1..], tagged)); }
  }

  lemma TreesCons(lists: seq<IfList>, tagged: bool)
    requires lists != []
    ensures TreeTokens(lists, tagged)
            == (if tagged then [Angle(lists[0].resourceTag)] else []) + ListTokens(ListTree(lists[0].conditions))
               + TreeTokens(lists[1..], tagged)
  {
    hide ListTokens, ListTree;
    OneList(ListTree(lists[0].conditions));
    assert Groups(lists)[1..] == Groups(lists[1..]) && Lists(lists)[1..] == Lists(lists[1..]);
    assert [] + ListTokens(ListTree(lists[0].conditions)) == ListTokens(ListTree(lists[0].conditions));
  }

  lemma OneList(l: List)
    ensures ListsTokens([l]) == ListTokens(l) && forall tag :: ListsMeaning(tag, [l]) == [IfList(tag, ListMeaning(l))]
  {
    assert [l][1..] == [];
  }

  lemma {:induction false} ListTreeMeans(cs: seq<Condition>)
    requires forall c :: c in cs ==> CondPrintable(c)
    ensures ListMeaning(ListTree(cs)) == cs && (forall c :: c in ListTree(cs) ==> CondOk(c)) && |ListTree(cs)| == |cs|
  {
    if cs != [] {
      ListTreeMeans(cs[1..]);
      assert CondPrintable(cs[0]);
      assert ListTree(cs)[1..] == ListTree(cs[1..]);
    }
  }

  lemma {:induction false} TreesMean(lists: seq<IfList>)
    requires forall l :: l in lists ==> ListPrintable(l)
    ensures GroupsMeaning(Groups(lists)) == lists && |Groups(lists)| == |Lists(lists)| == |lists|
    ensures forall g :: g in Groups(lists) ==> ListsOk(g.lists)
    ensures forall l :: l in Lists(lists) ==> ListOk(l)
    ensures (forall l :: l in lists ==> l.resourceTag == "") ==> ListsMeaning("", Lists(lists)) == lists
  {
    hide CondPrintable, CondOk, ListTree, ListMeaning, ListsOk;
    if lists != [] {
      var l, rest := lists[0], lists[1..];
      TreesMean(rest);
      assert ListPrintable(l);
      ListTreeMeans(l.conditions);
      OneList(ListTree(l.conditions));
      ListsOkIs([ListTree(l.conditions)]);
      assert Groups(lists)[1..] == Groups(rest) && Lists(lists)[1..] == Lists(rest);
    }
  }

  lemma {:induction false} PrintEnds(lists: seq<IfList>, tagged: bool)
    requires lists != []
    ensures var t := ListsText(lists, tagged); |t| >= 2 && (t[0] == '<' || t[0] == '(') && t[|t| - 1] == ')'
  {
    hide CondsText;
    if |lists| > 1 { PrintEnds(lists[1..], tagged); }
  }

  /** Printing and parsing gives the header back. */
  lemma PrintThenParse(lists: seq<IfList>)
    requires Printable(lists)
    ensures Denotes(HeaderText(lists), lists)
  {
    hide ListsText, Groups, Lists, ListPrintable, ListOk, ListsOk, Tokens, ListsTokens, GroupsTokens, ListsMeaning, GroupsMeaning;
    PrintEnds(lists, HasTags(lists));
    ListsTextTokens(lists, HasTags(lists));
    TreesMean(lists);
    ListsOkIs(Lists(lists));
    var h := Tree(lists);
    assert TrimSpace(HeaderText(lists)) == HeaderText(lists);
    assert HeaderOk(h) && Tokens(HeaderText(lists)) == HeaderTokens(h) && Meaning(h) == lists;
  }

  lemma ListsOkIs(ls: seq<List>)
    ensures ls != [] && (forall l :: l in ls ==> ListOk(l)) ==> ListsOk(ls)
  {
  }

  // ---------- what the parser returns can be printed ----------

  predicate CleanToken(t: Token) {
    match t
    case Angle(x) => '>' !in x
    case Square(x) => ']' !in x
    case Str(x) => '>' !in x
    case Eof | Bad | NotWord | Single(_) => true
  }

  lemma {:induction false} TokensClean(s: string)
    ensures forall t :: t in Tokens(s) ==> CleanToken(t)
    decreases |s|
  {
    var (token, rest) := FirstToken(s);
    if !token.Eof? {
      TokensClean(rest);
      FirstClean(s);
    }
  }

  lemma FirstClean(s: string)
    ensures CleanToken(FirstToken(s).0)
  {
    var t := s[Blanks(s)..];
    var n := WordLen(t);
    assert forall k :: 0 <= k < n ==> t[..n][k] != '>';
  }

  lemma {:induction false} CondsClean(l: seq<Cond>)
    requires forall t :: t in CondsTokens(l) ==> CleanToken(t)
    ensures forall c :: c in ListMeaning(l) ==> CondPrintable(c)
    ensures |ListMeaning(l)| == |l|
  {
    if l != [] {
      var tail := CondsTokens(l[1..]);
      assert forall t :: t in tail ==> t in CondsTokens(l);
      CondsClean(l[1..]);
      assert l[0].token in CondTokens(l[0]) && l[0].token in CondsTokens(l);
    }
  }

  lemma {:induction false} ListsClean(tag: string, ls: seq<List>)
    requires (forall l :: l in ls ==> ListOk(l)) && '>' !in tag && forall t :: t in ListsTokens(ls) ==> CleanToken(t)
    ensures forall l :: l in ListsMeaning(tag, ls) ==> ListPrintable(l)
    ensures |ListsMeaning(tag, ls)| == |ls|
  {
    hide CleanToken, CondPrintable, CondsTokens, ListMeaning, CondOk;
    if ls != [] {
      assert forall t :: t in ListsTokens(ls[1..]) ==> t in ListsTokens(ls);
      ListsClean(tag, ls[1..]);
      assert forall t :: t in CondsTokens(ls[0]) ==> t in ListTokens(ls[0]) && t in ListsTokens(ls);
      assert ListOk(ls[0]);
      CondsClean(ls[0]);
    }
  }

  lemma {:induction false} GroupsClean(gs: seq<Group>)
    requires (forall g :: g in gs ==> ListsOk(g.lists)) && forall t :: t in GroupsTokens(gs) ==> CleanToken(t)
    ensures forall l :: l in GroupsMeaning(gs) ==> ListPrintable(l)
    ensures |GroupsMeaning(gs)| >= |gs|
  {
    if gs != [] {
      hide ListsTokens, ListsMeaning, ListOk, ListPrintable;
      var g := gs[0];
      assert forall t :: t in GroupsTokens(gs[1..]) ==> t in GroupsTokens(gs);
      GroupsClean(gs[1..]);
      assert forall t :: t in ListsTokens(g.lists) ==> t in GroupsTokens(gs);
      assert Angle(g.tag) in GroupsTokens(gs) && CleanToken(Angle(g.tag));
      assert ListsOk(g.lists);
      ListsClean(g.tag, g.lists);
    }
  }

  /** So a header that was parsed, printed and parsed again is the same header. */
  lemma ParsedIsPrintable(text: string, lists: seq<IfList>)
    requires Denotes(text, lists)
    ensures Printable(lists)
  {
    hide Tokens, ListPrintable, ListsTokens, GroupsTokens, ListsMeaning, GroupsMeaning;
    TokensClean(TrimSpace(text));
    var h :| HeaderOk(h) && Tokens(TrimSpace(text)) == HeaderTokens(h) && lists == Meaning(h);
    match h
    case NoTags(ls) => ListsClean("", ls);
    case Tagged(gs) => GroupsClean(gs);
  }

  /** The header of one list with one condition. */
  function OneCond(c: Cond): Header { NoTags([[c]]) }

  lemma OneCondIs(c: Cond)
    requires CondOk(c)
    ensures HeaderOk(OneCond(c)) && HeaderTokens(OneCond(c)) == [Single('(')] + CondTokens(c) + [Single(')')]
    ensures Meaning(OneCond(c)) == [IfList("", [CondMeaning(c)])]
  {
    hide CondTokens, CondMeaning, CondOk;
    var l := [c];
    var ls := [l];
    assert l[1..] == [] && ls[1..] == [];
    assert CondsTokens(l) == CondTokens(c) + CondsTokens([]) && CondsTokens([]) == [];
    assert ListsTokens(ls) == ListTokens(l) + ListsTokens([]) && ListsTokens([]) == [];
    assert ListMeaning(l) == [CondMeaning(c)] + ListMeaning([]) && ListMeaning([]) == [];
    assert ListsMeaning("", ls) == [IfList("", ListMeaning(l))] + ListsMeaning("", []) && ListsMeaning("", []) == [];
    assert ListMeaning(l) == [CondMeaning(c)];
    assert ListsMeaning("", ls) == [IfList("", [CondMeaning(c)])];
    assert Meaning(OneCond(c)) == ListsMeaning("", ls);
  }

  function Negation(not: bool): string { if not then "Not " else "" }

  lemma WordTokens(w: string, not: bool)
    requires w != "" && w != "Not" && forall c :: c in w ==> c !in DELIMITERS
    ensures Tokens("(" + Negation(not) + w + ")") == [Single('(')] + CondTokens(Cond(not, Str(w))) + [Single(')')]
  {
    hide Tokens, FirstToken;
    var inner := Negation(not) + (w + ")");
    assert "(" + Negation(not) + w + ")" == ['('] + inner;
    SingleFirst('(', inner);
    if not { NotFirst(w + ")"); } else { assert inner == w + ")"; }
    WordFirst(w, ")");
    SingleFirst(')', "");
    assert [')'] + "" == ")";
    NoTokens();
  }

  /** The parser takes a bare word, too, as a token. */
  lemma WordMeans(w: string, not: bool)
    requires w != "" && w != "Not" && forall c :: c in w ==> c !in DELIMITERS
    ensures Denotes("(" + Negation(not) + w + ")", [IfList("", [Condition(not, w, "")])])
  {
    hide Tokens, TrimSpace, HeaderOk, HeaderTokens, Meaning, OneCond, CondTokens;
    var text := "(" + Negation(not) + w + ")";
    var c := Cond(not, Str(w));
    WordTokens(w, not);
    OneCondIs(c);
    ParensAreNoSpaces();
    assert text[0] == '(' && text[|text| - 1] == ')';
    assert TrimSpace(text) == text;
    assert Tokens(TrimSpace(text)) == HeaderTokens(OneCond(c));
  }

  lemma NoTokens()
    ensures Tokens("") == []
  {
  }

  lemma ParensAreNoSpaces()
    ensures !IsSpace('(') && !IsSpace(')')
  {
  }
}
