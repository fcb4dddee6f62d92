/** The lines of drivers/url_tree/util.go: what one says, and how a forest is written so that reading it gives
    it back. */
module UrlText {
  import opened Common
  import opened Numbers
  import opened Strings
  import opened UrlForest

  const HTTP := "http://"
  const HTTPS := "https://"

  /** The size that a HEAD request reports; None where it is not asked for or fails. The network is not part of
      this model. */
  type HeadSize = string -> Option<int>

  datatype LineResult = Blank | Malformed | Line(rec: Rec)

  function Indent(line: string): (n: nat)
    ensures n <= |line| && (forall k :: 0 <= k < n ==> line[k] == ' ') && (n < |line| ==> line[n] != ' ')
  {
    if line != "" && line[0] == ' ' then Indent(line[1..]) + 1 else 0
  }

  /** path.Base */
  function Base(path: string): string {
    if path == "" then "."
    else
      var p := NoSlashesAtEnd(path);
      if p == "" then "/" else p[LastIndexOf(p, '/') + 1..]
  }

  function NoSlashesAtEnd(p: string): string {
    if p != "" && p[|p| - 1] == '/' then NoSlashesAtEnd(p[..|p| - 1]) else p
  }

  /** parseFileLine: [FileName:][FileSize:][Modified:]Url; None for the error. */
  function ReadFile(line: string, level: int, head: HeadSize): Option<Rec> {
    var index := if Index(line, HTTP) == -1 then Index(line, HTTPS) else Index(line, HTTP);
    if index == -1 then None
    else
      var url, info := line[index..], line[..index];
      var measured := match head(url) case Some(size) => size case None => 0;
      if index == 0 then Some(Rec(level, false, Base(url), url, measured, 0))
      else if !HasSuffix(info, ":") || info == ":" then None
      else
        var parts := Split(info[..|info| - 1], ':');
        if |parts| == 1 then Some(Rec(level, false, parts[0], url, measured, 0))
        else
          var size := ParseInt(parts[1]);
          if size.None? then None
          else if |parts| == 2 then Some(Rec(level, false, parts[0], url, size.value, 0))
          else
            var modified := ParseInt(parts[2]);
            if modified.None? then None else Some(Rec(level, false, parts[0], url, size.value, modified.value))
  }

  /** One line of BuildTree. */
  function ReadLine(text: string, head: HeadSize): LineResult {
    var indent := Indent(text);
    if indent % 2 != 0 then Malformed
    else
      var level, line := indent / 2, TrimSpace(text[indent..]);
      if line == "" then Blank
      else if HasSuffix(line, ":") then Line(Rec(level, true, line[..|line| - 1], "", 0, 0))
      else
        match ReadFile(line, level, head)
        case None => Malformed
        case Some(rec) => Line(rec)
  }

  /** The lines that are not blank; None if one is malformed. */
  function ReadLines(lines: seq<string>, head: HeadSize): Option<seq<Rec>> {
    if lines == [] then Some([])
    else
      var before, last := ReadLines(lines[..|lines| - 1], head), ReadLine(lines[|lines| - 1], head);
      if before.None? || last.Malformed? then None
      else if last.Blank? then before
      else Some(before.value + [last.rec])
  }

  // ---------- writing ----------

  function Spaces(n: nat): (s: string)
    ensures |s| == n && forall k :: 0 <= k < n ==> s[k] == ' '
  {
    if n == 0 then "" else " " + Spaces(n - 1)
  }

  function BodyText(r: Rec): string {
    if r.isFolder then r.name + ":"
    else r.name + ":" + FormatInt(r.size) + ":" + FormatInt(r.modified) + ":" + r.url
  }

  function LineText(r: Rec): string
    requires r.level >= 0
  {
    Spaces(2 * r.level) + BodyText(r)
  }

  function LineTexts(rs: seq<Rec>): seq<string>
    requires forall r :: r in rs ==> r.level >= 0
  {
    if rs == [] then [] else LineTexts(rs[..|rs| - 1]) + [LineText(rs[|rs| - 1])]
  }

  predicate Occurs(s: string, sub: string) { exists i :: 0 <= i <= |s| && OccursAt(s, sub, i) }

  predicate UrlWritable(url: string) {
    && url != "" && '\n' !in url && !IsSpace(url[|url| - 1]) && url[|url| - 1] != ':'
    && (HasPrefix(url, HTTP) || (HasPrefix(url, HTTPS) && !Occurs(url, HTTP)))
  }

  predicate Writable(r: Rec) {
    && r.level >= 0 && '\n' !in r.name && (r.name != "" ==> !IsSpace(r.name[0]))
    && if r.isFolder then r.url == "" && r.size == 0 && r.modified == 0
       else && r.name != "" && ':' !in r.name && UrlWritable(r.url)
            && MIN_INT64 <= r.size <= MAX_INT64 && MIN_INT64 <= r.modified <= MAX_INT64
  }

  lemma FormatChars(n: int)
    ensures FormatInt(n) != "" && forall c :: c in FormatInt(n) ==> IsDigit(c) || c == '-'
  {
  }

  lemma OccursChars(s: string, sub: string, i: nat)
    requires OccursAt(s, sub, i)
    ensures forall k :: i <= k < i + |sub| ==> s[k] == sub[k - i]
  {
    forall k | i <= k < i + |sub| ensures s[k] == sub[k - i] { assert s[i..i + |sub|][k - i] == s[k]; }
  }

  /** Where no colon before the URL is followed by a slash, a scheme occurs in the URL only. */
  lemma SchemeInUrl(pre: string, url: string, scheme: string, i: nat)
    requires scheme == HTTP || scheme == HTTPS
    requires pre != "" && pre[|pre| - 1] == ':' && url != "" && url[0] != '/'
    requires forall k :: 0 <= k < |pre| - 1 && pre[k] == ':' ==> pre[k + 1] != '/'
    requires OccursAt(pre + url, scheme, i)
    ensures i >= |pre|
  {
    var s := pre + url;
    OccursChars(s, scheme, i);
    var k := i + |scheme| - 3;
    assert s[k] == ':' && s[k + 1] == '/' && forall j :: i <= j < k ==> s[j] != ':';
    assert s[|pre| - 1] == ':' && s[|pre|] == url[0];
    assert forall j :: 0 <= j < |pre| ==> s[j] == pre[j];
  }

  lemma OccursIn(pre: string, url: string, sub: string, i: nat)
    requires i >= |pre|
    ensures OccursAt(pre + url, sub, i) <==> OccursAt(url, sub, i - |pre|)
  {
    var s := pre + url;
    if i + |sub| <= |s| { assert s[i..i + |sub|] == url[i - |pre|..i - |pre| + |sub|]; }
  }

  /** The URL is found where it was written. */
  lemma UrlFound(pre: string, url: string)
    requires UrlWritable(url) && pre != "" && pre[|pre| - 1] == ':'
    requires forall k :: 0 <= k < |pre| - 1 && pre[k] == ':' ==> pre[k + 1] != '/'
    ensures var line := pre + url;
            (if Index(line, HTTP) == -1 then Index(line, HTTPS) else Index(line, HTTP)) == |pre|
  {
    hide IsSpace, Index, OccursAt, Occurs;
    var line := pre + url;
    UrlStart(url);
    forall i: nat | OccursAt(line, HTTP, i) ensures i >= |pre| { SchemeInUrl(pre, url, HTTP, i); }
    forall i: nat | OccursAt(line, HTTPS, i) ensures i >= |pre| { SchemeInUrl(pre, url, HTTPS, i); }
    OccursIn(pre, url, HTTP, |pre|);
    OccursIn(pre, url, HTTPS, |pre|);
    if !HasPrefix(url, HTTP) {
      forall i: nat | |pre| <= i <= |line| ensures !OccursAt(line, HTTP, i) {
        OccursIn(pre, url, HTTP, i);
        NoneInside(url, i - |pre|);
      }
    }
  }

  lemma UrlStart(url: string)
    requires UrlWritable(url)
    ensures url[0] == 'h' && (HasPrefix(url, HTTP) ==> OccursAt(url, HTTP, 0)) && (HasPrefix(url, HTTPS) ==> OccursAt(url, HTTPS, 0))
  {
    assert HTTP[0] == 'h' && HTTPS[0] == 'h';
  }

  lemma NoneInside(url: string, i: nat)
    requires !Occurs(url, HTTP)
    ensures !OccursAt(url, HTTP, i)
  {
  }

  /** The info before the URL. */
  function InfoText(r: Rec): string { r.name + ":" + FormatInt(r.size) + ":" + FormatInt(r.modified) }

  lemma InfoSplits(r: Rec)
    requires ':' !in r.name
    ensures Split(InfoText(r), ':') == [r.name, FormatInt(r.size), FormatInt(r.modified)]
  {
    hide FormatInt, Split, Join;
    var a, b := FormatInt(r.size), FormatInt(r.modified);
    FormatChars(r.size);
    FormatChars(r.modified);
    SplitOne(b);
    SplitCons(a, b, ':');
    SplitCons(r.name, a + [':'] + b, ':');
    assert InfoText(r) == r.name + [':'] + (a + [':'] + b);
  }

  lemma SplitOne(s: string)
    requires ':' !in s
    ensures Split(s, ':') == [s]
  {
  }

  lemma InfoColons(r: Rec)
    requires ':' !in r.name
    ensures var pre := InfoText(r) + ":";
            forall k :: 0 <= k < |pre| - 1 && pre[k] == ':' ==> pre[k + 1] != '/'
  {
    hide FormatInt;
    var a, b := FormatInt(r.size), FormatInt(r.modified);
    FormatChars(r.size);
    FormatChars(r.modified);
    var rest := ":" + a + ":" + b + ":";
    var pre := InfoText(r) + ":";
    assert pre == r.name + rest && '/' !in rest;
    forall k | 0 <= k < |pre| - 1 && pre[k] == ':' ensures pre[k + 1] != '/' {
      assert forall j :: 0 <= j < |r.name| ==> pre[j] == r.name[j];
      assert pre[k + 1] == rest[k + 1 - |r.name|];
    }
  }

  lemma ReadWrittenFile(r: Rec, head: HeadSize)
    requires Writable(r) && !r.isFolder
    ensures ReadFile(BodyText(r), r.level, head) == Some(r)
  {
    hide FormatInt, ParseInt, Split, Index, UrlWritable, IsSpace;
    var pre := InfoText(r) + ":";
    InfoColons(r);
    UrlFound(pre, r.url);
    InfoSplits(r);
    ParseFormat(r.size);
    ParseFormat(r.modified);
    assert BodyText(r) == pre + r.url;
    assert (pre + r.url)[|pre|..] == r.url && (pre + r.url)[..|pre|] == pre && pre[..|pre| - 1] == InfoText(r);
  }

  lemma IndentOf(n: nat, body: string)
    requires body != "" && body[0] != ' '
    ensures Indent(Spaces(n) + body) == n && (Spaces(n) + body)[n..] == body
  {
    var line := Spaces(n) + body;
    assert line[n] == body[0] && forall k :: 0 <= k < n ==> line[k] == ' ';
  }

  lemma ReadWritten(r: Rec, head: HeadSize)
    requires Writable(r)
    ensures ReadLine(LineText(r), head) == Line(r)
  {
    hide IsSpace, ReadFile, BodyText, HasSuffix, Indent, Spaces, TrimSpace, UrlWritable;
    BodyEnds(r);
    NotSpaces();
    IndentOf(2 * r.level, BodyText(r));
    assert TrimSpace(BodyText(r)) == BodyText(r);
    if !r.isFolder { ReadWrittenFile(r, head); }
  }

  lemma OneLine(r: Rec)
    requires Writable(r)
    ensures '\n' !in LineText(r)
  {
    hide FormatInt, Occurs, IsSpace, Spaces;
    FormatChars(r.size);
    FormatChars(r.modified);
  }

  lemma SuffixColon(s: string)
    requires s != ""
    ensures HasSuffix(s, ":") <==> s[|s| - 1] == ':'
  {
    assert s[|s| - 1..] == [s[|s| - 1]];
  }

  lemma BodyEnds(r: Rec)
    requires Writable(r)
    ensures var body := BodyText(r);
            && body != "" && !IsSpace(body[0]) && !IsSpace(body[|body| - 1])
            && (HasSuffix(body, ":") <==> r.isFolder) && (r.isFolder ==> body[..|body| - 1] == r.name)
  {
    hide FormatInt, Occurs, IsSpace, HasSuffix;
    var body := BodyText(r);
    NotSpaces();
    SuffixColon(body);
    if r.isFolder {
      assert body[|body| - 1] == ':';
      assert body[0] == if r.name != "" then r.name[0] else ':';
    } else {
      assert body[0] == r.name[0] && body[|body| - 1] == r.url[|r.url| - 1];
    }
  }

  lemma NotSpaces()
    ensures !IsSpace(':') && IsSpace(' ')
  {
  }

  lemma {:induction false} ReadWrittenLines(rs: seq<Rec>, head: HeadSize)
    requires forall r :: r in rs ==> Writable(r)
    ensures (forall r :: r in rs ==> r.level >= 0) && ReadLines(LineTexts(rs), head) == Some(rs)
    ensures |LineTexts(rs)| == |rs| && forall t :: t in LineTexts(rs) ==> '\n' !in t
  {
    hide ReadLine, LineText;
    assert forall r :: r in rs ==> r.level >= 0;
    if rs != [] {
      var n := |rs| - 1;
      ReadWrittenLines(rs[..n], head);
      assert rs[n] in rs;
      ReadWritten(rs[n], head);
      OneLine(rs[n]);
      assert LineTexts(rs)[..n] == LineTexts(rs[..n]) && rs[..n] + [rs[n]] == rs;
    }
  }

  // ---------- a written forest is read back ----------

  predicate TreeWritable(t: Tree)
    decreases t
  {
    match t
    case File(name, url, size, modified) => Writable(Rec(0, false, name, url, size, modified))
    case Folder(name, children) => Writable(Rec(0, true, name, "", 0, 0)) && forall c :: c in children ==> TreeWritable(c)
  }

  lemma {:induction false} FlattenWritable(ts: seq<Tree>, level: nat)
    requires forall t :: t in ts ==> TreeWritable(t)
    ensures forall r :: r in Flatten(ts, level) ==> Writable(r)
    decreases ts
  {
    hide UrlWritable, IsSpace;
    if ts != [] {
      assert TreeWritable(ts[0]);
      FlattenWritable(ts[1..], level);
      if ts[0].Folder? { FlattenWritable(ts[0].children, level + 1); }
    }
  }

  function Text(ts: seq<Tree>): string
    requires forall t :: t in ts ==> TreeWritable(t)
  {
    FlattenLevels(ts, 0);
    Join(LineTexts(Flatten(ts, 0)), '\n')
  }

  /** Reading the text of a forest, and nesting the lines by their indentation, gives the forest back. */
  lemma WriteThenRead(ts: seq<Tree>, head: HeadSize)
    requires forall t :: t in ts ==> TreeWritable(t)
    ensures var recs := ReadLines(Split(Text(ts), '\n'), head);
            recs.Some? && WellFormed([ROOT] + recs.value) && ForestOf([ROOT] + recs.value) == ts
  {
    hide ReadLine, LineText, TreeWritable, ForestOf, WellFormed, Writable;
    FlattenLevels(ts, 0);
    FlattenWritable(ts, 0);
    FlattenThenForest(ts);
    var rs := Flatten(ts, 0);
    ReadWrittenLines(rs, head);
    if rs == [] {
      assert Split("", '\n') == [""];
      BlankLine(head);
    } else {
      SplitJoin(LineTexts(rs), '\n');
    }
  }

  lemma BlankLine(head: HeadSize)
    ensures ReadLines([""], head) == Some([])
  {
    assert Indent("") == 0 && TrimSpace("") == "";
    assert ReadLine("", head) == Blank;
    assert [""][..0] == [];
  }
}
