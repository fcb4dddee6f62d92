/** Every form of a line that drivers/url_tree/util.go reads, by the texts that stand in it. */
module UrlLines {
  import opened Common
  import opened Numbers
  import opened Strings
  import opened UrlForest
  import opened UrlText

  // ---------- a file line ----------

  /** The size that is reported for the URL, or 0. */
  function Measured(head: HeadSize, url: string): int { if head(url).Some? then head(url).value else 0 }

  /** sub occurs at i and not before. */
  ghost predicate FirstAt(s: string, sub: string, i: nat) {
    OccursAt(s, sub, i) && forall j :: 0 <= j < i ==> !OccursAt(s, sub, j)
  }

  /** The URL starts at i: with the first "http://", or, if there is none, with the first "https://". */
  ghost predicate UrlAt(line: string, i: nat) {
    || FirstAt(line, HTTP, i)
    || (!Occurs(line, HTTP) && FirstAt(line, HTTPS, i))
  }

  /** The name is what stands after the last slash, but for slashes at the end. */
  ghost predicate LastPart(url: string, name: string) {
    name != "" && '/' !in name && exists before, after :: LastPartWithin(url, before, name, after)
  }

  predicate LastPartWithin(url: string, before: string, name: string, after: string) {
    url == before + name + after && AllOf(after, '/') && (before != "" ==> before[|before| - 1] == '/')
  }

  /** "name:", "name:size:" and "name:size:modified:", the last with anything else after a further colon. */
  predicate NameOnly(info: string, name: string) { name != "" && ':' !in name && info == name + ":" }

  predicate NameSize(info: string, name: string, a: string) { ':' !in name && ':' !in a && info == name + ":" + a + ":" }

  predicate NameSizeTime(info: string, name: string, a: string, b: string, more: string) {
    && ':' !in name && ':' !in a && ':' !in b && (more != "" ==> more[0] == ':')
    && info == name + ":" + a + ":" + b + more + ":"
  }

  /** What the text before the URL says of the file. */
  ghost predicate InfoSays(info: string, url: string, head: HeadSize, name: string, size: int, modified: int) {
    || (info == "" && LastPart(url, name) && size == Measured(head, url) && modified == 0)
    || (NameOnly(info, name) && size == Measured(head, url) && modified == 0)
    || (modified == 0 && exists a :: NameSize(info, name, a) && ParseInt(a) == Some(size))
    || exists a, b, more :: NameSizeTime(info, name, a, b, more) && ParseInt(a) == Some(size) && ParseInt(b) == Some(modified)
  }

  ghost predicate FileSays(line: string, level: int, head: HeadSize, r: Rec) {
    && !r.isFolder && r.level == level
    && exists i: nat :: i <= |line| && UrlAt(line, i) && r.url == line[i..] && InfoSays(line[..i], r.url, head, r.name, r.size, r.modified)
  }

  lemma UrlIndex(line: string, i: nat)
    ensures UrlAt(line, i) <==> i == if Index(line, HTTP) == -1 then Index(line, HTTPS) else Index(line, HTTP)
    ensures UrlAt(line, i) ==> i <= |line| && (OccursAt(line, HTTP, i) || OccursAt(line, HTTPS, i))
  {
    hide Index, OccursAt;
    OccursWithin(line, HTTP, i);
    OccursWithin(line, HTTPS, i);
  }

  lemma OccursWithin(s: string, sub: string, i: nat)
    ensures OccursAt(s, sub, i) ==> i <= |s|
  {
  }

  // ---------- the name of a bare URL ----------

  lemma {:induction false} NoSlashesIs(x: string, after: string)
    requires AllOf(after, '/') && (x != "" ==> x[|x| - 1] != '/')
    ensures NoSlashesAtEnd(x + after) == x
    decreases |after|
  {
    if after == "" {
      assert x + after == x;
    } else {
      var n := |after| - 1;
      assert (x + after)[..|x + after| - 1] == x + after[..n];
      NoSlashesIs(x, after[..n]);
    }
  }

  lemma BaseIs(url: string, before: string, name: string, after: string)
    requires name != "" && '/' !in name && LastPartWithin(url, before, name, after)
    ensures Base(url) == name
  {
    hide LastIndexOf, NoSlashesAtEnd;
    var p := before + name;
    assert p[|p| - 1] == name[|name| - 1] && name[|name| - 1] in name;
    NoSlashesIs(p, after);
    assert forall k :: |before| <= k < |p| ==> p[k] == name[k - |before|] && p[k] in name;
    if before != "" { assert p[|before| - 1] == before[|before| - 1]; }
    assert LastIndexOf(p, '/') == |before| - 1;
    assert p[|before|..] == name;
  }

  lemma {:induction false} CutSlashes(url: string) returns (x: string, after: string)
    ensures url == x + after && AllOf(after, '/') && (x != "" ==> x[|x| - 1] != '/')
  {
    x, after := url, "";
    if url != "" && url[|url| - 1] == '/' {
      x, after := CutSlashes(url[..|url| - 1]);
      after := after + "/";
    }
  }

  /** A URL that starts with a scheme has a last part, and it is the base. */
  lemma LastPartIff(url: string, name: string)
    requires url != "" && url[0] != '/'
    ensures LastPart(url, name) <==> name == Base(url)
  {
    hide Base, LastIndexOf;
    var x, after := CutSlashes(url);
    assert x != "";
    var k := LastIndexOf(x, '/') + 1;
    var before, last := x[..k], x[k..];
    assert x == before + last && url == before + last + after;
    assert LastPartWithin(url, before, last, after);
    BaseIs(url, before, last, after);
    if LastPart(url, name) {
      var b, a :| LastPartWithin(url, b, name, a);
      BaseIs(url, b, name, a);
    }
  }

  // ---------- the parts before the URL ----------

  lemma PartsOfName(name: string)
    requires ':' !in name
    ensures Split(name, ':') == [name]
  {
  }

  lemma PartsOfSize(name: string, a: string)
    requires ':' !in name && ':' !in a
    ensures Split(name + ":" + a, ':') == [name, a]
  {
    hide Split;
    SplitCons(name, a, ':');
    PartsOfName(a);
  }

  lemma PartsOfTime(name: string, a: string, b: string, more: string)
    requires ':' !in name && ':' !in a && ':' !in b && (more != "" ==> more[0] == ':')
    ensures var parts := Split(name + ":" + a + ":" + b + more, ':');
            |parts| >= 3 && parts[0] == name && parts[1] == a && parts[2] == b
  {
    hide Split;
    SplitCons(a, b + more, ':');
    SplitCons(name, a + ":" + (b + more), ':');
    assert name + ":" + a + ":" + b + more == name + [':'] + (a + ":" + (b + more));
    if more == "" {
      assert b + more == b;
      PartsOfName(b);
    } else {
      assert b + more == b + [':'] + more[1..];
      SplitCons(b, more[1..], ':');
    }
  }

  /** What the parts between colons make together. */
  lemma PartsMake(t: string)
    ensures var parts := Split(t, ':');
            && (|parts| == 1 ==> t == parts[0])
            && (|parts| == 2 ==> t == parts[0] + ":" + parts[1])
            && (|parts| >= 3 ==> var more := if |parts| == 3 then "" else ":" + Join(parts[3..], ':');
                                 t == parts[0] + ":" + parts[1] + ":" + parts[2] + more)
  {
    hide Split;
    JoinSplit(t, ':');
    var parts := Split(t, ':');
    if |parts| >= 3 {
      JoinThree(parts);
    } else if |parts| == 2 {
      assert parts[1..] == [parts[1]];
    }
  }

  lemma JoinThree(parts: seq<string>)
    requires |parts| >= 3
    ensures var more := if |parts| == 3 then "" else ":" + Join(parts[3..], ':');
            Join(parts, ':') == parts[0] + ":" + parts[1] + ":" + parts[2] + more
  {
    var more := if |parts| == 3 then "" else ":" + Join(parts[3..], ':');
    assert parts[1..][1..] == parts[2..] && parts[2..][1..] == parts[3..];
    assert Join(parts[2..], ':') == parts[2] + more;
    assert Join(parts[1..], ':') == parts[1] + [':'] + Join(parts[2..], ':');
    Associate(parts[0], parts[1], parts[2], more);
  }

  lemma Associate(x: string, y: string, z: string, more: string)
    ensures x + [':'] + (y + [':'] + (z + more)) == x + ":" + y + ":" + z + more
  {
  }

  /** What the code reads from the text before the URL. */
  function ReadInfo(info: string, url: string, head: HeadSize): Option<(string, int, int)> {
    if info == "" then Some((Base(url), Measured(head, url), 0))
    else if !HasSuffix(info, ":") || info == ":" then None
    else
      var parts := Split(info[..|info| - 1], ':');
      if |parts| == 1 then Some((parts[0], Measured(head, url), 0))
      else
        var size := ParseInt(parts[1]);
        if size.None? then None
        else if |parts| == 2 then Some((parts[0], size.value, 0))
        else
          var modified := ParseInt(parts[2]);
          if modified.None? then None else Some((parts[0], size.value, modified.value))
  }

  lemma InfoRead(info: string, url: string, head: HeadSize, name: string, size: int, modified: int)
    requires url != "" && url[0] != '/' && InfoSays(info, url, head, name, size, modified)
    ensures ReadInfo(info, url, head) == Some((name, size, modified))
  {
    hide ParseInt, Base, LastPart, NameOnly, NameSize, NameSizeTime, ReadInfo;
    if info == "" && LastPart(url, name) && size == Measured(head, url) && modified == 0 {
      LastPartIff(url, name);
      ReadBare(url, head);
    } else if NameOnly(info, name) && size == Measured(head, url) && modified == 0 {
      ReadName(info, url, head, name);
    } else if a :| NameSize(info, name, a) && ParseInt(a) == Some(size) && modified == 0 {
      ReadSize(info, url, head, name, a);
    } else {
      var a, b, more :| NameSizeTime(info, name, a, b, more) && ParseInt(a) == Some(size) && ParseInt(b) == Some(modified);
      ReadTime(info, url, head, name, a, b, more);
    }
  }

  lemma ReadBare(url: string, head: HeadSize)
    ensures ReadInfo("", url, head) == Some((Base(url), Measured(head, url), 0))
  {
    hide Base;
  }

  lemma ReadName(info: string, url: string, head: HeadSize, name: string)
    requires NameOnly(info, name)
    ensures ReadInfo(info, url, head) == Some((name, Measured(head, url), 0))
  {
    hide ParseInt, Split, HasSuffix;
    EndsInColon(name, info);
    PartsOfName(name);
  }

  lemma ReadSize(info: string, url: string, head: HeadSize, name: string, a: string)
    requires NameSize(info, name, a) && ParseInt(a).Some?
    ensures ReadInfo(info, url, head) == Some((name, ParseInt(a).value, 0))
  {
    hide ParseInt, Split, HasSuffix;
    EndsInColon(name + ":" + a, info);
    PartsOfSize(name, a);
  }

  lemma ReadTime(info: string, url: string, head: HeadSize, name: string, a: string, b: string, more: string)
    requires NameSizeTime(info, name, a, b, more) && ParseInt(a).Some? && ParseInt(b).Some?
    ensures ReadInfo(info, url, head) == Some((name, ParseInt(a).value, ParseInt(b).value))
  {
    hide ParseInt, Split, HasSuffix;
    EndsInColon(name + ":" + a + ":" + b + more, info);
    PartsOfTime(name, a, b, more);
  }

  lemma EndsInColon(x: string, info: string)
    requires x != "" && info == x + ":"
    ensures info != "" && info != ":" && HasSuffix(info, ":") && info[..|info| - 1] == x
  {
  }

  lemma ColonEnds(info: string)
    requires HasSuffix(info, ":") && info != ":"
    ensures info != "" && info[..|info| - 1] != "" && info == info[..|info| - 1] + ":"
  {
  }

  lemma ReadInfoSays(info: string, url: string, head: HeadSize)
    requires url != "" && url[0] != '/' && ReadInfo(info, url, head).Some?
    ensures var r := ReadInfo(info, url, head).value; InfoSays(info, url, head, r.0, r.1, r.2)
  {
    hide ParseInt, Split, Base, LastPart, HasSuffix, Join;
    if info == "" {
      LastPartIff(url, Base(url));
    } else {
      ColonEnds(info);
      var parts := Split(info[..|info| - 1], ':');
      PartsMake(info[..|info| - 1]);
      if |parts| == 1 {
        assert NameOnly(info, parts[0]);
      } else if |parts| == 2 {
        assert NameSize(info, parts[0], parts[1]);
      } else {
        var more := if |parts| == 3 then "" else ":" + Join(parts[3..], ':');
        assert NameSizeTime(info, parts[0], parts[1], parts[2], more);
      }
    }
  }

  lemma ReadFileByInfo(line: string, level: int, head: HeadSize)
    ensures var i := if Index(line, HTTP) == -1 then Index(line, HTTPS) else Index(line, HTTP);
            ReadFile(line, level, head) ==
              if i == -1 then None
              else match ReadInfo(line[..i], line[i..], head)
                   case None => None
                   case Some(r) => Some(Rec(level, false, r.0, line[i..], r.1, r.2))
  {
    hide ParseInt, Split, Base, Index, HasSuffix;
  }

  /** A file line says exactly what stands in it: the URL, and before it nothing, the name, the name and the size,
      or the name, the size and the time. */
  lemma ReadFileIff(line: string, level: int, head: HeadSize, r: Rec)
    ensures ReadFile(line, level, head) == Some(r) <==> FileSays(line, level, head, r)
  {
    hide ReadInfo, InfoSays, Index, ReadFile, UrlAt, OccursAt;
    var k := if Index(line, HTTP) == -1 then Index(line, HTTPS) else Index(line, HTTP);
    ReadFileByInfo(line, level, head);
    forall i: nat ensures UrlAt(line, i) <==> i == k { UrlIndex(line, i); }
    if k >= 0 {
      UrlIndex(line, k);
      SchemeFirst(line, k);
      var info := ReadInfo(line[..k], line[k..], head);
      if info.Some? { ReadInfoSays(line[..k], line[k..], head); }
      if FileSays(line, level, head, r) { InfoRead(line[..k], line[k..], head, r.name, r.size, r.modified); }
    } else {
      assert k == -1 by { IndexBounds(line); }
    }
  }

  lemma IndexBounds(line: string)
    ensures Index(line, HTTP) >= -1 && Index(line, HTTPS) >= -1
  {
  }

  lemma SchemeFirst(line: string, i: nat)
    requires OccursAt(line, HTTP, i) || OccursAt(line, HTTPS, i)
    ensures i < |line| && line[i..][0] == 'h'
  {
    assert HTTP[0] == 'h' && HTTPS[0] == 'h';
    if OccursAt(line, HTTP, i) { OccursChars(line, HTTP, i); } else { OccursChars(line, HTTPS, i); }
  }

  // ---------- a whole line ----------

  lemma {:induction false} IndentIs(n: nat, x: string)
    requires x != "" ==> x[0] != ' '
    ensures Indent(Spaces(n) + x) == n && (Spaces(n) + x)[n..] == x
  {
    hide Indent, Spaces;
    var line := Spaces(n) + x;
    assert forall k :: 0 <= k < n ==> line[k] == ' ';
    assert n < |line| ==> line[n] == x[0];
  }

  /** What a line with something in it is, whatever spaces follow it: malformed where the number of blanks is odd, a
      folder where it ends in a colon, and a file otherwise. */
  lemma LineIs(n: nat, a: string, body: string, b: string, head: HeadSize)
    requires AllSpaces(a) && (a != "" ==> a[0] != ' ') && AllSpaces(b) && body != "" && Trimmed(body)
    ensures var last := |body| - 1;
            ReadLine(Spaces(n) + (a + body + b), head) ==
              if n % 2 != 0 then Malformed
              else if body[last] == ':' then Line(Rec(n / 2, true, body[..last], "", 0, 0))
              else match ReadFile(body, n / 2, head)
                   case None => Malformed
                   case Some(r) => Line(r)
  {
    hide IsSpace, TrimSpace, Indent, Spaces, ReadFile, HasSuffix;
    NotSpaces();
    var rest := a + body + b;
    assert rest[0] == if a != "" then a[0] else body[0];
    IndentIs(n, rest);
    TrimSpaceIs(a, body, b);
    SuffixColon(body);
  }

  /** Spaces after a line, as the '\r' before a line end, make no difference, but that blanks after blanks only
      add to the indentation. */
  lemma SpacesAfterLine(text: string, b: string, head: HeadSize)
    requires AllSpaces(b) && (Indent(text) < |text| || (b != "" ==> b[0] != ' '))
    ensures ReadLine(text + b, head) == ReadLine(text, head)
  {
    hide *;
    var n := Indent(text);
    SameIndent(text, b);
    RestOf(text, b, n);
    TrimMore(text[n..], b);
    SameLine(text + b, text, head);
  }

  lemma RestOf(text: string, b: string, n: nat)
    requires n <= |text|
    ensures (text + b)[n..] == text[n..] + b
  {
  }

  lemma SameLine(text: string, text': string, head: HeadSize)
    requires Indent(text) == Indent(text') && TrimSpace(text[Indent(text)..]) == TrimSpace(text'[Indent(text')..])
    ensures ReadLine(text, head) == ReadLine(text', head)
  {
    hide IsSpace, TrimSpace, ReadFile, HasSuffix, Indent;
  }

  lemma SameIndent(text: string, b: string)
    requires Indent(text) < |text| || (b != "" ==> b[0] != ' ')
    ensures Indent(text + b) == Indent(text)
  {
    hide Indent;
    var n, m := Indent(text), Indent(text + b);
    assert n < |text| ==> (text + b)[n] == text[n];
    assert n == |text| && b != "" ==> (text + b)[n] == b[0];
    assert forall k :: 0 <= k < n ==> (text + b)[k] == text[k];
  }

  lemma TrimMore(rest: string, b: string)
    requires AllSpaces(b)
    ensures TrimSpace(rest + b) == TrimSpace(rest)
  {
    hide IsSpace, TrimSpace;
    var a, b0 := TrimSpaceKeeps(rest);
    assert rest + b == a + TrimSpace(rest) + (b0 + b);
    TrimSpaceIs(a, TrimSpace(rest), b0 + b);
  }

  /** A line of spaces is blank, or malformed. */
  lemma BlankIs(n: nat, a: string, head: HeadSize)
    requires AllSpaces(a) && (a != "" ==> a[0] != ' ')
    ensures ReadLine(Spaces(n) + a, head) == if n % 2 != 0 then Malformed else Blank
  {
    hide IsSpace, TrimSpace, Indent, Spaces;
    IndentIs(n, a);
    TrimSpaces(a);
  }

  /** The lines of two texts are those of the first and those of the second; blank ones add none. */
  lemma {:induction false} ReadLinesAppend(x: seq<string>, y: seq<string>, head: HeadSize)
    ensures var r, s := ReadLines(x, head), ReadLines(y, head);
            ReadLines(x + y, head) == if r.None? || s.None? then None else Some(r.value + s.value)
    decreases |y|
  {
    hide ReadLine;
    if y == [] {
      assert x + y == x;
      assert ReadLines(x, head).Some? ==> ReadLines(x, head).value + [] == ReadLines(x, head).value;
    } else {
      var n := |y| - 1;
      assert (x + y)[..|x + y| - 1] == x + y[..n];
      ReadLinesAppend(x, y[..n], head);
      assert (x + y)[|x + y| - 1] == y[n];
      var r, before, last := ReadLines(x, head), ReadLines(y[..n], head), ReadLine(y[n], head);
      if r.Some? && before.Some? && last.Line? {
        assert (r.value + before.value) + [last.rec] == r.value + (before.value + [last.rec]);
      }
    }
  }

  /** A line of blanks between others changes nothing. */
  lemma BlankLineVanishes(x: seq<string>, line: string, y: seq<string>, head: HeadSize)
    requires ReadLine(line, head).Blank?
    ensures ReadLines(x + [line] + y, head) == ReadLines(x + y, head)
  {
    hide ReadLine;
    assert [line][..0] == [] && ReadLines([line], head) == Some([]);
    ReadLinesAppend(x, [line], head);
    ReadLinesAppend(x + [line], y, head);
    ReadLinesAppend(x, y, head);
    assert ReadLines(x, head).Some? ==> ReadLines(x, head).value + [] == ReadLines(x, head).value;
  }

  // ---------- written lines ----------

  /** The text before the URL has no colon before a slash, and does not begin with a space. */
  ghost predicate InfoWritable(info: string) {
    && (forall k :: 0 <= k < |info| - 1 && info[k] == ':' ==> info[k + 1] != '/')
    && (info != "" ==> !IsSpace(info[0]) && info[|info| - 1] == ':')
  }

  lemma UrlFoundAfter(info: string, url: string)
    requires InfoWritable(info) && UrlWritable(url)
    ensures UrlAt(info + url, |info|)
  {
    hide UrlAt, IsSpace, Index, OccursAt, Occurs;
    UrlIndex(info + url, |info|);
    if info != "" {
      UrlFound(info, url);
    } else {
      assert info + url == url;
      UrlFirst(url);
    }
  }

  lemma UrlFirst(url: string)
    requires UrlWritable(url)
    ensures UrlAt(url, 0)
  {
    hide IsSpace, OccursAt, Occurs;
    UrlStart(url);
  }

  lemma LetterIsNoSpace()
    ensures !IsSpace('h')
  {
  }

  /** A line that is written as blanks, the text before the URL, the URL and any spaces is read as what it says. */
  lemma ReadWrittenInfo(level: nat, info: string, url: string, b: string, head: HeadSize, name: string, size: int, modified: int)
    requires InfoWritable(info) && UrlWritable(url) && AllSpaces(b) && InfoSays(info, url, head, name, size, modified)
    ensures ReadLine(Spaces(2 * level) + ("" + (info + url) + b), head) == Line(Rec(level, false, name, url, size, modified))
  {
    hide *;
    var body := info + url;
    BodyOf(info, url);
    NoSpaces();
    LineIs(2 * level, "", body, b, head);
    UrlFoundAfter(info, url);
    var r := Rec(level, false, name, url, size, modified);
    SaysAfter(info, url, level, head, r);
    ReadFileIff(body, level, head, r);
  }

  lemma SaysAfter(info: string, url: string, level: int, head: HeadSize, r: Rec)
    requires UrlAt(info + url, |info|) && !r.isFolder && r.level == level && r.url == url
    requires InfoSays(info, url, head, r.name, r.size, r.modified)
    ensures FileSays(info + url, level, head, r)
  {
    hide UrlAt, InfoSays;
    assert (info + url)[|info|..] == url && (info + url)[..|info|] == info;
  }

  lemma BodyOf(info: string, url: string)
    requires InfoWritable(info) && UrlWritable(url)
    ensures var body := info + url; body != "" && Trimmed(body) && body[|body| - 1] != ':'
  {
    hide IsSpace, Occurs;
    UrlStart(url);
    LetterIsNoSpace();
    var body := info + url;
    assert body[0] == (if info != "" then info[0] else url[0]) && body[|body| - 1] == url[|url| - 1];
  }

  /** "name:url" */
  lemma ReadNameUrl(level: nat, name: string, url: string, b: string, head: HeadSize)
    requires name != "" && ':' !in name && !IsSpace(name[0]) && UrlWritable(url) && AllSpaces(b)
    ensures ReadLine(Spaces(2 * level) + ("" + (name + ":" + url) + b), head)
            == Line(Rec(level, false, name, url, if head(url).Some? then head(url).value else 0, 0))
  {
    hide IsSpace, ReadLine, UrlWritable, Spaces;
    var info := name + ":";
    assert forall k :: 0 <= k < |name| ==> info[k] == name[k] && info[k] in name;
    assert NameOnly(info, name);
    ReadWrittenInfo(level, info, url, b, head, name, Measured(head, url), 0);
  }

  /** "name:size:url", whatever a HEAD request reports. */
  lemma ReadNameSizeUrl(level: nat, name: string, size: int, url: string, b: string, head: HeadSize)
    requires name != "" && ':' !in name && !IsSpace(name[0]) && MIN_INT64 <= size <= MAX_INT64
    requires UrlWritable(url) && AllSpaces(b)
    ensures ReadLine(Spaces(2 * level) + ("" + (name + ":" + FormatInt(size) + ":" + url) + b), head)
            == Line(Rec(level, false, name, url, size, 0))
  {
    hide IsSpace, ReadLine, UrlWritable, Spaces, FormatInt, ParseInt;
    var a := FormatInt(size);
    var info := name + ":" + a + ":";
    FormatChars(size);
    ParseFormat(size);
    SizedInfo(name, a);
    assert NameSize(info, name, a);
    ReadWrittenInfo(level, info, url, b, head, name, size, 0);
  }

  lemma SizedInfo(name: string, a: string)
    requires name != "" && ':' !in name && !IsSpace(name[0]) && a != "" && forall c :: c in a ==> IsDigit(c) || c == '-'
    ensures InfoWritable(name + ":" + a + ":") && ':' !in a
  {
    hide IsSpace;
    var info := name + ":" + a + ":";
    forall k | 0 <= k < |info| - 1 && info[k] == ':' ensures info[k + 1] != '/' {
      if |name| <= k < |info| - 2 {
        assert info[k + 1] == a[k - |name|] && a[k - |name|] in a;
      }
    }
  }

  /** A bare URL: the name is what follows its last slash, but for slashes at its end. */
  lemma ReadBareUrl(level: nat, before: string, name: string, after: string, b: string, head: HeadSize)
    requires name != "" && '/' !in name && AllOf(after, '/') && (before != "" ==> before[|before| - 1] == '/')
    requires UrlWritable(before + name + after) && AllSpaces(b)
    ensures var url := before + name + after;
            ReadLine(Spaces(2 * level) + ("" + ("" + url) + b), head)
            == Line(Rec(level, false, name, url, if head(url).Some? then head(url).value else 0, 0))
  {
    hide IsSpace, ReadLine, UrlWritable, Spaces;
    var url := before + name + after;
    assert LastPartWithin(url, before, name, after) && LastPart(url, name);
    ReadWrittenInfo(level, "", url, b, head, name, Measured(head, url), 0);
  }
}
