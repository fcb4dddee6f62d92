/** How the importer of drivers/strm_list/driver.go reads a line, by the texts that stand in it. */
module StrmLines {
  import opened Common
  import opened Strings
  import opened StrmTable

  /** A line is skipped as malformed exactly when it has no number sign, or nothing but spaces before its first
      one, or nothing but spaces after it. */
  lemma SkippedIff(text: string)
    ensures var i := IndexOf(text, '#');
            ReadLine(text).None? <==> i < 0 || AllSpaces(text[..i]) || AllSpaces(text[i + 1..])
  {
    hide IsSpace, IndexOf, TrimSpace, Trim, Split, Names, AllSpaces, Trimmed;
    var a, b := TrimSpaceKeeps(text);
    var line := TrimSpace(text);
    if '#' in line {
      var j := IndexOf(line, '#');
      HashWithin(a, line, b);
      SpacesBefore(a, line[..j]);
      SpacesAfter(line[j + 1..], b);
      TrimmedIsEmpty(line[..j]);
      TrimmedIsEmpty(line[j + 1..]);
    } else {
      NoHash(a, line, b);
    }
  }

  lemma NoHash(a: string, line: string, b: string)
    requires AllSpaces(a) && AllSpaces(b) && '#' !in line
    ensures IndexOf(a + line + b, '#') < 0
  {
    hide IsSpace, IndexOf;
    HashIsNoSpace(a);
    HashIsNoSpace(b);
  }

  lemma HashIsNoSpace(a: string)
    requires AllSpaces(a)
    ensures '#' !in a
  {
    assert !IsSpace('#');
  }

  lemma HashWithin(a: string, line: string, b: string)
    requires AllSpaces(a) && '#' in line
    ensures var text, j := a + line + b, IndexOf(line, '#');
            var i := IndexOf(text, '#');
            line != "" && j >= 0 && i == |a| + j && text[..i] == a + line[..j] && text[i + 1..] == line[j + 1..] + b
  {
    hide IndexOf, IsSpace;
    var text, j := a + line + b, IndexOf(line, '#');
    HashIsNoSpace(a);
    assert text[|a| + j] == '#';
    assert forall k :: 0 <= k < |a| ==> text[k] == a[k];
    assert forall k :: |a| <= k < |a| + j ==> text[k] == line[k - |a|];
  }

  lemma SpacesBefore(a: string, x: string)
    requires AllSpaces(a)
    ensures AllSpaces(a + x) <==> AllSpaces(x)
  {
    hide IsSpace;
    assert forall c :: c in x ==> c in a + x;
  }

  lemma SpacesAfter(x: string, b: string)
    requires AllSpaces(b)
    ensures AllSpaces(x + b) <==> AllSpaces(x)
  {
    hide IsSpace;
    assert forall c :: c in x ==> c in x + b;
  }

  lemma TrimmedIsEmpty(x: string)
    ensures TrimSpace(x) == "" <==> AllSpaces(x)
  {
    hide IsSpace, TrimSpace;
    var a, b := TrimSpaceKeeps(x);
    var t := TrimSpace(x);
    if t == "" { assert x == a + b; }
    if AllSpaces(x) { TrimSpaces(x); }
  }

  // ---------- what a line says ----------

  /** Each part is the name with spaces around it. */
  ghost predicate Padded(parts: seq<string>, p: seq<string>) {
    |parts| == |p| && forall k :: 0 <= k < |p| ==> PaddedPart(parts[k], p[k])
  }

  ghost predicate PaddedPart(part: string, name: string) {
    exists a, b :: AllSpaces(a) && AllSpaces(b) && part == a + name + b
  }

  lemma PaddedTrims(part: string, name: string)
    requires PaddedPart(part, name) && Trimmed(name)
    ensures TrimSpace(part) == name
  {
    hide IsSpace, TrimSpace;
    var a, b :| AllSpaces(a) && AllSpaces(b) && part == a + name + b;
    TrimSpaceIs(a, name, b);
  }

  /** The names of some parts are the names of the first of them and then those of the others. */
  lemma {:induction false} NamesAppend(x: seq<string>, y: seq<string>)
    requires forall p :: p in x + y ==> '/' !in p
    ensures (forall p :: p in x ==> '/' !in p) && (forall p :: p in y ==> '/' !in p)
    ensures Names(x + y) == Names(x) + Names(y)
    decreases |y|
  {
    hide TrimSpace;
    assert forall p :: p in x || p in y ==> p in x + y;
    if y == [] {
      assert x + y == x;
    } else {
      var n := |y| - 1;
      assert (x + y)[..|x + y| - 1] == x + y[..n];
      NamesAppend(x, y[..n]);
    }
  }

  /** A part of spaces gives no name, any other the name without the spaces around it. */
  lemma NamesOne(part: string, name: string)
    requires '/' !in part && PaddedPart(part, name) && Trimmed(name)
    ensures Names([part]) == if name == "" then [] else [name]
  {
    hide TrimSpace;
    PaddedTrims(part, name);
    assert [part][..0] == [] && Names([]) == [];
  }

  lemma {:induction false} NamesPadded(parts: seq<string>, p: seq<string>)
    requires Padded(parts, p) && (forall part :: part in parts ==> '/' !in part) && forall n :: n in p ==> n != "" && Trimmed(n)
    ensures Names(parts) == p
    decreases |p|
  {
    hide TrimSpace, PaddedPart, Trimmed;
    if p != [] {
      var n := |p| - 1;
      assert p[n] in p && parts[n] in parts && forall x :: x in p[..n] ==> x in p;
      PaddedTrims(parts[n], p[n]);
      NamesPadded(parts[..n], p[..n]);
    }
  }

  /** A part of a path as the importer takes it between slashes; the first and the last are not empty. */
  predicate PathParts(parts: seq<string>) {
    && parts != [] && parts[0] != "" && parts[|parts| - 1] != ""
    && forall part :: part in parts ==> '/' !in part && '#' !in part
  }

  lemma {:induction false} JoinedBounds(parts: seq<string>)
    requires PathParts(parts)
    ensures Joined(parts) != "" && Joined(parts)[0] == parts[0][0] != '/' && Joined(parts)[|Joined(parts)| - 1] != '/'
    ensures '#' !in Joined(parts)
  {
    assert parts[0] in parts && parts[|parts| - 1] in parts;
    JoinedFrom(parts);
  }

  /** The same of the last parts, where the first of them may be empty. */
  lemma {:induction false} JoinedFrom(parts: seq<string>)
    requires parts != [] && parts[|parts| - 1] != "" && forall part :: part in parts ==> '/' !in part && '#' !in part
    ensures Joined(parts) != "" && Joined(parts)[|Joined(parts)| - 1] != '/' && '#' !in Joined(parts)
    ensures parts[0] != "" ==> Joined(parts)[0] == parts[0][0]
  {
    if |parts| == 1 {
      assert parts[0][|parts[0]| - 1] in parts[0];
    } else {
      JoinedFrom(parts[1..]);
      assert parts[0] in parts;
    }
  }

  /** Spaces, slashes, the parts of the path with slashes between them, slashes, a number sign, spaces, the
      content and spaces: the line is read as the names in the parts and the content. */
  lemma ReadSpaced(a: string, s1: string, parts: seq<string>, s2: string, b: string, content: string, c: string)
    requires AllSpaces(a) && AllSpaces(b) && AllSpaces(c) && AllOf(s1, '/') && AllOf(s2, '/')
    requires PathParts(parts) && (s1 == "" ==> !IsSpace(parts[0][0]))
    requires content != "" && Trimmed(content)
    ensures forall part :: part in parts[..|parts| - 1] ==> '/' !in part
    ensures ReadLine(a + ((s1 + Joined(parts) + s2) + "#" + b + content) + c)
            == Some(Line(Names(parts[..|parts| - 1]), TrimSpace(parts[|parts| - 1]), content))
  {
    hide TrimSpace, Trim, Split, IndexOf, IsSpace, Names, Joined;
    var path := s1 + Joined(parts) + s2;
    var line := path + "#" + b + content;
    var text := a + line + c;
    JoinedBounds(parts);
    SlashIsNoSpace();
    HashFirst(path, b + content);
    assert path + "#" + (b + content) == line;
    assert path != "" && !IsSpace(path[0]) by { assert path[0] == if s1 != "" then s1[0] else Joined(parts)[0]; }
    assert line[0] == path[0] && line[|line| - 1] == content[|content| - 1];
    TrimSpaceIs(a, line, c);
    NotBlank(path);
    assert b + content + "" == b + content;
    TrimSpaceIs(b, content, "");
    TrimIs(s1, Joined(parts), s2, '/');
    SplitJoined(parts);
  }

  lemma SlashIsNoSpace()
    ensures !IsSpace('/')
  {
  }

  lemma SplitJoined(parts: seq<string>)
    requires PathParts(parts)
    ensures Split(Joined(parts), '/') == parts
  {
    SplitJoin(parts, '/');
  }

  lemma HashFirst(path: string, rest: string)
    requires '#' !in path
    ensures var line := path + "#" + rest; IndexOf(line, '#') == |path| && line[..|path|] == path && line[|path| + 1..] == rest
  {
    hide IndexOf;
    var line := path + "#" + rest;
    assert line[|path|] == '#' && forall k :: 0 <= k < |path| ==> line[k] == path[k];
  }

  lemma NotBlank(path: string)
    requires path != "" && !IsSpace(path[0])
    ensures TrimSpace(path) != ""
  {
    hide IsSpace, TrimSpace;
    TrimmedIsEmpty(path);
    assert path[0] in path;
  }

  /** With spaces around every name of the path and around the content, and slashes around the path, the line
      says the path and the content. */
  lemma ReadPadded(a: string, s1: string, parts: seq<string>, p: seq<string>, s2: string, b: string, content: string, c: string)
    requires AllSpaces(a) && AllSpaces(b) && AllSpaces(c) && AllOf(s1, '/') && AllOf(s2, '/')
    requires PathParts(parts) && (s1 == "" ==> !IsSpace(parts[0][0]))
    requires Padded(parts, p) && (forall n :: n in p ==> n != "" && Trimmed(n)) && content != "" && Trimmed(content)
    ensures var l := ReadLine(a + ((s1 + Joined(parts) + s2) + "#" + b + content) + c);
            Accepted(l) && PathOf(l.value) == p && l.value.content == content
  {
    hide TrimSpace, Joined, Names, IsSpace, Trimmed, PaddedPart, ReadLine;
    ReadSpaced(a, s1, parts, s2, b, content, c);
    var n := |p| - 1;
    assert p[n] in p && parts[n] in parts && forall x :: x in p[..n] ==> x in p;
    assert forall part :: part in parts[..n] ==> part in parts;
    PaddedTrims(parts[n], p[n]);
    NamesPadded(parts[..n], p[..n]);
    assert p == p[..n] + [p[n]];
  }
}
