/** Reading back an import: findNodeByPath, List and Link of drivers/strm_list/driver.go. Where several rows
    match, the database may return any of them, so the walk is a relation. */
module StrmLookup {
  import opened Common
  import opened Strings
  import opened StrmTable

  /** Row r matches the query of one step of the walk. */
  predicate Matches(r: Row, parent: int, name: string) { r.parent == parent && r.name == name }

  /** The walk over `names` from the row with id `parent` may end in `result`: a row, or None for the error. */
  ghost predicate CanReturn(rows: seq<Row>, parent: int, names: seq<string>, result: Option<Row>)
    requires names != []
    decreases |names|, 1
  {
    if forall r :: r in rows ==> !Matches(r, parent, names[0]) then result == None
    else exists r :: r in rows && Matches(r, parent, names[0]) && Onward(rows, r, names, result)
  }

  ghost predicate Onward(rows: seq<Row>, r: Row, names: seq<string>, result: Option<Row>)
    requires names != []
    decreases |names|, 0
  {
    if |names| == 1 then result == Some(r) else CanReturn(rows, r.id, names[1..], result)
  }

  /** The UTF-8 length of a character. */
  function CharBytes(c: char): nat {
    if c as int < 0x80 then 1 else if c as int < 0x800 then 2 else if c as int < 0x10000 then 3 else 4
  }

  /** The number of bytes of the UTF-8 form of s. */
  function ByteLen(s: string): nat {
    if s == "" then 0 else CharBytes(s[0]) + ByteLen(s[1..])
  }

  /** The UTF-8 form of a character, section 3 of RFC 3629. */
  function Utf8(c: char): seq<nat> {
    var x := c as int;
    if x < 0x80 then [x]
    else if x < 0x800 then [0xC0 + x / 64, 0x80 + x % 64]
    else if x < 0x10000 then [0xE0 + x / 64 / 64, 0x80 + x / 64 % 64, 0x80 + x % 64]
    else [0xF0 + x / 64 / 64 / 64, 0x80 + x / 64 / 64 % 64, 0x80 + x / 64 % 64, 0x80 + x % 64]
  }

  /** How many bytes a character has whose first byte is this. */
  function Following(lead: nat): nat { if lead < 0xC0 then 0 else if lead < 0xE0 then 1 else if lead < 0xF0 then 2 else 3 }

  /** The number that the first byte and those after it stand for. */
  function Decoded(u: seq<nat>): int
    requires u != []
  {
    if |u| == 1 then u[0] - (if u[0] < 0xC0 then 0 else if u[0] < 0xE0 then 0xC0 else if u[0] < 0xF0 then 0xE0 else 0xF0)
    else Decoded(u[..|u| - 1]) * 64 + u[|u| - 1] - 0x80
  }

  /** The first byte tells how many follow, and together they give the character back. */
  lemma Utf8Value(c: char)
    ensures var u := Utf8(c); |u| == Following(u[0]) + 1 && Decoded(u) == c as int
    ensures forall k :: 1 <= k < |Utf8(c)| ==> 0x80 <= Utf8(c)[k] < 0xC0
  {
    var u := Utf8(c);
    var lead := Decoded(u[..1]);
    if |u| == 2 {
      assert Decoded(u) == lead * 64 + u[1] - 0x80;
    } else if |u| == 3 {
      assert u[..2][..1] == u[..1] && Decoded(u[..2]) == lead * 64 + u[1] - 0x80;
    } else if |u| == 4 {
      assert u[..2][..1] == u[..1] && Decoded(u[..2]) == lead * 64 + u[1] - 0x80;
      assert u[..3][..2] == u[..2] && Decoded(u[..3]) == Decoded(u[..2]) * 64 + u[2] - 0x80;
    }
  }

  function Encoded(s: string): seq<nat> { if s == "" then [] else Utf8(s[0]) + Encoded(s[1..]) }

  /** ByteLen counts the bytes that are sent. */
  lemma {:induction false} ByteLenIsEncoded(s: string)
    ensures ByteLen(s) == |Encoded(s)|
  {
    if s != "" { ByteLenIsEncoded(s[1..]); }
  }

  datatype Found = Found(id: int, isDir: bool, content: string)

  datatype Obj = Obj(name: string, size: nat, isFolder: bool)

  function Listed(r: Row): Obj {
    Obj(r.name, if r.isDir then 0 else ByteLen(r.content) + 80, r.isDir)
  }

  /** The objects of the rows below `parent`. */
  function Listing(rows: seq<Row>, parent: int): seq<Obj> {
    if rows == [] then []
    else Listing(rows[..|rows| - 1], parent) + if rows[|rows| - 1].parent == parent then [Listed(rows[|rows| - 1])] else []
  }

  /** What looking up the text of a path may find: the root without padding, or the end of a walk. */
  ghost predicate MayFind(rows: seq<Row>, path: string, found: Option<Found>) {
    if Trim(path, '/') == "" then found == Some(Found(0, true, ""))
    else exists result :: CanReturn(rows, 0, Split(Trim(path, '/'), '/'), result) && found == Padded(result)
  }

  function Padded(result: Option<Row>): Option<Found> {
    if result.None? then None
    else Some(Found(result.value.id, result.value.isDir, result.value.content + PAD))
  }

  /** findNodeByPath */
  method FindNodeByPath(rows: seq<Row>, path: string) returns (found: Option<Found>)
    ensures MayFind(rows, path, found)
  {
    var p := Trim(path, '/');
    if p == "" { return Some(Found(0, true, "")); }
    var parts := Split(p, '/');
    var currentParent, k := 0, 0;
    var row := ROOT;
    while k < |parts|
      invariant 0 <= k <= |parts|
      invariant k > 0 ==> row.id == currentParent
      invariant k < |parts| ==> forall result :: CanReturn(rows, currentParent, parts[k..], result) ==> CanReturn(rows, 0, parts, result)
      invariant k == |parts| ==> CanReturn(rows, 0, parts, Some(row))
    {
      if forall j :: 0 <= j < |rows| ==> !Matches(rows[j], currentParent, parts[k]) {
        assert CanReturn(rows, currentParent, parts[k..], None);
        assert Padded(None) == None;
        return None;
      }
      var j :| 0 <= j < |rows| && Matches(rows[j], currentParent, parts[k]);
      row := rows[j];
      StepOn(rows, currentParent, parts[k..], row);
      assert parts[k..][1..] == parts[k + 1..];
      currentParent := row.id;
      k := k + 1;
    }
    assert Padded(Some(row)) == Some(Found(row.id, row.isDir, row.content + PAD));
    return Some(Found(row.id, row.isDir, row.content + PAD));
  }

  lemma StepOn(rows: seq<Row>, parent: int, names: seq<string>, r: Row)
    requires names != [] && r in rows && Matches(r, parent, names[0])
    ensures |names| == 1 ==> CanReturn(rows, parent, names, Some(r))
    ensures |names| > 1 ==> forall result :: CanReturn(rows, r.id, names[1..], result) ==> CanReturn(rows, parent, names, result)
  {
    if |names| == 1 {
      assert Onward(rows, r, names, Some(r));
    } else {
      forall result | CanReturn(rows, r.id, names[1..], result) ensures CanReturn(rows, parent, names, result) {
        assert Onward(rows, r, names, result);
      }
    }
  }

  /** The loop of List over the rows below the node. */
  method ListChildren(rows: seq<Row>, nodeId: int) returns (objs: seq<Obj>)
    ensures objs == Listing(rows, nodeId)
  {
    objs := [];
    for k := 0 to |rows|
      invariant objs == Listing(rows[..k], nodeId)
    {
      assert rows[..k + 1][..k] == rows[..k];
      if rows[k].parent == nodeId {
        var size := ByteLen(rows[k].content) + 80;
        if rows[k].isDir { size := 0; }
        objs := objs + [Obj(rows[k].name, size, rows[k].isDir)];
      }
    }
    assert rows[..|rows|] == rows;
  }

  // ---------- where a walk can end ----------

  /** In an imported table, row i is below directory d under the name n exactly when its path says so. */
  lemma MatchIsPath(rows: seq<Row>, paths: seq<seq<string>>, d: int, n: string, i: int)
    requires TreeOk(rows, paths) && 0 <= d < |rows| && rows[d].isDir && 0 <= i < |rows|
    ensures Matches(rows[i], d, n) <==> paths[i] == paths[d] + [n]
    ensures i < |rows| ==> rows[i].id == i
  {
    assert RowOk(rows, paths, i);
    if i > 0 && paths[i] == paths[d] + [n] {
      var p := rows[i].parent;
      assert paths[i][..|paths[i]| - 1] == paths[d] && paths[i][..|paths[i]| - 1] == paths[p];
    }
  }

  /** A row below a file does not exist. */
  lemma NothingBelowFile(rows: seq<Row>, paths: seq<seq<string>>, f: int, i: int)
    requires TreeOk(rows, paths) && 0 <= f < |rows| && !rows[f].isDir && 0 <= i < |rows|
    ensures rows[i].parent != f
  {
    assert RowOk(rows, paths, i);
  }

  /** A file whose path is a proper beginning of q, at least `from` names long, stands in the way. */
  ghost predicate Blocked(rows: seq<Row>, paths: seq<seq<string>>, q: seq<string>, from: nat)
    requires |paths| == |rows|
  {
    exists i :: 0 <= i < |rows| && !rows[i].isDir && from < |paths[i]| < |q| && paths[i] <= q
  }

  /** Row i has the path q. */
  ghost predicate RowAt(rows: seq<Row>, paths: seq<seq<string>>, q: seq<string>, i: int)
    requires |paths| == |rows|
  {
    0 <= i < |rows| && paths[i] == q
  }

  ghost predicate AnyAt(rows: seq<Row>, paths: seq<seq<string>>, q: seq<string>)
    requires |paths| == |rows|
  {
    exists i :: RowAt(rows, paths, q, i)
  }

  /** One step of the walk, by paths instead of parents. */
  lemma StepByPath(rows: seq<Row>, paths: seq<seq<string>>, q: seq<string>, k: nat, d: int, result: Option<Row>)
    requires TreeOk(rows, paths) && k < |q| && 0 <= d < |rows| && rows[d].isDir && paths[d] == q[..k]
    ensures CanReturn(rows, d, q[k..], result) <==>
      if AnyAt(rows, paths, q[..k + 1])
      then exists i :: RowAt(rows, paths, q[..k + 1], i) && Onward(rows, rows[i], q[k..], result)
      else result == None
  {
    hide RowOk, Onward;
    assert q[..k + 1] == q[..k] + [q[k]] && q[k..][0] == q[k];
    forall i | 0 <= i < |rows| ensures Matches(rows[i], d, q[k]) <==> RowAt(rows, paths, q[..k + 1], i) {
      MatchIsPath(rows, paths, d, q[k], i);
    }
    assert (exists r :: r in rows && Matches(r, d, q[k])) <==> AnyAt(rows, paths, q[..k + 1]) by {
      if i :| 0 <= i < |rows| && paths[i] == q[..k + 1] { assert RowAt(rows, paths, q[..k + 1], i) && rows[i] in rows; }
    }
  }

  /** Where all directories above q exist: the walk from directory d, k names down, can end in any row with
      the path q, and it can fail exactly when there is no such row or a file stands in the way. */
  lemma {:induction false} WalkEnds(rows: seq<Row>, paths: seq<seq<string>>, q: seq<string>, k: nat, d: int, result: Option<Row>)
    requires TreeOk(rows, paths) && k < |q| && (forall j :: k <= j < |q| ==> HasDir(rows, paths, q[..j]))
    requires 0 <= d < |rows| && rows[d].isDir && paths[d] == q[..k]
    ensures CanReturn(rows, d, q[k..], result) <==>
      if result.Some? then exists i :: RowAt(rows, paths, q, i) && rows[i] == result.value
      else Blocked(rows, paths, q, k) || !AnyAt(rows, paths, q)
    decreases |q| - k
  {
    StepByPath(rows, paths, q, k, d, result);
    if k + 1 == |q| {
      assert q[..k + 1] == q;
    } else {
      var q' := q[..k + 1];
      assert HasDir(rows, paths, q');
      var d' :| 0 <= d' < |rows| && rows[d'].isDir && paths[d'] == q';
      WalkEnds(rows, paths, q, k + 1, d', result);
      assert q[k..][1..] == q[k + 1..];
      forall i | RowAt(rows, paths, q', i)
        ensures Onward(rows, rows[i], q[k..], result) <==>
          if rows[i].isDir then CanReturn(rows, d', q[k + 1..], result) else result == None
      {
        MatchIsPath(rows, paths, d, q[k], i);
        if !rows[i].isDir {
          forall r | r in rows ensures !Matches(r, i, q[k + 1]) {
            var j :| 0 <= j < |rows| && rows[j] == r;
            NothingBelowFile(rows, paths, i, j);
          }
        }
      }
      assert RowAt(rows, paths, q', d');
      BlockedStep(rows, paths, q, k);
    }
  }

  lemma BlockedStep(rows: seq<Row>, paths: seq<seq<string>>, q: seq<string>, k: nat)
    requires |paths| == |rows| && k + 1 < |q|
    ensures Blocked(rows, paths, q, k) <==>
      Blocked(rows, paths, q, k + 1) || exists i :: RowAt(rows, paths, q[..k + 1], i) && !rows[i].isDir
  {
    forall i | 0 <= i < |rows| && |paths[i]| == k + 1 ensures paths[i] <= q <==> RowAt(rows, paths, q[..k + 1], i) {
    }
    if i :| 0 <= i < |rows| && RowAt(rows, paths, q[..k + 1], i) && !rows[i].isDir {
      assert k < |paths[i]| < |q| && paths[i] <= q;
    }
  }

  // ---------- what the walk reads ----------

  /** A line puts the file p with the content c into the table. */
  ghost predicate LineSays(lines: seq<string>, j: int, p: seq<string>, c: string) {
    0 <= j < |lines| && Accepted(ReadLine(lines[j])) && PathOf(ReadLine(lines[j]).value) == p && ReadLine(lines[j]).value.content == c
  }

  ghost predicate FileAt(rows: seq<Row>, paths: seq<seq<string>>, i: int, p: seq<string>, c: string)
    requires |paths| == |rows|
  {
    RowAt(rows, paths, p, i) && !rows[i].isDir && rows[i].content == c
  }

  ghost predicate Said(lines: seq<string>, p: seq<string>, c: string) { exists j :: LineSays(lines, j, p, c) }

  ghost predicate Stored(rows: seq<Row>, paths: seq<seq<string>>, p: seq<string>, c: string) {
    |paths| == |rows| && exists i :: FileAt(rows, paths, i, p, c)
  }

  lemma {:induction false} WantedSays(lines: seq<string>, p: seq<string>, c: string)
    ensures (p, c) in Wanted(lines) <==> Said(lines, p, c)
  {
    hide ReadLine;
    if lines != [] {
      var init := lines[..|lines| - 1];
      WantedSays(init, p, c);
      SaidSnoc(init, lines[|init|], p, c);
      assert lines == init + [lines[|init|]];
    }
  }

  lemma SaidSnoc(lines: seq<string>, text: string, p: seq<string>, c: string)
    ensures Said(lines + [text], p, c) <==> Said(lines, p, c) || LineSays([text], 0, p, c)
  {
    hide ReadLine;
    var ls := lines + [text];
    assert forall j :: 0 <= j < |lines| ==> (LineSays(lines, j, p, c) <==> LineSays(ls, j, p, c));
    assert LineSays([text], 0, p, c) <==> LineSays(ls, |lines|, p, c);
  }

  lemma {:induction false} FilesSay(rows: seq<Row>, paths: seq<seq<string>>, p: seq<string>, c: string)
    requires |paths| == |rows|
    ensures (p, c) in FilesOf(rows, paths) <==> Stored(rows, paths, p, c)
  {
    if rows != [] {
      var n := |rows| - 1;
      FilesSay(rows[..n], paths[..n], p, c);
      assert forall i :: 0 <= i < n ==> (FileAt(rows[..n], paths[..n], i, p, c) <==> FileAt(rows, paths, i, p, c));
      assert Stored(rows, paths, p, c) <==> Stored(rows[..n], paths[..n], p, c) || FileAt(rows, paths, n, p, c);
    }
  }

  /** The files of an imported table are those of the accepted lines. */
  lemma FilesAreLines(lines: seq<string>, rows: seq<Row>, paths: seq<seq<string>>, p: seq<string>, c: string)
    requires Imported(lines, rows, paths)
    ensures Stored(rows, paths, p, c) <==> Said(lines, p, c)
  {
    WantedSays(lines, p, c);
    FilesSay(rows, paths, p, c);
  }

  /** Every line with this path has the content c. */
  ghost predicate OneContent(lines: seq<string>, p: seq<string>, c: string) {
    forall j, c' :: LineSays(lines, j, p, c') ==> c' == c
  }

  /** No line has a path that is a proper beginning of p. */
  ghost predicate NoFileAbove(lines: seq<string>, p: seq<string>) {
    forall j, p', c' :: LineSays(lines, j, p', c') ==> !(|p'| < |p| && p' <= p)
  }

  ghost predicate ReadsBack(l: Line, result: Option<Row>) {
    result.Some? && !result.value.isDir && result.value.content == l.content
  }

  lemma BlockedIsFileAbove(lines: seq<string>, rows: seq<Row>, paths: seq<seq<string>>, q: seq<string>)
    requires Imported(lines, rows, paths)
    ensures Blocked(rows, paths, q, 0) <==> !NoFileAbove(lines, q)
  {
    if i :| 0 <= i < |rows| && !rows[i].isDir && 0 < |paths[i]| < |q| && paths[i] <= q {
      assert FileAt(rows, paths, i, paths[i], rows[i].content);
      FilesAreLines(lines, rows, paths, paths[i], rows[i].content);
    }
    if j, p', c' :| LineSays(lines, j, p', c') && |p'| < |q| && p' <= q {
      assert Said(lines, p', c');
      FilesAreLines(lines, rows, paths, p', c');
      var i :| FileAt(rows, paths, i, p', c');
      assert !rows[i].isDir && 0 < |paths[i]| < |q| && paths[i] <= q;
    }
  }

  /** The walk along an accepted line's path reads the line's content, whichever matching rows the database
      returns, exactly when no other line gives the path another content, no line makes it a directory, and
      no line puts a file on the way to it. */
  lemma LookupReadsLine(lines: seq<string>, rows: seq<Row>, paths: seq<seq<string>>, j: nat)
    requires Imported(lines, rows, paths) && j < |lines| && Accepted(ReadLine(lines[j]))
    ensures var l := ReadLine(lines[j]).value;
            (forall result :: CanReturn(rows, 0, PathOf(l), result) ==> ReadsBack(l, result))
            <==> OneContent(lines, PathOf(l), l.content) && !Needed(lines, PathOf(l)) && NoFileAbove(lines, PathOf(l))
  {
    hide CanReturn, RowOk, FilesOf, Wanted, ReadLine, Blocked, NoFileAbove, OneContent, Needed;
    var l := ReadLine(lines[j]).value;
    var q := PathOf(l);
    WalkResults(lines, rows, paths, j);
    BlockedIsFileAbove(lines, rows, paths, q);
    RowsAtPath(lines, rows, paths, j);
    assert forall i :: RowAt(rows, paths, q, i) ==> CanReturn(rows, 0, q, Some(rows[i]));
    assert CanReturn(rows, 0, q, None) <==> Blocked(rows, paths, q, 0);
  }

  /** What WalkEnds says about the path of an accepted line. */
  lemma WalkResults(lines: seq<string>, rows: seq<Row>, paths: seq<seq<string>>, j: nat)
    requires Imported(lines, rows, paths) && j < |lines| && Accepted(ReadLine(lines[j]))
    ensures var q := PathOf(ReadLine(lines[j]).value);
      forall result :: CanReturn(rows, 0, q, result) <==>
        if result.Some? then exists i :: RowAt(rows, paths, q, i) && rows[i] == result.value
        else Blocked(rows, paths, q, 0)
  {
    hide CanReturn, FilesOf, Wanted, ReadLine, Blocked;
    var l := ReadLine(lines[j]).value;
    var q := PathOf(l);
    forall k | 0 <= k < |q| ensures HasDir(rows, paths, q[..k]) {
      assert q[..k] == l.dirs[..k];
      assert NeededBy(lines[j], q[..k]);
      assert Needed(lines, q[..k]);
    }
    assert LineSays(lines, j, q, l.content) && Said(lines, q, l.content);
    FilesAreLines(lines, rows, paths, q, l.content);
    var i :| FileAt(rows, paths, i, q, l.content);
    assert RowAt(rows, paths, q, i);
    forall result
      ensures CanReturn(rows, 0, q, result) <==>
        if result.Some? then exists i :: RowAt(rows, paths, q, i) && rows[i] == result.value
        else Blocked(rows, paths, q, 0)
    {
      assert q[0..] == q && q[..0] == [];
      WalkEnds(rows, paths, q, 0, 0, result);
    }
  }

  lemma RowsAtPath(lines: seq<string>, rows: seq<Row>, paths: seq<seq<string>>, j: nat)
    requires Imported(lines, rows, paths) && j < |lines| && Accepted(ReadLine(lines[j]))
    ensures var l := ReadLine(lines[j]).value;
            (forall i :: RowAt(rows, paths, PathOf(l), i) ==> ReadsBack(l, Some(rows[i])))
            <==> OneContent(lines, PathOf(l), l.content) && !Needed(lines, PathOf(l))
  {
    hide FilesOf, Wanted, ReadLine, Needed, RowOk, PathOf;
    var l := ReadLine(lines[j]).value;
    var q := PathOf(l);
    if HasDir(rows, paths, q) {
      var i :| 0 <= i < |rows| && rows[i].isDir && paths[i] == q;
      assert RowAt(rows, paths, q, i);
    } else {
      forall i | RowAt(rows, paths, q, i) ensures Said(lines, q, rows[i].content) {
        assert FileAt(rows, paths, i, q, rows[i].content);
        FilesAreLines(lines, rows, paths, q, rows[i].content);
      }
      forall k, c | LineSays(lines, k, q, c) ensures exists i :: FileAt(rows, paths, i, q, c) {
        assert Said(lines, q, c);
        FilesAreLines(lines, rows, paths, q, c);
      }
    }
  }

  /** The text of a path, with any slashes around it, splits back into it. */
  lemma PathText(s1: string, p: seq<string>, s2: string)
    requires GoodPath(p) && AllOf(s1, '/') && AllOf(s2, '/')
    ensures Trim(s1 + Joined(p) + s2, '/') == Joined(p) && (Joined(p) == "" <==> p == [])
    ensures p != [] ==> Split(Joined(p), '/') == p
  {
    hide Trim, Split;
    JoinedEmpty(p);
    if p != [] {
      SplitJoin(p, '/');
      JoinedEnds(p);
    }
    TrimIs(s1, Joined(p), s2, '/');
  }

  /** A path of slashes only, or of nothing, is the root, which has no content and no padding. */
  lemma RootFound(rows: seq<Row>, s: string, found: Option<Found>)
    requires AllOf(s, '/')
    ensures MayFind(rows, s, found) <==> found == Some(Found(0, true, ""))
  {
    hide Trim;
    assert "" + "" + s == s;
    TrimIs("", "", s, '/');
  }

  lemma {:induction false} JoinedEnds(p: seq<string>)
    requires p != [] && GoodPath(p)
    ensures Joined(p) != "" && Joined(p)[0] != '/' && Joined(p)[|Joined(p)| - 1] != '/'
  {
    assert GoodName(p[0]) && p[0][0] in p[0] && p[0][|p[0]| - 1] in p[0];
    if |p| > 1 { JoinedEnds(p[1..]); }
  }

  /** No spaces around it, and no number sign. */
  predicate Tidy(s: string) { s != "" && !IsSpace(s[0]) && !IsSpace(s[|s| - 1]) && '#' !in s }

  /** A line written as path, number sign and content is read as just that. */
  lemma ReadPrinted(p: seq<string>, content: string)
    requires p != [] && GoodPath(p) && (forall n :: n in p ==> Tidy(n)) && Tidy(content)
    ensures ReadLine(Joined(p) + "#" + content) == Some(Line(p[..|p| - 1], p[|p| - 1], content))
  {
    hide TrimSpace, Trim, Split, IndexOf, IsSpace;
    var path := Joined(p);
    var line := path + "#" + content;
    TidyJoined(p);
    JoinedEnds(p);
    SplitJoin(p, '/');
    assert line[0] == path[0] && line[|line| - 1] == content[|content| - 1];
    assert line[|path|] == '#' && forall k :: 0 <= k < |path| ==> line[k] == path[k];
    assert IndexOf(line, '#') == |path|;
    assert line[..|path|] == path && line[|path| + 1..] == content;
    assert TrimSpace(line) == line && TrimSpace(path) == path && TrimSpace(content) == content && Trim(path, '/') == path;
    assert Tidy(p[|p| - 1]);
    NamesOfTidy(p[..|p| - 1]);
  }

  lemma {:induction false} TidyJoined(p: seq<string>)
    requires p != [] && forall n :: n in p ==> Tidy(n)
    ensures Tidy(Joined(p))
  {
    hide IsSpace;
    assert Tidy(p[0]);
    if |p| > 1 {
      TidyJoined(p[1..]);
    }
  }

  lemma {:induction false} NamesOfTidy(p: seq<string>)
    requires GoodPath(p) && forall n :: n in p ==> Tidy(n)
    ensures Names(p) == p
  {
    hide TrimSpace, IsSpace;
    if p != [] {
      NamesOfTidy(p[..|p| - 1]);
      assert Tidy(p[|p| - 1]);
    }
  }

  /** The third condition of LookupReadsLine is needed: here no path repeats and none is a directory, and yet
      the walk along the second line's path can fail. */
  lemma FileOnTheWay(rows: seq<Row>, paths: seq<seq<string>>)
    requires Imported([Joined(["a"]) + "#" + "x", Joined(["a", "b"]) + "#" + "y"], rows, paths)
    ensures var lines := [Joined(["a"]) + "#" + "x", Joined(["a", "b"]) + "#" + "y"];
            && ReadLine(lines[1]) == Some(Line(["a"], "b", "y"))
            && OneContent(lines, ["a", "b"], "y") && !Needed(lines, ["a", "b"])
            && CanReturn(rows, 0, ["a", "b"], None)
  {
    hide CanReturn, Imported, Blocked, ReadLine, Joined;
    ReadPrinted(["a"], "x");
    ReadPrinted(["a", "b"], "y");
    assert ["a"][..0] == [] && ["a", "b"][..1] == ["a"];
    TwoLines(Joined(["a"]) + "#" + "x", Joined(["a", "b"]) + "#" + "y", rows, paths);
  }

  lemma TwoLines(t: string, u: string, rows: seq<Row>, paths: seq<seq<string>>)
    requires Imported([t, u], rows, paths)
    requires ReadLine(t) == Some(Line([], "a", "x")) && ReadLine(u) == Some(Line(["a"], "b", "y"))
    ensures OneContent([t, u], ["a", "b"], "y") && !Needed([t, u], ["a", "b"])
    ensures CanReturn(rows, 0, ["a", "b"], None)
  {
    hide CanReturn, Imported, Blocked, ReadLine;
    var lines := [t, u];
    WalkResults(lines, rows, paths, 1);
    BlockedIsFileAbove(lines, rows, paths, ["a", "b"]);
    assert LineSays(lines, 0, ["a"], "x");
    assert PathOf(Line(["a"], "b", "y")) == ["a", "b"];
  }

  /** Looking up the text of the line's path, with any slashes around it, finds the line's content with the
      padding, and nothing else. */
  lemma LookupTextReadsLine(lines: seq<string>, rows: seq<Row>, paths: seq<seq<string>>, j: nat, s1: string, s2: string,
                            found: Option<Found>)
    requires Imported(lines, rows, paths) && j < |lines| && Accepted(ReadLine(lines[j]))
    requires var l := ReadLine(lines[j]).value;
             OneContent(lines, PathOf(l), l.content) && !Needed(lines, PathOf(l)) && NoFileAbove(lines, PathOf(l))
    requires AllOf(s1, '/') && AllOf(s2, '/') && MayFind(rows, s1 + Joined(PathOf(ReadLine(lines[j]).value)) + s2, found)
    ensures found.Some? && !found.value.isDir && found.value.content == ReadLine(lines[j]).value.content + PAD
  {
    hide CanReturn, Imported, ReadLine, OneContent, Needed, NoFileAbove;
    hide Split, Trim, Joined;
    LineNamesGood(lines[j]);
    var l := ReadLine(lines[j]).value;
    PathText(s1, PathOf(l), s2);
    LookupReadsLine(lines, rows, paths, j);
    var result :| CanReturn(rows, 0, PathOf(l), result) && found == Padded(result);
    assert ReadsBack(l, result);
  }

  // ---------- listings ----------

  /** What List may answer: the objects below a node that the path may find, or None for the error. */
  ghost predicate MayList(rows: seq<Row>, path: string, objs: Option<seq<Obj>>) {
    exists found :: MayFind(rows, path, found) && objs == if found.None? then None else Some(Listing(rows, found.value.id))
  }

  /** The object shows the row: its name, whether it is a directory, and the length of its padded content. */
  predicate ShowsRow(o: Obj, r: Row) {
    o.name == r.name && o.isFolder == r.isDir && o.size == if r.isDir then 0 else ByteLen(r.content) + 80
  }

  ghost predicate Increasing(at: seq<nat>) { forall j, k :: 0 <= j < k < |at| ==> at[j] < at[k] }

  ghost predicate ShowsRows(objs: seq<Obj>, rows: seq<Row>, at: seq<nat>) {
    |at| == |objs| && forall k :: 0 <= k < |at| ==> at[k] < |rows| && ShowsRow(objs[k], rows[at[k]])
  }

  /** A listing shows each row below the node once, in the order of the rows, and no other. */
  lemma {:induction false} ListingRows(rows: seq<Row>, parent: int) returns (at: seq<nat>)
    ensures Increasing(at) && ShowsRows(Listing(rows, parent), rows, at) && RowsBelow(rows, parent, at)
  {
    hide ByteLen, Increasing, ShowsRows, RowsBelow;
    at := [];
    if rows == [] {
      NoRows(parent);
    } else {
      var n := |rows| - 1;
      at := ListingRows(rows[..n], parent);
      NextRow(rows, parent, at);
      if rows[n].parent == parent { at := at + [n]; }
    }
  }

  ghost predicate RowsBelow(rows: seq<Row>, parent: int, at: seq<nat>) {
    forall i: nat :: i in at <==> i < |rows| && rows[i].parent == parent
  }

  lemma NoRows(parent: int)
    ensures Increasing([]) && ShowsRows([], [], []) && RowsBelow([], parent, [])
  {
  }

  lemma NextRow(rows: seq<Row>, parent: int, at: seq<nat>)
    requires rows != [] && var init := rows[..|rows| - 1];
             Increasing(at) && ShowsRows(Listing(init, parent), init, at) && RowsBelow(init, parent, at)
    ensures var at' := if rows[|rows| - 1].parent == parent then at + [|rows| - 1] else at;
            Increasing(at') && ShowsRows(Listing(rows, parent), rows, at') && RowsBelow(rows, parent, at')
  {
    hide Increasing, ShowsRows, RowsBelow, ByteLen;
    var init, n := rows[..|rows| - 1], |rows| - 1;
    AllBelow(init, parent, at);
    BelowSnoc(init, rows[n], parent, at);
    ShowsSnoc(Listing(init, parent), init, at, rows[n]);
    IncreasingSnoc(at, n);
    assert init + [rows[n]] == rows && Listing(init, parent) + [] == Listing(init, parent);
  }

  lemma AllBelow(rows: seq<Row>, parent: int, at: seq<nat>)
    requires RowsBelow(rows, parent, at)
    ensures forall k :: 0 <= k < |at| ==> at[k] < |rows|
  {
    assert forall k :: 0 <= k < |at| ==> at[k] in at;
  }

  lemma BelowSnoc(rows: seq<Row>, r: Row, parent: int, at: seq<nat>)
    requires RowsBelow(rows, parent, at)
    ensures RowsBelow(rows + [r], parent, if r.parent == parent then at + [|rows|] else at)
  {
  }

  lemma ShowsSnoc(objs: seq<Obj>, rows: seq<Row>, at: seq<nat>, r: Row)
    requires ShowsRows(objs, rows, at)
    ensures ShowsRows(objs, rows + [r], at) && ShowsRows(objs + [Listed(r)], rows + [r], at + [|rows|])
  {
    hide ByteLen;
  }

  lemma IncreasingSnoc(at: seq<nat>, n: nat)
    requires Increasing(at) && forall k :: 0 <= k < |at| ==> at[k] < n
    ensures Increasing(at + [n])
  {
  }

  /** The objects are, one to one and in order, the rows whose path is p and one name more. */
  ghost predicate ListsPath(rows: seq<Row>, paths: seq<seq<string>>, p: seq<string>, objs: seq<Obj>)
    requires |paths| == |rows|
  {
    exists at :: Increasing(at) && ShowsRows(objs, rows, at) && PlacesBelow(paths, p, at)
  }

  /** These are the places of the paths with one name more than p. */
  ghost predicate PlacesBelow(paths: seq<seq<string>>, p: seq<string>, at: seq<nat>) {
    forall i: nat :: i in at <==> i < |paths| && Child(p, paths[i])
  }

  predicate Child(p: seq<string>, q: seq<string>) { |q| == |p| + 1 && p <= q }

  lemma ChildIs(p: seq<string>, q: seq<string>)
    ensures Child(p, q) <==> exists n :: q == p + [n]
  {
    if Child(p, q) { assert q == p + [q[|p|]]; }
  }

  /** In an imported table, the listing of a directory shows exactly what lies below its path. */
  lemma ListingByPath(rows: seq<Row>, paths: seq<seq<string>>, d: nat)
    requires TreeOk(rows, paths) && d < |rows| && rows[d].isDir
    ensures ListsPath(rows, paths, paths[d], Listing(rows, d))
  {
    hide Listing, RowOk;
    var at := ListingRows(rows, d);
    forall i: nat | i < |rows| ensures rows[i].parent == d <==> Child(paths[d], paths[i]) {
      ChildIs(paths[d], paths[i]);
      MatchIsPath(rows, paths, d, rows[i].name, i);
      if n :| paths[i] == paths[d] + [n] { MatchIsPath(rows, paths, d, n, i); }
    }
    assert PlacesBelow(paths, paths[d], at);
  }

  /** A file has nothing below it. */
  lemma FileListsNothing(rows: seq<Row>, paths: seq<seq<string>>, f: nat)
    requires TreeOk(rows, paths) && f < |rows| && !rows[f].isDir
    ensures Listing(rows, f) == []
  {
    hide Listing, RowOk;
    var at := ListingRows(rows, f);
    if at != [] {
      assert at[0] in at;
      NothingBelowFile(rows, paths, f, at[0]);
    }
  }

  /** Nothing lies below the path. */
  ghost predicate NothingBelow(paths: seq<seq<string>>, p: seq<string>) {
    forall i :: 0 <= i < |paths| ==> !Child(p, paths[i])
  }

  ghost predicate RightList(rows: seq<Row>, paths: seq<seq<string>>, p: seq<string>, objs: Option<seq<Obj>>)
    requires |paths| == |rows|
  {
    objs.Some? && ListsPath(rows, paths, p, objs.value)
  }

  /** What the listing of row i, whose path is p, is worth as a listing of p. */
  lemma RowLists(rows: seq<Row>, paths: seq<seq<string>>, p: seq<string>, i: nat)
    requires TreeOk(rows, paths) && RowAt(rows, paths, p, i)
    ensures rows[i].id == i
    ensures ListsPath(rows, paths, p, Listing(rows, i)) <==> rows[i].isDir || NothingBelow(paths, p)
  {
    hide Listing, Child;
    assert RowOk(rows, paths, i);
    if rows[i].isDir {
      ListingByPath(rows, paths, i);
    } else {
      FileListsNothing(rows, paths, i);
      var none: seq<nat> := [];
      if NothingBelow(paths, p) { assert Increasing(none) && ShowsRows([], rows, none) && PlacesBelow(paths, p, none); }
    }
  }

  /** The lookup of a directory's path ends at a row with the path, or fails for a file above it. */
  lemma DirResults(lines: seq<string>, rows: seq<Row>, paths: seq<seq<string>>, p: seq<string>)
    requires Imported(lines, rows, paths) && HasDir(rows, paths, p) && p != []
    ensures forall result :: CanReturn(rows, 0, p, result) <==>
      if result.Some? then exists i :: RowAt(rows, paths, p, i) && rows[i] == result.value else !NoFileAbove(lines, p)
  {
    hide CanReturn, FilesOf, Wanted, ReadLine, Blocked, NoFileAbove;
    forall k | 0 <= k < |p| ensures HasDir(rows, paths, p[..k]) {
      assert Needed(lines, p);
      NeededPrefix(lines, p, k);
    }
    var d :| 0 <= d < |rows| && rows[d].isDir && paths[d] == p;
    assert RowAt(rows, paths, p, d);
    BlockedIsFileAbove(lines, rows, paths, p);
    forall result
      ensures CanReturn(rows, 0, p, result) <==>
        if result.Some? then exists i :: RowAt(rows, paths, p, i) && rows[i] == result.value else !NoFileAbove(lines, p)
    {
      assert p[0..] == p && p[..0] == [];
      WalkEnds(rows, paths, p, 0, 0, result);
    }
  }

  lemma NeededPrefix(lines: seq<string>, p: seq<string>, k: nat)
    requires Needed(lines, p) && k <= |p|
    ensures Needed(lines, p[..k])
  {
    hide ReadLine;
    if p != [] {
      var j :| 0 <= j < |lines| && NeededBy(lines[j], p);
      assert NeededBy(lines[j], p[..k]);
    }
  }

  /** No line puts a file at the path. */
  ghost predicate NoFileAt(lines: seq<string>, p: seq<string>) { forall c :: !Said(lines, p, c) }

  lemma FilesAtPath(lines: seq<string>, rows: seq<Row>, paths: seq<seq<string>>, p: seq<string>)
    requires Imported(lines, rows, paths)
    ensures NoFileAt(lines, p) <==> forall i :: RowAt(rows, paths, p, i) ==> rows[i].isDir
  {
    hide FilesOf, Wanted, Needed, RowOk, Said;
    if i :| RowAt(rows, paths, p, i) && !rows[i].isDir {
      assert FileAt(rows, paths, i, p, rows[i].content);
      FilesAreLines(lines, rows, paths, p, rows[i].content);
    }
    if c :| Said(lines, p, c) {
      FilesAreLines(lines, rows, paths, p, c);
      var i :| FileAt(rows, paths, i, p, c);
    }
  }

  /** Every answer that List may give for the path of a directory, with any slashes around it, shows exactly what
      lies below the directory, if and only if no line puts a file above the path, and none puts one at the path
      unless the directory is empty. */
  lemma ListIff(lines: seq<string>, rows: seq<Row>, paths: seq<seq<string>>, p: seq<string>, s1: string, s2: string)
    requires Imported(lines, rows, paths) && HasDir(rows, paths, p) && AllOf(s1, '/') && AllOf(s2, '/')
    ensures (forall objs :: MayList(rows, s1 + Joined(p) + s2, objs) ==> RightList(rows, paths, p, objs))
            <==> NoFileAbove(lines, p) && (NoFileAt(lines, p) || NothingBelow(paths, p))
  {
    hide Imported, CanReturn, Listing, Trim, Split, Joined, NoFileAbove, NoFileAt, NothingBelow, ListsPath;
    DirIsGood(lines, rows, paths, p);
    PathText(s1, p, s2);
    if p == [] {
      RootLists(lines, rows, paths);
    } else {
      DirResults(lines, rows, paths, p);
      FilesAtPath(lines, rows, paths, p);
      forall i | RowAt(rows, paths, p, i)
        ensures MayList(rows, s1 + Joined(p) + s2, Some(Listing(rows, i)))
        ensures rows[i].id == i && (ListsPath(rows, paths, p, Listing(rows, i)) <==> rows[i].isDir || NothingBelow(paths, p))
      {
        RowLists(rows, paths, p, i);
        assert CanReturn(rows, 0, p, Some(rows[i]));
        assert MayFind(rows, s1 + Joined(p) + s2, Padded(Some(rows[i])));
      }
      if !NoFileAbove(lines, p) {
        assert CanReturn(rows, 0, p, None) && MayFind(rows, s1 + Joined(p) + s2, Padded(None));
        assert MayList(rows, s1 + Joined(p) + s2, None);
      }
    }
  }

  lemma DirIsGood(lines: seq<string>, rows: seq<Row>, paths: seq<seq<string>>, p: seq<string>)
    requires Imported(lines, rows, paths) && HasDir(rows, paths, p)
    ensures TreeOk(rows, paths) && GoodPath(p)
  {
    hide FilesOf, Wanted, Needed, RowOk, GoodPath;
    var d :| 0 <= d < |rows| && rows[d].isDir && paths[d] == p;
    PathsGood(rows, paths, d);
  }

  lemma RootLists(lines: seq<string>, rows: seq<Row>, paths: seq<seq<string>>)
    requires Imported(lines, rows, paths)
    ensures ListsPath(rows, paths, [], Listing(rows, 0)) && NoFileAbove(lines, []) && NoFileAt(lines, [])
  {
    hide FilesOf, Wanted, Needed, RowOk, Listing, ReadLine, ListsPath;
    ListingByPath(rows, paths, 0);
  }

  // ---------- sizes ----------

  lemma {:induction false} ByteLenAdd(a: string, b: string)
    ensures ByteLen(a + b) == ByteLen(a) + ByteLen(b)
  {
    if a == "" {
      assert a + b == b;
    } else {
      ByteLenAdd(a[1..], b);
      assert (a + b)[1..] == a[1..] + b;
    }
  }

  lemma {:induction false} AsciiBytes(s: string)
    requires forall k :: 0 <= k < |s| ==> s[k] as int < 0x80
    ensures ByteLen(s) == |s|
  {
    if s != "" { AsciiBytes(s[1..]); }
  }

  lemma {:induction false} InListing(rows: seq<Row>, i: nat)
    requires i < |rows|
    ensures Listed(rows[i]) in Listing(rows, rows[i].parent)
  {
    if i < |rows| - 1 { InListing(rows[..|rows| - 1], i); }
  }

  /** The directory's listing shows every file with the length of the data that Link serves for it. */
  lemma ListedSizeIsServed(rows: seq<Row>, i: nat)
    requires i < |rows| && !rows[i].isDir
    ensures Obj(rows[i].name, ByteLen(rows[i].content + PAD), false) in Listing(rows, rows[i].parent)
  {
    hide NumberSigns, ByteLen, Listing;
    ByteLenAdd(rows[i].content, PAD);
    AsciiBytes(PAD);
    InListing(rows, i);
  }
}
