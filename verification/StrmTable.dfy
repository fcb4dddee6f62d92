/** The bulk importer of drivers/strm_list/driver.go and the path walk that reads back what it stored. The
    SQLite table is a sequence of rows; whether a scan, a commit or a row insert fails is an input. */
module StrmTable {
  import opened Common
  import opened Strings

  datatype Row = Row(id: int, name: string, parent: int, isDir: bool, content: string)

  const ROOT := Row(0, "", -1, true, "")

  /** The 80 number signs that findNodeByPath appends. */
  const PAD := NumberSigns(80)

  function NumberSigns(n: nat): (s: string)
    ensures |s| == n && forall k :: 0 <= k < n ==> s[k] == '#'
  {
    if n == 0 then "" else "#" + NumberSigns(n - 1)
  }

  // ---------- what a line says ----------

  /** The directories, the file name and the content of a line of the right form. */
  datatype Line = Line(dirs: seq<string>, file: string, content: string)

  predicate GoodName(n: string) { n != "" && '/' !in n }

  predicate GoodPath(p: seq<string>) { forall n :: n in p ==> GoodName(n) }

  /** The trimmed non-empty parts. */
  function Names(parts: seq<string>): (names: seq<string>)
    requires forall p :: p in parts ==> '/' !in p
    ensures GoodPath(names)
  {
    if parts == [] then []
    else
      var init, last := Names(parts[..|parts| - 1]), TrimSpace(parts[|parts| - 1]);
      assert parts[|parts| - 1] in parts;
      if last == "" then init else init + [last]
  }

  /** How the importer reads a line: None when it skips the line as malformed. */
  function ReadLine(text: string): Option<Line> {
    var line := TrimSpace(text);
    var i := IndexOf(line, '#');
    if line == "" || i < 0 || TrimSpace(line[..i]) == "" || TrimSpace(line[i + 1..]) == "" then None
    else
      var parts := Split(Trim(line[..i], '/'), '/');
      Some(Line(Names(parts[..|parts| - 1]), TrimSpace(parts[|parts| - 1]), TrimSpace(line[i + 1..])))
  }

  lemma LineNamesGood(text: string)
    requires ReadLine(text).Some?
    ensures var l := ReadLine(text).value;
            GoodPath(l.dirs) && (l.file != "" ==> GoodName(l.file)) && l.content != ""
  {
    var line := TrimSpace(text);
    var parts := Split(Trim(line[..IndexOf(line, '#')], '/'), '/');
    var l := ReadLine(text).value;
    assert parts[|parts| - 1] in parts;
  }

  /** The line puts a file into the table. */
  predicate Accepted(l: Option<Line>) { l.Some? && l.value.file != "" }

  function PathOf(l: Line): seq<string> { l.dirs + [l.file] }

  function Joined(p: seq<string>): string { Join(p, '/') }

  lemma {:induction false} JoinedEmpty(p: seq<string>)
    requires GoodPath(p)
    ensures Joined(p) == "" <==> p == []
  {
    if p != [] { assert GoodName(p[0]); }
  }

  lemma JoinedInjective(p: seq<string>, q: seq<string>)
    requires GoodPath(p) && GoodPath(q) && Joined(p) == Joined(q)
    ensures p == q
  {
    JoinedEmpty(p);
    JoinedEmpty(q);
    if p != [] {
      SplitJoin(p, '/');
      SplitJoin(q, '/');
    }
  }

  lemma {:induction false} JoinedSnoc(p: seq<string>, n: string)
    ensures Joined(p + [n]) == if p == [] then n else Joined(p) + "/" + n
  {
    if p == [] {
      assert p + [n] == [n];
    } else if |p| == 1 {
      assert (p + [n])[1..] == [n];
      assert Joined([n]) == n;
      assert Joined(p + [n]) == p[0] + ['/'] + n;
    } else {
      JoinedSnoc(p[1..], n);
      assert (p + [n])[1..] == p[1..] + [n];
      assert p[0] + "/" + (Joined(p[1..]) + "/" + n) == (p[0] + "/" + Joined(p[1..])) + "/" + n;
    }
  }

  // ---------- the shape of the table ----------

  ghost predicate RowOk(rows: seq<Row>, paths: seq<seq<string>>, i: nat)
    requires |paths| == |rows|
  {
    0 < i < |rows| ==>
      && rows[i].id == i && 0 <= rows[i].parent < i && rows[rows[i].parent].isDir && GoodName(rows[i].name)
      && paths[i] == paths[rows[i].parent] + [rows[i].name]
      && (if rows[i].isDir then rows[i].content == "" else rows[i].content != "")
  }

  /** Row i has id i and the path paths[i]; and no two directories have one path. */
  ghost predicate TreeOk(rows: seq<Row>, paths: seq<seq<string>>) {
    && |paths| == |rows| >= 1 && rows[0] == ROOT && paths[0] == []
    && (forall i: nat :: i < |rows| ==> RowOk(rows, paths, i))
    && (forall i, j :: 0 <= i < |rows| && 0 <= j < |rows| && rows[i].isDir && rows[j].isDir && paths[i] == paths[j] ==> i == j)
  }

  /** The cache maps the joined path of each directory, and nothing else, to its id. */
  ghost predicate CacheOk(rows: seq<Row>, paths: seq<seq<string>>, cache: map<string, int>)
    requires |paths| == |rows|
  {
    && (forall i :: 0 <= i < |rows| && rows[i].isDir ==> Joined(paths[i]) in cache && cache[Joined(paths[i])] == i)
    && (forall k :: k in cache ==> 0 <= cache[k] < |rows| && rows[cache[k]].isDir && Joined(paths[cache[k]]) == k)
  }

  /** p is q or a directory above it. */
  ghost predicate Within(p: seq<string>, q: seq<string>) { p <= q }

  /** Some directory has the path p. */
  ghost predicate HasDir(rows: seq<Row>, paths: seq<seq<string>>, p: seq<string>)
    requires |paths| == |rows|
  {
    exists i :: 0 <= i < |rows| && rows[i].isDir && paths[i] == p
  }

  /** The paths and contents of the files, in the order of their rows. */
  ghost function FilesOf(rows: seq<Row>, paths: seq<seq<string>>): seq<(seq<string>, string)>
    requires |paths| == |rows|
  {
    if rows == [] then []
    else
      var i := |rows| - 1;
      FilesOf(rows[..i], paths[..i]) + if rows[i].isDir then [] else [(paths[i], rows[i].content)]
  }

  /** The paths and contents of the accepted lines. */
  ghost function Wanted(lines: seq<string>): seq<(seq<string>, string)> {
    if lines == [] then []
    else
      var l := ReadLine(lines[|lines| - 1]);
      Wanted(lines[..|lines| - 1]) + if Accepted(l) then [(PathOf(l.value), l.value.content)] else []
  }

  /** Some line needs the directory p. */
  ghost predicate Needed(lines: seq<string>, p: seq<string>) {
    p == [] || exists j :: 0 <= j < |lines| && NeededBy(lines[j], p)
  }

  ghost predicate NeededBy(text: string, p: seq<string>) {
    ReadLine(text).Some? && Within(p, ReadLine(text).value.dirs)
  }

  /** The table holds exactly the files of the accepted lines, in order, and the directories the lines need. */
  ghost predicate Imported(lines: seq<string>, rows: seq<Row>, paths: seq<seq<string>>) {
    && TreeOk(rows, paths)
    && FilesOf(rows, paths) == Wanted(lines)
    && (forall p :: HasDir(rows, paths, p) <==> Needed(lines, p))
  }

  // ---------- adding a row ----------

  lemma AddRow(rows: seq<Row>, paths: seq<seq<string>>, row: Row)
    requires TreeOk(rows, paths) && row.id == |rows| && 0 <= row.parent < |rows| && rows[row.parent].isDir && GoodName(row.name)
    requires if row.isDir then row.content == "" && !HasDir(rows, paths, paths[row.parent] + [row.name])
             else row.content != ""
    ensures TreeOk(rows + [row], paths + [paths[row.parent] + [row.name]])
    ensures FilesOf(rows + [row], paths + [paths[row.parent] + [row.name]])
            == FilesOf(rows, paths) + if row.isDir then [] else [(paths[row.parent] + [row.name], row.content)]
    ensures forall p :: HasDir(rows + [row], paths + [paths[row.parent] + [row.name]], p)
                        <==> HasDir(rows, paths, p) || (row.isDir && p == paths[row.parent] + [row.name])
  {
    var rows', paths' := rows + [row], paths + [paths[row.parent] + [row.name]];
    forall i: nat | i < |rows'| ensures RowOk(rows', paths', i) {
      if i < |rows| { assert RowOk(rows, paths, i); }
    }
    assert rows'[..|rows'| - 1] == rows && paths'[..|rows'| - 1] == paths;
    forall p ensures HasDir(rows', paths', p) <==> HasDir(rows, paths, p) || (row.isDir && p == paths'[|rows|]) {
      if HasDir(rows, paths, p) {
        var i :| 0 <= i < |rows| && rows[i].isDir && paths[i] == p;
        assert rows'[i].isDir && paths'[i] == p;
      }
      if row.isDir && p == paths'[|rows|] { assert rows'[|rows|].isDir; }
    }
    assert forall i :: 0 <= i < |rows| && rows[i].isDir ==> HasDir(rows, paths, paths[i]);
  }

  lemma CacheAdd(rows: seq<Row>, paths: seq<seq<string>>, cache: map<string, int>, row: Row, p: seq<string>)
    requires |paths| == |rows| && CacheOk(rows, paths, cache)
    requires row.isDir ==> Joined(p) !in cache
    ensures CacheOk(rows + [row], paths + [p], if row.isDir then cache[Joined(p) := |rows|] else cache)
  {
  }

  lemma {:induction false} PathsGood(rows: seq<Row>, paths: seq<seq<string>>, i: nat)
    requires TreeOk(rows, paths) && i < |rows|
    ensures GoodPath(paths[i])
  {
    assert RowOk(rows, paths, i);
    if i > 0 { PathsGood(rows, paths, rows[i].parent); }
  }

  /** A good path is cached exactly when it has a directory. */
  lemma CachedIsDir(rows: seq<Row>, paths: seq<seq<string>>, cache: map<string, int>, p: seq<string>)
    requires TreeOk(rows, paths) && CacheOk(rows, paths, cache) && GoodPath(p)
    ensures Joined(p) in cache <==> HasDir(rows, paths, p)
    ensures Joined(p) in cache ==> paths[cache[Joined(p)]] == p
  {
    if Joined(p) in cache {
      PathsGood(rows, paths, cache[Joined(p)]);
      JoinedInjective(p, paths[cache[Joined(p)]]);
    }
  }
}
