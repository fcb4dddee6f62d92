/** The driver of drivers/strm_list/driver.go over its table of rows. */
module StrmDriver {
  import opened Common
  import opened Strings
  import opened StrmLookup
  import opened StrmTable

  /** An open transaction: what the table will be if it commits, the next AUTOINCREMENT id, and how many
      inserts it has attempted. */
  datatype Tx = Tx(rows: seq<Row>, nextId: int, attempts: nat) {

    /** One INSERT. Whether attempt k succeeds is ok(k); a failed one changes nothing. */
    function Insert(name: string, parent: int, isDir: bool, content: string, ok: nat -> bool): (Tx, Option<int>) {
      if ok(attempts) then (Tx(rows + [Row(nextId, name, parent, isDir, content)], nextId + 1, attempts + 1), Some(nextId))
      else (this.(attempts := attempts + 1), None)
    }
  }

  ghost predicate AllSucceed(ok: nat -> bool) { forall k: nat :: ok(k) }

  /** The import is consistent so far. */
  ghost predicate Sound(tx: Tx, paths: seq<seq<string>>, cache: map<string, int>) {
    && |paths| == |tx.rows| == tx.nextId
    && TreeOk(tx.rows, paths) && CacheOk(tx.rows, paths, cache)
  }

  /** The loop of MakeDirs has made the directories of cur, whose row is currParent, and nothing else. */
  ghost predicate Made(tx0: Tx, paths0: seq<seq<string>>, tx: Tx, paths: seq<seq<string>>, cur: seq<string>) {
    && |paths0| == |tx0.rows| && |paths| == |tx.rows|
    && FilesOf(tx.rows, paths) == FilesOf(tx0.rows, paths0)
    && forall p :: HasDir(tx.rows, paths, p) <==> HasDir(tx0.rows, paths0, p) || Within(p, cur)
  }

  ghost predicate IsDirAt(tx: Tx, paths: seq<seq<string>>, i: int, p: seq<string>) {
    |paths| == |tx.rows| && 0 <= i < |tx.rows| && tx.rows[i].isDir && paths[i] == p
  }

  lemma MadeNone(tx: Tx, paths: seq<seq<string>>)
    requires TreeOk(tx.rows, paths)
    ensures Made(tx, paths, tx, paths, []) && IsDirAt(tx, paths, 0, [])
  {
    assert tx.rows[0].isDir && paths[0] == [];
    assert forall p :: Within(p, []) ==> p == [];
  }

  /** The directory is in the cache. */
  lemma MadeCached(tx0: Tx, paths0: seq<seq<string>>, tx: Tx, paths: seq<seq<string>>, cache: map<string, int>,
                   cur: seq<string>, part: string)
    requires Sound(tx, paths, cache) && Made(tx0, paths0, tx, paths, cur)
    requires GoodPath(cur + [part]) && Joined(cur + [part]) in cache
    ensures Made(tx0, paths0, tx, paths, cur + [part])
    ensures IsDirAt(tx, paths, cache[Joined(cur + [part])], cur + [part])
  {
    CachedIsDir(tx.rows, paths, cache, cur + [part]);
    PrefixSnoc(cur, part);
  }

  /** The directory is added. */
  lemma MadeNew(tx0: Tx, paths0: seq<seq<string>>, tx: Tx, paths: seq<seq<string>>, cache: map<string, int>,
                cur: seq<string>, currParent: int, part: string)
    requires Sound(tx, paths, cache) && Made(tx0, paths0, tx, paths, cur)
    requires GoodPath(cur + [part]) && Joined(cur + [part]) !in cache && IsDirAt(tx, paths, currParent, cur)
    ensures var row := Row(tx.nextId, part, currParent, true, "");
            var tx' := Tx(tx.rows + [row], tx.nextId + 1, tx.attempts + 1);
            var paths' := paths + [cur + [part]];
            && Sound(tx', paths', cache[Joined(cur + [part]) := tx.nextId])
            && Made(tx0, paths0, tx', paths', cur + [part])
            && IsDirAt(tx', paths', tx.nextId, cur + [part])
  {
    var row := Row(tx.nextId, part, currParent, true, "");
    assert part == (cur + [part])[|cur|];
    CachedIsDir(tx.rows, paths, cache, cur + [part]);
    AddRow(tx.rows, paths, row);
    CacheAdd(tx.rows, paths, cache, row, cur + [part]);
    PrefixSnoc(cur, part);
  }

  /** The loop over the directory parts of a line: finds or creates each directory, and returns the last. */
  method MakeDirs(parts: seq<string>, tx0: Tx, cache0: map<string, int>, ok: nat -> bool, ghost paths0: seq<seq<string>>)
    returns (tx: Tx, cache: map<string, int>, currParent: int, ghost paths: seq<seq<string>>)
    requires forall p :: p in parts ==> '/' !in p
    requires AllSucceed(ok) ==> Sound(tx0, paths0, cache0)
    ensures AllSucceed(ok) ==> Sound(tx, paths, cache)
    ensures AllSucceed(ok) ==> Made(tx0, paths0, tx, paths, Names(parts)) && IsDirAt(tx, paths, currParent, Names(parts))
  {
    hide FilesOf, TreeOk, CacheOk, HasDir, Names, Joined, RowOk, Made, IsDirAt;
    tx, cache, currParent, paths := tx0, cache0, 0, paths0;
    var currPathAcc := "";
    ghost var cur := [];
    NamesEmpty();
    if AllSucceed(ok) { MadeNone(tx, paths); }
    for k := 0 to |parts|
      invariant cur == Names(parts[..k]) && currPathAcc == Joined(cur) && GoodPath(cur)
      invariant AllSucceed(ok) ==> Sound(tx, paths, cache)
      invariant AllSucceed(ok) ==> Made(tx0, paths0, tx, paths, cur) && IsDirAt(tx, paths, currParent, cur)
    {
      var part := TrimSpace(parts[k]);
      NamesSnoc(parts, k);
      if part == "" { continue; }
      JoinedEmpty(cur);
      JoinedSnoc(cur, part);
      if currPathAcc == "" { currPathAcc := part; } else { currPathAcc := currPathAcc + "/" + part; }
      ghost var before := cur;
      cur := cur + [part];
      if currPathAcc in cache {
        currParent := cache[currPathAcc];
        if AllSucceed(ok) { MadeCached(tx0, paths0, tx, paths, cache, before, part); }
        continue;
      }
      if AllSucceed(ok) {
        MadeNew(tx0, paths0, tx, paths, cache, before, currParent, part);
        paths := paths + [cur];
      }
      var (tx', id) := tx.Insert(part, currParent, true, "", ok);
      tx := tx';
      if id.None? { continue; }
      currParent := id.value;
      cache := cache[currPathAcc := id.value];
    }
    assert parts[..|parts|] == parts;
  }

  lemma NamesEmpty()
    ensures Joined([]) == "" && forall parts: seq<string> :: |parts| == 0 ==> Names(parts) == []
  {
  }

  lemma NamesSnoc(parts: seq<string>, k: nat)
    requires k < |parts| && forall p :: p in parts ==> '/' !in p
    ensures '/' !in TrimSpace(parts[k])
    ensures Names(parts[..k + 1]) == Names(parts[..k]) + if TrimSpace(parts[k]) == "" then [] else [TrimSpace(parts[k])]
  {
    assert parts[..k + 1][..k] == parts[..k];
  }

  lemma PrefixSnoc(cur: seq<string>, n: string)
    ensures forall p :: Within(p, cur + [n]) <==> Within(p, cur) || p == cur + [n]
  {
    forall p ensures Within(p, cur + [n]) <==> Within(p, cur) || p == cur + [n] {
      if Within(p, cur + [n]) && |p| <= |cur| {
        assert p == (cur + [n])[..|p|] == cur[..|p|];
      }
    }
  }

  /** The lines seen so far are imported. */
  ghost predicate Done(lines: seq<string>, tx: Tx, paths: seq<seq<string>>, count: nat) {
    && |paths| == |tx.rows|
    && FilesOf(tx.rows, paths) == Wanted(lines) && count == |Wanted(lines)|
    && forall p :: HasDir(tx.rows, paths, p) <==> Needed(lines, p)
  }

  /** The file of the line is added; lines without a file, and malformed ones, add nothing. */
  lemma DoneLine(lines: seq<string>, text: string, tx0: Tx, paths0: seq<seq<string>>, count: nat,
                 tx: Tx, paths: seq<seq<string>>, cache: map<string, int>, currParent: int)
    requires Done(lines, tx0, paths0, count) && ReadLine(text).Some?
    requires Sound(tx, paths, cache) && Made(tx0, paths0, tx, paths, ReadLine(text).value.dirs)
    requires IsDirAt(tx, paths, currParent, ReadLine(text).value.dirs)
    ensures !Accepted(ReadLine(text)) ==> Done(lines + [text], tx, paths, count)
    ensures Accepted(ReadLine(text)) ==>
      var l := ReadLine(text).value;
      var tx' := Tx(tx.rows + [Row(tx.nextId, l.file, currParent, false, l.content)], tx.nextId + 1, tx.attempts + 1);
      Sound(tx', paths + [PathOf(l)], cache) && Done(lines + [text], tx', paths + [PathOf(l)], count + 1)
  {
    var l := ReadLine(text).value;
    LineNamesGood(text);
    NeededSnoc(lines, text);
    assert (lines + [text])[..|lines|] == lines;
    if Accepted(ReadLine(text)) {
      var row := Row(tx.nextId, l.file, currParent, false, l.content);
      AddRow(tx.rows, paths, row);
      CacheAdd(tx.rows, paths, cache, row, PathOf(l));
    }
  }

  lemma DoneSkip(lines: seq<string>, text: string, tx: Tx, paths: seq<seq<string>>, count: nat)
    requires Done(lines, tx, paths, count) && ReadLine(text).None?
    ensures Done(lines + [text], tx, paths, count)
  {
    NeededSnoc(lines, text);
    assert (lines + [text])[..|lines|] == lines;
  }

  lemma NeededSnoc(lines: seq<string>, text: string)
    ensures forall p :: Needed(lines + [text], p) <==> Needed(lines, p) || NeededBy(text, p)
  {
    var ls := lines + [text];
    forall p ensures Needed(ls, p) <==> Needed(lines, p) || NeededBy(text, p) {
      if exists j :: 0 <= j < |lines| && NeededBy(lines[j], p) {
        var j :| 0 <= j < |lines| && NeededBy(lines[j], p);
        assert NeededBy(ls[j], p);
      }
      if NeededBy(text, p) { assert NeededBy(ls[|lines|], p); }
    }
  }

  lemma DoneNone()
    ensures var tx := Tx([ROOT], 1, 1);
            Sound(tx, [[]], map["" := 0]) && Done([], tx, [[]], 0) && Joined([]) == ""
  {
    var rows, paths := [ROOT], [[]];
    assert rows[0].isDir;
    assert forall p :: HasDir(rows, paths, p) <==> p == [];
    assert rows[..0] == [] && FilesOf(rows, paths) == [];
    assert Joined([]) == "";
  }

  /** The pieces of a line, as the import loop cuts them. */
  lemma LineParts(text: string)
    ensures var line := TrimSpace(text);
            var i := IndexOf(line, '#');
            if line == "" || i < 0 || TrimSpace(line[..i]) == "" || TrimSpace(line[i + 1..]) == "" then ReadLine(text) == None
            else
              var parts := Split(Trim(line[..i], '/'), '/');
              && (forall p :: p in parts[..|parts| - 1] ==> '/' !in p)
              && ReadLine(text) == Some(Line(Names(parts[..|parts| - 1]), TrimSpace(parts[|parts| - 1]), TrimSpace(line[i + 1..])))
              && (Accepted(ReadLine(text)) <==> TrimSpace(parts[|parts| - 1]) != "")
  {
    hide TrimSpace, Trim, Split, IndexOf, Names;
  }

  /** The body of the import loop: whether the line's file was inserted. */
  method ImportLine(text: string, tx0: Tx, cache0: map<string, int>, insertOk: nat -> bool,
                    ghost seen: seq<string>, ghost count: nat, ghost paths0: seq<seq<string>>)
    returns (tx: Tx, cache: map<string, int>, inserted: bool, ghost paths: seq<seq<string>>)
    requires AllSucceed(insertOk) ==> Sound(tx0, paths0, cache0) && Done(seen, tx0, paths0, count)
    ensures AllSucceed(insertOk) ==>
      Sound(tx, paths, cache) && Done(seen + [text], tx, paths, if inserted then count + 1 else count)
  {
    hide FilesOf, Wanted, Sound, HasDir, Names, Joined, Made, IsDirAt, Done, Split, TrimSpace, Trim, IndexOf, ReadLine, Accepted,
         PathOf;
    tx, cache, inserted, paths := tx0, cache0, false, paths0;
    LineParts(text);
    var line := TrimSpace(text);
    var i := IndexOf(line, '#');
    if line == "" || i < 0 || TrimSpace(line[..i]) == "" || TrimSpace(line[i + 1..]) == "" {
      if AllSucceed(insertOk) { DoneSkip(seen, text, tx, paths, count); }
      return;
    }
    var content := TrimSpace(line[i + 1..]);
    var pathParts := Split(Trim(line[..i], '/'), '/');
    var currParent;
    tx, cache, currParent, paths := MakeDirs(pathParts[..|pathParts| - 1], tx, cache, insertOk, paths);
    var filename := TrimSpace(pathParts[|pathParts| - 1]);
    if AllSucceed(insertOk) { DoneLine(seen, text, tx0, paths0, count, tx, paths, cache, currParent); }
    if filename == "" { return; }
    var (tx', id) := tx.Insert(filename, currParent, false, content, insertOk);
    tx, inserted := tx', id.Some?;
    paths := paths + [PathOf(ReadLine(text).value)];
  }

  class StrmList {
    var rows: seq<Row>

    constructor ()
      ensures rows == []
    {
      rows := [];
    }

    /** importTxtTask on a table with no row but the root. `file` holds the lines scanned, unless the file cannot
        be opened; the other inputs say whether opening the transaction, preparing the statement, insert number k, the scan
        and the commit succeed. */
    method ImportTxtTask(file: Option<seq<string>>, beginOk: bool, prepareOk: bool, insertOk: nat -> bool, scanOk: bool, commitOk: bool)
      returns (count: nat, skipCount: nat)
      requires rows == [] || rows == [ROOT]
      modifies this
      ensures !(file.Some? && beginOk && prepareOk && scanOk && commitOk) ==> rows == old(rows)
      ensures file.Some? && beginOk && prepareOk ==> count + skipCount == |file.value|
      ensures file.Some? && beginOk && prepareOk && scanOk && commitOk && AllSucceed(insertOk) ==>
        count == |Wanted(file.value)| && exists paths :: Imported(file.value, rows, paths)
    {
      hide FilesOf, Wanted, Sound, Joined, Done, Imported;
      count, skipCount := 0, 0;
      if file.None? || !beginOk { return; }
      var tx := if rows == [ROOT] || insertOk(0) then Tx([ROOT], 1, 1) else Tx([], 1, 1);
      if !prepareOk { return; }
      var cache := map["" := 0];
      ghost var paths := [[]];
      DoneNone();
      var lines := file.value;
      for k := 0 to |lines|
        invariant rows == old(rows) && count + skipCount == k
        invariant AllSucceed(insertOk) ==> Sound(tx, paths, cache) && Done(lines[..k], tx, paths, count)
      {
        assert lines[..k + 1] == lines[..k] + [lines[k]];
        var inserted;
        tx, cache, inserted, paths := ImportLine(lines[k], tx, cache, insertOk, lines[..k], count, paths);
        if inserted { count := count + 1; } else { skipCount := skipCount + 1; }
      }
      assert lines[..|lines|] == lines;
      if !scanOk || !commitOk { return; }
      rows := tx.rows;
      if AllSucceed(insertOk) { DoneImported(lines, tx, paths, cache, count); }
    }

    /** List: the objects below the node found, or None for the error. */
    method List(path: string) returns (objs: Option<seq<Obj>>)
      ensures MayList(rows, path, objs)
    {
      var node := FindNodeByPath(rows, path);
      if node.None? { return None; }
      var children := ListChildren(rows, node.value.id);
      return Some(children);
    }

    /** Link: the text served, and the Content-Length sent with it. */
    method Link(path: string) returns (data: Option<(string, nat)>)
      ensures exists found :: MayFind(rows, path, found)
                              && data == if found.None? then None else Some((found.value.content, |Encoded(found.value.content)|))
    {
      var node := FindNodeByPath(rows, path);
      if node.None? { return None; }
      ByteLenIsEncoded(node.value.content);
      return Some((node.value.content, ByteLen(node.value.content)));
    }
  }

  lemma DoneImported(lines: seq<string>, tx: Tx, paths: seq<seq<string>>, cache: map<string, int>, count: nat)
    requires Sound(tx, paths, cache) && Done(lines, tx, paths, count)
    ensures count == |Wanted(lines)| && Imported(lines, tx.rows, paths)
  {
  }
}
