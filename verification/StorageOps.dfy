/** The operations of internal/op/storage.go and internal/op/path.go on the map of storages and on the counters
    of balanced storages. */
module StorageOps {
  import opened Common
  import opened Strings
  import opened Paths
  import opened Mounts
  import opened Storages

  datatype PathError = NoStorageAtAll | NoStorageFor(path: string)

  /** An entry of a directory listing. */
  datatype Obj = Obj(name: string, modified: int, isFolder: bool)

  /** The number of slashes that getStoragesByPath compares. */
  ghost predicate Best(tab: Table, seen: set<string>, path: string, level: nat) {
    forall k :: k in seen && k in tab && Serves(tab[k], path) ==> Level(k) <= level
  }

  /** The list holds the storages seen that serve the path at this level, each once. */
  ghost predicate Collected(tab: Table, seen: set<string>, path: string, level: nat, list: seq<Storage>) {
    && Distinct(list)
    && (forall s :: s in list <==> s.mountPath in seen && Member(tab, s) && Serves(s, path) && Level(s.mountPath) == level)
    && (level > 0 ==> list != [])
  }

  lemma CollectedIsAnswer(tab: Table, path: string, level: nat, list: seq<Storage>)
    requires Keyed(tab) && Best(tab, tab.Keys, path, level) && Collected(tab, tab.Keys, path, level, list)
    ensures Answer(tab, path, Sort(list, false))
  {
    hide Serves, Level, Sort, Distinct, Sorted, IsFixed;
    SortSorts(list, false);
    forall s ensures s in list <==> Chosen(tab, path, s) {
      if Chosen(tab, path, s) {
        LevelPositive(s.mountPath);
        assert list != [] ==> list[0] in list;
      }
    }
  }

  lemma ByMountPath(list: seq<Storage>)
    requires Sorted(list, false)
    ensures forall i, j :: 0 <= i < j < |list| ==> StringLess(list[i].mountPath, list[j].mountPath)
  {
    hide StringLess;
  }

  lemma LevelPositive(mountPath: string)
    requires IsFixed(mountPath)
    ensures Level(mountPath) >= 1
  {
    LevelIsDepth(mountPath);
  }

  class Op {
    var storages: Table
    var balance: map<string, nat>

    ghost predicate Valid()
      reads this
    {
      Keyed(storages)
    }

    constructor ()
      ensures Valid() && storages == map[] && balance == map[]
    {
      storages, balance := map[], map[];
    }

    /** getStoragesByPath: whatever the order in which the map is walked, the storages with the longest match. */
    method GetStoragesByPath(path: string) returns (list: seq<Storage>)
      requires Valid()
      ensures Answer(storages, path, list)
      ensures forall i, j :: 0 <= i < j < |list| ==> StringLess(list[i].mountPath, list[j].mountPath)
    {
      hide Serves, Level, Sort, Distinct, Sorted, StringLess, IsFixed, GetActualMountPath, IsSubPath, PathAddSeparatorSuffix, SlashCount;
      list := [];
      var curSlashCount: nat := 0;
      var todo := storages.Keys;
      EmptyDistinct();
      while todo != {}
        invariant todo <= storages.Keys
        invariant Best(storages, storages.Keys - todo, path, curSlashCount)
        invariant Collected(storages, storages.Keys - todo, path, curSlashCount, list)
        decreases |todo|
      {
        ghost var seen := storages.Keys - todo;
        var mountPath :| mountPath in todo;
        todo := todo - {mountPath};
        assert storages.Keys - todo == seen + {mountPath};
        var s := storages[mountPath];
        var actual := GetActualMountPath(mountPath);
        if IsSubPath(actual, path) {
          var slashCount := SlashCount(PathAddSeparatorSuffix(actual));
          ServedHere(s, path, slashCount);
          LevelPositive(mountPath);
          if slashCount > curSlashCount {
            list := [];
            curSlashCount := slashCount;
            EmptyDistinct();
          }
          if slashCount == curSlashCount {
            DistinctSnoc(list, s);
            list := list + [s];
          }
        } else {
          NotServedHere(s, path);
        }
      }
      assert storages.Keys - {} == storages.Keys;
      CollectedIsAnswer(storages, path, curSlashCount, list);
      list := Sort(list, false);
      ByMountPath(list);
    }

    /** GetBalancedStorage: one of the storages with the longest match, in turn. */
    method GetBalancedStorage(path: string) returns (r: Option<Storage>, ghost list: seq<Storage>)
      requires Valid()
      modifies this`balance
      ensures Answer(storages, FixAndCleanPath(path), list) && BalancedSpec(list, old(balance), balance, r)
    {
      hide FixAndCleanPath, GetActualMountPath, Sorted, Chosen, Answer;
      var found := GetStoragesByPath(FixAndCleanPath(path));
      list := found;
      if |found| == 0 { return None, list; }
      if |found| == 1 { return Some(found[0]), list; }
      var virtualPath := GetActualMountPath(found[0].mountPath);
      var i: nat := if virtualPath in balance then balance[virtualPath] else 0;
      i := (i + 1) % |found|;
      balance := balance[virtualPath := i];
      return Some(found[i]), list;
    }

    /** GetStorageAndActualPath */
    method GetStorageAndActualPath(rawPath: string) returns (r: Result<(Storage, string), PathError>)
      requires Valid()
      modifies this`balance
      ensures exists list :: Answer(storages, FixAndCleanPath(rawPath), list)
                             && BalancedSpec(list, old(balance), balance, if r.Ok? then Some(r.value.0) else None)
      ensures match r
              case Ok(found) => Chosen(storages, FixAndCleanPath(rawPath), found.0)
                                && found.1 == ActualPath(found.0.mountPath, FixAndCleanPath(rawPath))
              case Err(e) => (forall s :: Member(storages, s) ==> !Serves(s, FixAndCleanPath(rawPath)))
                             && e == if FixAndCleanPath(rawPath) == "/" then NoStorageAtAll else NoStorageFor(FixAndCleanPath(rawPath))
    {
      hide FixAndCleanPath, GetActualMountPath, Sorted, Chosen, TrimPrefix, Answer, Serves;
      var path := FixAndCleanPath(rawPath);
      FixIsFixed(rawPath);
      FixedStays(path);
      var storage, list := GetBalancedStorage(path);
      BalancedIsChosen(storages, path, list, old(balance), balance, storage);
      if storage.None? {
        if path == "/" { return Err(NoStorageAtAll); }
        return Err(NoStorageFor(path));
      }
      var mountPath := GetActualMountPath(storage.value.mountPath);
      var actualPath := FixAndCleanPath(TrimPrefix(path, mountPath));
      return Ok((storage.value, actualPath));
    }

    /** The values of the map, in any order. */
    method Values() returns (list: seq<Storage>)
      requires Valid()
      ensures Distinct(list) && forall s :: s in list <==> Member(storages, s)
    {
      hide IsFixed;
      list := [];
      var todo := storages.Keys;
      while todo != {}
        invariant todo <= storages.Keys && Distinct(list)
        invariant forall s :: s in list <==> s.mountPath !in todo && Member(storages, s)
        decreases |todo|
      {
        var k :| k in todo;
        todo := todo - {k};
        list := list + [storages[k]];
      }
    }

    /** GetStorageVirtualFilesByPath: one folder for each name below the path, from the first storage in order. */
    method GetStorageVirtualFilesByPath(path: string) returns (files: seq<Obj>)
      requires Valid()
      ensures forall i, j :: 0 <= i < j < |files| ==> files[i].name != files[j].name
      ensures forall f :: f in files ==> exists s :: FirstUnder(storages, FixAndCleanPath(path), f.name, s)
                                                     && f == Obj(f.name, s.modified, true)
      ensures forall s :: Member(storages, s) && Under(FixAndCleanPath(path), s)
                          ==> exists f :: f in files && f.name == EntryName(FixAndCleanPath(path), s)
      ensures forall i, j, s, t :: 0 <= i < j < |files| && FirstUnder(storages, FixAndCleanPath(path), files[i].name, s)
                && FirstUnder(storages, FixAndCleanPath(path), files[j].name, t)
                ==> s.order < t.order || (s.order == t.order && StringLess(s.mountPath, t.mountPath))
    {
      hide FixAndCleanPath, EntryName, Under, Before, Sort, StringLess, FirstUnder, Sorted, Found;
      files := [];
      ghost var at: seq<nat> := [];
      var list := Values();
      SortSorts(list, true);
      list := Sort(list, true);
      var prefix := FixAndCleanPath(path);
      var names: set<string> := {};
      FoundNone(list, prefix);
      for i := 0 to |list|
        invariant Found(list, prefix, files, at, names, i)
      {
        var v := list[i];
        var name := NameUnder(prefix, v);
        FoundNext(list, prefix, files, at, names, i);
        if name.None? { continue; }
        if name.value !in names {
          names := names + {name.value};
          files := files + [Obj(name.value, v.modified, true)];
          at := at + [i];
        }
      }
      FoundAll(storages, list, prefix, files, at, names);
    }
  }

  /** The first n storages of the list have been seen: the folders are the first ones found under their names, at
      these places, one after the other, and the names are those of all storages below the path. */
  ghost predicate Found(list: seq<Storage>, prefix: string, files: seq<Obj>, at: seq<nat>, names: set<string>, n: nat) {
    && n <= |list| && |at| == |files| && (forall j, k :: 0 <= j < k < |at| ==> at[j] < at[k])
    && (forall k :: 0 <= k < |at| ==> at[k] < n && FoundAt(list, prefix, files[k], at[k]) && files[k].name in names)
    && (forall m :: m in names ==> exists k :: 0 <= k < |files| && files[k].name == m)
    && (forall j :: 0 <= j < n && Under(prefix, list[j]) ==> EntryName(prefix, list[j]) in names)
  }

  ghost predicate FoundAt(list: seq<Storage>, prefix: string, f: Obj, j: nat) {
    FirstIn(list, prefix, f.name, j) && f == Obj(f.name, list[j].modified, true)
  }

  lemma FoundNone(list: seq<Storage>, prefix: string)
    ensures Found(list, prefix, [], [], {}, 0)
  {
  }

  lemma FoundNext(list: seq<Storage>, prefix: string, files: seq<Obj>, at: seq<nat>, names: set<string>, i: nat)
    requires i < |list| && Found(list, prefix, files, at, names, i)
    ensures if Under(prefix, list[i]) && EntryName(prefix, list[i]) !in names then
              var name := EntryName(prefix, list[i]);
              Found(list, prefix, files + [Obj(name, list[i].modified, true)], at + [i], names + {name}, i + 1)
            else Found(list, prefix, files, at, names, i + 1)
  {
    hide Under, EntryName;
    if Under(prefix, list[i]) && EntryName(prefix, list[i]) !in names {
      var name := EntryName(prefix, list[i]);
      var f := Obj(name, list[i].modified, true);
      hide FoundAt;
      assert FoundAt(list, prefix, f, i) by { NewIsFirst(list, prefix, files, at, names, i); }
      var files' := files + [f];
      assert files'[|files|] == f;
      forall m | m in names + {name} ensures exists k :: 0 <= k < |files'| && files'[k].name == m {
        if m in names {
          var k :| 0 <= k < |files| && files[k].name == m;
          assert files'[k].name == m;
        }
      }
    }
  }

  lemma NewIsFirst(list: seq<Storage>, prefix: string, files: seq<Obj>, at: seq<nat>, names: set<string>, i: nat)
    requires i < |list| && Found(list, prefix, files, at, names, i)
    requires Under(prefix, list[i]) && EntryName(prefix, list[i]) !in names
    ensures FoundAt(list, prefix, Obj(EntryName(prefix, list[i]), list[i].modified, true), i)
  {
    hide Under, EntryName;
  }

  /** What has been found when the whole list has been seen. */
  lemma FoundAll(tab: Table, list: seq<Storage>, prefix: string, files: seq<Obj>, at: seq<nat>, names: set<string>)
    requires Sorted(list, true) && (forall s :: s in list <==> Member(tab, s)) && Found(list, prefix, files, at, names, |list|)
    ensures forall i, j :: 0 <= i < j < |files| ==> files[i].name != files[j].name
    ensures forall f :: f in files ==> exists s :: FirstUnder(tab, prefix, f.name, s) && f == Obj(f.name, s.modified, true)
    ensures forall s :: Member(tab, s) && Under(prefix, s) ==> exists f :: f in files && f.name == EntryName(prefix, s)
    ensures forall i, j, s, t :: 0 <= i < j < |files| && FirstUnder(tab, prefix, files[i].name, s) && FirstUnder(tab, prefix, files[j].name, t)
              ==> s.order < t.order || (s.order == t.order && StringLess(s.mountPath, t.mountPath))
  {
    hide Under, EntryName, Before, FirstUnder, FirstIn, StringLess, Member;
    forall k | 0 <= k < |files|
      ensures FirstUnder(tab, prefix, files[k].name, list[at[k]])
      ensures forall s :: FirstUnder(tab, prefix, files[k].name, s) ==> s == list[at[k]]
    {
      FirstInIsFirst(tab, list, prefix, files[k].name, at[k]);
      forall s | FirstUnder(tab, prefix, files[k].name, s) ensures s == list[at[k]] {
        OneFirst(tab, prefix, files[k].name, s, list[at[k]]);
      }
    }
    forall i, j | 0 <= i < j < |files|
      ensures files[i].name != files[j].name && OrderedBy(list[at[i]], list[at[j]])
    {
      OtherName(list, prefix, files[i], files[j], at[i], at[j]);
      assert Before(list[at[i]], list[at[j]], true);
      BeforeIs(list[at[i]], list[at[j]]);
    }
    forall s | Member(tab, s) && Under(prefix, s) ensures exists f :: f in files && f.name == EntryName(prefix, s) {
      var j :| 0 <= j < |list| && list[j] == s;
      var k :| 0 <= k < |files| && files[k].name == EntryName(prefix, s);
      assert files[k] in files;
    }
  }

  lemma OtherName(list: seq<Storage>, prefix: string, f: Obj, g: Obj, i: nat, j: nat)
    requires i < j && FoundAt(list, prefix, f, i) && FoundAt(list, prefix, g, j)
    ensures f.name != g.name
  {
    hide Under, EntryName;
  }

  ghost predicate OrderedBy(s: Storage, t: Storage) {
    s.order < t.order || (s.order == t.order && StringLess(s.mountPath, t.mountPath))
  }

  lemma BeforeIs(s: Storage, t: Storage)
    ensures Before(s, t, true) <==> OrderedBy(s, t)
  {
    hide StringLess;
  }

  lemma OneFirst(tab: Table, prefix: string, name: string, s: Storage, t: Storage)
    requires FirstUnder(tab, prefix, name, s) && FirstUnder(tab, prefix, name, t)
    ensures s == t
  {
    hide Under, EntryName, StringLess;
    if s != t {
      assert Before(s, t, true) && Before(t, s, true);
      LessTotal(s.mountPath, t.mountPath);
    }
  }

  /** What GetStorageAndActualPath finds serves the path, and joining goes back exactly when GoesBack says so;
      where the slashes of the mounts are in order, it is the longest match. */
  lemma ResolvedJoinsBack(tab: Table, rawPath: string, s: Storage)
    requires Keyed(tab) && Chosen(tab, FixAndCleanPath(rawPath), s)
    ensures var path := FixAndCleanPath(rawPath);
            && Above(GetActualMountPath(s.mountPath), path)
            && (GetFullPath(s.mountPath, ActualPath(s.mountPath, path)) == path <==> GoesBack(s.mountPath, path))
            && (AllFine(tab) ==> Deepest(tab, path, s))
  {
    hide FixAndCleanPath, GetFullPath, ActualPath, GetActualMountPath, Comps, Level, Depth, GoesBack, Fine, IsFixed, Above;
    var path := FixAndCleanPath(rawPath);
    FixIsFixed(rawPath);
    FixedStays(path);
    ServesIsAbove(s, path);
    JoinsBack(s.mountPath, path);
    if AllFine(tab) { FineFinds(tab, path, s); }
  }

  // ---------- virtual folders ----------

  /** The loop of GetStorageVirtualFilesByPath does not skip the storage. */
  predicate Under(prefix: string, s: Storage) {
    var mountPath := GetActualMountPath(s.mountPath);
    |prefix| < |mountPath| && IsSubPath(prefix, mountPath)
  }

  function EntryName(prefix: string, s: Storage): string
    requires Under(prefix, s)
  {
    Split(TrimPrefix(GetActualMountPath(s.mountPath)[|prefix|..], "/"), '/')[0]
  }

  method NameUnder(prefix: string, s: Storage) returns (r: Option<string>)
    ensures r == if Under(prefix, s) then Some(EntryName(prefix, s)) else None
  {
    var mountPath := GetActualMountPath(s.mountPath);
    if |prefix| >= |mountPath| || !IsSubPath(prefix, mountPath) { return None; }
    return Some(Split(TrimPrefix(mountPath[|prefix|..], "/"), '/')[0]);
  }

  ghost predicate FirstIn(list: seq<Storage>, prefix: string, name: string, j: int) {
    && 0 <= j < |list| && Under(prefix, list[j]) && EntryName(prefix, list[j]) == name
    && forall i :: 0 <= i < j && Under(prefix, list[i]) ==> EntryName(prefix, list[i]) != name
  }

  /** s is the first storage, in the order of the listing, below the path under this name. */
  ghost predicate FirstUnder(tab: Table, prefix: string, name: string, s: Storage) {
    && Member(tab, s) && Under(prefix, s) && EntryName(prefix, s) == name
    && forall t :: Member(tab, t) && Under(prefix, t) && EntryName(prefix, t) == name && t != s ==> Before(s, t, true)
  }

  lemma FirstInIsFirst(tab: Table, list: seq<Storage>, prefix: string, name: string, j: int)
    requires Sorted(list, true) && (forall s :: s in list <==> Member(tab, s)) && FirstIn(list, prefix, name, j)
    ensures FirstUnder(tab, prefix, name, list[j])
  {
    hide Under, EntryName, Before;
    forall t | Member(tab, t) && Under(prefix, t) && EntryName(prefix, t) == name && t != list[j] ensures Before(list[j], t, true) {
      var i :| 0 <= i < |list| && list[i] == t;
    }
  }

  /** For a clean actual mount path, the folder is the component that follows the path. */
  lemma UnderIsBelow(prefix: string, s: Storage)
    requires IsFixed(prefix) && IsFixed(s.mountPath) && IsClean(GetActualMountPath(s.mountPath))
    ensures var p, a := Comps(prefix), Comps(GetActualMountPath(s.mountPath));
            && (Under(prefix, s) <==> p <= a && |p| < |a|)
            && (Under(prefix, s) ==> EntryName(prefix, s) == a[|p|])
  {
    hide Comps, GetActualMountPath, FixAndCleanPath, IsSubPath, Slashed, Split;
    var actual := GetActualMountPath(s.mountPath);
    var p, a := Comps(prefix), Comps(actual);
    var init, c := ActualForm(s.mountPath);
    FixedStays(prefix);
    FixedHere(actual);
    SubPathIsAbove(prefix, actual);
    if p <= a && |p| < |a| {
      var tail := a[|p|..];
      assert a == p + tail;
      SlashedSplit(p, tail);
      SlashedHead(tail);
      NameBelow(p, tail);
    } else if p <= a {
      assert p == a;
    }
  }

  lemma NameBelow(p: seq<string>, tail: seq<string>)
    requires AreComps(p) && AreComps(tail) && tail != []
    ensures var prefix, actual := NameOf(p), Slashed(p + tail);
            && |prefix| < |actual|
            && Split(TrimPrefix(actual[|prefix|..], "/"), '/')[0] == tail[0]
  {
    hide Slashed, Split;
    SlashedSplit(p, tail);
    SlashedHead(tail);
    assert IsComp(tail[0]) && tail[0][0] in tail[0];
    var rest := tail[0] + Slashed(tail[1..]);
    assert AreComps(tail[1..]);
    SplitTail(tail[0], tail[1..]);
    var actual := Slashed(p) + Slashed(tail);
    assert Slashed(tail) == "/" + rest;
    if p == [] {
      NoneSlashed();
      assert actual == Slashed(tail) && actual[1..] == rest && rest[0] == tail[0][0];
    } else {
      assert actual[|Slashed(p)|..] == Slashed(tail) && Slashed(tail)[1..] == rest;
    }
  }

  /** What GetBalancedStorage returns from the list of storages with the longest match. */
  ghost predicate BalancedSpec(list: seq<Storage>, balance: map<string, nat>, balance': map<string, nat>, r: Option<Storage>) {
    if list == [] then r == None && balance' == balance
    else if |list| == 1 then r == Some(list[0]) && balance' == balance
    else
      var virtualPath := GetActualMountPath(list[0].mountPath);
      var i := ((if virtualPath in balance then balance[virtualPath] else 0) + 1) % |list|;
      r == Some(list[i]) && balance' == balance[virtualPath := i]
  }

  /** While the list stays the same, each call moves on to the next storage. */
  lemma NextInTurn(list: seq<Storage>, b0: map<string, nat>, b1: map<string, nat>, b2: map<string, nat>,
                   r1: Option<Storage>, r2: Option<Storage>, i: nat)
    requires |list| > 1 && i < |list| && r1 == Some(list[i]) && Distinct(list)
    requires BalancedSpec(list, b0, b1, r1) && BalancedSpec(list, b1, b2, r2)
    ensures r2 == Some(list[(i + 1) % |list|])
  {
  }

  /** Calls one after another with the same list: call number i goes from the counters bs[i] to bs[i + 1]. */
  ghost predicate Calls(list: seq<Storage>, bs: seq<map<string, nat>>, rs: seq<Option<Storage>>) {
    |bs| == |rs| + 1 && forall i :: 0 <= i < |rs| ==> BalancedSpec(list, bs[i], bs[i + 1], rs[i])
  }

  /** The place that comes i places after k, around a list of n. */
  function Around(k: nat, i: nat, n: nat): (r: nat)
    requires k < n && i < n
    ensures r < n
  {
    if k + i < n then k + i else k + i - n
  }

  lemma {:induction false} CallsInTurn(list: seq<Storage>, bs: seq<map<string, nat>>, rs: seq<Option<Storage>>, k: nat, i: nat)
    requires Calls(list, bs, rs) && |list| > 1 && Distinct(list) && k < |list| && i < |rs| && i < |list|
    requires rs[0] == Some(list[k])
    ensures rs[i] == Some(list[Around(k, i, |list|)])
  {
    hide BalancedSpec, Around, Distinct;
    if i == 0 {
      AroundNone(k, |list|);
    } else {
      CallsInTurn(list, bs, rs, k, i - 1);
      var before := Around(k, i - 1, |list|);
      assert BalancedSpec(list, bs[i - 1], bs[i - 1 + 1], rs[i - 1]) && BalancedSpec(list, bs[i], bs[i + 1], rs[i]);
      NextInTurn(list, bs[i - 1], bs[i], bs[i + 1], rs[i - 1], rs[i], before);
      NextPlace(k, i - 1, |list|);
    }
  }

  lemma AroundNone(k: nat, n: nat)
    requires k < n
    ensures Around(k, 0, n) == k
  {
  }

  lemma NextPlace(k: nat, i: nat, n: nat)
    requires k < n && i + 1 < n
    ensures (Around(k, i, n) + 1) % n == Around(k, i + 1, n)
  {
    var r := Around(k, i, n);
    if r + 1 < n { Small(r + 1, n); } else { Whole(n); }
  }

  lemma Small(r: nat, n: nat)
    requires r < n
    ensures r % n == r
  {
  }

  lemma Whole(n: nat)
    requires n > 0
    ensures n % n == 0
  {
  }

  /** As many calls as there are storages use each of them. */
  lemma EachInTurn(list: seq<Storage>, bs: seq<map<string, nat>>, rs: seq<Option<Storage>>, s: Storage)
    requires Calls(list, bs, rs) && |rs| == |list| && Distinct(list) && s in list
    ensures Some(s) in rs
  {
    hide BalancedSpec;
    assert BalancedSpec(list, bs[0], bs[0 + 1], rs[0]);
    var j :| 0 <= j < |list| && list[j] == s;
    var k := FirstPlace(list, bs[0], bs[1], rs[0]);
    if |list| > 1 {
      var i := if j >= k then j - k else j - k + |list|;
      CallsInTurn(list, bs, rs, k, i);
      assert rs[i] == Some(s);
    } else {
      assert rs[0] == Some(s);
    }
  }

  lemma FirstPlace(list: seq<Storage>, b: map<string, nat>, b': map<string, nat>, r: Option<Storage>) returns (k: nat)
    requires BalancedSpec(list, b, b', r) && list != []
    ensures k < |list| && r == Some(list[k])
  {
    k := if |list| == 1 then 0
         else
           var virtualPath := GetActualMountPath(list[0].mountPath);
           ((if virtualPath in b then b[virtualPath] else 0) + 1) % |list|;
  }

  lemma BalancedIsChosen(tab: Table, path: string, list: seq<Storage>, balance: map<string, nat>, balance': map<string, nat>, r: Option<Storage>)
    requires Answer(tab, path, list) && BalancedSpec(list, balance, balance', r)
    ensures if r.Some? then Chosen(tab, path, r.value) else forall s :: Member(tab, s) ==> !Serves(s, path)
  {
    hide Serves, Sorted, GetActualMountPath;
    if list == [] {
      forall s | Member(tab, s) ensures !Serves(s, path) { NoneChosen(tab, path, s); }
    } else {
      assert forall i :: 0 <= i < |list| ==> list[i] in list;
    }
  }

  /** If some storage serves the path, some storage is chosen. */
  lemma NoneChosen(tab: Table, path: string, s: Storage)
    requires Member(tab, s) && forall t :: !Chosen(tab, path, t)
    ensures !Serves(s, path)
    decreases 0
  {
    if Serves(s, path) {
      var t := Highest(tab, path, tab.Keys, s);
      assert Chosen(tab, path, t);
    }
  }

  /** A storage with the most slashes among those of `keys` that serve the path, and s. */
  lemma {:induction false} Highest(tab: Table, path: string, keys: set<string>, s: Storage) returns (t: Storage)
    requires Member(tab, s) && Serves(s, path)
    ensures Member(tab, t) && Serves(t, path) && Level(t.mountPath) >= Level(s.mountPath)
    ensures forall u :: Member(tab, u) && u.mountPath in keys && Serves(u, path) ==> Level(u.mountPath) <= Level(t.mountPath)
    decreases |keys|
  {
    hide Serves, Level;
    t := s;
    if keys != {} {
      var k :| k in keys;
      t := Highest(tab, path, keys - {k}, s);
      if k in tab && tab[k].mountPath == k && Serves(tab[k], path) && Level(k) > Level(t.mountPath) {
        t := tab[k];
      }
    }
  }

  lemma ServedHere(s: Storage, path: string, slashCount: nat)
    requires IsSubPath(GetActualMountPath(s.mountPath), path)
    requires slashCount == SlashCount(PathAddSeparatorSuffix(GetActualMountPath(s.mountPath)))
    ensures Serves(s, path) && Level(s.mountPath) == slashCount
  {
  }

  lemma NotServedHere(s: Storage, path: string)
    requires !IsSubPath(GetActualMountPath(s.mountPath), path)
    ensures !Serves(s, path)
  {
  }

  lemma EmptyDistinct()
    ensures Distinct([])
  {
  }

  lemma DistinctSnoc(list: seq<Storage>, s: Storage)
    requires Distinct(list) && forall t :: t in list ==> t.mountPath != s.mountPath
    ensures Distinct(list + [s])
  {
  }
}
