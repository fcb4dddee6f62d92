/** Finding the storage for a path: internal/op/storage.go and internal/op/path.go. The map of storages may be
    walked in any order; the answers do not depend on it. */
module Storages {
  import opened Common
  import opened Strings
  import opened Paths
  import opened Mounts

  datatype Storage = Storage(mountPath: string, order: int, modified: int)

  // ---------- sorting ----------

  /** Go's < on strings. */
  predicate StringLess(a: string, b: string) {
    if b == "" then false
    else if a == "" then true
    else a[0] < b[0] || (a[0] == b[0] && StringLess(a[1..], b[1..]))
  }

  /** a comes before b where they first differ, or is a beginning of b. */
  ghost predicate LessAt(a: string, b: string, k: nat) {
    k <= |a| && k < |b| && a[..k] == b[..k] && (k == |a| || a[k] < b[k])
  }

  lemma {:induction false} StringLessIff(a: string, b: string)
    ensures StringLess(a, b) <==> exists k: nat :: LessAt(a, b, k)
  {
    if a == "" || b == "" || a[0] != b[0] {
      LessAtOnce(a, b);
    } else {
      StringLessIff(a[1..], b[1..]);
      forall k: nat ensures LessAt(a[1..], b[1..], k) <==> LessAt(a, b, k + 1) { LessLater(a, b, k); }
      if k: nat :| LessAt(a, b, k) { assert k > 0 && LessAt(a[1..], b[1..], k - 1); }
      if k: nat :| LessAt(a[1..], b[1..], k) { assert LessAt(a, b, k + 1); }
    }
  }

  lemma LessAtOnce(a: string, b: string)
    requires a == "" || b == "" || a[0] != b[0]
    ensures StringLess(a, b) <==> exists k: nat :: LessAt(a, b, k)
  {
    assert LessAt(a, b, 0) <==> StringLess(a, b);
    assert forall k: nat :: 0 < k <= |a| && k <= |b| ==> a[..k][0] == a[0] && b[..k][0] == b[0];
  }

  lemma LessLater(a: string, b: string, k: nat)
    requires a != "" && b != "" && a[0] == b[0]
    ensures LessAt(a[1..], b[1..], k) <==> LessAt(a, b, k + 1)
  {
    if k + 1 <= |a| && k + 1 <= |b| {
      assert a[..k + 1] == [a[0]] + a[1..][..k] && b[..k + 1] == [b[0]] + b[1..][..k];
      assert a[..k + 1][1..] == a[1..][..k] && b[..k + 1][1..] == b[1..][..k];
    }
  }

  lemma {:induction false} LessTrans(a: string, b: string, c: string)
    requires StringLess(a, b) && StringLess(b, c)
    ensures StringLess(a, c)
  {
    if a != "" && a[0] == b[0] == c[0] { LessTrans(a[1..], b[1..], c[1..]); }
  }

  lemma {:induction false} LessTotal(a: string, b: string)
    ensures !(StringLess(a, b) && StringLess(b, a))
    ensures a != b ==> StringLess(a, b) || StringLess(b, a)
  {
    if a != "" && b != "" && a[0] == b[0] {
      LessTotal(a[1..], b[1..]);
      assert a == [a[0]] + a[1..] && b == [b[0]] + b[1..];
    }
  }

  /** The order of getStoragesByPath, or with `byOrder` that of GetStorageVirtualFilesByPath. */
  predicate Before(s: Storage, t: Storage, byOrder: bool) {
    if byOrder && s.order != t.order then s.order < t.order else StringLess(s.mountPath, t.mountPath)
  }

  lemma BeforeTrans(s: Storage, t: Storage, u: Storage, byOrder: bool)
    requires Before(s, t, byOrder) && Before(t, u, byOrder)
    ensures Before(s, u, byOrder)
  {
    if StringLess(s.mountPath, t.mountPath) && StringLess(t.mountPath, u.mountPath) {
      LessTrans(s.mountPath, t.mountPath, u.mountPath);
    }
  }

  /** In order, and no mount path twice. */
  ghost predicate Sorted(list: seq<Storage>, byOrder: bool) {
    forall i, j :: 0 <= i < j < |list| ==> Before(list[i], list[j], byOrder)
  }

  /** sort.Slice: any correct sort of distinct mount paths gives this. */
  function Insert(list: seq<Storage>, s: Storage, byOrder: bool): seq<Storage> {
    if list == [] then [s]
    else if Before(s, list[0], byOrder) then [s] + list
    else [list[0]] + Insert(list[1..], s, byOrder)
  }

  function Sort(list: seq<Storage>, byOrder: bool): seq<Storage> {
    if list == [] then [] else Insert(Sort(list[1..], byOrder), list[0], byOrder)
  }

  lemma {:induction false} InsertSorts(list: seq<Storage>, s: Storage, byOrder: bool)
    requires Sorted(list, byOrder) && forall t :: t in list ==> t.mountPath != s.mountPath
    ensures Sorted(Insert(list, s, byOrder), byOrder)
    ensures forall t :: t in Insert(list, s, byOrder) <==> t in list || t == s
    decreases |list|
  {
    hide StringLess;
    if list != [] {
      var r := Insert(list, s, byOrder);
      if Before(s, list[0], byOrder) {
        forall j | 0 <= j < |list| ensures Before(s, list[j], byOrder) {
          if j > 0 { BeforeTrans(s, list[0], list[j], byOrder); }
        }
      } else {
        InsertSorts(list[1..], s, byOrder);
        LessTotal(s.mountPath, list[0].mountPath);
        assert Before(list[0], s, byOrder);
        assert list == [list[0]] + list[1..];
        forall t | t in Insert(list[1..], s, byOrder) ensures Before(list[0], t, byOrder) {
          if t != s { assert t in list[1..]; }
        }
      }
    }
  }

  ghost predicate Distinct(list: seq<Storage>) {
    forall i, j :: 0 <= i < j < |list| ==> list[i].mountPath != list[j].mountPath
  }

  lemma {:induction false} SortSorts(list: seq<Storage>, byOrder: bool)
    requires Distinct(list)
    ensures Sorted(Sort(list, byOrder), byOrder)
    ensures forall t :: t in Sort(list, byOrder) <==> t in list
  {
    hide Before, Insert;
    if list != [] {
      SortSorts(list[1..], byOrder);
      InsertSorts(Sort(list[1..], byOrder), list[0], byOrder);
      assert list == [list[0]] + list[1..];
    }
  }

  /** A sorted list is determined by its elements: this is why the order of the map does not matter. */
  lemma {:induction false} SortedUnique(a: seq<Storage>, b: seq<Storage>, byOrder: bool)
    requires Sorted(a, byOrder) && Sorted(b, byOrder) && forall t :: t in a <==> t in b
    ensures a == b
    decreases |a|
  {
    hide StringLess;
    if a == [] {
      assert forall i :: 0 <= i < |b| ==> b[i] in b;
    } else {
      assert a[0] in b && b != [] && b[0] in a;
      FirstsAgree(a, b, byOrder);
      forall t ensures t in a[1..] <==> t in b[1..] { RestIn(a, byOrder, t); RestIn(b, byOrder, t); }
      SortedUnique(a[1..], b[1..], byOrder);
      assert a == [a[0]] + a[1..] && b == [b[0]] + b[1..];
    }
  }

  lemma FirstsAgree(a: seq<Storage>, b: seq<Storage>, byOrder: bool)
    requires Sorted(a, byOrder) && Sorted(b, byOrder) && a != [] && b != [] && a[0] in b && b[0] in a
    ensures a[0] == b[0]
  {
    if a[0] != b[0] {
      var i :| 0 <= i < |a| && a[i] == b[0];
      var j :| 0 <= j < |b| && b[j] == a[0];
      LessTotal(a[0].mountPath, b[0].mountPath);
    }
  }

  lemma RestIn(a: seq<Storage>, byOrder: bool, t: Storage)
    requires Sorted(a, byOrder) && a != []
    ensures t in a[1..] <==> t in a && t != a[0]
  {
    assert a == [a[0]] + a[1..];
    if t in a[1..] && t == a[0] {
      var i :| 1 <= i < |a| && a[i] == t;
      LessTotal(t.mountPath, t.mountPath);
    }
  }

  // ---------- which storages serve a path ----------

  type Table = map<string, Storage>

  /** What CreateStorage, LoadStorage and UpdateStorage keep: the keys are the storages' cleaned mount paths. */
  ghost predicate Keyed(tab: Table) {
    forall k :: k in tab ==> IsFixed(k) && tab[k].mountPath == k
  }

  predicate Serves(s: Storage, path: string) { IsSubPath(GetActualMountPath(s.mountPath), path) }

  ghost predicate Member(tab: Table, s: Storage) { s.mountPath in tab && tab[s.mountPath] == s }

  /** No storage that serves the path has more slashes. */
  ghost predicate Chosen(tab: Table, path: string, s: Storage) {
    && Member(tab, s) && Serves(s, path)
    && forall t :: Member(tab, t) && Serves(t, path) ==> Level(t.mountPath) <= Level(s.mountPath)
  }

  ghost predicate Answer(tab: Table, path: string, list: seq<Storage>) {
    Sorted(list, false) && forall s :: s in list <==> Chosen(tab, path, s)
  }

  lemma AnswerUnique(tab: Table, path: string, a: seq<Storage>, b: seq<Storage>)
    requires Answer(tab, path, a) && Answer(tab, path, b)
    ensures a == b
  {
    hide Chosen;
    SortedUnique(a, b, false);
  }

  lemma ServesIsAbove(s: Storage, path: string)
    requires IsFixed(s.mountPath)
    ensures Serves(s, path) <==> Above(GetActualMountPath(s.mountPath), FixAndCleanPath(path))
  {
    hide Comps, GetActualMountPath, FixAndCleanPath, IsSubPath;
    var actual := GetActualMountPath(s.mountPath);
    var init, c := ActualForm(s.mountPath);
    StartsRooted(init, c);
    FixRooted(actual);
    SubPathIsAbove(actual, path);
  }

  lemma StartsRooted(init: seq<string>, c: string)
    ensures (Slashed(init) + "/" + c)[0] == '/'
  {
    if init != [] { SlashedHead(init); }
  }

  /** The actual mount path of s is a component-wise prefix of the path, and no other is longer. */
  ghost predicate Deepest(tab: Table, path: string, s: Storage) {
    && Member(tab, s) && Above(GetActualMountPath(s.mountPath), FixAndCleanPath(path))
    && forall t :: Member(tab, t) && Above(GetActualMountPath(t.mountPath), FixAndCleanPath(path))
                   ==> Depth(t.mountPath) <= Depth(s.mountPath)
  }

  /** Counting slashes puts the actual mount path of c and a path below it, t, in the right order. */
  predicate Fine(c: string, t: string) {
    Above(GetActualMountPath(c), GetActualMountPath(t)) ==>
      && (Depth(c) < Depth(t) ==> Level(c) < Level(t))
      && (Depth(c) == Depth(t) ==> Level(c) == Level(t))
  }

  ghost predicate AllFine(tab: Table) { forall c, t :: c in tab && t in tab ==> Fine(c, t) }

  ghost predicate FindsLongest(tab: Table) { forall path, s :: Chosen(tab, path, s) <==> Deepest(tab, path, s) }

  /** Counting slashes finds the longest match for every path exactly when it puts every two mounts, one at or
      above the other, in the right order. */
  lemma LongestMatchIff(tab: Table)
    requires Keyed(tab)
    ensures FindsLongest(tab) <==> AllFine(tab)
  {
    hide Fine, Chosen, Deepest, Keyed;
    if AllFine(tab) {
      forall path, s ensures Chosen(tab, path, s) <==> Deepest(tab, path, s) { FineFinds(tab, path, s); }
    }
    if FindsLongest(tab) {
      forall c, t | c in tab && t in tab ensures Fine(c, t) { FindsFine(tab, c, t); }
    }
  }

  lemma ServesAll(tab: Table, path: string)
    requires Keyed(tab)
    ensures forall t :: Member(tab, t) ==> (Serves(t, path) <==> Above(GetActualMountPath(t.mountPath), FixAndCleanPath(path)))
  {
    hide Serves, Above, IsFixed;
    forall t | Member(tab, t) ensures Serves(t, path) <==> Above(GetActualMountPath(t.mountPath), FixAndCleanPath(path)) {
      ServesIsAbove(t, path);
    }
  }

  lemma FineFinds(tab: Table, path: string, s: Storage)
    requires Keyed(tab) && AllFine(tab)
    ensures Chosen(tab, path, s) <==> Deepest(tab, path, s)
  {
    hide Serves, Above, Level, Depth, IsFixed, FixAndCleanPath, GetActualMountPath;
    ServesAll(tab, path);
    if Member(tab, s) && Serves(s, path) {
      forall t | Member(tab, t) && Serves(t, path) ensures Depth(t.mountPath) <= Depth(s.mountPath) <==> Level(t.mountPath) <= Level(s.mountPath) {
        OnOnePath(s.mountPath, t.mountPath, FixAndCleanPath(path));
        assert Fine(s.mountPath, t.mountPath) && Fine(t.mountPath, s.mountPath);
      }
    }
  }

  /** Of two actual mount paths above one path, the shallower is above the deeper. */
  lemma OnOnePath(c: string, t: string, path: string)
    requires Above(GetActualMountPath(c), path) && Above(GetActualMountPath(t), path)
    ensures Depth(c) <= Depth(t) ==> Above(GetActualMountPath(c), GetActualMountPath(t))
    ensures Depth(t) <= Depth(c) ==> Above(GetActualMountPath(t), GetActualMountPath(c))
  {
    hide GetActualMountPath, Comps;
    var a, b, p := Comps(GetActualMountPath(c)), Comps(GetActualMountPath(t)), Comps(path);
    assert a == p[..|a|] && b == p[..|b|];
  }

  /** The actual mount path of t is itself a path that shows whether c and t are in the right order. */
  lemma FindsFine(tab: Table, c: string, t: string)
    requires Keyed(tab) && FindsLongest(tab) && c in tab && t in tab
    ensures Fine(c, t)
  {
    hide Serves, Level, Depth, IsFixed, FixAndCleanPath, GetActualMountPath, Above;
    var path := GetActualMountPath(t);
    if Above(GetActualMountPath(c), path) {
      ServesAll(tab, path);
      ActualRooted(t);
      AboveActual(t);
      assert Member(tab, tab[t]) && Member(tab, tab[c]);
      forall u | Member(tab, u) && Serves(u, path) ensures Depth(u.mountPath) <= Depth(t) { NotDeeper(u.mountPath, t); }
      NotDeeper(c, t);
      assert Serves(tab[c], path) && Serves(tab[t], path);
      assert Deepest(tab, path, tab[t]);
      assert Chosen(tab, path, tab[t]);
      assert Chosen(tab, path, tab[c]) <==> Deepest(tab, path, tab[c]);
    }
  }

  lemma ActualRooted(t: string)
    requires IsFixed(t)
    ensures forall a :: Above(a, FixAndCleanPath(GetActualMountPath(t))) <==> Above(a, GetActualMountPath(t))
  {
    hide Comps, GetActualMountPath, FixAndCleanPath;
    var init, c := ActualForm(t);
    StartsRooted(init, c);
    FixRooted(GetActualMountPath(t));
  }

  lemma AboveActual(t: string)
    ensures Above(GetActualMountPath(t), GetActualMountPath(t))
  {
  }

  lemma NotDeeper(u: string, t: string)
    requires Above(GetActualMountPath(u), GetActualMountPath(t))
    ensures Depth(u) <= Depth(t)
  {
  }

  /** In particular it does so where no actual mount path ends in a dot component. */
  lemma ChosenIsDeepest(tab: Table, path: string, s: Storage)
    requires Keyed(tab) && forall k :: k in tab ==> Straight(k)
    ensures Chosen(tab, path, s) <==> Deepest(tab, path, s)
  {
    hide Above, Level, Depth, Straight, IsFixed, Chosen, Deepest, GetActualMountPath;
    forall k | k in tab ensures Level(k) == Depth(k) + 1 { LevelIsDepth(k); }
    LongestMatchIff(tab);
  }

  /** All storages chosen for one path have one actual mount path, up to cleaning. */
  lemma ChosenShareMount(tab: Table, path: string, s: Storage, t: Storage)
    requires Deepest(tab, path, s) && Deepest(tab, path, t)
    ensures Comps(GetActualMountPath(s.mountPath)) == Comps(GetActualMountPath(t.mountPath))
    ensures Clean(GetActualMountPath(s.mountPath)) == Clean(GetActualMountPath(t.mountPath))
  {
    hide GetActualMountPath, FixAndCleanPath, Comps;
    var p := Comps(FixAndCleanPath(path));
    var a, b := Comps(GetActualMountPath(s.mountPath)), Comps(GetActualMountPath(t.mountPath));
    assert a == p[..|a|] && b == p[..|b|];
  }

  /** A mount whose actual path ends in a dot component is wrongly chosen beside any straight mount one level
      below it. */
  lemma CrookedIsWrong(s: Storage, t: Storage)
    requires IsFixed(s.mountPath) && IsFixed(t.mountPath) && !Straight(s.mountPath) && Straight(t.mountPath)
    requires IsClean(GetActualMountPath(t.mountPath)) && Above(GetActualMountPath(s.mountPath), GetActualMountPath(t.mountPath))
    requires Depth(t.mountPath) == Depth(s.mountPath) + 1
    ensures var tab := map[s.mountPath := s, t.mountPath := t];
            var path := GetActualMountPath(t.mountPath);
            Chosen(tab, path, s) && !Deepest(tab, path, s)
  {
    hide Level, Depth, Straight, IsFixed, FixAndCleanPath, GetActualMountPath, Serves, Comps, IsClean;
    var tab := map[s.mountPath := s, t.mountPath := t];
    var path := GetActualMountPath(t.mountPath);
    LevelIsDepth(s.mountPath);
    LevelIsDepth(t.mountPath);
    ServesIsAbove(s, path);
    ServesIsAbove(t, path);
    var init, c := ActualForm(t.mountPath);
    assert FixAndCleanPath(path) == path by { FixedHere(path); }
    assert Member(tab, t) && Member(tab, s);
  }

  lemma FixedHere(path: string)
    requires IsClean(path) && '\\' !in path
    ensures FixAndCleanPath(path) == path
  {
    FixedStays(path);
  }

  /** Two mounts for which it does not: "/a/b" is the longer match for the path "/a/b", and yet the other is
      chosen too, because its actual path "/a/." has as many slashes. */
  lemma CrookedIsChosen(s: Storage, t: Storage)
    requires s.mountPath == "/a/..balance" && t.mountPath == "/a/b"
    ensures var tab := map[s.mountPath := s, t.mountPath := t];
            Keyed(tab) && Chosen(tab, "/a/b", s) && !Deepest(tab, "/a/b", s) && !AllFine(tab)
  {
    hide Level, Depth, IsFixed, FixAndCleanPath, GetActualMountPath, Serves, Above;
    var tab := map[s.mountPath := s, t.mountPath := t];
    CrookedMounts();
    ServesIsAbove(s, "/a/b");
    ServesIsAbove(t, "/a/b");
    FixedStays("/a/b");
    assert Member(tab, t) && Member(tab, s);
  }
}
