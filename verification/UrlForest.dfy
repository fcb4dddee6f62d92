/** The indentation trees of drivers/url_tree: a list of lines with levels, as a forest. Entry 0 is the root. */
module UrlForest {
  import opened Common

  /** A line: a folder, or a file with its URL, size and time. */
  datatype Rec = Rec(level: int, isFolder: bool, name: string, url: string, size: int, modified: int)

  type Table = seq<Rec>

  const ROOT := Rec(-1, true, "root", "", 0, 0)

  predicate WellFormed(t: Table) { |t| >= 1 && t[0] == ROOT && forall j :: 1 <= j < |t| ==> t[j].level >= 0 }

  // ---------- parents ----------

  /** Entry i is a folder, and its level is below that of every later entry up to j. */
  predicate CanParent(t: Table, i: int, j: int) {
    0 <= i < j < |t| && t[i].isFolder && forall k :: i < k <= j ==> t[k].level > t[i].level
  }

  /** The last entry that can be the parent of j. */
  ghost predicate IsParent(t: Table, i: int, j: int) {
    CanParent(t, i, j) && forall k :: i < k < j ==> !CanParent(t, k, j)
  }

  ghost function ParentOf(t: Table, j: int): (i: int)
    requires WellFormed(t) && 1 <= j < |t|
    ensures IsParent(t, i, j)
  {
    Search(t, j, j)
  }

  /** The last possible parent of j before n. */
  ghost function Search(t: Table, j: int, n: int): (i: int)
    requires WellFormed(t) && 1 <= n <= j < |t| && forall k :: n <= k < j ==> !CanParent(t, k, j)
    ensures IsParent(t, i, j)
  {
    if CanParent(t, n - 1, j) then n - 1
    else
      assert n == 1 ==> CanParent(t, 0, j);
      Search(t, j, n - 1)
  }

  lemma ParentUnique(t: Table, i: int, i': int, j: int)
    requires IsParent(t, i, j) && IsParent(t, i', j)
    ensures i == i'
  {
  }

  /** The entries before n whose parent is i, in order. */
  ghost function KidsBefore(t: Table, i: int, n: nat): (kids: seq<nat>)
    requires WellFormed(t) && n <= |t|
    ensures forall k :: k in kids <==> 1 <= k < n && IsParent(t, i, k)
  {
    if n <= 1 then []
    else if ParentOf(t, n - 1) == i then KidsBefore(t, i, n - 1) + [n - 1]
    else KidsBefore(t, i, n - 1)
  }

  /** Adding a line leaves the parents of the others alone. */
  lemma ParentStays(t: Table, r: Rec, i: int, j: int)
    requires j < |t|
    ensures IsParent(t, i, j) <==> IsParent(t + [r], i, j)
  {
    forall i ensures CanParent(t, i, j) <==> CanParent(t + [r], i, j) { CanStays(t, r, i, j); }
  }

  lemma CanStays(t: Table, r: Rec, i: int, j: int)
    requires j < |t|
    ensures CanParent(t, i, j) <==> CanParent(t + [r], i, j)
  {
    var u := t + [r];
    assert forall k :: 0 <= k < |t| ==> u[k] == t[k];
  }

  lemma {:induction false} KidsStay(t: Table, r: Rec, i: int, n: nat)
    requires WellFormed(t) && WellFormed(t + [r]) && n <= |t|
    ensures KidsBefore(t + [r], i, n) == KidsBefore(t, i, n)
  {
    hide IsParent, CanParent;
    if n > 1 {
      KidsStay(t, r, i, n - 1);
      ParentStays(t, r, ParentOf(t, n - 1), n - 1);
      ParentUnique(t + [r], ParentOf(t, n - 1), ParentOf(t + [r], n - 1), n - 1);
    }
  }

  /** The new line is the last child of its parent, and nothing else changes. */
  lemma KidsAppend(t: Table, r: Rec, p: int)
    requires WellFormed(t) && WellFormed(t + [r]) && IsParent(t + [r], p, |t|)
    ensures forall i :: KidsBefore(t + [r], i, |t| + 1) == KidsBefore(t, i, |t|) + if i == p then [|t|] else []
  {
    hide IsParent;
    forall i ensures KidsBefore(t + [r], i, |t| + 1) == KidsBefore(t, i, |t|) + if i == p then [|t|] else [] {
      KidsStay(t, r, i, |t|);
      ParentUnique(t + [r], p, ParentOf(t + [r], |t|), |t|);
    }
  }

  // ---------- the stack of open folders ----------

  /** Every later line so far is deeper than folder i. */
  ghost predicate Open(t: Table, i: int) {
    0 <= i < |t| && t[i].isFolder && forall k :: i < k < |t| ==> t[k].level > t[i].level
  }

  ghost predicate Stack(t: Table, st: seq<nat>) {
    && |st| >= 1 && st[0] == 0
    && (forall a, b :: 0 <= a < b < |st| ==> st[a] < st[b])
    && (forall i: nat :: i in st <==> Open(t, i))
  }

  /** The levels on the stack increase strictly. */
  lemma StackLevels(t: Table, st: seq<nat>)
    requires Stack(t, st)
    ensures forall a, b :: 0 <= a < b < |st| ==> st[b] < |t| && t[st[a]].level < t[st[b]].level
  {
    forall a, b | 0 <= a < b < |st| ensures st[b] < |t| && t[st[a]].level < t[st[b]].level {
      assert st[a] in st && st[b] in st;
      assert Open(t, st[a]) && Open(t, st[b]);
    }
  }

  /** Once the folders that are not above the new line are popped, the top of the stack is its parent. */
  lemma TopIsParent(t: Table, st: seq<nat>, m: nat, r: Rec)
    requires WellFormed(t) && Stack(t, st) && m < |st| && r.level >= 0
    requires st[m] < |t| && t[st[m]].level < r.level
    requires m + 1 < |st| ==> st[m + 1] < |t| && t[st[m + 1]].level >= r.level
    ensures IsParent(t + [r], st[m], |t|)
    ensures Stack(t + [r], st[..m + 1] + if r.isFolder then [|t|] else [])
  {
    var u, n := t + [r], |t|;
    LeftOnStack(t, st, m, r.level);
    OpenNext(t, r);
    assert st[..m + 1][m] == st[m];
  }

  lemma LeftOnStack(t: Table, st: seq<nat>, m: nat, level: int)
    requires Stack(t, st) && m < |st| && st[m] < |t| && t[st[m]].level < level
    requires m + 1 < |st| ==> st[m + 1] < |t| && t[st[m + 1]].level >= level
    ensures forall i: nat :: i in st[..m + 1] <==> Open(t, i) && t[i].level < level
    ensures forall a :: 0 <= a <= m ==> st[a] <= st[m]
  {
    hide Open;
    StackLevels(t, st);
    forall i: nat ensures i in st[..m + 1] <==> Open(t, i) && i < |t| && t[i].level < level {
      if i in st {
        var a :| 0 <= a < |st| && st[a] == i;
        assert a <= m ==> i in st[..m + 1] && st[..m + 1][a] == i;
        assert i in st[..m + 1] ==> exists b :: 0 <= b <= m && st[b] == i;
      }
    }
  }

  lemma OpenNext(t: Table, r: Rec)
    ensures forall i :: 0 <= i < |t| ==> (CanParent(t + [r], i, |t|) <==> Open(t, i) && t[i].level < r.level)
    ensures forall i :: 0 <= i < |t| ==> (Open(t + [r], i) <==> Open(t, i) && t[i].level < r.level)
    ensures Open(t + [r], |t|) <==> r.isFolder
  {
    var u, n := t + [r], |t|;
    forall i | 0 <= i < n
      ensures CanParent(u, i, n) <==> Open(t, i) && t[i].level < r.level
      ensures Open(u, i) <==> Open(t, i) && t[i].level < r.level
    {
      assert u[n] == r && forall k :: 0 <= k < n ==> u[k] == t[k];
    }
  }

  // ---------- the forest ----------

  /** The end of the part of the table that entry i heads: the first later entry that is not deeper. */
  function End(t: Table, level: int, j: nat): (e: nat)
    requires j <= |t|
    ensures j <= e <= |t| && (forall k :: j <= k < e ==> t[k].level > level) && (e < |t| ==> t[e].level <= level)
    decreases |t| - j
  {
    if j == |t| || t[j].level <= level then j else End(t, level, j + 1)
  }

  function Stop(t: Table, i: nat): (e: nat)
    requires i < |t|
    ensures i < e <= |t|
  {
    if t[i].isFolder then End(t, t[i].level, i + 1) else i + 1
  }

  /** The heads of the part [lo, hi). */
  function Heads(t: Table, lo: nat, hi: nat): seq<nat>
    requires hi <= |t|
    decreases |t| - lo
  {
    if lo >= hi then [] else [lo] + Heads(t, Stop(t, lo), hi)
  }

  /** m is a boundary between the children of p. */
  ghost predicate Boundary(t: Table, p: nat, m: nat) {
    p < m <= |t| && t[p].isFolder && forall k, j :: p < k < m <= j < |t| ==> !CanParent(t, k, j)
  }

  /** Entry m is a child of p, nothing in its part but itself is, and after its part is a boundary again. */
  lemma NextHead(t: Table, p: nat, m: nat)
    requires WellFormed(t) && Boundary(t, p, m) && m < End(t, t[p].level, p + 1)
    ensures IsParent(t, p, m) && (forall j :: m < j < Stop(t, m) ==> !IsParent(t, p, j))
    ensures Boundary(t, p, Stop(t, m)) && Stop(t, m) <= End(t, t[p].level, p + 1)
  {
    assert CanParent(t, p, m);
    forall j | m < j < Stop(t, m) ensures !IsParent(t, p, j) { assert CanParent(t, m, j); }
    StopWithin(t, p, m);
    BoundaryAgain(t, p, m);
  }

  lemma StopWithin(t: Table, p: nat, m: nat)
    requires p < m < |t| && m < End(t, t[p].level, p + 1)
    ensures Stop(t, m) <= End(t, t[p].level, p + 1)
  {
    var e := End(t, t[p].level, p + 1);
    assert m < e < |t| ==> t[m].level > t[p].level >= t[e].level;
  }

  lemma BoundaryAgain(t: Table, p: nat, m: nat)
    requires Boundary(t, p, m) && m < |t|
    ensures Boundary(t, p, Stop(t, m))
  {
    hide End;
    var e := Stop(t, m);
    forall k, j | p < k < e <= j < |t| ensures !CanParent(t, k, j) {
      if k >= m && t[m].isFolder {
        assert t[e].level <= t[m].level;
        assert k > m ==> t[k].level > t[m].level;
      }
    }
  }

  /** The children of a folder are the heads of its part. */
  lemma {:induction false} KidsAreHeads(t: Table, p: nat)
    requires WellFormed(t) && p < |t| && t[p].isFolder
    ensures KidsBefore(t, p, |t|) == Heads(t, p + 1, Stop(t, p))
  {
    hide CanParent;
    NoKidsBefore(t, p, p + 1);
    FirstBoundary(t, p);
    KidsUpTo(t, p, p + 1);
  }

  lemma FirstBoundary(t: Table, p: nat)
    requires p < |t| && t[p].isFolder
    ensures Boundary(t, p, p + 1)
  {
  }

  lemma {:induction false} NoKidsBefore(t: Table, p: nat, n: nat)
    requires WellFormed(t) && n <= p + 1 && n <= |t|
    ensures KidsBefore(t, p, n) == []
  {
    if n > 1 { NoKidsBefore(t, p, n - 1); }
  }

  lemma {:induction false} KidsUpTo(t: Table, p: nat, m: nat)
    requires WellFormed(t) && p < m && Boundary(t, p, m) && m <= End(t, t[p].level, p + 1)
    ensures KidsBefore(t, p, |t|) == KidsBefore(t, p, m) + Heads(t, m, End(t, t[p].level, p + 1))
    decreases |t| - m
  {
    hide CanParent, IsParent, Boundary;
    var hi := End(t, t[p].level, p + 1);
    if m < hi {
      NextHead(t, p, m);
      var e := Stop(t, m);
      ParentUnique(t, p, ParentOf(t, m), m);
      NoKidsBetween(t, p, m + 1, e);
      KidsUpTo(t, p, e);
      assert KidsBefore(t, p, m) + [m] + Heads(t, e, hi) == KidsBefore(t, p, m) + ([m] + Heads(t, e, hi));
    } else {
      forall j | hi <= j < |t| ensures !IsParent(t, p, j) { NotBeyond(t, p, j); }
      NoKidsBetween(t, p, hi, |t|);
    }
  }

  lemma NotBeyond(t: Table, p: nat, j: nat)
    requires p < |t| && End(t, t[p].level, p + 1) <= j < |t|
    ensures !IsParent(t, p, j)
  {
  }

  lemma {:induction false} NoKidsBetween(t: Table, p: nat, lo: nat, hi: nat)
    requires WellFormed(t) && 1 <= lo <= hi <= |t| && forall j :: lo <= j < hi ==> !IsParent(t, p, j)
    ensures KidsBefore(t, p, hi) == KidsBefore(t, p, lo)
  {
    hide IsParent;
    if lo < hi { NoKidsBetween(t, p, lo, hi - 1); }
  }

  // ---------- the tree that the table stands for ----------

  datatype Tree = File(name: string, url: string, size: int, modified: int) | Folder(name: string, children: seq<Tree>)

  /** The trees of the part [lo, hi). */
  function Forest(t: Table, lo: nat, hi: nat): seq<Tree>
    requires hi <= |t|
    decreases |t| - lo
  {
    if lo >= hi then []
    else
      var r := t[lo];
      [if r.isFolder then Folder(r.name, Forest(t, lo + 1, Stop(t, lo))) else File(r.name, r.url, r.size, r.modified)]
      + Forest(t, Stop(t, lo), hi)
  }

  function ForestOf(t: Table): seq<Tree> { Forest(t, 1, |t|) }

  /** The lines of these trees, with the children of each folder one level deeper. */
  function Flatten(ts: seq<Tree>, level: nat): seq<Rec> {
    if ts == [] then []
    else
      (match ts[0]
       case File(name, url, size, modified) => [Rec(level, false, name, url, size, modified)]
       case Folder(name, children) => [Rec(level, true, name, "", 0, 0)] + Flatten(children, level + 1))
      + Flatten(ts[1..], level)
  }

  lemma {:induction false} FlattenLevels(ts: seq<Tree>, level: nat)
    ensures forall r :: r in Flatten(ts, level) ==> r.level >= level
  {
    if ts != [] {
      FlattenLevels(ts[1..], level);
      if ts[0].Folder? { FlattenLevels(ts[0].children, level + 1); }
    }
  }

  /** The trees of a table in which the lines of `ts` stand at lo, up to a line that is not as deep. */
  lemma {:induction false} ForestAt(t: Table, lo: nat, hi: nat, ts: seq<Tree>, level: nat)
    requires lo <= hi <= |t| && t[lo..hi] == Flatten(ts, level) && (hi < |t| ==> t[hi].level < level)
    ensures Forest(t, lo, hi) == ts
    decreases hi - lo, ts
  {
    hide Flatten, Stop, End;
    if ts != [] {
      var mid := FirstPart(t, lo, hi, ts, level);
      if ts[0].Folder? { ForestAt(t, lo + 1, mid, ts[0].children, level + 1); }
      ForestAt(t, mid, hi, ts[1..], level);
      assert ts == [ts[0]] + ts[1..];
    } else {
      NoLines(level);
      assert |t[lo..hi]| == 0;
    }
  }

  lemma NoLines(level: nat)
    ensures Flatten([], level) == []
  {
  }

  /** Where the lines of the first tree end, the lines of the others begin. */
  lemma FirstPart(t: Table, lo: nat, hi: nat, ts: seq<Tree>, level: nat) returns (mid: nat)
    requires ts != [] && lo <= hi <= |t| && t[lo..hi] == Flatten(ts, level) && (hi < |t| ==> t[hi].level < level)
    ensures lo < mid <= hi && t[mid..hi] == Flatten(ts[1..], level) && Stop(t, lo) == mid
    ensures mid < |t| ==> t[mid].level <= level
    ensures match ts[0]
            case File(name, url, size, modified) => t[lo] == Rec(level, false, name, url, size, modified)
            case Folder(name, children) =>
              t[lo] == Rec(level, true, name, "", 0, 0) && t[lo + 1..mid] == Flatten(children, level + 1)
  {
    hide Flatten;
    var first := Flatten(ts[..1], level);
    FirstOfFlatten(ts, level);
    mid := lo + |first|;
    assert t[lo..mid] == t[lo..hi][..|first|] == first;
    assert t[mid..hi] == t[lo..hi][|first|..];
    RestLevel(t, mid, hi, ts[1..], level);
    assert t[lo] == t[lo..mid][0];
    if ts[0].Folder? {
      FlattenLevels(ts[0].children, level + 1);
      assert t[lo + 1..mid] == first[1..];
      assert forall k :: lo < k < mid ==> t[k] == t[lo + 1..mid][k - lo - 1] && t[k] in t[lo + 1..mid];
      StopAt(t, lo, mid, level);
    }
  }

  lemma FirstOfFlatten(ts: seq<Tree>, level: nat)
    requires ts != []
    ensures Flatten(ts, level) == Flatten(ts[..1], level) + Flatten(ts[1..], level)
    ensures var first := Flatten(ts[..1], level);
            match ts[0]
            case File(name, url, size, modified) => first == [Rec(level, false, name, url, size, modified)]
            case Folder(name, children) => first == [Rec(level, true, name, "", 0, 0)] + Flatten(children, level + 1)
  {
    assert ts[..1][1..] == [] && ts[..1][0] == ts[0];
    assert Flatten([], level) == [];
  }

  /** What follows the first tree is not deeper than it. */
  lemma RestLevel(t: Table, mid: nat, hi: nat, ts: seq<Tree>, level: nat)
    requires mid <= hi <= |t| && t[mid..hi] == Flatten(ts, level) && (hi < |t| ==> t[hi].level < level)
    ensures mid < |t| ==> t[mid].level <= level
  {
    if mid < hi {
      assert ts != [];
      FirstOfFlatten(ts, level);
      assert t[mid] == t[mid..hi][0];
    }
  }

  lemma StopAt(t: Table, lo: nat, mid: nat, level: nat)
    requires lo < mid <= |t| && t[lo].isFolder && t[lo].level == level
    requires (forall k :: lo < k < mid ==> t[k].level > level) && (mid < |t| ==> t[mid].level <= level)
    ensures Stop(t, lo) == mid
  {
    EndAt(t, level, lo + 1, mid);
  }

  lemma {:induction false} EndAt(t: Table, level: int, j: nat, mid: nat)
    requires j <= mid <= |t| && (forall k :: j <= k < mid ==> t[k].level > level) && (mid < |t| ==> t[mid].level <= level)
    ensures End(t, level, j) == mid
    decreases mid - j
  {
    if j < mid { EndAt(t, level, j + 1, mid); }
  }

  /** Reading the lines of a forest gives the forest back. */
  lemma FlattenThenForest(ts: seq<Tree>)
    ensures WellFormed([ROOT] + Flatten(ts, 0)) && ForestOf([ROOT] + Flatten(ts, 0)) == ts
  {
    var t := [ROOT] + Flatten(ts, 0);
    FlattenLevels(ts, 0);
    assert t[1..|t|] == Flatten(ts, 0);
    ForestAt(t, 1, |t|, ts, 0);
  }
}
