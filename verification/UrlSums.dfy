/** Sizes and names over the tables of UrlForest: what calSize adds up and where getByPath leads, in
    drivers/url_tree/types.go. */
module UrlSums {
  import opened Common
  import opened Numbers
  import opened Strings
  import opened UrlForest
  import opened UrlText

  // ---------- the loop of BuildTree ----------

  lemma ParentBelow(t: Table, p: int, j: int)
    requires IsParent(t, p, j)
    ensures p < j
  {
  }

  lemma StackBase(t: Table, st: seq<nat>)
    requires WellFormed(t) && Stack(t, st)
    ensures st != [] && st[0] == 0 && t[0].level == -1
  {
  }

  lemma ReadNext(lines: seq<string>, k: nat, head: HeadSize)
    requires k < |lines| && ReadLines(lines[..k], head).Some?
    ensures var before, line := ReadLines(lines[..k], head), ReadLine(lines[k], head);
            ReadLines(lines[..k + 1], head)
            == if line.Malformed? then None else if line.Blank? then before else Some(before.value + [line.rec])
    ensures ReadLine(lines[k], head).Line? ==> ReadLine(lines[k], head).rec.level >= 0
  {
    LevelNotNegative(lines[k], head);
    hide ReadLine;
    assert lines[..k + 1][..k] == lines[..k];
  }

  lemma LevelNotNegative(text: string, head: HeadSize)
    ensures ReadLine(text, head).Line? ==> ReadLine(text, head).rec.level >= 0
  {
    hide TrimSpace, Index, Split, ParseInt, Base;
  }

  lemma {:induction false} FileHasNoKids(t: Table, i: nat, n: nat)
    requires WellFormed(t) && i < |t| && !t[i].isFolder && n <= |t|
    ensures KidsBefore(t, i, n) == []
  {
    if n > 1 { FileHasNoKids(t, i, n - 1); }
  }

  lemma RootPart(t: Table)
    requires WellFormed(t)
    ensures t[0].isFolder && Stop(t, 0) == |t|
  {
  }

  /** If the text is that of a forest, its lines can be read, and nest into that forest. */
  lemma WrittenTrees(text: string, head: HeadSize)
    ensures forall xs :: (forall x :: x in xs ==> TreeWritable(x)) && text == Text(xs) ==>
      ReadLines(Split(text, '\n'), head).Some? && ForestOf([ROOT] + ReadLines(Split(text, '\n'), head).value) == xs
  {
    hide ReadLines, Split, TreeWritable, Text, ForestOf, WellFormed;
    forall xs | (forall x :: x in xs ==> TreeWritable(x)) && text == Text(xs)
      ensures ReadLines(Split(text, '\n'), head).Some? && ForestOf([ROOT] + ReadLines(Split(text, '\n'), head).value) == xs
    {
      WriteThenRead(xs, head);
    }
  }

  lemma StackStart()
    ensures Stack([ROOT], [0])
  {
    assert Open([ROOT], 0);
    assert 0 in [0];
  }

  lemma NothingRead(lines: seq<string>, head: HeadSize)
    ensures ReadLines(lines[..0], head) == Some([])
  {
    assert lines[..0] == [];
  }

  lemma {:induction false} MalformedLine(lines: seq<string>, k: nat, head: HeadSize)
    requires k < |lines| && ReadLine(lines[k], head).Malformed?
    ensures ReadLines(lines, head).None?
    decreases |lines|
  {
    hide ReadLine;
    if k < |lines| - 1 { MalformedLine(lines[..|lines| - 1], k, head); }
  }

  // ---------- sizes ----------

  const M := 0x1_0000_0000_0000_0000

  /** Go's wrap-around of an int64. */
  function Wrap(x: int): (r: int)
    ensures MIN_INT64 <= r <= MAX_INT64
    ensures MIN_INT64 <= x <= MAX_INT64 ==> r == x
  {
    (x - MIN_INT64) % M + MIN_INT64
  }

  lemma WrapAdd(a: int, b: int)
    ensures Wrap(Wrap(a) + Wrap(b)) == Wrap(a + b)
  {
    var qa, qb := (a - MIN_INT64) / M, (b - MIN_INT64) / M;
    assert Wrap(a) == a - qa * M && Wrap(b) == b - qb * M;
    Shift(a + b - MIN_INT64, qa + qb);
  }

  lemma Shift(x: int, q: int)
    ensures (x - q * M) % M == x % M
  {
    var d := x / M;
    assert x == d * M + x % M;
    assert x - q * M == (d - q) * M + x % M;
    Unique(x - q * M, d - q, x % M);
  }

  lemma Unique(y: int, d: int, r: int)
    requires y == d * M + r && 0 <= r < M
    ensures y % M == r
  {
  }

  /** The sum of the sizes of the files in [lo, hi). */
  function SumFiles(t: Table, lo: nat, hi: nat): int
    requires hi <= |t|
    decreases hi - lo
  {
    if lo >= hi then 0 else (if t[lo].isFolder then 0 else t[lo].size) + SumFiles(t, lo + 1, hi)
  }

  lemma {:induction false} SumSplit(t: Table, lo: nat, mid: nat, hi: nat)
    requires lo <= mid <= hi <= |t|
    ensures SumFiles(t, lo, hi) == SumFiles(t, lo, mid) + SumFiles(t, mid, hi)
    decreases mid - lo
  {
    if lo < mid { SumSplit(t, lo + 1, mid, hi); }
  }

  /** The files are told by their URLs, and their sizes are int64s. */
  ghost predicate FilesTold(t: Table) { forall i :: 0 <= i < |t| ==> Told(t[i]) }

  ghost predicate Told(r: Rec) { (r.isFolder <==> r.url == "") && (!r.isFolder ==> MIN_INT64 <= r.size <= MAX_INT64) }

  /** Nodes outside [lo, hi), and files, keep their sizes; the folders inside have the sums of their files. */
  ghost predicate Summed(before: seq<int>, after: seq<int>, t: Table, lo: nat, hi: nat) {
    && |before| == |after| == |t| && hi <= |t|
    && forall j :: 0 <= j < |t| ==>
         after[j] == if lo <= j < hi && t[j].isFolder then Wrap(SumFiles(t, j, Stop(t, j))) else before[j]
  }

  ghost predicate FileSizes(sizes: seq<int>, t: Table) {
    |sizes| == |t| && forall i :: 0 <= i < |t| && !t[i].isFolder ==> sizes[i] == t[i].size
  }

  lemma SummedFiles(before: seq<int>, after: seq<int>, t: Table, lo: nat, hi: nat)
    requires Summed(before, after, t, lo, hi) && FileSizes(before, t)
    ensures FileSizes(after, t)
  {
  }

  lemma SummedJoin(s0: seq<int>, s1: seq<int>, s2: seq<int>, t: Table, lo: nat, mid: nat, hi: nat)
    requires Summed(s0, s1, t, lo, mid) && Summed(s1, s2, t, mid, hi) && lo <= mid <= hi
    ensures Summed(s0, s2, t, lo, hi)
  {
    hide SumFiles, Stop;
  }

  /** The first head of the part [m, hi) below folder i is m, and the parts before and of m add up. */
  lemma NextChild(t: Table, i: nat, m: nat)
    requires i < |t| && i < m <= Stop(t, i) && t[i].isFolder && Heads(t, m, Stop(t, i)) != []
    ensures m < |t| && m < Stop(t, m) <= Stop(t, i) && Heads(t, m, Stop(t, i)) == [m] + Heads(t, Stop(t, m), Stop(t, i))
    ensures Wrap(Wrap(SumFiles(t, i + 1, m)) + Wrap(SumFiles(t, m, Stop(t, m)))) == Wrap(SumFiles(t, i + 1, Stop(t, m)))
  {
    hide SumFiles, Wrap;
    StopWithin(t, i, m);
    SumSplit(t, i + 1, m, Stop(t, m));
    WrapAdd(SumFiles(t, i + 1, m), SumFiles(t, m, Stop(t, m)));
  }

  lemma FileSum(t: Table, i: nat)
    requires i < |t| && !t[i].isFolder && FilesTold(t)
    ensures Stop(t, i) == i + 1 && t[i].size == Wrap(SumFiles(t, i, i + 1))
  {
    assert SumFiles(t, i + 1, i + 1) == 0;
  }

  lemma HeadsEnd(t: Table, m: nat, hi: nat)
    requires m <= hi <= |t| && Heads(t, m, hi) == []
    ensures m == hi
  {
  }

  lemma SummedNone(s0: seq<int>, t: Table, m: nat)
    requires |s0| == |t| && m <= |t|
    ensures Summed(s0, s0, t, m, m) && Wrap(SumFiles(t, m, m)) == 0
  {
  }

  lemma FolderDone(s0: seq<int>, s2: seq<int>, s3: seq<int>, t: Table, i: nat)
    requires i < |t| && t[i].isFolder && |s2| == |s3| && Summed(s0, s2, t, i + 1, Stop(t, i))
    requires s3 == s2[i := Wrap(SumFiles(t, i + 1, Stop(t, i)))]
    ensures Summed(s0, s3, t, i, Stop(t, i)) && s3[i] == Wrap(SumFiles(t, i, Stop(t, i)))
  {
    hide Stop, Wrap;
    assert SumFiles(t, i, Stop(t, i)) == SumFiles(t, i + 1, Stop(t, i));
  }

  /** BuildTree meets what calSize expects, where HEAD requests report int64s. */
  lemma {:induction false} ReadFilesTold(lines: seq<string>, head: HeadSize)
    requires forall url :: head(url).Some? ==> MIN_INT64 <= head(url).value <= MAX_INT64
    requires ReadLines(lines, head).Some?
    ensures forall r :: r in ReadLines(lines, head).value ==> Told(r)
    ensures FilesTold([ROOT] + ReadLines(lines, head).value)
  {
    hide ReadLine, Told;
    RootTold();
    if lines != [] {
      var n := |lines| - 1;
      ReadFilesTold(lines[..n], head);
      if ReadLine(lines[n], head).Line? { LineTold(lines[n], head); }
    }
    var t := [ROOT] + ReadLines(lines, head).value;
    forall i | 0 <= i < |t| ensures Told(t[i]) { assert t[i] in t; }
  }

  lemma RootTold()
    ensures Told(ROOT)
  {
  }

  lemma LineTold(text: string, head: HeadSize)
    requires forall url :: head(url).Some? ==> MIN_INT64 <= head(url).value <= MAX_INT64
    requires ReadLine(text, head).Line?
    ensures Told(ReadLine(text, head).rec)
  {
    hide TrimSpace, Index, Split, Base, Indent, ParseInt, Value;
    ParsedFits();
  }

  lemma ParsedFits()
    ensures forall s :: ParseInt(s).Some? ==> MIN_INT64 <= ParseInt(s).value <= MAX_INT64
  {
    hide Value;
  }

  // ---------- finding a node ----------

  /** The names lead from entry i down to entry j. */
  ghost predicate Chain(t: Table, i: nat, names: seq<string>, j: nat)
    decreases |names|
  {
    && names != [] && i < |t| && t[i].name == names[0]
    && if |names| == 1 then j == i else exists k: nat :: IsParent(t, i, k) && Chain(t, k, names[1..], j)
  }

  lemma {:induction false} ChainWithin(t: Table, i: nat, names: seq<string>, j: nat)
    requires Chain(t, i, names, j)
    ensures i < |t| && i <= j < Stop(t, i)
    decreases |names|
  {
    if |names| > 1 {
      var k: nat :| IsParent(t, i, k) && Chain(t, k, names[1..], j);
      ChainWithin(t, k, names[1..], j);
      ChildWithin(t, i, k);
    }
  }

  lemma ChildWithin(t: Table, i: nat, k: nat)
    requires IsParent(t, i, k)
    ensures i < k < |t| && Stop(t, k) <= Stop(t, i)
  {
    assert forall x :: i < x <= k ==> t[x].level > t[i].level;
    StopWithin(t, i, k);
  }

  ghost predicate Increasing(ks: seq<nat>) { forall a, b :: 0 <= a < b < |ks| ==> ks[a] < ks[b] }

  lemma {:induction false} KidsIncrease(t: Table, i: int, n: nat)
    requires WellFormed(t) && n <= |t|
    ensures Increasing(KidsBefore(t, i, n))
  {
    hide IsParent;
    if n > 1 {
      KidsIncrease(t, i, n - 1);
      var ks := KidsBefore(t, i, n - 1);
      assert forall a :: 0 <= a < |ks| ==> ks[a] in ks;
      assert Increasing(ks + [n - 1]);
    }
  }

  /** j is the first entry that the names lead to. */
  ghost predicate FirstChain(t: Table, i: nat, names: seq<string>, j: nat) {
    Chain(t, i, names, j) && forall j': nat :: j' < j ==> !Chain(t, i, names, j')
  }

  /** What the first child with a match says about its parent. */
  lemma ChildDecides(t: Table, i: nat, names: seq<string>, ks: seq<nat>, c: nat, j: nat)
    requires WellFormed(t) && i < |t| && |names| > 1 && t[i].name == names[0] && ks == KidsBefore(t, i, |t|) && c < |ks|
    requires forall a, j' :: 0 <= a < c ==> !Chain(t, ks[a], names[1..], j')
    requires FirstChain(t, ks[c], names[1..], j)
    ensures FirstChain(t, i, names, j)
  {
    hide IsParent;
    KidsIncrease(t, i, |t|);
    ChainWithin(t, ks[c], names[1..], j);
    assert ks[c] in ks;
    forall j': nat | j' < j ensures !Chain(t, i, names, j') {
      if Chain(t, i, names, j') {
        var k: nat :| IsParent(t, i, k) && Chain(t, k, names[1..], j');
        InRange(t, i, k);
        assert k in ks;
        var a :| 0 <= a < |ks| && ks[a] == k;
        ChainWithin(t, k, names[1..], j');
        if a > c { PartsApart(t, i, ks[c], k); }
      }
    }
  }

  lemma InRange(t: Table, i: int, k: int)
    requires IsParent(t, i, k)
    ensures 1 <= k < |t|
  {
  }

  /** A later child begins after the part of an earlier one. */
  lemma PartsApart(t: Table, i: nat, k: nat, k': nat)
    requires IsParent(t, i, k) && IsParent(t, i, k') && k < k'
    ensures Stop(t, k) <= k'
  {
    assert !CanParent(t, k, k');
  }

  lemma OneName(t: Table, i: nat, names: seq<string>)
    requires |names| == 1 && i < |t| && t[i].name == names[0]
    ensures FirstChain(t, i, names, i)
  {
  }
}
