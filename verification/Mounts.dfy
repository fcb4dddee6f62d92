/** Paths and mount paths: pkg/utils/path.go and pkg/utils/balance.go, in terms of path components. */
module Mounts {
  import opened Common
  import opened Strings
  import opened Paths

  /** strings.ReplaceAll(path, "\\", "/") */
  function Slashes(path: string): (r: string)
    ensures |r| == |path| && '\\' !in r
    ensures forall k :: 0 <= k < |path| ==> r[k] == if path[k] == '\\' then '/' else path[k]
    ensures '\\' !in path ==> r == path
  {
    if path == "" then "" else [if path[0] == '\\' then '/' else path[0]] + Slashes(path[1..])
  }

  function FixAndCleanPath(path: string): string { SlashClean(Slashes(path)) }

  function PathAddSeparatorSuffix(path: string): string { if HasSuffix(path, "/") then path else path + "/" }

  predicate IsSubPath(path: string, subPath: string) {
    var p, s := FixAndCleanPath(path), FixAndCleanPath(subPath);
    p == s || HasPrefix(s, PathAddSeparatorSuffix(p))
  }

  const BALANCE := ".balance"

  function GetActualMountPath(mountPath: string): string {
    var i := LastIndex(mountPath, BALANCE);
    if i != -1 then mountPath[..i] else mountPath
  }

  /** The last ".balance" and what follows it is cut off; a path without one stays. */
  lemma ActualIsBeforeBalance(mountPath: string, i: nat)
    ensures OccursAt(mountPath, BALANCE, i) && (forall j :: i < j <= |mountPath| ==> !OccursAt(mountPath, BALANCE, j))
            ==> GetActualMountPath(mountPath) == mountPath[..i]
    ensures (forall j: nat :: !OccursAt(mountPath, BALANCE, j)) ==> GetActualMountPath(mountPath) == mountPath
  {
    hide LastIndex, OccursAt;
    var k := LastIndex(mountPath, BALANCE);
    Bounded(mountPath, i);
    if OccursAt(mountPath, BALANCE, i) && (forall j :: i < j <= |mountPath| ==> !OccursAt(mountPath, BALANCE, j)) { assert k == i; }
  }

  lemma Bounded(s: string, i: nat)
    ensures OccursAt(s, BALANCE, i) ==> i <= |s|
  {
  }

  /** stdpath.Join of two names of which the first is rooted. */
  function JoinPath(a: string, b: string): string { Clean(a + "/" + b) }

  function GetFullPath(mountPath: string, path: string): string { JoinPath(GetActualMountPath(mountPath), path) }

  /** strings.Count(s, "/") */
  function SlashCount(s: string): nat {
    if s == "" then 0 else SlashCount(s[..|s| - 1]) + if s[|s| - 1] == '/' then 1 else 0
  }

  /** What FixAndCleanPath leaves alone. */
  predicate IsFixed(path: string) { IsClean(path) && '\\' !in path }

  // ---------- cleaning ----------

  lemma {:induction false} SlashedNoBackslash(cs: seq<string>)
    requires forall c :: c in cs ==> '\\' !in c
    ensures '\\' !in Slashed(cs)
  {
    if cs != [] {
      SlashedNoBackslash(cs[..|cs| - 1]);
      assert cs[|cs| - 1] in cs;
    }
  }

  lemma {:induction false} SplitNoBackslash(s: string)
    requires '\\' !in s
    ensures forall p :: p in Split(s, '/') ==> '\\' !in p
    decreases |s|
  {
    hide *;
    var i := IndexOf(s, '/');
    if i >= 0 {
      SplitStep(s, '/');
      SplitNoBackslash(s[i + 1..]);
    }
  }

  lemma {:induction false} ReduceNoBackslash(parts: seq<string>, acc: seq<string>)
    requires AreComps(acc) && forall p :: p in parts ==> '/' !in p && '\\' !in p
    requires forall c :: c in acc ==> '\\' !in c
    ensures forall c :: c in Reduce(parts, acc) ==> '\\' !in c
    decreases |parts|
  {
    if parts != [] {
      assert forall p :: p in parts[1..] ==> p in parts;
      assert parts[0] in parts;
      if parts[0] == "" || parts[0] == "." {
        ReduceNoBackslash(parts[1..], acc);
      } else if parts[0] == ".." {
        ReduceNoBackslash(parts[1..], if acc == [] then [] else acc[..|acc| - 1]);
      } else {
        ReduceNoBackslash(parts[1..], acc + [parts[0]]);
      }
    }
  }

  /** FixAndCleanPath is a projection onto the clean names without backslashes. */
  lemma FixIsFixed(path: string)
    ensures IsFixed(FixAndCleanPath(path))
  {
    var s := Slashes(path);
    var r := if s == "" || s[0] != '/' then "/" + s else s;
    SlashCleanIsClean(s);
    SplitNoBackslash(r);
    ReduceNoBackslash(Split(r, '/'), []);
    SlashedNoBackslash(Comps(r));
  }

  lemma CleanRooted(path: string)
    requires IsClean(path)
    ensures path != "" && path[0] == '/'
  {
    if Comps(path) != [] { SlashedHead(Comps(path)); }
  }

  lemma FixedStays(path: string)
    requires IsFixed(path)
    ensures FixAndCleanPath(path) == path
  {
    CleanRooted(path);
  }

  /** A rooted name without backslashes keeps its components when it is cleaned. */
  lemma FixRooted(path: string)
    requires path != "" && path[0] == '/' && '\\' !in path
    ensures FixAndCleanPath(path) == Clean(path) && Comps(FixAndCleanPath(path)) == Comps(path)
    ensures IsFixed(FixAndCleanPath(path))
  {
    CleanIsClean(path);
    FixIsFixed(path);
  }

  /** IsSubPath decides whether one path is at or above another, component by component. */
  lemma SubPathIsAbove(path: string, subPath: string)
    ensures IsSubPath(path, subPath) <==> Above(FixAndCleanPath(path), FixAndCleanPath(subPath))
  {
    hide Comps, Slashes, SlashClean, NameOf;
    var p, s := FixAndCleanPath(path), FixAndCleanPath(subPath);
    FixIsFixed(path);
    FixIsFixed(subPath);
    PrefixIsAbove(p, s);
    CleanRooted(s);
    if p != "/" { CleanEnd(p); }
  }

  lemma CleanEnd(p: string)
    requires IsClean(p) && p != "/"
    ensures p != "" && p[|p| - 1] != '/'
  {
    var cs := Comps(p);
    var last := cs[|cs| - 1];
    assert last in cs && IsComp(last);
    assert p[|p| - 1] == last[|last| - 1];
  }

  // ---------- joining ----------

  lemma {:induction false} SplitAppend(a: string, b: string, c: char)
    ensures Split(a + [c] + b, c) == Split(a, c) + Split(b, c)
    decreases |a|
  {
    hide *;
    var i := IndexOf(a, c);
    if i < 0 {
      SplitWhole(a, c);
      SplitCons(a, b, c);
    } else {
      var head, tail := a[..i], a[i + 1..];
      assert a == head + [c] + tail;
      SplitCons(head, tail, c);
      SplitAppend(tail, b, c);
      SplitCons(head, tail + [c] + b, c);
      assert a + [c] + b == head + [c] + (tail + [c] + b);
      assert [head] + (Split(tail, c) + Split(b, c)) == ([head] + Split(tail, c)) + Split(b, c);
    }
  }

  lemma SplitWhole(a: string, c: char)
    requires c !in a
    ensures Split(a, c) == [a]
  {
  }

  lemma {:induction false} ReduceAppend(x: seq<string>, y: seq<string>, acc: seq<string>)
    requires AreComps(acc) && (forall p :: p in x ==> '/' !in p) && (forall p :: p in y ==> '/' !in p)
    ensures Reduce(x + y, acc) == Reduce(y, Reduce(x, acc))
    decreases |x|
  {
    assert forall p :: p in x + y ==> p in x || p in y;
    if x == [] {
      assert x + y == y;
    } else {
      assert (x + y)[1..] == x[1..] + y;
      assert forall p :: p in x[1..] ==> p in x;
      assert x[0] in x;
      if x[0] == "" || x[0] == "." {
        ReduceAppend(x[1..], y, acc);
      } else if x[0] == ".." {
        ReduceAppend(x[1..], y, if acc == [] then [] else acc[..|acc| - 1]);
      } else {
        ReduceAppend(x[1..], y, acc + [x[0]]);
      }
    }
  }

  lemma CompsJoin(a: string, b: string)
    ensures Comps(a + "/" + b) == Reduce(Split(b, '/'), Comps(a))
  {
    SplitAppend(a, b, '/');
    ReduceAppend(Split(a, '/'), Split(b, '/'), []);
  }

  lemma SplitClean(p: string, acc: seq<string>)
    requires IsClean(p) && AreComps(acc)
    ensures Reduce(Split(p, '/'), acc) == acc + Comps(p)
  {
    hide Split, Reduce, Comps, Slashed;
    var cs := Comps(p);
    ReduceComps(cs, acc);
    if cs == [] {
      SplitRoot();
      SkipEmpty([], acc);
      SkipEmpty([""], acc);
      assert [""] + [""] == ["", ""] && [""] + [] == [""];
    } else {
      SplitSlashed(cs);
      SkipEmpty(cs, acc);
    }
  }

  /** Joining a clean path to a name appends its components. */
  lemma JoinIsAppend(a: string, b: string)
    requires IsClean(b)
    ensures JoinPath(a, b) == NameOf(Comps(a) + Comps(b))
  {
    CompsJoin(a, b);
    SplitClean(b, Comps(a));
  }

  /** What path.Clean makes of each thing that can follow in a rooted name: an empty part and "." nothing, ".." takes
      the last component off, if there is one, and a component comes last. */
  lemma CleanSteps(a: string, c: string)
    ensures Comps(a + "/" + "") == Comps(a) && Comps(a + "/" + ".") == Comps(a)
    ensures Comps(a + "/" + "..") == if Comps(a) == [] then [] else Comps(a)[..|Comps(a)| - 1]
    ensures IsComp(c) ==> Comps(a + "/" + c) == Comps(a) + [c]
    ensures Comps("") == []
  {
    hide Comps, Split;
    CompsJoin(a, "");
    CompsJoin(a, ".");
    CompsJoin(a, "..");
    SplitWhole("", '/');
    SplitWhole(".", '/');
    SplitWhole("..", '/');
    NoComps();
    if IsComp(c) {
      CompsJoin(a, c);
      SplitWhole(c, '/');
    }
  }

  lemma NoComps()
    ensures Comps("") == []
  {
    hide Split;
    SplitWhole("", '/');
    assert [""][1..] == [];
  }

  // ---------- actual mount paths ----------

  /** Everything before a place in a clean name: whole components, and then a part of one. */
  lemma {:induction false} CutClean(cs: seq<string>, i: nat) returns (init: seq<string>, c: string)
    requires AreComps(cs) && 1 <= i <= |Slashed(cs)|
    ensures AreComps(init) && '/' !in c && Slashed(cs)[..i] == Slashed(init) + "/" + c
  {
    var n := |cs| - 1;
    var before, last := Slashed(cs[..n]), cs[n];
    assert last in cs && IsComp(last);
    if i <= |before| {
      init, c := CutClean(cs[..n], i);
      assert Slashed(cs)[..i] == before[..i];
    } else {
      init, c := cs[..n], last[..i - |before| - 1];
      assert Slashed(cs)[..i] == before + "/" + c;
    }
  }

  lemma ActualForm(mountPath: string) returns (init: seq<string>, c: string)
    requires IsFixed(mountPath)
    ensures AreComps(init) && '/' !in c && '\\' !in GetActualMountPath(mountPath)
    ensures GetActualMountPath(mountPath) == Slashed(init) + "/" + c
  {
    var actual := GetActualMountPath(mountPath);
    CleanRooted(mountPath);
    assert |actual| >= 1;
    if Comps(mountPath) == [] {
      init, c := [], "";
      assert |actual| == 1 && actual[0] == '/';
    } else {
      init, c := CutClean(Comps(mountPath), |actual|);
    }
  }

  /** The components that the form of ActualForm has after cleaning. */
  lemma FormComps(init: seq<string>, c: string)
    requires AreComps(init) && '/' !in c
    ensures Comps(Slashed(init) + "/" + c) == Reduce([c], init)
    ensures c == "" || c == "." ==> Reduce([c], init) == init
    ensures IsComp(c) ==> Reduce([c], init) == init + [c]
    ensures c == ".." ==> Reduce([c], init) == if init == [] then [] else init[..|init| - 1]
  {
    hide *;
    CompsJoin(Slashed(init), c);
    CompsSlashed(init);
    SplitWhole(c, '/');
    ReduceOne(init, c);
  }

  lemma CompsSlashed(cs: seq<string>)
    requires AreComps(cs)
    ensures Comps(Slashed(cs)) == cs
  {
    if cs == [] {
      assert [""][1..] == [];
    } else {
      CompsNameOf(cs);
    }
  }

  lemma ReduceOne(init: seq<string>, c: string)
    requires AreComps(init) && '/' !in c
    ensures c == "" || c == "." ==> Reduce([c], init) == init
    ensures IsComp(c) ==> Reduce([c], init) == init + [c]
    ensures c == ".." ==> Reduce([c], init) == if init == [] then [] else init[..|init| - 1]
  {
    assert [c][1..] == [];
  }

  lemma {:induction false} CountAppend(a: string, b: string)
    ensures SlashCount(a + b) == SlashCount(a) + SlashCount(b)
  {
    if b == "" {
      assert a + b == a;
    } else {
      CountAppend(a, b[..|b| - 1]);
      assert (a + b)[..|a + b| - 1] == a + b[..|b| - 1];
    }
  }

  lemma {:induction false} CountNone(s: string)
    requires '/' !in s
    ensures SlashCount(s) == 0
  {
    if s != "" { CountNone(s[..|s| - 1]); }
  }

  lemma CountSlash()
    ensures SlashCount("/") == 1
  {
    assert "/"[..0] == "";
  }

  lemma {:induction false} CountSlashed(cs: seq<string>)
    requires AreComps(cs)
    ensures SlashCount(Slashed(cs)) == |cs|
  {
    if cs != [] {
      var n := |cs| - 1;
      CountSlashed(cs[..n]);
      CountAppend(Slashed(cs[..n]) + "/", cs[n]);
      CountAppend(Slashed(cs[..n]), "/");
      CountSlash();
      assert IsComp(cs[n]);
      CountNone(cs[n]);
    }
  }

  function Level(mountPath: string): nat { SlashCount(PathAddSeparatorSuffix(GetActualMountPath(mountPath))) }

  function Depth(mountPath: string): nat { |Comps(GetActualMountPath(mountPath))| }

  /** The actual mount path does not end in a dot component. */
  predicate Straight(mountPath: string) {
    !HasSuffix(GetActualMountPath(mountPath), "/.") && !HasSuffix(GetActualMountPath(mountPath), "/..")
  }

  /** Counting slashes measures the depth of a mount path exactly when its actual path has no dot component at
      its end; otherwise it gives too much. */
  lemma LevelIsDepth(mountPath: string)
    requires IsFixed(mountPath)
    ensures Level(mountPath) >= Depth(mountPath) + 1
    ensures Level(mountPath) == Depth(mountPath) + 1 <==> Straight(mountPath)
    ensures HasSuffix(GetActualMountPath(mountPath), "/.") ==> Level(mountPath) == Depth(mountPath) + 2
  {
    hide Comps, Slashed, GetActualMountPath, SlashCount, Reduce, IsClean;
    var actual := GetActualMountPath(mountPath);
    var init, c := ActualForm(mountPath);
    FormComps(init, c);
    CountSlashed(init);
    CountSlash();
    CountAppend(Slashed(init), "/");
    CountAppend(Slashed(init) + "/", c);
    CountNone(c);
    CountAppend(actual, "/");
    EndsOf(Slashed(init), c);
  }

  lemma EndsOf(a: string, c: string)
    requires '/' !in c
    ensures var s := a + "/" + c;
            && (HasSuffix(s, "/") <==> c == "") && (HasSuffix(s, "/.") <==> c == ".") && (HasSuffix(s, "/..") <==> c == "..")
  {
    var s := a + "/" + c;
    assert c != "" ==> s[|s| - 1] == c[|c| - 1];
    assert s[|a|] == '/' && s[|a| + 1..] == c;
    assert |c| >= 1 ==> s[|s| - 1] == c[|c| - 1];
    assert |c| >= 2 ==> s[|s| - 2] == c[|c| - 2];
    assert |c| >= 3 ==> s[|s| - 3] == c[|c| - 3];
    if c == "." { assert s[|s| - 2..] == "/."; }
    if c == ".." { assert s[|s| - 3..] == "/.."; }
    if c == "" { assert s[|s| - 1..] == "/"; }
    if HasSuffix(s, "/.") { assert s[|s| - 2..][0] == '/' && s[|s| - 2..][1] == '.'; }
    if HasSuffix(s, "/..") { assert s[|s| - 3..][0] == '/' && s[|s| - 3..][1] == '.' && s[|s| - 3..][2] == '.'; }
    if HasSuffix(s, "/") { assert s[|s| - 1..][0] == '/'; }
  }

  // ---------- three mount paths ----------

  lemma TwoComps(a: string, b: string)
    requires IsComp(a) && IsComp(b) && '\\' !in a && '\\' !in b
    ensures var path := "/" + a + "/" + b; path == Slashed([a, b]) && IsFixed(path) && Comps(path) == [a, b]
  {
    OneComp(a);
    assert [a, b] == [a] + [b];
    SlashedSnoc([a], b);
    CompsNameOf([a, b]);
  }

  lemma OneComp(a: string)
    requires IsComp(a) && '\\' !in a
    ensures "/" + a == Slashed([a]) && IsFixed("/" + a) && Comps("/" + a) == [a]
  {
    assert [] + [a] == [a];
    SlashedSnoc([], a);
    CompsNameOf([a]);
  }

  /** A mount path without the suffix is its own actual mount path. */
  lemma NoSuffix(path: string)
    requires |path| < 8
    ensures GetActualMountPath(path) == path
  {
  }

  /** The suffix at the end of a mount path is cut off. */
  lemma SuffixCut(actual: string)
    ensures GetActualMountPath(actual + BALANCE) == actual
  {
    var path := actual + BALANCE;
    assert path[|actual|..|actual| + 8] == BALANCE;
    assert OccursAt(path, BALANCE, |actual|);
    assert path[..|actual|] == actual;
  }

  lemma CrookedMounts()
    ensures IsFixed("/a/..balance") && IsFixed("/a/b") && Depth("/a/..balance") == 1 && Depth("/a/b") == 2
    ensures Level("/a/..balance") == Level("/a/b")
    ensures GetActualMountPath("/a/b") == "/a/b"
    ensures Above(GetActualMountPath("/a/..balance"), "/a/b") && Above("/a/b", "/a/b")
  {
    hide *;
    CrookedTexts();
    TwoComps("a", "..balance");
    TwoComps("a", "b");
    SuffixCut("/a/.");
    NoSuffix("/a/b");
    CrookedActual();
    LevelIsDepth("/a/..balance");
    LevelIsDepth("/a/b");
  }

  lemma CrookedTexts()
    ensures IsComp("a") && IsComp("..balance") && IsComp("b")
    ensures '\\' !in "a" && '\\' !in "..balance" && '\\' !in "b" && |"/a/b"| < 8
    ensures "/" + "a" + "/" + "..balance" == "/a/..balance" == "/a/." + BALANCE && "/" + "a" + "/" + "b" == "/a/b"
  {
  }

  lemma CrookedActual()
    requires GetActualMountPath("/a/..balance") == "/a/." && GetActualMountPath("/a/b") == "/a/b" && Comps("/a/b") == ["a", "b"]
    ensures Depth("/a/..balance") == 1 && Depth("/a/b") == 2
    ensures HasSuffix(GetActualMountPath("/a/..balance"), "/.") && Straight("/a/b")
    ensures Above(GetActualMountPath("/a/..balance"), "/a/b") && Above("/a/b", "/a/b")
  {
    hide Comps, GetActualMountPath, Reduce, IsClean;
    OneComp("a");
    FormComps(["a"], ".");
    assert "/" + "a" == "/a" && Slashed(["a"]) + "/" + "." == "/a/.";
  }

  // ---------- the path below the mount ----------

  /** strings.TrimPrefix */
  function TrimPrefix(s: string, pre: string): string { if HasPrefix(s, pre) then s[|pre|..] else s }

  /** The path that a storage is asked for. */
  function ActualPath(mountPath: string, path: string): string {
    FixAndCleanPath(TrimPrefix(path, GetActualMountPath(mountPath)))
  }

  lemma FixSlashed(tail: seq<string>)
    requires AreComps(tail) && '\\' !in Slashed(tail)
    ensures FixAndCleanPath(Slashed(tail)) == NameOf(tail)
    ensures tail != [] ==> FixAndCleanPath(Slashed(tail)[1..]) == NameOf(tail)
  {
    hide FixAndCleanPath, Slashed, Comps;
    CompsNameOf(tail);
    if tail == [] {
      NoneSlashed();
      FixRelative("");
      assert "/" + "" == "/";
    } else {
      FixedStays(Slashed(tail));
      SlashedHead(tail);
      var rest := tail[0] + Slashed(tail[1..]);
      assert IsComp(tail[0]) && tail[0][0] in tail[0] && rest[0] == tail[0][0];
      assert Slashed(tail) == "/" + rest && Slashed(tail)[1..] == rest;
      FixRelative(rest);
    }
  }

  lemma FixRelative(rest: string)
    requires '\\' !in rest && (rest == "" || rest[0] != '/')
    ensures FixAndCleanPath(rest) == Clean("/" + rest)
  {
    hide Clean;
  }

  lemma BelowComp(a: seq<string>, tail: seq<string>)
    requires a != [] && AreComps(a) && AreComps(tail) && '\\' !in Slashed(a + tail)
    ensures FixAndCleanPath(TrimPrefix(Slashed(a + tail), Slashed(a))) == NameOf(tail)
  {
    hide Slashed, FixAndCleanPath, NameOf;
    SlashedSplit(a, tail);
    assert (Slashed(a) + Slashed(tail))[|Slashed(a)|..] == Slashed(tail);
    FixSlashed(tail);
  }

  lemma BelowSlash(init: seq<string>, tail: seq<string>)
    requires AreComps(init) && AreComps(tail) && tail != [] && '\\' !in Slashed(init + tail)
    ensures FixAndCleanPath(TrimPrefix(Slashed(init + tail), Slashed(init) + "/")) == NameOf(tail)
  {
    hide FixAndCleanPath, Slashed, NameOf;
    SlashedSplit(init, tail);
    FixSlashed(tail);
    SlashedHead(tail);
    var path := Slashed(init) + Slashed(tail);
    assert path[..|Slashed(init)| + 1] == Slashed(init) + "/";
    assert path[|Slashed(init)| + 1..] == Slashed(tail)[1..];
  }

  lemma AtSlash(init: seq<string>)
    requires AreComps(init) && '\\' !in NameOf(init)
    ensures FixAndCleanPath(TrimPrefix(NameOf(init), Slashed(init) + "/")) == NameOf(init)
  {
    hide FixAndCleanPath;
    FixSlashed(init);
    if init == [] {
      assert Slashed([]) == "" && "/"[1..] == "" && "" + "/" == "/";
    }
  }

  /** For a mount whose actual path has no dot component at its end, joining goes back except where the suffix
      ".balance" was a whole component and the path is the mount itself. */
  lemma StraightJoinsBack(mountPath: string, path: string)
    requires IsFixed(mountPath) && IsFixed(path) && Straight(mountPath) && Above(GetActualMountPath(mountPath), path)
    ensures GetFullPath(mountPath, ActualPath(mountPath, path)) == path
            <==> IsClean(GetActualMountPath(mountPath)) || path != Clean(GetActualMountPath(mountPath))
  {
    hide Comps, Slashed, GetActualMountPath, Reduce, SlashClean, Slashes, TrimPrefix, JoinPath;
    var actual := GetActualMountPath(mountPath);
    var init, c := ActualForm(mountPath);
    FormComps(init, c);
    EndsOf(Slashed(init), c);
    var a, p := Comps(actual), Comps(path);
    var tail := p[|a|..];
    assert p == a + tail && AreComps(tail);
    FixIsFixed(TrimPrefix(path, actual));
    JoinIsAppend(actual, ActualPath(mountPath, path));
    CompsNameOf(tail);
    if c == "" {
      assert actual == Slashed(init) + "/";
      CompsNameOf(init);
      SlashEnd(init);
      if tail == [] {
        assert p == init;
        AtSlash(init);
        CompsNameOf(init + init);
        assert init == [] ==> init + init == init;
      } else {
        assert path == Slashed(init + tail);
        BelowSlash(init, tail);
      }
    } else {
      assert IsComp(c);
      SlashedSnoc(init, c);
      assert path == Slashed(a + tail);
      BelowComp(a, tail);
    }
  }

  /** The rest of a path after a text that ends in the middle of a component. */
  lemma InComponent(init: seq<string>, c: string, p: seq<string>) returns (x: string, more: seq<string>)
    requires AreComps(init) && AreComps(p) && '/' !in c && c != "" && HasPrefix(Slashed(p), Slashed(init) + "/" + c)
    ensures AreComps(more) && '/' !in x && p == init + [c + x] + more
    ensures Slashed(p)[|Slashed(init) + "/" + c|..] == x + Slashed(more)
  {
    hide Slashed;
    var pre := Slashed(init) + "/";
    PrefixOfPrefix(pre, c, Slashed(p));
    var d, rest := NextComponent(init, p);
    PrefixAfter(pre, c, d + Slashed(rest));
    WithinFirst(c, d, Slashed(rest));
    x, more := d[|c|..], rest;
    assert d == c + x;
    RestAfter(pre, c, x, Slashed(rest));
  }

  lemma NextComponent(init: seq<string>, p: seq<string>) returns (d: string, rest: seq<string>)
    requires AreComps(init) && AreComps(p) && HasPrefix(Slashed(p), Slashed(init) + "/")
    ensures p == init + [d] + rest && '/' !in d && AreComps(rest)
    ensures Slashed(p) == Slashed(init) + "/" + (d + Slashed(rest))
    ensures Slashed(rest) != "" ==> Slashed(rest)[0] == '/'
  {
    hide Slashed;
    PrefixComps(init, p);
    var tail := p[|init|..];
    assert p == init + tail;
    SlashedSplit(init, tail);
    assert tail != [] by { NoneSlashed(); }
    SlashedHead(tail);
    d, rest := tail[0], tail[1..];
    assert IsComp(d) && tail == [d] + rest;
    StartsWithSlash(rest);
    assert Slashed(init) + ("/" + d + Slashed(rest)) == Slashed(init) + "/" + (d + Slashed(rest));
  }

  lemma PrefixOfPrefix(a: string, b: string, s: string)
    requires HasPrefix(s, a + b)
    ensures HasPrefix(s, a)
  {
    assert a <= a + b;
  }

  lemma PrefixAfter(a: string, b: string, s: string)
    requires HasPrefix(a + s, a + b)
    ensures b <= s
  {
    assert (a + b)[|a|..] == b && (a + s)[|a|..|a + b|] == (a + b)[|a|..];
  }

  lemma RestAfter(a: string, b: string, x: string, rest: string)
    ensures (a + (b + x + rest))[|a + b|..] == x + rest
  {
  }

  /** A text without slashes at the start of a component and what follows it is a part of the component. */
  lemma WithinFirst(c: string, d: string, rest: string)
    requires '/' !in c && c <= d + rest && (rest != "" ==> rest[0] == '/')
    ensures c <= d
  {
    var t := d + rest;
    assert rest != "" ==> t[|d|] == '/';
    assert forall k :: 0 <= k < |c| ==> t[k] == c[k];
    assert |c| <= |d|;
    assert forall k :: 0 <= k < |c| ==> t[k] == d[k];
  }

  /** A dot component cut off in the middle of a longer one is never given back. */
  lemma CutDots(init: seq<string>, c: string, p: seq<string>)
    requires (c == "." || c == "..") && AreComps(init) && AreComps(p) && '\\' !in Slashed(p)
    requires HasPrefix(Slashed(p), Slashed(init) + "/" + c)
    ensures Reduce([c], init) + Comps(FixAndCleanPath(TrimPrefix(Slashed(p), Slashed(init) + "/" + c))) != p
  {
    hide Slashed, Comps, Reduce, SlashClean;
    var x, more := InComponent(init, c, p);
    assert IsComp(c + x) by { assert p[|init|] == c + x; }
    assert x != "";
    ReduceOne(init, c);
    RestComps(x, more);
    var q := Comps(FixAndCleanPath(x + Slashed(more)));
    assert q == [x] + more || q == more;
    var r := Reduce([c], init);
    if |r| == |init| {
      assert r == init && (r + q)[|init|..] == q && p[|init|..] == [c + x] + more;
      assert q == [x] + more ==> q[0] != c + x;
    }
  }

  lemma RestComps(x: string, more: seq<string>)
    requires x != "" && '/' !in x && AreComps(more) && '\\' !in x + Slashed(more)
    ensures var q := Comps(FixAndCleanPath(x + Slashed(more))); q == [x] + more || q == more
  {
    hide *;
    RestSplit(x, more);
    RestReduce(x, more);
  }

  lemma RestSplit(x: string, more: seq<string>)
    requires x != "" && '/' !in x && AreComps(more) && '\\' !in x + Slashed(more)
    ensures forall p :: p in ["", x] + more ==> '/' !in p
    ensures Comps(FixAndCleanPath(x + Slashed(more))) == Reduce(["", x] + more, [])
  {
    hide Slashed, Split, Reduce;
    var s := x + Slashed(more);
    assert s[0] == x[0] && x[0] in x;
    assert "/" + s == "" + ['/'] + s;
    SplitCons("", s, '/');
    SplitTail(x, more);
    assert [""] + ([x] + more) == ["", x] + more;
    CleanIsClean("/" + s);
  }

  lemma RestReduce(x: string, more: seq<string>)
    requires x != "" && '/' !in x && AreComps(more)
    ensures forall p :: p in ["", x] + more ==> '/' !in p
    ensures var q := Reduce(["", x] + more, []); q == [x] + more || q == more
  {
    hide Reduce;
    assert [""] + ([x] + more) == ["", x] + more;
    SkipEmpty([x] + more, []);
    ReduceNext(x, more);
    ReduceComps(more, []);
    assert [] + more == more;
    if IsComp(x) { ReduceComps(more, [x]); }
  }

  lemma ReduceNext(x: string, more: seq<string>)
    requires x != "" && '/' !in x && AreComps(more)
    ensures forall p :: p in [x] + more ==> '/' !in p
    ensures Reduce([x] + more, []) == Reduce(more, if IsComp(x) then [x] else [])
  {
    assert ([x] + more)[1..] == more && [] + [x] == [x];
  }

  /** When the path below the mount, joined to the mount again, is the path that was asked for. */
  predicate GoesBack(mountPath: string, path: string) {
    var actual := GetActualMountPath(mountPath);
    if Straight(mountPath) then IsClean(actual) || path != Clean(actual)
    else Depth(mountPath) == 0 && !HasPrefix(path, actual)
  }

  /** Joining goes back exactly then, for every mount and every path below it. */
  lemma JoinsBack(mountPath: string, path: string)
    requires IsFixed(mountPath) && IsFixed(path) && Above(GetActualMountPath(mountPath), path)
    ensures GetFullPath(mountPath, ActualPath(mountPath, path)) == path <==> GoesBack(mountPath, path)
  {
    if Straight(mountPath) {
      hide *;
      StraightJoinsBack(mountPath, path);
      StraightGoesBack(mountPath, path);
    } else {
      CrookedJoinsBack(mountPath, path);
    }
  }

  lemma StraightGoesBack(mountPath: string, path: string)
    requires Straight(mountPath)
    ensures GoesBack(mountPath, path)
            <==> IsClean(GetActualMountPath(mountPath)) || path != Clean(GetActualMountPath(mountPath))
  {
    hide Straight;
  }

  lemma CrookedJoinsBack(mountPath: string, path: string)
    requires IsFixed(mountPath) && IsFixed(path) && !Straight(mountPath) && Above(GetActualMountPath(mountPath), path)
    ensures GetFullPath(mountPath, ActualPath(mountPath, path)) == path
            <==> Depth(mountPath) == 0 && !HasPrefix(path, GetActualMountPath(mountPath))
  {
    hide Comps, Slashed, GetActualMountPath, Reduce, SlashClean, Slashes, JoinPath, HasPrefix;
    var actual := GetActualMountPath(mountPath);
    var init, c := ActualForm(mountPath);
    FormComps(init, c);
    EndsOf(Slashed(init), c);
    var a, p, q := Comps(actual), Comps(path), Comps(ActualPath(mountPath, path));
    FixIsFixed(TrimPrefix(path, actual));
    JoinIsAppend(actual, ActualPath(mountPath, path));
    CompsNameOf(a + q);
    assert GetFullPath(mountPath, ActualPath(mountPath, path)) == path <==> a + q == p;
    if HasPrefix(path, actual) {
      PrefixNotRoot(path, actual, c, init);
      CutDots(init, c, p);
    } else {
      FixedStays(path);
      assert q == p;
    }
  }

  lemma PrefixNotRoot(path: string, actual: string, c: string, init: seq<string>)
    requires IsClean(path) && actual == Slashed(init) + "/" + c && c != "" && HasPrefix(path, actual)
    ensures path == Slashed(Comps(path))
  {
    assert |actual| >= 2;
  }

  /** A whole component cut off: the storage at "/a/.balance" is asked for "/a" under its own mount again. */
  lemma WholeSuffixLost()
    ensures IsFixed("/a/.balance") && IsFixed("/a") && Above(GetActualMountPath("/a/.balance"), "/a")
    ensures GetFullPath("/a/.balance", ActualPath("/a/.balance", "/a")) != "/a"
  {
    hide *;
    SuffixTexts();
    TwoComps("a", ".balance");
    OneComp("a");
    SuffixCut("/a/");
    SuffixActual();
    JoinsBack("/a/.balance", "/a");
  }

  lemma SuffixTexts()
    ensures IsComp("a") && IsComp(".balance") && '\\' !in "a" && '\\' !in ".balance"
    ensures "/" + "a" + "/" + ".balance" == "/a/.balance" == "/a/" + BALANCE && "/" + "a" == "/a"
  {
  }

  lemma SuffixActual()
    requires GetActualMountPath("/a/.balance") == "/a/" && Comps("/a") == ["a"] && "/a" == Slashed(["a"])
    ensures Above(GetActualMountPath("/a/.balance"), "/a") && !GoesBack("/a/.balance", "/a")
  {
    hide Comps, GetActualMountPath, Reduce, Slashed;
    assert IsComp("a");
    FormComps(["a"], "");
    assert Slashed(["a"]) + "/" + "" == "/a/" && Slashed(["a"]) + "/" == "/a/";
    EndsOf(Slashed(["a"]), "");
    SlashEnd(["a"]);
  }

  /** A name with a slash at its end is clean only if it is the root. */
  lemma SlashEnd(init: seq<string>)
    requires AreComps(init)
    ensures IsClean(Slashed(init) + "/") <==> init == []
  {
    if init == [] {
      CompsNameOf([]);
      assert "" + "/" == "/";
    } else {
      FormComps(init, "");
      assert Slashed(init) + "/" + "" == Slashed(init) + "/";
    }
  }
}
