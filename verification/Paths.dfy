/** Slash-separated names, as strings and as the sequences of their components: path.Clean for rooted
    names, slashClean of server/webdav/file.go, and the step of walkToRoot in server/webdav/lock.go. */
module Paths {
  import opened Strings

  /** A component of a clean name. */
  predicate IsComp(c: string) { c != "" && c != "." && c != ".." && '/' !in c }

  predicate AreComps(cs: seq<string>) { forall c :: c in cs ==> IsComp(c) }

  /** "/a/b" for ["a", "b"], and "" for []. */
  function Slashed(cs: seq<string>): string {
    if cs == [] then "" else Slashed(cs[..|cs| - 1]) + "/" + cs[|cs| - 1]
  }

  /** The clean name with these components. */
  function NameOf(cs: seq<string>): string {
    if cs == [] then "/" else Slashed(cs)
  }

  /** path.Clean's treatment of the parts of a rooted name: empty parts and "." vanish, ".." drops the
      component before it, and at the root it vanishes. */
  function Reduce(parts: seq<string>, acc: seq<string>): (cs: seq<string>)
    requires AreComps(acc) && forall p :: p in parts ==> '/' !in p
    ensures AreComps(cs)
    decreases |parts|
  {
    if parts == [] then acc
    else
      assert forall p :: p in parts[1..] ==> p in parts;
      if parts[0] == "" || parts[0] == "." then Reduce(parts[1..], acc)
      else if parts[0] == ".." then Reduce(parts[1..], if acc == [] then [] else acc[..|acc| - 1])
      else Reduce(parts[1..], acc + [parts[0]])
  }

  /** The components of a rooted name. */
  function Comps(name: string): (cs: seq<string>)
    ensures AreComps(cs)
  {
    Reduce(Split(name, '/'), [])
  }

  /** path.Clean of a name that starts with a slash. */
  function Clean(name: string): string { NameOf(Comps(name)) }

  /** slashClean */
  function SlashClean(name: string): string {
    Clean(if name == "" || name[0] != '/' then "/" + name else name)
  }

  predicate IsClean(name: string) { name == NameOf(Comps(name)) }

  // ---------- names and components correspond ----------

  lemma SlashedHead(cs: seq<string>)
    requires cs != []
    ensures Slashed(cs) == "/" + cs[0] + Slashed(cs[1..])
  {
    if |cs| > 1 {
      SlashedHead(cs[..|cs| - 1]);
      assert cs[..|cs| - 1][1..] == cs[1..][..|cs| - 2];
    } else {
      assert cs[..0] == [] && cs[1..] == [];
    }
  }

  /** The part of a slashed string after its first slash splits into the components. */
  lemma {:induction false} SplitTail(c: string, cs: seq<string>)
    requires '/' !in c && AreComps(cs)
    ensures Split(c + Slashed(cs), '/') == [c] + cs
    decreases |cs|
  {
    hide *;
    if cs == [] {
      SplitAlone(c);
    } else {
      FirstAndRest(cs);
      SplitTail(cs[0], cs[1..]);
      AfterSlash(c, cs);
      SplitCons(c, cs[0] + Slashed(cs[1..]), '/');
    }
  }

  lemma SplitAlone(c: string)
    requires '/' !in c
    ensures Split(c + Slashed([]), '/') == [c] + []
  {
    assert c + Slashed([]) == c && [c] + [] == [c];
  }

  lemma FirstAndRest(cs: seq<string>)
    requires AreComps(cs) && cs != []
    ensures IsComp(cs[0]) && '/' !in cs[0] && AreComps(cs[1..]) && [cs[0]] + cs[1..] == cs
  {
    assert cs[0] in cs;
  }

  lemma AfterSlash(c: string, cs: seq<string>)
    requires cs != []
    ensures c + Slashed(cs) == c + ['/'] + (cs[0] + Slashed(cs[1..]))
  {
    SlashedHead(cs);
    hide Slashed;
    assert "/" + cs[0] + Slashed(cs[1..]) == ['/'] + (cs[0] + Slashed(cs[1..]));
  }

  lemma SplitSlashed(cs: seq<string>)
    requires AreComps(cs)
    ensures Split(Slashed(cs), '/') == [""] + cs
  {
    SplitTail("", cs);
    assert "" + Slashed(cs) == Slashed(cs);
  }

  lemma {:induction false} ReduceComps(cs: seq<string>, acc: seq<string>)
    requires AreComps(cs) && AreComps(acc)
    ensures Reduce(cs, acc) == acc + cs
    decreases |cs|
  {
    if cs != [] {
      assert IsComp(cs[0]);
      ReduceComps(cs[1..], acc + [cs[0]]);
      assert acc + [cs[0]] + cs[1..] == acc + cs;
    } else {
      assert acc + cs == acc;
    }
  }

  /** A clean name has exactly the components it was made from. */
  lemma CompsNameOf(cs: seq<string>)
    requires AreComps(cs)
    ensures Comps(NameOf(cs)) == cs && IsClean(NameOf(cs))
  {
    hide Split, Reduce, Slashed;
    ReduceComps(cs, []);
    assert [] + cs == cs;
    if cs == [] {
      SplitRoot();
      SkipEmpty([], []);
      SkipEmpty([""], []);
      assert [""] + [""] == ["", ""] && [""] + [] == [""];
    } else {
      SplitSlashed(cs);
      SkipEmpty(cs, []);
    }
  }

  lemma SplitRoot()
    ensures Split("/", '/') == ["", ""]
  {
    SplitCons("", "", '/');
    assert "/" == "" + ['/'] + "";
  }

  lemma SkipEmpty(parts: seq<string>, acc: seq<string>)
    requires AreComps(acc) && forall p :: p in parts ==> '/' !in p
    ensures forall p :: p in [""] + parts ==> '/' !in p
    ensures Reduce([""] + parts, acc) == Reduce(parts, acc)
  {
    assert ([""] + parts)[1..] == parts;
  }

  lemma CleanIsClean(name: string)
    ensures IsClean(Clean(name)) && Comps(Clean(name)) == Comps(name)
  {
    CompsNameOf(Comps(name));
  }

  lemma SlashCleanIsClean(name: string)
    ensures IsClean(SlashClean(name))
  {
    CleanIsClean(if name == "" || name[0] != '/' then "/" + name else name);
  }

  // ---------- going up ----------

  /** The step of walkToRoot from a name that is not "/". */
  function Up(name: string): string
    requires '/' in name
  {
    var up := name[..LastIndexOf(name, '/')];
    if up == "" then "/" else up
  }

  lemma LastSlash(a: string, c: string)
    requires '/' !in c
    ensures LastIndexOf(a + "/" + c, '/') == |a|
  {
    hide LastIndexOf;
    var s := a + "/" + c;
    AppendAt(a, '/', c);
    forall j | |a| < j < |s| ensures s[j] != '/' {
      assert s[j] == c[j - |a| - 1];
    }
  }

  lemma AppendAt(a: string, x: char, c: string)
    ensures var s := a + [x] + c; s[|a|] == x && forall j :: |a| < j < |s| ==> s[j] == c[j - |a| - 1]
  {
  }

  /** walkToRoot goes from a name to the name without its last component. */
  lemma UpDropsLast(name: string)
    requires IsClean(name) && name != "/"
    ensures '/' in name && Comps(name) != [] && IsClean(Up(name)) && |Up(name)| < |name|
    ensures Comps(Up(name)) == Comps(name)[..|Comps(name)| - 1]
  {
    var cs := Comps(name);
    var init, last := cs[..|cs| - 1], cs[|cs| - 1];
    assert IsComp(last);
    assert name == Slashed(init) + "/" + last;
    assert name[|Slashed(init)|] == '/';
    LastSlash(Slashed(init), last);
    assert name[..|Slashed(init)|] == Slashed(init);
    if init != [] { SlashedHead(init); }
    assert Up(name) == NameOf(init);
    CompsNameOf(init);
  }

  /** a is b or an ancestor of b. */
  predicate Above(a: string, b: string) { Comps(a) <= Comps(b) }

  /** The prefix test of lookup in lock.go decides ancestry. */
  lemma PrefixIsAbove(root: string, name: string)
    requires IsClean(root) && IsClean(name)
    ensures Above(root, name) <==> name == root || root == "/" || HasPrefix(name, root + "/")
  {
    var r, n := Comps(root), Comps(name);
    CompsNameOf([]);
    if r <= n && r != n && r != [] {
      var tail := n[|r|..];
      assert n == r + tail;
      SlashedSplit(r, tail);
      SlashedHead(tail);
    }
    if HasPrefix(name, root + "/") && root != "/" {
      PrefixComps(r, n);
    }
  }

  lemma {:induction false} SlashedSplit(a: seq<string>, b: seq<string>)
    ensures Slashed(a + b) == Slashed(a) + Slashed(b)
    decreases |b|
  {
    if b == [] {
      assert a + b == a;
    } else {
      hide Slashed;
      var init, c := b[..|b| - 1], b[|b| - 1];
      SlashedSplit(a, init);
      SlashedSnoc(init, c);
      SlashedSnoc(a + init, c);
      assert b == init + [c] && a + b == (a + init) + [c];
      assert (Slashed(a) + Slashed(init)) + "/" + c == Slashed(a) + (Slashed(init) + "/" + c);
    }
  }

  lemma SlashedSnoc(init: seq<string>, c: string)
    ensures Slashed(init + [c]) == Slashed(init) + "/" + c
  {
    assert (init + [c])[..|init|] == init;
  }

  lemma {:induction false} PrefixComps(r: seq<string>, n: seq<string>)
    requires AreComps(r) && AreComps(n) && HasPrefix(Slashed(n), Slashed(r) + "/")
    ensures r <= n
    decreases |r|
  {
    hide Slashed;
    if r != [] {
      SlashedHead(r);
      if n == [] { NoneSlashed(); }
      SlashedHead(n);
      var sr, sn := Slashed(r[1..]) + "/", Slashed(n[1..]);
      StartsWithSlash(r[1..]);
      StartsWithSlash(n[1..]);
      assert IsComp(r[0]) && IsComp(n[0]);
      assert Slashed(r) + "/" == "/" + (r[0] + sr) && Slashed(n) == "/" + (n[0] + sn);
      DropHead(r[0] + sr, n[0] + sn);
      FirstComp(r[0], sr, n[0], sn);
      PrefixComps(r[1..], n[1..]);
      assert r == [r[0]] + r[1..] && n == [n[0]] + n[1..];
    }
  }

  lemma NoneSlashed()
    ensures Slashed([]) == ""
  {
  }

  lemma StartsWithSlash(cs: seq<string>)
    ensures Slashed(cs) != "" ==> Slashed(cs)[0] == '/'
    ensures (Slashed(cs) + "/")[0] == '/'
  {
    if cs != [] { SlashedHead(cs); }
  }

  lemma DropHead(x: string, y: string)
    requires "/" + x <= "/" + y
    ensures x <= y
  {
    assert ("/" + y)[1..] == y && ("/" + x)[1..] == x;
  }

  lemma FirstComp(a: string, s: string, b: string, t: string)
    requires '/' !in a && '/' !in b && a + s <= b + t
    requires s != "" && s[0] == '/' && (t != "" ==> t[0] == '/')
    ensures a == b && s <= t
  {
    var x, y := a + s, b + t;
    assert forall i :: 0 <= i < |a| ==> x[i] == a[i];
    assert forall i :: 0 <= i < |b| ==> y[i] == b[i];
    assert x[|a|] == '/' && (t != "" ==> y[|b|] == '/');
    assert forall i :: 0 <= i < |x| ==> x[i] == y[i];
    assert |a| == |b|;
    forall i | 0 <= i < |a| ensures a[i] == b[i] { assert x[i] == y[i]; }
    assert x[|a|..] == s && y[|a|..] == t;
  }
}
