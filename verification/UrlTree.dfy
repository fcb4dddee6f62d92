/** The node tree of drivers/url_tree: BuildTree, calSize and getByPath over linked nodes. `nodes` lists the
    nodes in the order in which they were made, and the table t of UrlForest says what each one holds. */
module UrlTree {
  import opened Common
  import opened Strings
  import opened UrlForest
  import opened UrlSums
  import opened UrlText

  class Node {
    var url: string
    var name: string
    var level: int
    var modified: int
    var size: int
    var children: seq<Node>

    constructor (r: Rec)
      ensures Holds(r) && children == []
    {
      url, name, level, modified, size, children := r.url, r.name, r.level, r.modified, r.size, [];
    }

    ghost predicate Holds(r: Rec)
      reads this`url, this`name, this`level, this`modified, this`size
    {
      url == r.url && name == r.name && level == r.level && modified == r.modified && size == r.size
    }
  }

  ghost predicate Within(ks: seq<nat>, n: nat) { forall i :: 0 <= i < |ks| ==> ks[i] < n }

  ghost function Pick(nodes: seq<Node>, ks: seq<nat>): (r: seq<Node>)
    requires Within(ks, |nodes|)
    ensures |r| == |ks| && forall i :: 0 <= i < |ks| ==> r[i] == nodes[ks[i]]
  {
    if ks == [] then [] else Pick(nodes, ks[..|ks| - 1]) + [nodes[ks[|ks| - 1]]]
  }

  ghost function NodeSet(nodes: seq<Node>): set<Node> { set n | n in nodes }

  ghost function Kids(t: Table, i: int): (ks: seq<nat>)
    requires WellFormed(t)
    ensures Within(ks, |t|)
  {
    assert forall j :: 0 <= j < |KidsBefore(t, i, |t|)| ==> KidsBefore(t, i, |t|)[j] in KidsBefore(t, i, |t|);
    KidsBefore(t, i, |t|)
  }

  ghost predicate Different(nodes: seq<Node>) {
    forall i, j :: 0 <= i < j < |nodes| ==> nodes[i] != nodes[j]
  }

  /** The children of node i are the nodes of the lines whose parent is line i, in order. */
  ghost predicate Linked(nodes: seq<Node>, t: Table)
    reads NodeSet(nodes)`children
  {
    && |nodes| == |t| && WellFormed(t)
    && forall i :: 0 <= i < |nodes| ==> nodes[i].children == Pick(nodes, Kids(t, i))
  }

  ghost predicate Filled(nodes: seq<Node>, t: Table)
    reads NodeSet(nodes)`url, NodeSet(nodes)`name, NodeSet(nodes)`level, NodeSet(nodes)`modified, NodeSet(nodes)`size
  {
    |nodes| == |t| && forall i :: 0 <= i < |nodes| ==> nodes[i].Holds(t[i])
  }

  // ---------- the tree that a node shows ----------

  /** The node and the nodes linked below it, all among `nodes`, hold the tree x. */
  ghost predicate Shows(nodes: set<Node>, n: Node, x: Tree)
    reads nodes`url, nodes`name, nodes`modified, nodes`size, nodes`children
    decreases x
  {
    n in nodes && match x
                  case File(name, url, size, modified) =>
                    n.name == name && n.url == url && n.size == size && n.modified == modified && n.children == []
                  case Folder(name, children) => n.name == name && n.url == "" && ShowAll(nodes, n.children, children)
  }

  ghost predicate ShowAll(nodes: set<Node>, ns: seq<Node>, xs: seq<Tree>)
    reads nodes`url, nodes`name, nodes`modified, nodes`size, nodes`children
    decreases xs
  {
    if xs == [] then ns == [] else ns != [] && Shows(nodes, ns[0], xs[0]) && ShowAll(nodes, ns[1..], xs[1..])
  }

  lemma {:induction false} HeadsBelow(t: Table, lo: nat, hi: nat)
    requires hi <= |t|
    ensures Within(Heads(t, lo, hi), |t|)
    decreases |t| - lo
  {
    if lo < hi { HeadsBelow(t, Stop(t, lo), hi); }
  }

  lemma PickCons(nodes: seq<Node>, k: nat, ks: seq<nat>)
    requires k < |nodes| && Within(ks, |nodes|)
    ensures Within([k] + ks, |nodes|) && Pick(nodes, [k] + ks) == [nodes[k]] + Pick(nodes, ks)
  {
    hide Pick;
    var p := Pick(nodes, [k] + ks);
    assert forall i :: 0 <= i < |p| ==> p[i] == ([nodes[k]] + Pick(nodes, ks))[i];
  }

  /** The children of a folder are the nodes of the heads of its part, and a file has none. */
  lemma ChildrenAre(nodes: seq<Node>, t: Table, i: nat)
    requires Linked(nodes, t) && i < |nodes|
    ensures i < Stop(t, i) <= |t| && Within(Heads(t, i + 1, Stop(t, i)), |nodes|)
    ensures nodes[i].children == if t[i].isFolder then Pick(nodes, Heads(t, i + 1, Stop(t, i))) else []
  {
    HeadsBelow(t, i + 1, Stop(t, i));
    if t[i].isFolder {
      KidsAreHeads(t, i);
    } else {
      FileHasNoKids(t, i, |t|);
    }
  }

  /** The lines of folders have no URL. */
  ghost predicate FoldersBare(t: Table) { forall i :: 0 <= i < |t| && t[i].isFolder ==> t[i].url == "" }

  lemma LineBare(text: string, head: HeadSize)
    requires ReadLine(text, head).Line? && ReadLine(text, head).rec.isFolder
    ensures ReadLine(text, head).rec.url == ""
  {
    hide TrimSpace, Index, Split, Base, Indent;
  }

  lemma {:induction false} LinesBare(lines: seq<string>, head: HeadSize)
    requires ReadLines(lines, head).Some?
    ensures FoldersBare([ROOT] + ReadLines(lines, head).value)
  {
    hide ReadLine;
    if lines != [] {
      var n := |lines| - 1;
      LinesBare(lines[..n], head);
      var line, before := ReadLine(lines[n], head), [ROOT] + ReadLines(lines[..n], head).value;
      if line.Line? {
        if line.rec.isFolder { LineBare(lines[n], head); }
        assert [ROOT] + ReadLines(lines, head).value == before + [line.rec];
      }
    }
  }

  /** The nodes of the heads of a part show the forest of the part. */
  lemma {:induction false} HeadsShow(nodes: seq<Node>, t: Table, lo: nat, hi: nat)
    requires Linked(nodes, t) && Filled(nodes, t) && FoldersBare(t) && hi <= |t|
    ensures Within(Heads(t, lo, hi), |nodes|)
    ensures ShowAll(NodeSet(nodes), Pick(nodes, Heads(t, lo, hi)), Forest(t, lo, hi))
    decreases |t| - lo
  {
    hide Pick, Kids, KidsBefore, WellFormed, Stop;
    HeadsBelow(t, lo, hi);
    if lo < hi {
      var e := Stop(t, lo);
      ChildrenAre(nodes, t, lo);
      HeadsShow(nodes, t, e, hi);
      PickCons(nodes, lo, Heads(t, e, hi));
      assert nodes[lo].Holds(t[lo]) && nodes[lo] in NodeSet(nodes);
      if t[lo].isFolder { HeadsShow(nodes, t, lo + 1, e); }
      var ns, xs := Pick(nodes, Heads(t, lo, hi)), Forest(t, lo, hi);
      assert ns[1..] == Pick(nodes, Heads(t, e, hi)) && xs[1..] == Forest(t, e, hi);
      assert Shows(NodeSet(nodes), ns[0], xs[0]);
    }
  }

  /** The children of the root show the forest of the lines. */
  lemma RootShows(nodes: seq<Node>, t: Table)
    requires Linked(nodes, t) && Filled(nodes, t) && FoldersBare(t)
    ensures nodes != [] && ShowAll(NodeSet(nodes), nodes[0].children, ForestOf(t))
  {
    hide Pick, Kids, ShowAll, Forest, Heads;
    RootPart(t);
    ChildrenAre(nodes, t, 0);
    HeadsShow(nodes, t, 1, |t|);
  }

  lemma PickSnoc(nodes: seq<Node>, node: Node, ks: seq<nat>, k: nat)
    requires Within(ks, |nodes|) && k <= |nodes|
    ensures Pick(nodes + [node], ks) == Pick(nodes, ks)
    ensures Within(ks + [k], |nodes| + 1) && Pick(nodes + [node], ks + [k]) == Pick(nodes, ks) + [(nodes + [node])[k]]
  {
    var p, q := Pick(nodes + [node], ks + [k]), Pick(nodes, ks) + [(nodes + [node])[k]];
    assert |p| == |q| && forall i :: 0 <= i < |p| ==> p[i] == q[i];
  }

  /** The children that the new line asks for. */
  lemma NewChildren(nodes: seq<Node>, node: Node, t: Table, r: Rec, p: nat)
    requires |nodes| == |t| && WellFormed(t) && WellFormed(t + [r]) && IsParent(t + [r], p, |t|)
    ensures forall i :: 0 <= i < |t| ==>
      Pick(nodes + [node], Kids(t + [r], i)) == Pick(nodes, Kids(t, i)) + if i == p then [node] else []
    ensures Pick(nodes + [node], Kids(t + [r], |t|)) == []
  {
    hide KidsBefore, IsParent, Pick, WellFormed;
    KidsAppend(t, r, p);
    forall i | 0 <= i < |t|
      ensures Pick(nodes + [node], Kids(t + [r], i)) == Pick(nodes, Kids(t, i)) + if i == p then [node] else []
    {
      PickSnoc(nodes, node, Kids(t, i), |t|);
      assert Kids(t, i) + [] == Kids(t, i) && Pick(nodes, Kids(t, i)) + [] == Pick(nodes, Kids(t, i));
    }
    NoKidsBefore(t, |t|, |t|);
    ParentBelow(t + [r], p, |t|);
  }

  /** Makes the node of the line and puts it at the end of its parent's children. */
  method Attach(top: Node, r: Rec, ghost nodes: seq<Node>, ghost t: Table, ghost p: nat) returns (node: Node)
    requires Linked(nodes, t) && Filled(nodes, t) && Different(nodes)
    requires p < |nodes| && nodes[p] == top && r.level >= 0 && IsParent(t + [r], p, |t|)
    modifies top`children
    ensures fresh(node) && Linked(nodes + [node], t + [r]) && Filled(nodes + [node], t + [r]) && Different(nodes + [node])
  {
    hide Kids, IsParent, Pick;
    node := new Node(r);
    NewChildren(nodes, node, t, r, p);
    top.children := top.children + [node];
    forall i | 0 <= i < |t| ensures nodes[i].children == old(nodes[i].children) + if i == p then [node] else [] {
      assert i != p ==> nodes[i] != top;
    }
  }

  /** The indentation loop and the parsing of one line. */
  method ParseLine(text: string, head: HeadSize) returns (r: LineResult)
    ensures r == ReadLine(text, head)
  {
    hide ReadFile, TrimSpace;
    var indent := 0;
    while indent < |text| && text[indent] == ' '
      invariant 0 <= indent <= |text| && Indent(text) == indent + Indent(text[indent..])
    {
      assert text[indent..][1..] == text[indent + 1..];
      indent := indent + 1;
    }
    if indent % 2 != 0 { return Malformed; }
    var level := indent / 2;
    var line := TrimSpace(text[indent..]);
    if line == "" { return Blank; }
    if HasSuffix(line, ":") { return Line(Rec(level, true, line[..|line| - 1], "", 0, 0)); }
    var file := ReadFile(line, level, head);
    match file
    case None => return Malformed;
    case Some(rec) => return Line(rec);
  }

  /** The loop that pops the folders which are not above the new line: the top is then its parent. */
  method PopTo(stack0: seq<Node>, r: Rec, ghost nodes: seq<Node>, ghost t: Table, ghost st0: seq<nat>)
    returns (stack: seq<Node>, ghost st: seq<nat>)
    requires WellFormed(t) && Filled(nodes, t) && Stack(t, st0) && Within(st0, |nodes|) && stack0 == Pick(nodes, st0) && r.level >= 0
    ensures st != [] && Within(st, |nodes|) && stack == Pick(nodes, st)
    ensures IsParent(t + [r], st[|st| - 1], |t|)
    ensures Stack(t + [r], st + if r.isFolder then [|t|] else [])
  {
    hide Stack, IsParent, WellFormed;
    stack := stack0;
    ghost var m := |st0| - 1;
    StackBase(t, st0);
    while r.level <= stack[|stack| - 1].level
      invariant 0 <= m < |st0| && stack == stack0[..m + 1]
      invariant m + 1 < |st0| ==> t[st0[m + 1]].level >= r.level
      decreases m
    {
      assert stack[|stack| - 1] == nodes[st0[m]] && nodes[st0[m]].Holds(t[st0[m]]);
      stack := stack[..|stack| - 1];
      m := m - 1;
    }
    assert stack[|stack| - 1] == nodes[st0[m]] && nodes[st0[m]].Holds(t[st0[m]]);
    st := st0[..m + 1];
    TopIsParent(t, st0, m, r);
  }

  lemma PickStack(nodes: seq<Node>, node: Node, st: seq<nat>)
    requires Within(st, |nodes|)
    ensures Within(st + [|nodes|], |nodes| + 1) && Pick(nodes + [node], st + [|nodes|]) == Pick(nodes, st) + [node]
    ensures Pick(nodes + [node], st) == Pick(nodes, st)
  {
    PickSnoc(nodes, node, st, |nodes|);
  }

  /** The loop of BuildTree over the lines: null for the error. */
  method BuildLines(lines: seq<string>, head: HeadSize) returns (root: Node?, ghost nodes: seq<Node>, ghost t: Table)
    ensures root == null <==> ReadLines(lines, head).None?
    ensures root != null ==>
      && t == [ROOT] + ReadLines(lines, head).value
      && Linked(nodes, t) && Filled(nodes, t) && Different(nodes) && nodes[0] == root && fresh(NodeSet(nodes))
  {
    hide ReadLines, ReadLine, Stack, IsParent, Pick, Kids, Different, Linked, Filled, WellFormed;
    var top := new Node(ROOT);
    root := top;
    ghost var recs: seq<Rec> := [];
    nodes, t := [top], [ROOT];
    var stack := [top];
    ghost var st: seq<nat> := [0];
    StartOk(top, lines, head);
    for k := 0 to |lines|
      invariant root == top && nodes != [] && nodes[0] == top
      invariant t == [ROOT] + recs && ReadLines(lines[..k], head) == Some(recs)
      invariant WellFormed(t) && Linked(nodes, t) && Filled(nodes, t) && Different(nodes) && fresh(NodeSet(nodes))
      invariant |nodes| == |t|
      invariant Stack(t, st) && Within(st, |nodes|) && stack == Pick(nodes, st)
    {
      ReadNext(lines, k, head);
      var line := ParseLine(lines[k], head);
      if line.Malformed? {
        MalformedLine(lines, k, head);
        return null, [], [];
      }
      if line.Blank? { continue; }
      var r := line.rec;
      stack, st := PopTo(stack, r, nodes, t, st);
      LastOf(nodes, st);
      ghost var p := st[|st| - 1];
      assert stack[|stack| - 1] == nodes[p] && nodes[p] in NodeSet(nodes);
      var node := Attach(stack[|stack| - 1], r, nodes, t, p);
      PickStack(nodes, node, st);
      SetSnoc(nodes, node);
      nodes, t, recs := nodes + [node], t + [r], recs + [r];
      LinkedIsWellFormed(nodes, t);
      if r.isFolder {
        stack := stack + [node];
        st := st + [|t| - 1];
      } else {
        assert st + [] == st;
      }
    }
    assert lines[..|lines|] == lines;
  }

  /** BuildTree: null for the error; otherwise the nodes below the root show the forest of the lines, and for the
      text of a forest they show that forest. */
  method BuildTree(text: string, head: HeadSize) returns (root: Node?, ghost nodes: seq<Node>, ghost t: Table)
    ensures root == null <==> ReadLines(Split(text, '\n'), head).None?
    ensures root != null ==>
      && t == [ROOT] + ReadLines(Split(text, '\n'), head).value
      && Linked(nodes, t) && Filled(nodes, t) && Different(nodes) && nodes[0] == root && fresh(NodeSet(nodes))
      && ShowAll(NodeSet(nodes), root.children, ForestOf(t))
    ensures forall xs :: (forall x :: x in xs ==> TreeWritable(x)) && text == Text(xs) ==>
              root != null && ShowAll(NodeSet(nodes), root.children, xs)
  {
    hide ReadLines, Split, Linked, Filled, Different, ShowAll, ForestOf, TreeWritable, Text, FoldersBare;
    root, nodes, t := BuildLines(Split(text, '\n'), head);
    WrittenTrees(text, head);
    if root != null {
      LinesBare(Split(text, '\n'), head);
      RootShows(nodes, t);
    }
  }

  lemma LastOf(nodes: seq<Node>, st: seq<nat>)
    requires st != [] && Within(st, |nodes|)
    ensures st[|st| - 1] < |nodes| && Pick(nodes, st) != [] && Pick(nodes, st)[|st| - 1] == nodes[st[|st| - 1]]
  {
  }

  lemma SetSnoc(nodes: seq<Node>, node: Node)
    ensures NodeSet(nodes + [node]) == NodeSet(nodes) + {node}
  {
  }

  lemma LinkedIsWellFormed(nodes: seq<Node>, t: Table)
    requires Linked(nodes, t)
    ensures WellFormed(t) && |nodes| == |t|
  {
  }

  lemma StartOk(root: Node, lines: seq<string>, head: HeadSize)
    requires root.Holds(ROOT) && root.children == []
    ensures Stack([ROOT], [0]) && Within([0], 1) && Pick([root], [0]) == [root]
    ensures WellFormed([ROOT]) && Linked([root], [ROOT]) && Filled([root], [ROOT]) && Different([root])
    ensures NodeSet([root]) == {root} && ReadLines(lines[..0], head) == Some([])
  {
    hide Kids, Stack, ReadLines, Pick;
    StackStart();
    NodesStart(root);
    NothingRead(lines, head);
  }

  lemma NodesStart(root: Node)
    ensures Pick([root], [0]) == [root] && NodeSet([root]) == {root}
    ensures Kids([ROOT], 0) == [] && Pick([root], []) == []
  {
    assert [0][..0] == [];
  }

  // ---------- sizes ----------

  ghost function Sizes(nodes: seq<Node>): (r: seq<int>)
    reads NodeSet(nodes)`size
    ensures |r| == |nodes| && forall k :: 0 <= k < |nodes| ==> r[k] == nodes[k].size
  {
    if nodes == [] then []
    else
      var n := |nodes| - 1;
      assert NodeSet(nodes[..n]) <= NodeSet(nodes) && nodes[n] in NodeSet(nodes);
      Sizes(nodes[..n]) + [nodes[n].size]
  }

  /** What calSize reads: how the nodes are linked, and which are files. */
  ghost predicate Readable(nodes: seq<Node>, t: Table)
    reads NodeSet(nodes)`children, NodeSet(nodes)`url
  {
    && Linked(nodes, t) && Different(nodes) && FilesTold(t)
    && forall i :: 0 <= i < |nodes| ==> nodes[i].url == t[i].url
  }

  /** The kids of a folder, as the loop of calSize meets them. */
  lemma KidsHere(nodes: seq<Node>, t: Table, i: nat)
    requires Linked(nodes, t) && FilesTold(t) && i < |nodes| && t[i].url == ""
    ensures t[i].isFolder && i < Stop(t, i) && Within(Heads(t, i + 1, Stop(t, i)), |nodes|)
    ensures nodes[i].children == Pick(nodes, Heads(t, i + 1, Stop(t, i)))
  {
    hide KidsBefore, Heads;
    KidsAreHeads(t, i);
  }

  /** calSize */
  method CalSize(node: Node, ghost nodes: seq<Node>, ghost t: Table, ghost i: nat) returns (total: int)
    requires Readable(nodes, t) && FileSizes(Sizes(nodes), t) && i < |nodes| && node == nodes[i]
    modifies NodeSet(nodes)`size
    ensures i < |t| && total == Wrap(SumFiles(t, i, Stop(t, i)))
    ensures Summed(old(Sizes(nodes)), Sizes(nodes), t, i, Stop(t, i))
    decreases |nodes| - i
  {
    hide SumFiles, Wrap, Stop, Heads, Summed, Pick, Kids, Linked, FilesTold, FileSizes;
    ghost var s0 := Sizes(nodes);
    SameTable(nodes, t);
    if node.url != "" {
      FileAtNode(nodes, t, s0, i);
      return node.size;
    }
    KidsHere(nodes, t, i);
    ghost var hi := Stop(t, i);
    ghost var m := i + 1;
    ghost var heads := Heads(t, i + 1, hi);
    assert heads[0..] == heads;
    var size := 0;
    SummedNone(s0, t, i + 1);
    for c := 0 to |node.children|
      invariant i < m <= hi && heads[c..] == Heads(t, m, hi)
      invariant size == Wrap(SumFiles(t, i + 1, m))
      invariant Summed(s0, Sizes(nodes), t, i + 1, m)
    {
      ghost var s1 := Sizes(nodes);
      SummedFiles(s0, s1, t, i + 1, m);
      assert heads[c..] != [];
      NextChild(t, i, m);
      assert heads[c] == m && heads[c..][1..] == heads[c + 1..];
      var child := CalSize(node.children[c], nodes, t, m);
      SummedJoin(s0, s1, Sizes(nodes), t, i + 1, m, Stop(t, m));
      size := Wrap(size + child);
      m := Stop(t, m);
    }
    HeadsEnd(t, m, hi);
    ghost var s2 := Sizes(nodes);
    node.size := size;
    FolderDone(s0, s2, Sizes(nodes), t, i);
    return size;
  }

  lemma SameTable(nodes: seq<Node>, t: Table)
    requires Readable(nodes, t)
    ensures |nodes| == |t|
  {
  }

  lemma FileAtNode(nodes: seq<Node>, t: Table, s0: seq<int>, i: nat)
    requires Readable(nodes, t) && FileSizes(s0, t) && i < |nodes| && nodes[i].url != ""
    ensures i < |t| && s0[i] == Wrap(SumFiles(t, i, Stop(t, i))) && Summed(s0, s0, t, i, Stop(t, i))
  {
    FileSum(t, i);
  }

  // ---------- finding a node ----------

  /** getByPath: the first node, in the order of the lines, that the names lead to. */
  method GetByPath(node: Node, paths: seq<string>, ghost nodes: seq<Node>, ghost t: Table, ghost i: nat) returns (r: Node?)
    requires Linked(nodes, t) && i < |nodes| && node == nodes[i] && node.name == t[i].name
    requires forall j :: 0 <= j < |nodes| ==> nodes[j].name == t[j].name
    ensures r == null ==> forall j :: !Chain(t, i, paths, j)
    ensures r != null ==> exists j :: 0 <= j < |nodes| && nodes[j] == r && FirstChain(t, i, paths, j)
    decreases |paths|
  {
    hide KidsBefore, IsParent, Pick;
    if |paths| == 0 { return null; }
    if node.name != paths[0] { return null; }
    if |paths| == 1 {
      assert FirstChain(t, i, paths, i) by { OneName(t, i, paths); }
      return node;
    }
    ghost var ks := KidsBefore(t, i, |t|);
    for c := 0 to |node.children|
      invariant forall a, j :: 0 <= a < c ==> !Chain(t, ks[a], paths[1..], j)
    {
      assert ks[c] in ks;
      r := GetByPath(node.children[c], paths[1..], nodes, t, ks[c]);
      if r != null {
        ghost var j :| 0 <= j < |nodes| && nodes[j] == r && FirstChain(t, ks[c], paths[1..], j);
        ChildDecides(t, i, paths, ks, c, j);
        return r;
      }
    }
    forall k: nat, j | IsParent(t, i, k) ensures !Chain(t, k, paths[1..], j) {
      InRange(t, i, k);
      assert k in ks;
      var a :| 0 <= a < |ks| && ks[a] == k;
    }
    return null;
  }
}
