/** The in-memory lock system of server/webdav/lock.go. */
module Locks {
  import opened Common
  import opened Numbers
  import opened Strings
  import opened Paths
  import opened LockHeap
  import opened LockTable

  /** What the function returned by Confirm remembers. */
  class Release {
    const n0: Node?
    const n1: Node?

    constructor (n0: Node?, n1: Node?)
      ensures this.n0 == n0 && this.n1 == n1
    {
      this.n0, this.n1 := n0, n1;
    }
  }

  class MemLS {
    var byName: map<string, Node>
    var byToken: map<string, Node>
    var gen: nat
    const byExpiry: ByExpiry

    /** The table this object stands for, and every node it has ever made. */
    ghost var tab: Table
    ghost var nodes: set<Node>

    /** The releases that Confirm has returned and that have not been called, and the one that holds each held lock. */
    ghost var outstanding: set<Release>
    ghost var holder: map<string, Release>

    // ---------- the invariant ----------

    /** byName holds a node for each clean name k with count(k) > 0, whose refCount is count(k). */
    ghost predicate Tree(count: string -> int)
      reads `byName, `nodes, nodes`details, nodes`refCount
    {
      && (forall k :: k in byName ==> byName[k] in nodes && byName[k].details.root == k && byName[k].refCount == count(k))
      && (forall k :: k in byName <==> IsClean(k) && count(k) > 0)
    }

    static ghost function Refs(locked: set<string>): string -> int {
      k => |Under(locked, k)|
    }

    /** NewMemLS */
    constructor (now: nat)
      ensures Valid() && fresh(byExpiry) && tab == map[] && nodes == {} && outstanding == {} && gen == now
    {
      byName, byToken, gen := map[], map[], now;
      tab, nodes, outstanding, holder := map[], {}, {}, map[];
      byExpiry := new ByExpiry();
    }

    lemma SameTree(f: string -> int, g: string -> int)
      requires Tree(f) && forall k :: IsClean(k) ==> f(k) == g(k)
      ensures Tree(g)
    {
      hide IsClean, Above;
    }

    static ghost function Plus(f: string -> int, cur: string, d: int): string -> int {
      k => if k == cur then f(k) + d else f(k)
    }

    /** The counts when walkToRoot from `name` has passed everything below `cur`, changing each by d. */
    static ghost function Walked(locked: set<string>, name: string, cur: string, d: int): string -> int {
      k => |Under(locked, k)| + if Above(k, name) && !Above(k, cur) then d else 0
    }

    /** The callback of create: one more lock at or below name0. */
    method Reference(name0: string, ghost count: string -> int) returns (n: Node)
      requires Tree(count) && IsClean(name0) && count(name0) >= 0
      modifies this`byName, this`nodes, nodes`refCount
      ensures Tree(Plus(count, name0, 1))
      ensures name0 in byName && n == byName[name0]
      ensures if name0 in old(byName) then byName == old(byName) && nodes == old(nodes)
              else byName == old(byName)[name0 := n] && fresh(n) && nodes == old(nodes) + {n}
                   && n.token == "" && n.byExpiryIndex == -1 && !n.held
    {
      hide IsClean, Above;
      if name0 in byName {
        n := byName[name0];
      } else {
        n := new Node(name0);
        byName := byName[name0 := n];
        nodes := nodes + {n};
      }
      n.refCount := n.refCount + 1;
    }

    /** The callback of remove: one lock fewer at or below name0. */
    method Dereference(name0: string, ghost count: string -> int)
      requires Tree(count) && IsClean(name0) && count(name0) > 0
      modifies this`byName, nodes`refCount
      ensures Tree(Plus(count, name0, -1))
      ensures byName == old(byName) || byName == old(byName) - {name0}
    {
      hide IsClean, Above;
      var x := byName[name0];
      x.refCount := x.refCount - 1;
      if x.refCount == 0 {
        byName := byName - {name0};
      }
    }

    lemma WalkBegin(locked: set<string>, name: string, d: int)
      requires Tree(Refs(locked))
      ensures Tree(Walked(locked, name, name, d))
    {
      hide IsClean, Above;
      SameTree(Refs(locked), Walked(locked, name, name, d));
    }

    /** One step of walkToRoot on the counts. */
    lemma WalkOn(locked: set<string>, name: string, cur: string, d: int)
      requires IsClean(name) && IsClean(cur) && Above(cur, name) && cur != "/"
      requires Tree(Plus(Walked(locked, name, cur, d), cur, d))
      ensures '/' in cur && IsClean(Up(cur)) && |Up(cur)| < |cur| && Above(Up(cur), name)
      ensures Tree(Walked(locked, name, Up(cur), d))
    {
      hide IsClean, Above;
      WalkStep(cur, cur);
      AboveTrans(Up(cur), cur, name);
      var f, g := Plus(Walked(locked, name, cur, d), cur, d), Walked(locked, name, Up(cur), d);
      forall k | IsClean(k) ensures f(k) == g(k) {
        WalkStep(cur, k);
        AboveSelf(cur);
      }
      SameTree(f, g);
    }

    /** The last step of walkToRoot on the counts. */
    lemma WalkEnd(locked: set<string>, locked': set<string>, name: string, d: int)
      requires IsClean(name) && Tree(Plus(Walked(locked, name, "/", d), "/", d))
      requires (d == 1 && name !in locked && locked' == locked + {name}) || (d == -1 && name !in locked' && locked == locked' + {name})
      ensures Tree(Refs(locked'))
    {
      hide IsClean, Above;
      var f, g := Plus(Walked(locked, name, "/", d), "/", d), Refs(locked');
      forall k | IsClean(k) ensures f(k) == g(k) {
        RootAbove(k);
        RootAbove(name);
        AboveSelf(k);
        if d == 1 { UnderAdd(locked, name, k); } else { UnderAdd(locked', name, k); }
      }
      SameTree(f, g);
    }

    /** create: the node for `name`, with a reference on it and on each of its ancestors. */
    method CreateNode(name: string, ghost locked: set<string>) returns (ret: Node)
      requires Tree(Refs(locked)) && IsClean(name) && name !in locked
      modifies this`byName, this`nodes, nodes`refCount
      ensures Tree(Refs(locked + {name})) && name in byName && ret == byName[name]
      ensures old(nodes) <= nodes && fresh(nodes - old(nodes))
      ensures forall k :: k in old(byName) ==> k in byName && byName[k] == old(byName)[k]
      ensures forall k :: k in byName && k !in old(byName) ==>
                fresh(byName[k]) && byName[k].token == "" && byName[k].byExpiryIndex == -1 && !byName[k].held
    {
      hide IsClean, Above, Tree, Walked, Refs, Plus;
      AboveSelf(name);
      WalkBegin(locked, name, 1);
      var cur, first := name, true;
      var found: Node? := null;
      while true
        invariant IsClean(cur) && Above(cur, name) && Tree(Walked(locked, name, cur, 1))
        invariant if first then cur == name else name in byName && found == byName[name]
        invariant old(nodes) <= nodes && fresh(nodes - old(nodes))
        invariant forall k :: k in old(byName) ==> k in byName && byName[k] == old(byName)[k]
        invariant forall k :: k in byName && k !in old(byName) ==>
                    fresh(byName[k]) && byName[k].token == "" && byName[k].byExpiryIndex == -1 && !byName[k].held
        decreases |cur|
      {
        WalkedNonNegative(locked, name, cur);
        var n := Reference(cur, Walked(locked, name, cur, 1));
        if first { found := n; }
        if cur == "/" {
          WalkEnd(locked, locked + {name}, name, 1);
          break;
        }
        WalkOn(locked, name, cur, 1);
        cur, first := Up(cur), false;
      }
      ret := found;
    }

    /** The walk of remove: one reference fewer on `name` and on each of its ancestors. */
    method DereferenceAll(name: string, ghost locked: set<string>)
      requires Tree(Refs(locked + {name})) && IsClean(name) && name !in locked
      modifies this`byName, nodes`refCount
      ensures Tree(Refs(locked))
      ensures forall k :: k in byName ==> k in old(byName) && byName[k] == old(byName)[k]
    {
      hide IsClean, Above, Tree, Walked, Refs, Plus;
      AboveSelf(name);
      WalkBegin(locked + {name}, name, -1);
      var cur := name;
      while true
        invariant IsClean(cur) && Above(cur, name) && Tree(Walked(locked + {name}, name, cur, -1))
        invariant forall k :: k in byName ==> k in old(byName) && byName[k] == old(byName)[k]
        decreases |cur|
      {
        WalkedPositive(locked, name, cur);
        Dereference(cur, Walked(locked + {name}, name, cur, -1));
        if cur == "/" {
          WalkEnd(locked + {name}, locked, name, -1);
          break;
        }
        WalkOn(locked + {name}, name, cur, -1);
        cur := Up(cur);
      }
    }

    static lemma WalkedPositive(locked: set<string>, name: string, cur: string)
      requires Above(cur, name)
      ensures Walked(locked + {name}, name, cur, -1)(cur) > 0
    {
      hide Above;
      AboveSelf(cur);
      UnderPositive(locked + {name}, cur);
    }

    static lemma WalkedNonNegative(locked: set<string>, name: string, cur: string)
      ensures Walked(locked, name, cur, 1)(cur) >= 0
    {
    }

    // ---------- the whole invariant ----------

    /** The locked nodes of the tree are the table's locks. */
    ghost predicate LocksOk()
      reads `byName, `tab, `nodes, nodes`details, nodes`token, nodes`expiry, nodes`held
    {
      && (forall k :: k in byName ==> byName[k] in nodes)
      && (forall k :: k in tab ==>
            k in byName && tab[k] == Lock(byName[k].details, byName[k].token, byName[k].expiry, byName[k].held))
      && (forall k :: k in tab ==> IsClean(k) && tab[k].details.root == k && tab[k].token != "")
      && (forall k :: k in byName && k !in tab ==> byName[k].token == "" && !byName[k].held)
    }

    /** byToken maps the tokens in use one to one to the locked nodes. */
    ghost predicate TokensOk()
      reads `byName, `byToken, `tab, `nodes, nodes`details
    {
      && (forall k :: k in tab ==> k in byName && tab[k].token in byToken && byToken[tab[k].token] == byName[k])
      && (forall t :: t in byToken ==> byToken[t] in nodes)
      && (forall t :: t in byToken ==> byToken[t].details.root in tab && tab[byToken[t].details.root].token == t)
    }

    /** No lock has a token that nextToken has yet to return. */
    ghost predicate GenOk()
      reads `tab, `gen
    {
      NoneToCome(tab, gen)
    }

    static ghost predicate NoneToCome(tab: Table, gen: nat) {
      forall k, n: nat :: k in tab && n > gen ==> tab[k].token != Digits(n)
    }

    static predicate Queued(l: Lock) { !l.held && l.details.duration >= 0 }

    /** The heap holds exactly the locked nodes that are finite and not held, and only they have an index;
        but nothing is said of whether it holds `but`. */
    ghost predicate HeapOk(but: Node?)
      reads `byName, `tab, `nodes, nodes`details, nodes`byExpiryIndex, nodes`expiry, byExpiry
    {
      && byExpiry.Items() <= nodes && byExpiry.Indexed() && byExpiry.Ordered()
      && (forall k :: k in byName ==> byName[k] in nodes && byName[k].byExpiryIndex >= -1)
      && (forall k :: k in byName && byName[k] != but ==> (byName[k] in byExpiry.Items() <==> k in tab && Queued(tab[k])))
      && (forall k :: k in byName ==> (byName[k] in byExpiry.Items() <==> byName[k].byExpiryIndex >= 0))
      && (forall n :: n in byExpiry.Items() && n != but ==> n.details.root in byName && byName[n.details.root] == n)
    }

    /** The structures agree with the table. */
    ghost predicate Core()
      reads `byName, `byToken, `tab, `nodes, `gen, byExpiry, nodes
    {
      Tree(Refs(tab.Keys)) && LocksOk() && TokensOk() && GenOk() && HeapOk(null)
    }

    /** The held locks are divided among the outstanding releases. */
    ghost predicate HoldsOk()
      reads `byName, `tab, `nodes, `outstanding, `holder, nodes`details
    {
      HoldersOk() && ReleasesOk()
    }

    /** Each held lock has an outstanding release that holds its node. */
    ghost predicate HoldersOk()
      reads `byName, `tab, `nodes, `outstanding, `holder, nodes`details
    {
      && (forall k :: k in byName ==> byName[k] in nodes && byName[k].details.root == k)
      && (forall k :: k in tab && tab[k].held ==> k in holder)
      && (forall k :: k in holder ==>
            && k in tab && tab[k].held && k in byName && holder[k] in outstanding
            && (byName[k] == holder[k].n0 || byName[k] == holder[k].n1))
    }

    /** Each outstanding release holds its one or two nodes. */
    ghost predicate ReleasesOk()
      reads `byName, `nodes, `outstanding, `holder, nodes`details
    {
      && (forall r :: r in outstanding && r.n0 != null ==> HeldBy(r.n0, r))
      && (forall r :: r in outstanding && r.n1 != null ==> HeldBy(r.n1, r) && r.n0 != r.n1)
    }

    ghost predicate HeldBy(n: Node, r: Release)
      reads `byName, `nodes, `holder, nodes`details
    {
      n in nodes && n.details.root in holder && holder[n.details.root] == r && n.details.root in byName && byName[n.details.root] == n
    }

    /** The invariant: the structures agree with the table, the held locks are divided among the
        outstanding releases, and no resource is covered by two locks. */
    ghost predicate Valid()
      reads this, byExpiry, nodes
    {
      Core() && HoldsOk() && Exclusive(tab)
    }

    /** byName holds exactly the locked names and the names above them, and counts the locks at or below each. */
    lemma NameCount(k: string)
      requires Valid()
      ensures k in byName <==> IsClean(k) && exists x :: x in tab && Above(k, x)
      ensures k in byName ==> byName[k].refCount == |Under(tab.Keys, k)| && byName[k].refCount > 0
    {
      hide IsClean, Above, LocksOk, TokensOk, GenOk, HeapOk, HoldsOk, Exclusive, Under;
      UnderPositive(tab.Keys, k);
      assert Refs(tab.Keys)(k) == |Under(tab.Keys, k)|;
    }

    /** byToken maps the tokens of the locks, and nothing else, to the locks' nodes, one to one; no token is empty. */
    lemma TokenMap(t: string)
      requires Valid()
      ensures t in byToken <==> exists k :: k in tab && tab[k].token == t
      ensures t in byToken ==>
        && t != "" && byToken[t].token == t && byToken[t].details.root in byName
        && byName[byToken[t].details.root] == byToken[t]
      ensures forall u :: t in byToken && u in byToken && byToken[t] == byToken[u] ==> t == u
    {
      hide Tree, Refs, GenOk, HeapOk, HoldsOk, Exclusive, IsClean;
    }

    /** byExpiry is a min-heap with the right back-indices, and holds exactly the finite locks nobody holds; every
        other node has the index -1. */
    lemma HeapContents(k: string)
      requires Valid() && k in byName
      ensures byName[k] in byExpiry.b <==> k in tab && !byName[k].held && byName[k].details.duration >= 0
      ensures if byName[k] in byExpiry.b then
                && 0 <= byName[k].byExpiryIndex < |byExpiry.b| && byExpiry.b[byName[k].byExpiryIndex] == byName[k]
                && byExpiry.b[0].expiry <= byName[k].expiry
              else byName[k].byExpiryIndex == -1
    {
      hide Tree, Refs, GenOk, TokensOk, HoldsOk, Exclusive, IsClean, ByExpiry.Ordered;
      assert byName[k] in byExpiry.b <==> byName[k] in byExpiry.Items();
      byExpiry.ItemIndices();
      if byName[k] in byExpiry.Items() { byExpiry.FirstIsLeast(byName[k]); }
    }

    /** n is the node of a lock. */
    ghost predicate Locked(n: Node)
      reads `byName, `tab, n`details
    {
      n.details.root in tab && n.details.root in byName && byName[n.details.root] == n
    }

    lemma LockedInTree(locked: set<string>, k: string)
      requires Tree(Refs(locked)) && k in locked && IsClean(k)
      ensures k in byName
    {
      hide IsClean, Above;
      AboveSelf(k);
      UnderPositive(locked, k);
    }

    lemma OtherNode(k: string, root: string)
      requires Tree(Refs(tab.Keys)) && LocksOk() && TokensOk() && k in byName && root in tab && k != root
      ensures root in byName && byName[k] != byName[root] && (k in tab ==> tab[k].token != byName[root].token)
    {
      hide IsClean, Above, Refs;
    }

    /** The node of the lock is a lock's no more. */
    method DropLock(n: Node)
      requires LocksOk() && GenOk() && Locked(n) && !n.held
      requires forall k :: k in byName && k != n.details.root ==> byName[k] != n
      modifies this`tab, n`token
      ensures LocksOk() && GenOk() && tab == old(tab) - {n.details.root}
    {
      hide IsClean, Digits;
      n.token := "";
      tab := tab - {n.details.root};
    }

    /** remove: the token goes. */
    method ClearToken(n: Node)
      requires Tree(Refs(tab.Keys)) && LocksOk() && TokensOk() && GenOk()
      requires Locked(n) && !n.held
      modifies this`byToken, this`tab, n`token
      ensures LocksOk() && TokensOk() && GenOk()
      ensures tab == old(tab) - {n.details.root}
      ensures forall k :: k in byName && k != n.details.root ==> byName[k] != n
    {
      hide IsClean, Above, Tree, Refs, Under, Digits, LocksOk, GenOk;
      ghost var root := n.details.root;
      LockedToken(n);
      forall k | k in byName && k != root ensures byName[k] != n && (k in tab ==> tab[k].token != n.token) {
        OtherNode(k, root);
      }
      byToken := byToken - {n.token};
      DropLock(n);
    }

    lemma LockedToken(n: Node)
      requires LocksOk() && Locked(n)
      ensures tab[n.details.root].token == n.token
    {
    }

    /** The walk of remove leaves the other locks alone. */
    method Unreference(root: string)
      requires Tree(Refs(tab.Keys + {root})) && LocksOk() && TokensOk() && IsClean(root) && root !in tab
      modifies this`byName, nodes`refCount
      ensures Tree(Refs(tab.Keys)) && LocksOk() && TokensOk()
      ensures forall k :: k in byName ==> k in old(byName) && byName[k] == old(byName)[k]
      ensures forall k :: k in tab ==> k in byName
    {
      hide IsClean, Above, Tree, Refs;
      DereferenceAll(root, tab.Keys);
      forall k | k in tab ensures k in byName { LockedInTree(tab.Keys, k); }
    }

    /** remove: the token goes, and one reference on each name up to the root. */
    method Forget(n: Node)
      requires Tree(Refs(tab.Keys)) && LocksOk() && TokensOk() && GenOk()
      requires Locked(n) && !n.held
      modifies this`byName, this`byToken, this`tab, n`token, nodes`refCount
      ensures Tree(Refs(tab.Keys)) && LocksOk() && TokensOk() && GenOk()
      ensures tab == old(tab) - {n.details.root}
      ensures forall k :: k in byName ==> k in old(byName) && byName[k] == old(byName)[k]
      ensures forall k :: k in byName && k != n.details.root ==> byName[k] != n
      ensures forall k :: k in tab ==> k in byName
    {
      hide IsClean, Above, Tree, Refs, TokensOk;
      ghost var locked := tab.Keys;
      ClearToken(n);
      assert tab.Keys + {n.details.root} == locked;
      hide LocksOk, GenOk;
      Unreference(n.details.root);
    }

    /** Takes n out of the heap, if it is there. */
    method Dequeue(n: Node)
      requires HeapOk(n) && n in nodes && n.byExpiryIndex >= -1
      requires n in byExpiry.Items() <==> n.byExpiryIndex >= 0
      modifies byExpiry, nodes`byExpiryIndex
      ensures HeapOk(n) && n !in byExpiry.Items() && n.byExpiryIndex == -1
    {
      hide ByExpiry.Ordered, ByExpiry.Items, ByExpiry.Indexed, Queued;
      byExpiry.ItemIndices();
      if n.byExpiryIndex >= 0 {
        var x := byExpiry.HeapRemove(n.byExpiryIndex);
        byExpiry.ItemIndices();
      }
    }

    /** Puts the node of a lock, which is not in the heap, into it. */
    method Enqueue(n: Node)
      requires HeapOk(n) && Locked(n) && n in nodes && n !in byExpiry.Items() && Queued(tab[n.details.root])
      requires forall k :: k in byName && k != n.details.root ==> byName[k] != n
      modifies byExpiry, nodes`byExpiryIndex
      ensures HeapOk(null)
    {
      hide ByExpiry.Ordered, ByExpiry.Items, ByExpiry.Indexed, Queued;
      byExpiry.HeapPush(n);
      byExpiry.ItemIndices();
    }

    /** remove: unlocks the node n. */
    method Remove(n: Node)
      requires Core() && Locked(n) && !n.held
      modifies this`byName, this`byToken, this`tab, byExpiry, nodes`refCount, nodes`byExpiryIndex, n`token
      ensures Core() && tab == old(tab) - {old(n.details.root)}
      ensures forall k :: k in byName ==> k in old(byName) && byName[k] == old(byName)[k]
      ensures forall k :: k in tab ==> k in byName
    {
      hide Tree, Refs, LocksOk, TokensOk, GenOk, ByExpiry.Ordered, ByExpiry.Items, ByExpiry.Indexed, Queued;
      Forget(n);
      Dequeue(n);
    }

    /** A lock that is not held is removed without touching the holds. */
    twostate lemma HoldsKept(root: string)
      requires old(HoldsOk()) && nodes == old(nodes) && outstanding == old(outstanding) && holder == old(holder)
      requires root in old(tab) && !old(tab)[root].held && tab == old(tab) - {root}
      requires forall k :: k in byName ==> k in old(byName) && byName[k] == old(byName)[k]
      requires forall k :: k in tab ==> k in byName
      requires forall n :: n in old(nodes) ==> n.details == old(n.details)
      ensures HoldsOk()
    {
    }

    method RemoveFree(n: Node)
      requires Valid() && Locked(n) && !n.held
      modifies this`byName, this`byToken, this`tab, byExpiry, nodes`refCount, nodes`byExpiryIndex, n`token
      ensures Valid() && tab == old(tab) - {n.details.root}
    {
      hide Tree, Refs, TokensOk, GenOk, HeapOk;
      hide Exclusive;
      Remove(n);
      HoldsKept(n.details.root);
      NarrowerExclusive(old(tab), tab);
    }

    /** Whatever is in the heap is a lock that may expire. */
    lemma HeapNodeIsFree(n: Node)
      requires Core() && n in byExpiry.Items()
      ensures Locked(n) && n in nodes && !n.held
      ensures var l := tab[n.details.root]; Queued(l) && l.expiry == n.expiry && l.details == n.details && l.token == n.token
    {
      hide IsClean, Tree, Refs, TokensOk, GenOk, ByExpiry.Ordered, ByExpiry.Indexed, ByExpiry.Items;
    }

    lemma LockNode(k: string)
      requires Core() && k in tab
      ensures k in byName && byName[k] in nodes && Locked(byName[k]) && tab[k].details.root == k && IsClean(k)
      ensures tab[k] == Lock(byName[k].details, byName[k].token, byName[k].expiry, byName[k].held) && tab[k].token != ""
      ensures Queued(tab[k]) ==> byName[k] in byExpiry.Items()
    {
      hide IsClean;
    }

    /** When the first node of the heap is not due, no lock is. */
    lemma NoneDue(now: int)
      requires Core() && (byExpiry.b != [] ==> now < byExpiry.b[0].expiry)
      ensures forall k :: k in tab ==> !Expired(tab[k], now)
    {
      hide IsClean, Tree, Refs, TokensOk, GenOk, ByExpiry.Ordered, ByExpiry.Indexed;
      forall k | k in tab && Queued(tab[k]) ensures now < tab[k].expiry {
        LockNode(k);
        byExpiry.FirstIsLeast(byName[k]);
      }
    }

    method CollectExpiredNodes(now: int)
      requires Valid()
      modifies this`byName, this`byToken, this`tab, byExpiry, nodes`refCount, nodes`byExpiryIndex, nodes`token
      ensures Valid() && tab == Collect(old(tab), now)
    {
      hide Core, HoldsOk, Exclusive;
      while |byExpiry.b| > 0
        invariant Valid()
        invariant forall k :: k in tab ==> k in old(tab) && tab[k] == old(tab)[k]
        invariant forall k :: k in old(tab) ==> k in tab || Expired(old(tab)[k], now)
        decreases |tab|
      {
        if now < byExpiry.b[0].expiry { break; }
        HeapNodeIsFree(byExpiry.b[0]);
        RemoveFree(byExpiry.b[0]);
      }
      NoneDue(now);
    }

    /** lookup: the node of the first condition that claims the name, or null. */
    method Lookup(name: string, conditions: seq<Condition>) returns (n: Node?)
      requires Core() && IsClean(name)
      ensures n == null ==> forall c, k :: c in conditions ==> !Claims(tab, c.token, name, k)
      ensures n != null ==>
                && Locked(n) && !n.held && n in nodes
                && exists i :: FirstClaim(tab, conditions, name, n.details.root, i)
    {
      hide Tree, Refs, GenOk, HeapOk, IsClean, Above;
      var i := 0;
      while i < |conditions|
        invariant 0 <= i <= |conditions|
        invariant forall j, k :: 0 <= j < i ==> !Claims(tab, conditions[j].token, name, k)
      {
        var c := conditions[i];
        TokenNode(c.token);
        if c.token in byToken {
          n := byToken[c.token];
          PrefixIsAbove(n.details.root, name);
          if !n.held {
            if name == n.details.root {
              assert FirstClaim(tab, conditions, name, n.details.root, i);
              return;
            }
            if !n.details.zeroDepth {
              if n.details.root == "/" || HasPrefix(name, n.details.root + "/") {
                assert FirstClaim(tab, conditions, name, n.details.root, i);
                return;
              }
            }
          }
        }
        i := i + 1;
      }
      n := null;
    }

    /** byToken finds the one lock with a token. */
    lemma TokenNode(token: string)
      requires Core()
      ensures token !in byToken ==> forall k :: k in tab ==> tab[k].token != token
      ensures token in byToken ==>
                var n := byToken[token];
                && Locked(n) && n in nodes && IsClean(n.details.root)
                && tab[n.details.root] == Lock(n.details, token, n.expiry, n.held)
                && forall k :: k in tab && tab[k].token == token ==> k == n.details.root
    {
      hide Tree, Refs, GenOk, HeapOk, IsClean;
    }

    lemma TokensDistinct()
      requires Valid()
      ensures DistinctTokens(tab)
    {
      hide Tree, Refs, GenOk, HeapOk, HoldsOk, Exclusive;
      forall j, k | j in tab && k in tab && tab[j].token == tab[k].token ensures j == k {
        TokenNode(tab[j].token);
      }
    }

    /** canCreate: the walk to the root decides the conflict with any lock of the table. */
    method CanCreate(name: string, zeroDepth: bool) returns (ok: bool)
      requires Core() && IsClean(name)
      ensures ok <==> !Conflict(tab, name, zeroDepth)
    {
      hide Tree, Refs, GenOk, HeapOk, TokensOk, IsClean, Above;
      var cur, first := name, true;
      AboveSelf(name);
      while true
        invariant IsClean(cur) && Above(cur, name) && (first <==> cur == name)
        invariant forall k :: k in tab && Above(k, name) && !Above(k, cur) ==> k != name && tab[k].details.zeroDepth
        invariant !first ==> (zeroDepth || name !in byName) && name !in tab
        decreases |cur|
      {
        if cur in byName {
          var n := byName[cur];
          if first {
            if n.token != "" {
              return false;
            }
            if !zeroDepth {
              NamedIsAbove(cur);
              return false;
            }
          } else if n.token != "" && !n.details.zeroDepth {
            return false;
          }
        }
        if cur == "/" {
          NamedIsAbove(name);
          forall k | k in tab ensures !(Covers(tab[k], name) || (!zeroDepth && Above(name, k))) {
            RootAbove(k);
            LockNode(k);
          }
          break;
        }
        WalkStep(cur, cur);
        AboveTrans(Up(cur), cur, name);
        forall k | k in tab && Above(k, name) && !Above(k, Up(cur)) ensures k != name && tab[k].details.zeroDepth {
          WalkStep(cur, k);
        }
        cur, first := Up(cur), false;
      }
      return true;
    }

    /** A name is in the tree exactly when some lock is at or below it. */
    lemma NamedIsAbove(name: string)
      requires Core() && IsClean(name)
      ensures name in byName <==> exists k :: k in tab && Above(name, k)
    {
      hide IsClean, Above;
      UnderPositive(tab.Keys, name);
    }

    lemma NodesDiffer(root: string)
      requires Tree(Refs(tab.Keys)) && LocksOk() && TokensOk() && root in tab
      ensures root in byName && forall k :: k in byName && k != root ==> byName[k] != byName[root]
    {
      hide IsClean, Above, Refs;
      forall k | k in byName && k != root ensures byName[k] != byName[root] { OtherNode(k, root); }
    }

    /** The structures agree with the table, but the heap may or may not hold n. */
    ghost predicate CoreBut(n: Node)
      reads `byName, `byToken, `tab, `nodes, `gen, byExpiry, nodes, n`details
    {
      && Tree(Refs(tab.Keys)) && LocksOk() && TokensOk() && GenOk() && HeapOk(n)
      && Locked(n) && n in nodes && forall k :: k in byName && k != n.details.root ==> byName[k] != n
    }

    lemma Unsettled(n: Node)
      requires Core() && Locked(n)
      ensures CoreBut(n) && n in nodes
      ensures n in byExpiry.Items() <==> Queued(tab[n.details.root])
      ensures tab[n.details.root] == Lock(n.details, n.token, n.expiry, n.held)
    {
      hide Tree, Refs, GenOk, IsClean, ByExpiry.Ordered, ByExpiry.Items, ByExpiry.Indexed;
      NodesDiffer(n.details.root);
    }

    lemma Settled(n: Node)
      requires CoreBut(n) && (n in byExpiry.Items() <==> Queued(tab[n.details.root]))
      ensures Core()
    {
      hide Tree, Refs, LocksOk, TokensOk, GenOk, ByExpiry.Ordered, ByExpiry.Items, ByExpiry.Indexed;
    }

    lemma OutOfHeap(n: Node)
      requires CoreBut(n)
      ensures n in byExpiry.Items() <==> n.byExpiryIndex >= 0
    {
    }

    /** Heap moves of n leave everything but the heap alone. */
    method Leave(n: Node)
      requires CoreBut(n)
      modifies byExpiry, nodes`byExpiryIndex
      ensures CoreBut(n) && n !in byExpiry.Items()
    {
      hide Tree, Refs, LocksOk, TokensOk, GenOk, ByExpiry.Ordered, ByExpiry.Items, ByExpiry.Indexed;
      Dequeue(n);
    }

    method Enter(n: Node)
      requires CoreBut(n) && n !in byExpiry.Items() && Queued(tab[n.details.root])
      modifies byExpiry, nodes`byExpiryIndex
      ensures Core()
    {
      hide Tree, Refs, LocksOk, TokensOk, GenOk, ByExpiry.Ordered, ByExpiry.Items, ByExpiry.Indexed;
      Enqueue(n);
    }

    method SetHeldFlag(n: Node, held: bool)
      requires LocksOk() && Locked(n) && n in nodes
      requires forall k :: k in byName && k != n.details.root ==> byName[k] != n
      modifies this`tab, n`held
      ensures LocksOk() && n.held == held && tab == SetHeld(old(tab), n.details.root, held)
    {
      hide IsClean;
      n.held := held;
      tab := SetHeld(tab, n.details.root, held);
    }

    method SetHeldOfLock(n: Node, held: bool)
      requires LocksOk() && TokensOk() && GenOk() && Locked(n) && n in nodes
      requires forall k :: k in byName && k != n.details.root ==> byName[k] != n
      modifies this`tab, n`held
      ensures LocksOk() && TokensOk() && GenOk() && n.held == held && tab == SetHeld(old(tab), n.details.root, held)
    {
      hide LocksOk;
      SetHeldFlag(n, held);
    }

    method MarkHeld(n: Node, held: bool)
      requires CoreBut(n)
      modifies this`tab, n`held
      ensures CoreBut(n) && n.held == held && tab == SetHeld(old(tab), n.details.root, held)
    {
      hide Tree, Refs, LocksOk, TokensOk, GenOk, ByExpiry.Ordered, ByExpiry.Items, ByExpiry.Indexed;
      SetHeldOfLock(n, held);
      assert tab.Keys == old(tab).Keys;
    }

    /** hold: the panic on a lock already held is unreachable under the precondition. */
    method Hold(n: Node)
      requires Core() && Locked(n) && n in nodes && !n.held
      modifies this`tab, byExpiry, nodes`byExpiryIndex, n`held
      ensures Core() && tab == SetHeld(old(tab), n.details.root, true)
    {
      hide Core, CoreBut;
      Unsettled(n);
      MarkHeld(n, true);
      OutOfHeap(n);
      if n.details.duration >= 0 && n.byExpiryIndex >= 0 {
        Leave(n);
      }
      Settled(n);
    }

    /** unhold: the panic on a lock not held is unreachable under the precondition. */
    method Unhold(n: Node)
      requires Core() && Locked(n) && n in nodes && n.held
      modifies this`tab, byExpiry, nodes`byExpiryIndex, n`held
      ensures Core() && tab == SetHeld(old(tab), n.details.root, false)
    {
      hide Core, CoreBut;
      Unsettled(n);
      MarkHeld(n, false);
      if n.details.duration >= 0 {
        Enter(n);
      } else {
        Settled(n);
      }
    }

    // ---------- Create ----------

    /** create leaves the rest of the table as it is. */
    method GrowTree(name: string) returns (n: Node)
      requires Tree(Refs(tab.Keys)) && LocksOk() && TokensOk() && IsClean(name) && name !in tab
      modifies this`byName, this`nodes, nodes`refCount
      ensures Tree(Refs(tab.Keys + {name}))
      ensures LocksOk() && TokensOk()
      ensures name in byName && n == byName[name] && n in nodes && n.details.root == name && n.token == "" && !n.held
      ensures name !in old(byName) ==> n.byExpiryIndex == -1
      ensures old(nodes) <= nodes && fresh(nodes - old(nodes))
      ensures forall k :: k in old(byName) ==> k in byName && byName[k] == old(byName)[k]
      ensures forall k :: k in byName ==> byName[k] in nodes && byName[k].details.root == k
      ensures forall k :: k in byName && k !in old(byName) ==> fresh(byName[k]) && byName[k].byExpiryIndex == -1 && k !in tab
      ensures forall k :: k in byName && k != name ==> byName[k] != n
    {
      hide Refs, IsClean;
      n := CreateNode(name, tab.Keys);
      assert LocksOk();
    }

    /** New nodes in the tree, with index -1, leave the heap right. */
    twostate lemma HeapGrown()
      requires old(HeapOk(null)) && tab == old(tab) && old(nodes) <= nodes && byExpiry.b == old(byExpiry.b)
      requires forall n :: n in old(nodes) ==>
        n.details == old(n.details) && n.byExpiryIndex == old(n.byExpiryIndex) && n.expiry == old(n.expiry)
      requires forall k :: k in old(byName) ==> k in byName && byName[k] == old(byName)[k]
      requires forall k :: k in byName ==> byName[k] in nodes
      requires forall k :: k in byName && k !in old(byName) ==>
        byName[k] !in old(nodes) && byName[k].byExpiryIndex == -1 && k !in tab
      ensures HeapOk(null)
    {
      hide Queued;
      byExpiry.OrderKept();
    }

    /** And the holds. */
    twostate lemma HoldsGrown()
      requires old(HoldsOk()) && tab == old(tab) && old(nodes) <= nodes && holder == old(holder) && outstanding == old(outstanding)
      requires forall n :: n in old(nodes) ==> n.details == old(n.details)
      requires forall k :: k in old(byName) ==> k in byName && byName[k] == old(byName)[k]
      requires forall k :: k in byName ==> byName[k] in nodes && byName[k].details.root == k
      ensures HoldsOk()
    {
    }

    method Grow(name: string) returns (n: Node)
      requires Core() && HoldsOk() && IsClean(name) && name !in tab
      modifies this`byName, this`nodes, nodes`refCount
      ensures Tree(Refs(tab.Keys + {name}))
      ensures LocksOk() && TokensOk() && GenOk() && HeapOk(null) && HoldsOk()
      ensures name in byName && n == byName[name] && n in nodes && n.details.root == name && n.token == "" && !n.held
      ensures n !in byExpiry.Items()
      ensures old(nodes) <= nodes && fresh(nodes - old(nodes))
      ensures forall k :: k in byName && k != name ==> byName[k] != n
    {
      hide Tree, Refs, LocksOk, TokensOk, GenOk, HeapOk, IsClean, ByExpiry.Ordered, ByExpiry.Items, ByExpiry.Indexed;
      hide HoldsOk;
      NotQueued(name);
      n := GrowTree(name);
      HeapGrown();
      HoldsGrown();
    }

    /** The node of a name that is not locked, if there is one, is not in the heap. */
    lemma NotQueued(name: string)
      requires Core() && name !in tab
      ensures name in byName ==> byName[name] !in byExpiry.Items()
      ensures byExpiry.Items() <= nodes
    {
      hide Tree, Refs, LocksOk, TokensOk, GenOk;
    }

    /** The assignments of Create to the new node. */
    method SetNode(n: Node, details: LockDetails, token: string, now: int)
      requires LocksOk() && GenOk() && token != "" && forall j: nat :: j > gen ==> token != Digits(j)
      requires n in nodes && n.details.root == details.root && details.root !in tab && IsClean(details.root)
      requires details.root in byName && byName[details.root] == n && !n.held
      requires forall k :: k in byName && k != details.root ==> byName[k] != n
      modifies this`tab, n`token, n`details, n`expiry
      ensures LocksOk() && GenOk() && n.details == details
      ensures tab == old(tab)[details.root := Lock(details, token, n.expiry, false)]
      ensures details.duration >= 0 ==> n.expiry == now + details.duration
    {
      hide IsClean, Under, NoneToCome;
      NoneToComeAdded(tab, gen, details.root, Lock(details, token, if details.duration >= 0 then now + details.duration else n.expiry, false));
      n.token := token;
      n.details := details;
      if details.duration >= 0 {
        n.expiry := now + details.duration;
      }
      tab := tab[details.root := Lock(details, token, n.expiry, false)];
    }

    /** A lock under a token that is not to come again. */
    static lemma NoneToComeAdded(tab: Table, gen: nat, root: string, l: Lock)
      requires NoneToCome(tab, gen) && forall j: nat :: j > gen ==> l.token != Digits(j)
      ensures NoneToCome(tab[root := l], gen)
    {
    }

    /** The assignments of Create to the new node and to byToken. */
    method Fill(n: Node, details: LockDetails, token: string, now: int)
      requires LocksOk() && TokensOk() && GenOk() && token != "" && token !in byToken
      requires forall j: nat :: j > gen ==> token != Digits(j)
      requires n in nodes && n.details.root == details.root && details.root !in tab && IsClean(details.root)
      requires details.root in byName && byName[details.root] == n && !n.held
      requires forall k :: k in byName && k != details.root ==> byName[k] != n
      modifies this`tab, this`byToken, n`token, n`details, n`expiry
      ensures LocksOk() && TokensOk() && GenOk() && n.details == details
      ensures tab == old(tab)[details.root := Lock(details, token, n.expiry, false)]
      ensures details.duration >= 0 ==> n.expiry == now + details.duration
    {
      hide IsClean, LocksOk, GenOk;
      SetNode(n, details, token, now);
      byToken := byToken[token := n];
      forall t | t in byToken && t != token
        ensures byToken[t] in nodes && byToken[t] != n && byToken[t].details.root in tab && tab[byToken[t].details.root].token == t
      {
        assert t in old(byToken) && old(byToken[t].details.root in tab);
      }
    }

    /** Changes that leave the held locks and the names of the nodes alone leave the holds right. */
    twostate lemma HoldsUnaffected()
      requires old(HoldsOk()) && byName == old(byName) && nodes == old(nodes)
      requires outstanding == old(outstanding) && holder == old(holder)
      requires forall n :: n in nodes ==> n.details.root == old(n.details.root)
      requires forall k :: k in old(tab) && old(tab)[k].held ==> k in tab && tab[k].held
      requires forall k :: k in tab && tab[k].held ==> k in old(tab) && old(tab)[k].held
      ensures HoldsOk()
    {
    }

    /** A change of details that keeps the name keeps the tree. */
    twostate lemma TreeKept(f: string -> int)
      requires old(Tree(f)) && byName == old(byName) && nodes == old(nodes)
      requires forall n :: n in nodes ==> n.details.root == old(n.details.root) && n.refCount == old(n.refCount)
      ensures Tree(f)
    {
      hide IsClean;
    }

    method NextToken() returns (token: string)
      requires gen < MAX_UINT64
      modifies this`gen
      ensures gen == old(gen) + 1 && token == Digits(gen)
    {
      gen := gen + 1;
      token := Digits(gen);
    }

    lemma TokenIsNew()
      requires LocksOk() && TokensOk() && GenOk()
      ensures Digits(gen + 1) != "" && Digits(gen + 1) !in byToken
      ensures forall k :: k in tab ==> tab[k].token != Digits(gen + 1)
      ensures forall j: nat :: j > gen + 1 ==> Digits(gen + 1) != Digits(j)
    {
      hide LocksOk;
      forall j: nat | j > gen + 1 ensures Digits(gen + 1) != Digits(j) {
        ValueDigits(gen + 1);
        ValueDigits(j);
      }
    }

    /** A lock, not yet in the heap, is added to the table. */
    method AddLock(n: Node, details: LockDetails, token: string, now: int)
      requires Tree(Refs(tab.Keys + {details.root})) && LocksOk() && TokensOk() && GenOk() && HeapOk(null) && HoldsOk()
      requires token != "" && token !in byToken && forall j: nat :: j > gen ==> token != Digits(j)
      requires n in nodes && n.details.root == details.root && details.root !in tab && IsClean(details.root)
      requires details.root in byName && byName[details.root] == n && !n.held && n !in byExpiry.Items()
      requires forall k :: k in byName && k != details.root ==> byName[k] != n
      modifies this`tab, this`byToken, n`token, n`details, n`expiry
      ensures CoreBut(n) && HoldsOk() && n !in byExpiry.Items() && n.details == details
      ensures tab == old(tab)[details.root := Lock(details, token, n.expiry, false)]
      ensures details.duration >= 0 ==> n.expiry == now + details.duration
    {
      hide Tree, LocksOk, TokensOk, GenOk, HoldsOk, Refs, IsClean, ByExpiry.Items, ByExpiry.Ordered, ByExpiry.Indexed;
      ghost var keys := tab.Keys + {details.root};
      Fill(n, details, token, now);
      TreeKept(Refs(keys));
      assert tab.Keys == keys;
      byExpiry.OrderKept();
      HoldsUnaffected();
    }

    /** What Create does after canCreate has said yes. */
    method NewLock(details: LockDetails, now: int) returns (token: string)
      requires Valid() && gen < MAX_UINT64 && IsClean(details.root) && details.root !in tab
      requires !Conflict(tab, details.root, details.zeroDepth)
      modifies this, byExpiry, nodes
      ensures Valid() && gen == old(gen) + 1 && token == Digits(gen)
      ensures forall k :: k in old(tab) ==> old(tab)[k].token != token
      ensures details.root in tab && tab == old(tab)[details.root := Lock(details, token, tab[details.root].expiry, false)]
      ensures details.duration >= 0 ==> tab[details.root].expiry == now + details.duration
      ensures outstanding == old(outstanding) && fresh(nodes - old(nodes))
      ensures forall n :: n in old(nodes) ==> n.details.root == old(n.details.root)
    {
      hide Tree, Refs, LocksOk, TokensOk, GenOk, HeapOk, HoldsOk, IsClean, CoreBut, Exclusive, Conflict;
      KeyedByRoot();
      NewLockExclusive(tab, Lock(details, "", 0, false));
      var n := Grow(details.root);
      TokenIsNew();
      token := NextToken();
      GenGrows();
      AddLock(n, details, token, now);
      if details.duration >= 0 {
        Enter(n);
      } else {
        Settled(n);
      }
      NarrowerExclusive(old(tab)[details.root := Lock(details, "", 0, false)], tab);
    }

    lemma KeyedByRoot()
      requires Core()
      ensures forall k :: k in tab ==> tab[k].details.root == k
    {
      hide Tree, Refs, TokensOk, GenOk, HeapOk, IsClean;
    }

    twostate lemma GenGrows()
      requires gen >= old(gen) && tab == old(tab)
      ensures old(GenOk()) ==> GenOk()
    {
    }

    /** Create: refused exactly when some lock of the whole table stands in the way. */
    method Create(now: int, details: LockDetails) returns (r: Result<string, LockError>)
      requires Valid() && gen < MAX_UINT64
      modifies this, byExpiry, nodes
      ensures Valid() && outstanding == old(outstanding) && fresh(nodes - old(nodes))
      ensures gen == old(gen) + (if r.Ok? then 1 else 0)
      ensures CreateSpec(old(tab), tab, now, details, Digits(gen), r)
      ensures forall n :: n in old(nodes) ==> n.details.root == old(n.details.root)
    {
      hide Core, HoldsOk, Exclusive, IsClean, SlashClean, Above;
      CollectExpiredNodes(now);
      var d := details.(root := SlashClean(details.root));
      SlashCleanIsClean(details.root);
      var ok := CanCreate(d.root, d.zeroDepth);
      if !ok {
        return Err(ErrLocked);
      }
      OwnRootConflicts(d.root, d.zeroDepth);
      var token := NewLock(d, now);
      r := Ok(token);
    }

    lemma OwnRootConflicts(root: string, zeroDepth: bool)
      requires Core()
      ensures root in tab ==> Conflict(tab, root, zeroDepth)
    {
      hide IsClean, Above;
      if root in tab {
        LockNode(root);
        assert Covers(tab[root], root);
      }
    }

    // ---------- Refresh, Unlock ----------

    method SetDurationFields(n: Node, duration: int, now: int)
      requires LocksOk() && Locked(n) && n in nodes
      requires forall k :: k in byName && k != n.details.root ==> byName[k] != n
      modifies this`tab, n`details, n`expiry
      ensures LocksOk() && n.details == old(n.details).(duration := duration)
      ensures tab == old(tab)[n.details.root := Refreshed(old(tab)[n.details.root], duration, now)]
    {
      hide IsClean;
      ghost var root := n.details.root;
      tab := tab[root := Refreshed(tab[root], duration, now)];
      n.details := n.details.(duration := duration);
      if duration >= 0 {
        n.expiry := now + duration;
      }
    }

    method SetDurationOfLock(n: Node, duration: int, now: int)
      requires LocksOk() && TokensOk() && GenOk() && Locked(n) && n in nodes
      requires forall k :: k in byName && k != n.details.root ==> byName[k] != n
      modifies this`tab, n`details, n`expiry
      ensures LocksOk() && TokensOk() && GenOk() && tab.Keys == old(tab.Keys)
      ensures n.details == old(n.details).(duration := duration)
      ensures tab == old(tab)[n.details.root := Refreshed(old(tab)[n.details.root], duration, now)]
    {
      hide LocksOk;
      SetDurationFields(n, duration, now);
      assert tab.Keys == old(tab.Keys);
    }

    method SetDuration(n: Node, duration: int, now: int)
      requires CoreBut(n) && n !in byExpiry.Items() && HoldsOk() && !tab[n.details.root].held
      modifies this`tab, n`details, n`expiry
      ensures CoreBut(n) && n !in byExpiry.Items() && HoldsOk()
      ensures n.details == old(n.details).(duration := duration)
      ensures tab == old(tab)[n.details.root := Refreshed(old(tab)[n.details.root], duration, now)]
    {
      hide Tree, LocksOk, TokensOk, GenOk, HoldsOk, Refs, ByExpiry.Items, ByExpiry.Ordered, ByExpiry.Indexed;
      ghost var keys := tab.Keys;
      SetDurationOfLock(n, duration, now);
      TreeKept(Refs(keys));
      byExpiry.OrderKept();
      HoldsUnaffected();
    }

    /** What Refresh does to a free lock: out of the heap, changed, and into the heap again. */
    method Renew(n: Node, duration: int, now: int)
      requires Core() && HoldsOk() && Locked(n) && n in nodes && !n.held && !tab[n.details.root].held
      modifies this`tab, byExpiry, nodes`byExpiryIndex, n`details, n`expiry
      ensures Core() && HoldsOk() && n.details == old(n.details).(duration := duration)
      ensures tab == old(tab)[n.details.root := Refreshed(old(tab)[n.details.root], duration, now)]
    {
      hide Core, HoldsOk, IsClean, CoreBut;
      Unsettled(n);
      OutOfHeap(n);
      if n.byExpiryIndex >= 0 {
        Leave(n);
      }
      SetDuration(n, duration, now);
      if duration >= 0 {
        Enter(n);
      } else {
        Settled(n);
      }
    }

    /** Refresh */
    method Refresh(now: int, token: string, duration: int) returns (r: Result<LockDetails, LockError>)
      requires Valid()
      modifies this, byExpiry, nodes
      ensures Valid() && outstanding == old(outstanding) && gen == old(gen) && nodes == old(nodes)
      ensures RefreshSpec(old(tab), tab, now, token, duration, r)
      ensures forall n :: n in old(nodes) ==> n.details.root == old(n.details.root)
    {
      hide Core, HoldsOk, IsClean, Exclusive;
      CollectExpiredNodes(now);
      TokenNode(token);
      if token !in byToken { return Err(ErrNoSuchLock); }
      var n := byToken[token];
      if n.held { return Err(ErrLocked); }
      Renew(n, duration, now);
      NarrowerExclusive(Collect(old(tab), now), tab);
      r := Ok(n.details);
    }

    /** Unlock */
    method Unlock(now: int, token: string) returns (r: Option<LockError>)
      requires Valid()
      modifies this, byExpiry, nodes
      ensures Valid() && outstanding == old(outstanding) && gen == old(gen) && nodes == old(nodes)
      ensures UnlockSpec(old(tab), tab, now, token, r)
      ensures forall n :: n in old(nodes) ==> n.details.root == old(n.details.root)
    {
      hide Core, HoldsOk, Exclusive, IsClean;
      CollectExpiredNodes(now);
      TokenNode(token);
      if token !in byToken { return Some(ErrNoSuchLock); }
      var n := byToken[token];
      if n.held { return Some(ErrLocked); }
      RemoveFree(n);
      r := None;
    }

    // ---------- Confirm ----------

    method HoldNodes(n0: Node?, n1: Node?)
      requires Core() && (n0 != null ==> n0 != n1)
      requires n0 != null ==> Locked(n0) && n0 in nodes && !n0.held
      requires n1 != null ==> Locked(n1) && n1 in nodes && !n1.held
      modifies this`tab, byExpiry, nodes`byExpiryIndex, nodes`held
      ensures Core() && tab.Keys == old(tab).Keys && tab == HoldAll(old(tab), RootsOf(n0, n1))
    {
      hide Core;
      if n0 != null { Hold(n0); }
      if n1 != null { Hold(n1); }
    }

    /** The end of Confirm: both nodes become held, by one new release. */
    method HoldBoth(n0: Node?, n1: Node?) returns (h: Release)
      requires Valid() && (n0 != null ==> n0 != n1)
      requires n0 != null ==> Locked(n0) && n0 in nodes && !n0.held && !tab[n0.details.root].held
      requires n1 != null ==> Locked(n1) && n1 in nodes && !n1.held && !tab[n1.details.root].held
      modifies this`tab, this`outstanding, this`holder, byExpiry, nodes`byExpiryIndex, nodes`held
      ensures Valid() && fresh(h) && h.n0 == n0 && h.n1 == n1 && outstanding == old(outstanding) + {h}
      ensures tab == HoldAll(old(tab), RootsOf(h.n0, h.n1))
    {
      hide Core, HoldsOk, Exclusive, HoldAll, Narrower;
      HoldNodes(n0, n1);
      h := new Release(n0, n1);
      outstanding := outstanding + {h};
      ghost var roots := RootsOf(n0, n1);
      holder := map k | k in holder.Keys + roots :: if k in roots then h else holder[k];
      HoldsAdded(h);
      HoldAllNarrower(old(tab), roots);
      NarrowerExclusive(old(tab), tab);
    }

    static lemma HoldAllNarrower(tab: Table, roots: set<string>)
      ensures Narrower(tab, HoldAll(tab, roots))
    {
    }

    static lemma UnholdAllNarrower(tab: Table, roots: set<string>)
      ensures Narrower(tab, UnholdAll(tab, roots))
    {
    }

    twostate lemma HoldersAdded(new h: Release)
      requires old(HoldsOk()) && byName == old(byName) && nodes == old(nodes)
      requires forall n :: n in nodes ==> n.details == old(n.details)
      requires h !in old(outstanding) && outstanding == old(outstanding) + {h} && (h.n0 != null ==> h.n0 != h.n1)
      requires h.n0 != null ==> h.n0 in nodes && Locked(h.n0) && h.n0.details.root in old(tab) && !old(tab)[h.n0.details.root].held
      requires h.n1 != null ==> h.n1 in nodes && Locked(h.n1) && h.n1.details.root in old(tab) && !old(tab)[h.n1.details.root].held
      requires holder == map k | k in old(holder).Keys + RootsOf(h.n0, h.n1) :: if k in RootsOf(h.n0, h.n1) then h else old(holder)[k]
      requires tab == HoldAll(old(tab), RootsOf(h.n0, h.n1))
      ensures HoldersOk()
    {
      hide ReleasesOk;
    }

    twostate lemma HoldsAdded(new h: Release)
      requires old(HoldsOk()) && byName == old(byName) && nodes == old(nodes)
      requires forall n :: n in nodes ==> n.details == old(n.details)
      requires h !in old(outstanding) && outstanding == old(outstanding) + {h} && (h.n0 != null ==> h.n0 != h.n1)
      requires h.n0 != null ==> h.n0 in nodes && Locked(h.n0) && h.n0.details.root in old(tab) && !old(tab)[h.n0.details.root].held
      requires h.n1 != null ==> h.n1 in nodes && Locked(h.n1) && h.n1.details.root in old(tab) && !old(tab)[h.n1.details.root].held
      requires holder == map k | k in old(holder).Keys + RootsOf(h.n0, h.n1) :: if k in RootsOf(h.n0, h.n1) then h else old(holder)[k]
      requires tab == HoldAll(old(tab), RootsOf(h.n0, h.n1))
      ensures HoldsOk()
    {
      HoldersAdded(h);
    }

    /** Confirm: on success the release holds, for each non-empty name, an unheld lock covering it whose
        token is among the conditions; on failure only expired locks are gone. */
    method Confirm(now: int, name0: string, name1: string, conditions: seq<Condition>) returns (r: Result<Release, LockError>)
      requires Valid()
      modifies this, byExpiry, nodes
      ensures Valid() && gen == old(gen) && nodes == old(nodes)
      ensures forall n :: n in old(nodes) ==> n.details.root == old(n.details.root)
      ensures match r
              case Ok(h) =>
                && fresh(h) && outstanding == old(outstanding) + {h}
                && ConfirmSpec(old(tab), tab, now, name0, name1, conditions, Some(RootsOf(h.n0, h.n1)))
              case Err(e) =>
                && e == ErrConfirmationFailed && outstanding == old(outstanding)
                && ConfirmSpec(old(tab), tab, now, name0, name1, conditions, None)
    {
      hide Core, HoldsOk, Exclusive, IsClean, SlashClean, Above, Collect, HoldAll;
      CollectExpiredNodes(now);
      var n0: Node?, n1: Node? := null, null;
      SlashCleanIsClean(name0);
      SlashCleanIsClean(name1);
      if name0 != "" {
        n0 := Lookup(SlashClean(name0), conditions);
        if n0 == null {
          NotChosen(tab, conditions, SlashClean(name0));
          return Err(ErrConfirmationFailed);
        }
        assert Chosen(tab, conditions, SlashClean(name0), n0.details.root);
      }
      if name1 != "" {
        n1 := Lookup(SlashClean(name1), conditions);
        if n1 == null {
          NotChosen(tab, conditions, SlashClean(name1));
          return Err(ErrConfirmationFailed);
        }
        assert Chosen(tab, conditions, SlashClean(name1), n1.details.root);
      }
      ghost var root1 := if n1 != null then n1.details.root else "";
      if n1 == n0 { n1 := null; }
      var h := HoldBoth(n0, n1);
      r := Ok(h);
      assert n0 != null ==> n0.details.root in RootsOf(h.n0, h.n1);
      assert name1 != "" ==> root1 in RootsOf(h.n0, h.n1);
    }

    /** The function Confirm returned: it must be called once, and neither call of unhold panics. */
    method ReleaseHeld(h: Release)
      requires Valid() && h in outstanding
      modifies this`tab, this`outstanding, this`holder, byExpiry, nodes`byExpiryIndex, nodes`held
      ensures Valid() && outstanding == old(outstanding) - {h}
      ensures ReleaseSpec(old(tab), tab, RootsOf(h.n0, h.n1))
    {
      hide Core, HoldsOk, Exclusive, IsClean, Under, UnholdAll, Narrower;
      HeldNodes(h);
      UnholdNodes(h.n0, h.n1);
      outstanding := outstanding - {h};
      holder := map k | k in holder.Keys - RootsOf(h.n0, h.n1) :: holder[k];
      HoldsDropped(h);
      UnholdAllNarrower(old(tab), RootsOf(h.n0, h.n1));
      NarrowerExclusive(old(tab), tab);
    }

    lemma HeldNodes(h: Release)
      requires Core() && HoldsOk() && h in outstanding
      ensures h.n0 != null ==> h.n0 != h.n1 && h.n0 in nodes && Locked(h.n0) && h.n0.held && tab[h.n0.details.root].held
      ensures h.n1 != null ==> h.n1 in nodes && Locked(h.n1) && h.n1.held && tab[h.n1.details.root].held
    {
      hide Tree, Refs, TokensOk, GenOk, HeapOk, IsClean;
    }

    method UnholdNodes(n0: Node?, n1: Node?)
      requires Core() && (n0 != null ==> n0 != n1)
      requires n0 != null ==> Locked(n0) && n0 in nodes && n0.held
      requires n1 != null ==> Locked(n1) && n1 in nodes && n1.held
      modifies this`tab, byExpiry, nodes`byExpiryIndex, nodes`held
      ensures Core() && tab == UnholdAll(old(tab), RootsOf(n0, n1))
    {
      hide Core;
      if n1 != null { Unhold(n1); }
      if n0 != null { Unhold(n0); }
    }

    twostate lemma HoldersDropped(h: Release)
      requires old(HoldsOk()) && byName == old(byName) && nodes == old(nodes)
      requires forall n :: n in nodes ==> n.details == old(n.details)
      requires h in old(outstanding) && outstanding == old(outstanding) - {h}
      requires holder == map k | k in old(holder).Keys - RootsOf(h.n0, h.n1) :: old(holder)[k]
      requires tab == UnholdAll(old(tab), RootsOf(h.n0, h.n1))
      ensures HoldersOk()
    {
      hide ReleasesOk;
      ghost var roots := RootsOf(h.n0, h.n1);
      assert forall k :: k in old(holder) && k !in roots ==> old(holder)[k] != h;
    }

    twostate lemma HoldsDropped(h: Release)
      requires old(HoldsOk()) && byName == old(byName) && nodes == old(nodes)
      requires forall n :: n in nodes ==> n.details == old(n.details)
      requires h in old(outstanding) && outstanding == old(outstanding) - {h}
      requires holder == map k | k in old(holder).Keys - RootsOf(h.n0, h.n1) :: old(holder)[k]
      requires tab == UnholdAll(old(tab), RootsOf(h.n0, h.n1))
      ensures HoldsOk()
    {
      hide HoldersOk;
      HoldersDropped(h);
    }

    static lemma NotChosen(tab: Table, conditions: seq<Condition>, name: string)
      requires forall c, k :: c in conditions ==> !Claims(tab, c.token, name, k)
      ensures forall k :: !Chosen(tab, conditions, name, k)
    {
      hide Claims;
      forall k, i ensures !FirstClaim(tab, conditions, name, k, i) {
        if 0 <= i < |conditions| { assert conditions[i] in conditions; }
      }
    }

    /** The roots of the locks a release holds. */
    static ghost function RootsOf(n0: Node?, n1: Node?): set<string>
      reads n0, n1
    {
      (if n0 != null then {n0.details.root} else {}) + (if n1 != null then {n1.details.root} else {})
    }

  }
}
