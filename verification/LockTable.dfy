/** The lock table of server/webdav/lock.go as a plain map from a lock's root to the lock, and the rules of
    sections 7.4 and 9.10 of RFC 4918 that it keeps. The class MemLS of module Locks is proved against it. */
module LockTable {
  import opened Common
  import opened Paths
  import opened LockHeap

  datatype LockError = ErrConfirmationFailed | ErrForbidden | ErrLocked | ErrNoSuchLock

  datatype Condition = Condition(not: bool, token: string, etag: string)

  datatype Lock = Lock(details: LockDetails, token: string, expiry: int, held: bool)

  type Table = map<string, Lock>

  /** now is not before the expiry of a finite lock that nobody holds. */
  predicate Expired(l: Lock, now: int) {
    !l.held && l.details.duration >= 0 && l.expiry <= now
  }

  function Collect(tab: Table, now: int): Table {
    map k | k in tab && !Expired(tab[k], now) :: tab[k]
  }

  /** The lock l covers the resource x: it is x's own lock, or has infinite depth and is above x. */
  ghost predicate Covers(l: Lock, x: string) {
    x == l.details.root || (!l.details.zeroDepth && Above(l.details.root, x))
  }

  /** Some lock in the whole table stands in the way of a new lock. */
  ghost predicate Conflict(tab: Table, root: string, zeroDepth: bool) {
    exists k :: k in tab && (Covers(tab[k], root) || (!zeroDepth && Above(root, k)))
  }

  // ---------- walking to the root ----------

  lemma AboveSelf(a: string)
    ensures Above(a, a)
  {
  }

  lemma AboveTrans(a: string, b: string, c: string)
    requires Above(a, b) && Above(b, c)
    ensures Above(a, c)
  {
  }

  lemma RootAbove(a: string)
    ensures Above("/", a) && IsClean("/")
    ensures IsClean(a) && Above(a, "/") ==> a == "/"
  {
    CompsNameOf([]);
  }

  /** One step of walkToRoot passes exactly one name. */
  lemma WalkStep(cur: string, k: string)
    requires IsClean(cur) && cur != "/" && IsClean(k)
    ensures '/' in cur && IsClean(Up(cur)) && |Up(cur)| < |cur|
    ensures Above(Up(cur), cur) && !Above(cur, Up(cur))
    ensures Above(k, cur) <==> k == cur || Above(k, Up(cur))
  {
    hide Comps, Up;
    UpDropsLast(cur);
    if Above(k, cur) && |Comps(k)| == |Comps(cur)| {
      assert Comps(k) == Comps(cur);
    }
  }

  // ---------- reference counts ----------

  /** The locked names at or below k. */
  ghost function Under(locked: set<string>, k: string): set<string> {
    set x | x in locked && Above(k, x)
  }

  lemma UnderAdd(locked: set<string>, name: string, k: string)
    requires name !in locked
    ensures |Under(locked + {name}, k)| == |Under(locked, k)| + if Above(k, name) then 1 else 0
  {
    hide Above;
    if Above(k, name) {
      assert Under(locked + {name}, k) == Under(locked, k) + {name};
    } else {
      assert Under(locked + {name}, k) == Under(locked, k);
    }
  }

  lemma UnderPositive(locked: set<string>, k: string)
    ensures |Under(locked, k)| > 0 <==> exists x :: x in locked && Above(k, x)
  {
    hide Above;
    if x :| x in locked && Above(k, x) {
      assert x in Under(locked, k);
    }
    if |Under(locked, k)| > 0 {
      var x :| x in Under(locked, k);
    }
  }

  // ---------- operations on the table ----------

  /** The condition names a lock, rooted at k, that nobody holds and that covers `name`. */
  ghost predicate Claims(tab: Table, token: string, name: string, k: string) {
    k in tab && tab[k].token == token && !tab[k].held && Covers(tab[k], name)
  }

  ghost function SetHeld(tab: Table, k: string, held: bool): Table
    requires k in tab
  {
    tab[k := tab[k].(held := held)]
  }

  ghost predicate DistinctTokens(tab: Table) {
    forall j, k :: j in tab && k in tab && tab[j].token == tab[k].token ==> j == k
  }

  // ---------- exclusion ----------

  /** No resource is covered by two locks (section 9.10.5 of RFC 4918, for exclusive locks). */
  ghost predicate Exclusive(tab: Table) {
    forall j, k, x :: j in tab && k in tab && j != k ==> !(Covers(tab[j], x) && Covers(tab[k], x))
  }

  /** tab' has only locks of tab, with the same scope. */
  ghost predicate Narrower(tab: Table, tab': Table) {
    forall k :: k in tab' ==>
      k in tab && tab'[k].details.root == tab[k].details.root && tab'[k].details.zeroDepth == tab[k].details.zeroDepth
  }

  lemma NarrowerExclusive(tab: Table, tab': Table)
    requires Exclusive(tab) && Narrower(tab, tab')
    ensures Exclusive(tab')
  {
    hide Above;
    forall j, k, x | j in tab' && k in tab' && j != k ensures !(Covers(tab'[j], x) && Covers(tab'[k], x)) {
      assert !(Covers(tab[j], x) && Covers(tab[k], x));
    }
  }

  /** Two ancestors of one name lie on one path. */
  lemma AboveLinear(a: string, b: string, x: string)
    requires Above(a, x) && Above(b, x)
    ensures Above(a, b) || Above(b, a)
  {
  }

  /** A lock that conflicts with none in the table covers nothing that another covers. */
  lemma NewLockExclusive(tab: Table, l: Lock)
    requires Exclusive(tab) && (forall k :: k in tab ==> tab[k].details.root == k)
    requires !Conflict(tab, l.details.root, l.details.zeroDepth)
    ensures Exclusive(tab[l.details.root := l])
  {
    hide Above;
    var root := l.details.root;
    var tab' := tab[root := l];
    forall k, x | k in tab && k != root ensures !(Covers(l, x) && Covers(tab[k], x)) {
      assert !Covers(tab[k], root) && (l.details.zeroDepth || !Above(root, k));
      if Covers(l, x) && Covers(tab[k], x) && x != root && x != k {
        AboveLinear(root, k, x);
      }
    }
    forall j, k, x | j in tab' && k in tab' && j != k ensures !(Covers(tab'[j], x) && Covers(tab'[k], x)) {
      if j != root && k != root { assert !(Covers(tab[j], x) && Covers(tab[k], x)); }
    }
  }

  /** A lock stands in the way of a new one exactly when some resource would be covered by both. */
  lemma ConflictIsOverlap(tab: Table, l: Lock)
    requires forall k :: k in tab ==> tab[k].details.root == k
    ensures Conflict(tab, l.details.root, l.details.zeroDepth) <==> exists k, x :: k in tab && Covers(tab[k], x) && Covers(l, x)
  {
    hide Above;
    var root := l.details.root;
    if k :| k in tab && (Covers(tab[k], root) || (!l.details.zeroDepth && Above(root, k))) {
      if Covers(tab[k], root) { assert Covers(l, root); } else { assert Covers(tab[k], k) && Covers(l, k); }
    }
    if k, x :| k in tab && Covers(tab[k], x) && Covers(l, x) {
      if x != root && x != k { AboveLinear(root, k, x); }
    }
  }

  // ---------- what each operation of the lock system does to the table ----------

  /** Create, with the next token. */
  ghost predicate CreateSpec(tab: Table, tab': Table, now: int, details: LockDetails, token: string, r: Result<string, LockError>) {
    var t, root := Collect(tab, now), SlashClean(details.root);
    if Conflict(t, root, details.zeroDepth) then
      r == Err(ErrLocked) && tab' == t
    else
      && r == Ok(token) && root !in t && root in tab' && (forall k :: k in t ==> t[k].token != token)
      && tab' == t[root := Lock(details.(root := root), token, tab'[root].expiry, false)]
      && (details.duration >= 0 ==> tab'[root].expiry == now + details.duration)
  }

  ghost function Refreshed(l: Lock, duration: int, now: int): Lock {
    l.(details := l.details.(duration := duration), expiry := if duration >= 0 then now + duration else l.expiry)
  }

  ghost predicate RefreshSpec(tab: Table, tab': Table, now: int, token: string, duration: int, r: Result<LockDetails, LockError>) {
    var t := Collect(tab, now);
    && ((forall k :: k in t ==> t[k].token != token) ==> r == Err(ErrNoSuchLock) && tab' == t)
    && (forall k :: k in t && t[k].token == token ==>
          if t[k].held then r == Err(ErrLocked) && tab' == t
          else r == Ok(t[k].details.(duration := duration)) && tab' == t[k := Refreshed(t[k], duration, now)])
  }

  ghost predicate UnlockSpec(tab: Table, tab': Table, now: int, token: string, r: Option<LockError>) {
    var t := Collect(tab, now);
    && ((forall k :: k in t ==> t[k].token != token) ==> r == Some(ErrNoSuchLock) && tab' == t)
    && (forall k :: k in t && t[k].token == token ==>
          if t[k].held then r == Some(ErrLocked) && tab' == t else r == None && tab' == t - {k})
  }

  /** The lock rooted at k is claimed by condition i, and no lock by any condition before it. */
  ghost predicate FirstClaim(tab: Table, conditions: seq<Condition>, name: string, k: string, i: int) {
    && 0 <= i < |conditions| && Claims(tab, conditions[i].token, name, k)
    && forall j, k' :: 0 <= j < i ==> !Claims(tab, conditions[j].token, name, k')
  }

  ghost predicate Chosen(tab: Table, conditions: seq<Condition>, name: string, k: string) {
    exists i :: FirstClaim(tab, conditions, name, k, i)
  }

  ghost predicate Claimable(tab: Table, conditions: seq<Condition>, name: string) {
    name != "" ==> exists k :: Chosen(tab, conditions, SlashClean(name), k)
  }

  ghost function HoldAll(tab: Table, roots: set<string>): Table {
    map k | k in tab :: if k in roots then tab[k].(held := true) else tab[k]
  }

  ghost function UnholdAll(tab: Table, roots: set<string>): Table {
    map k | k in tab :: if k in roots then tab[k].(held := false) else tab[k]
  }

  /** Confirm: it succeeds when both names can be claimed, and then holds exactly the locks that claim
      them (`roots`); when it fails, only expired locks are gone. */
  ghost predicate ConfirmSpec(tab: Table, tab': Table, now: int, name0: string, name1: string,
                              conditions: seq<Condition>, roots: Option<set<string>>) {
    var t := Collect(tab, now);
    if Claimable(t, conditions, name0) && Claimable(t, conditions, name1) then
      && roots.Some? && tab' == HoldAll(t, roots.value)
      && (name0 != "" ==> exists k :: k in roots.value && Chosen(t, conditions, SlashClean(name0), k))
      && (name1 != "" ==> exists k :: k in roots.value && Chosen(t, conditions, SlashClean(name1), k))
      && (forall k :: k in roots.value ==>
            || (name0 != "" && Chosen(t, conditions, SlashClean(name0), k))
            || (name1 != "" && Chosen(t, conditions, SlashClean(name1), k)))
    else
      roots.None? && tab' == t
  }

  /** The function returned by Confirm. */
  ghost predicate ReleaseSpec(tab: Table, tab': Table, roots: set<string>) {
    && roots <= tab.Keys && (forall k :: k in roots ==> tab[k].held)
    && tab' == UnholdAll(tab, roots)
  }
}
