/** lock and confirmLocks of server/webdav/webdav.go for a request without an If header: temporary locks
    are taken on the source and the destination, and given back at the end of the request. */
module ConfirmLocks {
  import opened Common
  import opened Numbers
  import opened Paths
  import opened LockHeap
  import opened LockTable
  import opened Locks

  const INFINITE_TIMEOUT := -1
  const STATUS_LOCKED := 423
  const STATUS_INTERNAL_SERVER_ERROR := 500

  datatype Failure = Failure(status: int, err: LockError)

  /** What the release function remembers; an empty token stands for no lock. */
  datatype Temporary = Temporary(now: int, srcToken: string, dstToken: string)

  /** The lock that h.lock asks for. */
  function TempDetails(root: string): LockDetails {
    LockDetails(root, INFINITE_TIMEOUT, "", true)
  }

  /** t' is t with a temporary lock, under a token new to t, on the (cleaned) name. */
  ghost predicate Added(t: Table, t': Table, name: string, token: string) {
    var root := SlashClean(name);
    && root !in t && root in t' && token != "" && (forall k :: k in t ==> t[k].token != token)
    && t' == t[root := Lock(TempDetails(root), token, t'[root].expiry, false)]
  }

  /** Nothing in the table is due. */
  ghost predicate Fresh(t: Table, now: int) {
    forall k :: k in t ==> !Expired(t[k], now)
  }

  /** A temporary lock has zero depth: it is in the way of its own name only. */
  lemma ConflictAfter(t: Table, t': Table, name: string, token: string, root: string)
    requires Added(t, t', name, token)
    ensures Conflict(t', root, true) <==> Conflict(t, root, true) || root == SlashClean(name)
  {
    hide SlashClean, Above;
    var own := SlashClean(name);
    assert Covers(t'[own], root) <==> root == own;
    if k :| k in t && Covers(t[k], root) { assert k in t' && Covers(t'[k], root); }
    if k :| k in t' && Covers(t'[k], root) { assert k == own || (k in t && Covers(t[k], root)); }
  }

  /** lock */
  method LockTemporarily(ls: MemLS, now: int, root: string) returns (r: Result<string, Failure>)
    requires ls.Valid() && ls.gen < MAX_UINT64
    modifies ls, ls.byExpiry, ls.nodes
    ensures ls.Valid() && ls.outstanding == old(ls.outstanding) && fresh(ls.nodes - old(ls.nodes))
    ensures var t := Collect(old(ls.tab), now);
            if Conflict(t, SlashClean(root), true)
            then r == Err(Failure(STATUS_LOCKED, ErrLocked)) && ls.tab == t && ls.gen == old(ls.gen)
            else && r.Ok? && ls.gen == old(ls.gen) + 1 && r.value == Digits(ls.gen)
                 && Added(t, ls.tab, root, r.value)
  {
    hide MemLS.Valid;
    var created := ls.Create(now, TempDetails(root));
    if created.Err? {
      return Err(Failure(if created.error == ErrLocked then STATUS_LOCKED else STATUS_INTERNAL_SERVER_ERROR, created.error));
    }
    r := Ok(created.value);
  }

  /** A lock stands in the way of src, or of dst once src is locked. */
  ghost predicate Refused(t: Table, src: string, dst: string) {
    || (src != "" && Conflict(t, SlashClean(src), true))
    || (dst != "" && (Conflict(t, SlashClean(dst), true) || (src != "" && SlashClean(src) == SlashClean(dst))))
  }

  /** The table that the request meets: with no name to lock, not even expired locks are dropped. */
  ghost function Base(tab: Table, now: int, src: string, dst: string): Table {
    if src == "" && dst == "" then tab else Collect(tab, now)
  }

  /** The table t with the temporary locks of temp, and nothing else changed. */
  ghost predicate BothAdded(t: Table, t': Table, src: string, dst: string, temp: Temporary) {
    && (temp.srcToken != "" <==> src != "") && (temp.dstToken != "" <==> dst != "")
    && (if src == "" && dst == "" then t' == t
        else if dst == "" then Added(t, t', src, temp.srcToken)
        else if src == "" then Added(t, t', dst, temp.dstToken)
        else SlashClean(dst) in t' && Added(t, t' - {SlashClean(dst)}, src, temp.srcToken) && Added(t' - {SlashClean(dst)}, t', dst, temp.dstToken))
  }

  /** confirmLocks without an If header: both names are locked, or nothing is. */
  method ConfirmLocks(ls: MemLS, now: int, src: string, dst: string) returns (r: Result<Temporary, Failure>)
    requires ls.Valid() && ls.gen + 1 < MAX_UINT64
    modifies ls, ls.byExpiry, ls.nodes
    ensures ls.Valid() && ls.outstanding == old(ls.outstanding) && fresh(ls.nodes - old(ls.nodes))
    ensures var t := Base(old(ls.tab), now, src, dst);
            match r
            case Err(f) => f == Failure(STATUS_LOCKED, ErrLocked) && ls.tab == t && Refused(t, src, dst)
            case Ok(temp) => temp.now == now && !Refused(t, src, dst) && BothAdded(t, ls.tab, src, dst, temp)
  {
    hide MemLS.Valid, Conflict, SlashClean;
    ghost var t := Collect(ls.tab, now);
    assert Fresh(t, now);
    var srcToken, dstToken := "", "";
    if src != "" {
      var locked := LockTemporarily(ls, now, src);
      if locked.Err? { return Err(locked.error); }
      srcToken := locked.value;
    }
    ghost var mid := ls.tab;
    assert src != "" || dst != "" ==> Collect(mid, now) == if src != "" then mid else t;
    if dst != "" {
      if src != "" { ConflictAfter(t, mid, src, srcToken, SlashClean(dst)); }
      var locked := LockTemporarily(ls, now, dst);
      if locked.Err? {
        if srcToken != "" {
          var undone := ls.Unlock(now, srcToken);
          assert ls.tab == t;
        }
        return Err(locked.error);
      }
      dstToken := locked.value;
      assert ls.tab - {SlashClean(dst)} == if src != "" then mid else t;
    }
    r := Ok(Temporary(now, srcToken, dstToken));
  }

  /** The table without the lock that has this token, if there is one and nobody holds it. */
  ghost function Without(t: Table, token: string): Table {
    map k | k in t && !(t[k].token == token && !t[k].held) :: t[k]
  }

  /** One call of Unlock by the release function, which ignores its result. */
  method UnlockQuietly(ls: MemLS, now: int, token: string)
    requires ls.Valid()
    modifies ls, ls.byExpiry, ls.nodes
    ensures ls.Valid() && ls.outstanding == old(ls.outstanding) && ls.nodes == old(ls.nodes)
    ensures ls.tab == if token != "" then Without(Collect(old(ls.tab), now), token) else old(ls.tab)
  {
    hide MemLS.Core, MemLS.HoldsOk, Exclusive;
    if token != "" {
      ghost var t := Collect(ls.tab, now);
      assert DistinctTokens(t) by { ls.TokensDistinct(); }
      var undone := ls.Unlock(now, token);
      if k :| k in t && t[k].token == token {
        assert forall j :: j in t && t[j].token == token ==> j == k;
      }
    }
  }

  /** The release function. */
  method ReleaseTemporary(ls: MemLS, temp: Temporary)
    requires ls.Valid()
    modifies ls, ls.byExpiry, ls.nodes
    ensures ls.Valid() && ls.outstanding == old(ls.outstanding)
    ensures ls.tab == Released(old(ls.tab), temp)
  {
    hide MemLS.Valid;
    UnlockQuietly(ls, temp.now, temp.dstToken);
    UnlockQuietly(ls, temp.now, temp.srcToken);
  }

  ghost function Released(tab: Table, temp: Temporary): Table {
    var t := if temp.dstToken != "" then Without(Collect(tab, temp.now), temp.dstToken) else tab;
    if temp.srcToken != "" then Without(Collect(t, temp.now), temp.srcToken) else t
  }

  /** Whatever the table has become, releasing it leaves every other lock that is not due, or that is held, alone,
      and adds none. */
  lemma ReleaseLeavesOthers(tab: Table, temp: Temporary, k: string)
    requires k in tab && !Expired(tab[k], temp.now)
    requires tab[k].held || (tab[k].token != temp.srcToken && tab[k].token != temp.dstToken)
    ensures k in Released(tab, temp) && Released(tab, temp)[k] == tab[k]
    ensures Released(tab, temp).Keys <= tab.Keys
  {
  }

  /** Confirming and releasing gives back the table that the request met. */
  lemma ReleaseUndoesConfirm(tab: Table, t': Table, now: int, src: string, dst: string, temp: Temporary)
    requires temp.now == now && BothAdded(Base(tab, now, src, dst), t', src, dst, temp)
    ensures Released(t', temp) == Base(tab, now, src, dst)
  {
    hide SlashClean;
    var t := Base(tab, now, src, dst);
    if src != "" || dst != "" {
      assert Fresh(t, now);
    }
    if dst != "" {
      var mid := t' - {SlashClean(dst)};
      assert Added(mid, t', dst, temp.dstToken) by {
        if src == "" { assert mid == t; }
      }
      RemoveAdded(mid, t', now, dst, temp.dstToken);
      if src != "" { RemoveAdded(t, mid, now, src, temp.srcToken); }
    } else if src != "" {
      RemoveAdded(t, t', now, src, temp.srcToken);
    }
  }

  lemma RemoveAdded(t: Table, t': Table, now: int, name: string, token: string)
    requires Added(t, t', name, token)
    requires Fresh(t, now)
    ensures Without(Collect(t', now), token) == t && Fresh(t', now)
  {
    hide SlashClean;
  }
}
