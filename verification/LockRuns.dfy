/** Runs of the lock system of server/webdav/lock.go: any sequence of its operations, in any order, by any
    clients, in which each release is called at most once. The steps are the contracts of class MemLS. */
module LockRuns {
  import opened Common
  import opened Numbers
  import opened Paths
  import opened LockHeap
  import opened LockTable

  /** The table, the roots that each release not yet called holds, and the token counter. The methods of MemLS keep
      the roots of all nodes, so a release unholds the roots that its Confirm held. */
  datatype State = State(tab: Table, holds: map<nat, set<string>>, gen: nat)

  datatype Event =
    | Create(now: int, details: LockDetails)
    | Refresh(now: int, token: string, duration: int)
    | Unlock(now: int, token: string)
    | Confirm(now: int, name0: string, name1: string, conditions: seq<Condition>, id: nat)
    | Release(id: nat)

  ghost predicate Step(s: State, e: Event, s': State) {
    match e
    case Create(now, details) =>
      && s'.holds == s.holds && s.gen < MAX_UINT64
      && exists r :: CreateSpec(s.tab, s'.tab, now, details, Digits(s.gen + 1), r) && s'.gen == s.gen + (if r.Ok? then 1 else 0)
    case Refresh(now, token, duration) =>
      s'.holds == s.holds && s'.gen == s.gen && exists r :: RefreshSpec(s.tab, s'.tab, now, token, duration, r)
    case Unlock(now, token) =>
      s'.holds == s.holds && s'.gen == s.gen && exists r :: UnlockSpec(s.tab, s'.tab, now, token, r)
    case Confirm(now, name0, name1, conditions, id) =>
      && s'.gen == s.gen
      && (|| (s'.holds == s.holds && ConfirmSpec(s.tab, s'.tab, now, name0, name1, conditions, None))
          || (id !in s.holds && id in s'.holds && s'.holds == s.holds[id := s'.holds[id]]
              && ConfirmSpec(s.tab, s'.tab, now, name0, name1, conditions, Some(s'.holds[id]))))
    case Release(id) =>
      id in s.holds && s'.holds == s.holds - {id} && s'.tab == UnholdAll(s.tab, s.holds[id]) && s'.gen == s.gen
  }

  /** The held locks are the disjoint union of what the outstanding releases hold, tokens tell locks
      apart, and no resource is covered twice. */
  ghost predicate Inv(s: State) {
    && (forall k :: k in s.tab ==> s.tab[k].details.root == k)
    && (forall id, k :: id in s.holds && k in s.holds[id] ==> k in s.tab && s.tab[k].held)
    && (forall id, id', k :: id in s.holds && id' in s.holds && k in s.holds[id] && k in s.holds[id'] ==> id == id')
    && (forall k :: k in s.tab && s.tab[k].held ==> exists id :: id in s.holds && k in s.holds[id])
    && DistinctTokens(s.tab)
    && Exclusive(s.tab)
  }

  ghost predicate Run(r: seq<State>, es: seq<Event>) {
    && |r| == |es| + 1 && r[0].tab == map[] && r[0].holds == map[]
    && forall i :: 0 <= i < |es| ==> Step(r[i], es[i], r[i + 1])
  }

  /** tab' has only locks of tab, all the held ones among them, with the same token, scope and flag. */
  ghost predicate Thinner(tab: Table, tab': Table) {
    && Narrower(tab, tab')
    && (forall k :: k in tab' ==> tab'[k].token == tab[k].token && tab'[k].held == tab[k].held)
    && (forall k :: k in tab && tab[k].held ==> k in tab')
  }

  lemma ThinnerInv(s: State, tab': Table)
    requires Inv(s) && Thinner(s.tab, tab')
    ensures Inv(s.(tab := tab'))
  {
    hide Exclusive;
    NarrowerExclusive(s.tab, tab');
  }

  /** Dropping expired locks touches no held lock. */
  lemma CollectInv(s: State, now: int)
    requires Inv(s)
    ensures Inv(s.(tab := Collect(s.tab, now)))
  {
    hide Inv;
    ThinnerInv(s, Collect(s.tab, now));
  }

  /** A lock that conflicts with none, under a new token, is added. */
  lemma AddInv(s: State, l: Lock)
    requires Inv(s) && !l.held && l.details.root !in s.tab && forall k :: k in s.tab ==> s.tab[k].token != l.token
    requires !Conflict(s.tab, l.details.root, l.details.zeroDepth)
    ensures Inv(s.(tab := s.tab[l.details.root := l]))
  {
    hide Exclusive, Conflict;
    NewLockExclusive(s.tab, l);
  }

  lemma CreateInv(s: State, now: int, details: LockDetails, token: string, tab': Table, r: Result<string, LockError>)
    requires Inv(s) && CreateSpec(s.tab, tab', now, details, token, r)
    ensures Inv(s.(tab := tab'))
  {
    hide Inv, Conflict, SlashClean, Collect;
    CollectInv(s, now);
    var t, root := Collect(s.tab, now), SlashClean(details.root);
    if !Conflict(t, root, details.zeroDepth) {
      AddInv(s.(tab := t), tab'[root]);
    }
  }

  lemma RefreshInv(s: State, now: int, token: string, duration: int, tab': Table, r: Result<LockDetails, LockError>)
    requires Inv(s) && RefreshSpec(s.tab, tab', now, token, duration, r)
    ensures Inv(s.(tab := tab'))
  {
    hide Inv;
    CollectInv(s, now);
    var t := Collect(s.tab, now);
    if k :| k in t && t[k].token == token {
      ThinnerInv(s.(tab := t), tab');
    }
  }

  lemma UnlockInv(s: State, now: int, token: string, tab': Table, r: Option<LockError>)
    requires Inv(s) && UnlockSpec(s.tab, tab', now, token, r)
    ensures Inv(s.(tab := tab'))
  {
    hide Inv;
    CollectInv(s, now);
    var t := Collect(s.tab, now);
    if k :| k in t && t[k].token == token {
      ThinnerInv(s.(tab := t), tab');
    }
  }

  lemma HoldInv(s: State, id: nat, roots: set<string>)
    requires Inv(s) && id !in s.holds && forall k :: k in roots ==> k in s.tab && !s.tab[k].held
    ensures Inv(State(HoldAll(s.tab, roots), s.holds[id := roots], s.gen))
  {
    hide Exclusive;
    var s' := State(HoldAll(s.tab, roots), s.holds[id := roots], s.gen);
    NarrowerExclusive(s.tab, s'.tab);
    forall k | k in s'.tab && s'.tab[k].held ensures exists j :: j in s'.holds && k in s'.holds[j] {
      if k in roots {
        assert k in s'.holds[id];
      } else {
        var j :| j in s.holds && k in s.holds[j];
        assert k in s'.holds[j];
      }
    }
  }

  /** Whatever a successful Confirm holds was a lock nobody held. */
  lemma ConfirmedWasFree(tab: Table, tab': Table, now: int, name0: string, name1: string, conditions: seq<Condition>, roots: set<string>)
    requires ConfirmSpec(tab, tab', now, name0, name1, conditions, Some(roots))
    ensures tab' == HoldAll(Collect(tab, now), roots)
    ensures forall k :: k in roots ==> k in Collect(tab, now) && !Collect(tab, now)[k].held
  {
    hide Covers, SlashClean;
    forall k | k in roots ensures k in Collect(tab, now) && !Collect(tab, now)[k].held {
      assert exists name, i :: FirstClaim(Collect(tab, now), conditions, name, k, i);
    }
  }

  lemma ConfirmInv(s: State, s': State, e: Event)
    requires Inv(s) && e.Confirm? && Step(s, e, s')
    ensures Inv(s')
  {
    hide Inv, Claimable;
    CollectInv(s, e.now);
    if s'.holds != s.holds {
      ConfirmedWasFree(s.tab, s'.tab, e.now, e.name0, e.name1, e.conditions, s'.holds[e.id]);
      HoldInv(s.(tab := Collect(s.tab, e.now)), e.id, s'.holds[e.id]);
    }
  }

  lemma ReleaseInv(s: State, s': State, id: nat)
    requires Inv(s) && Step(s, Release(id), s')
    ensures Inv(s')
  {
    hide Exclusive, CreateSpec, RefreshSpec, UnlockSpec, ConfirmSpec;
    NarrowerExclusive(s.tab, s'.tab);
    forall k | k in s'.tab && s'.tab[k].held ensures exists j :: j in s'.holds && k in s'.holds[j] {
      assert s.tab[k].held && k !in s.holds[id];
      var j :| j in s.holds && k in s.holds[j];
      assert j in s'.holds && k in s'.holds[j];
    }
  }

  lemma CounterFree(s: State, gen: nat)
    requires Inv(s)
    ensures Inv(s.(gen := gen))
  {
    hide Exclusive, DistinctTokens;
  }

  lemma StepInv(s: State, e: Event, s': State)
    requires Inv(s) && Step(s, e, s')
    ensures Inv(s')
  {
    hide Inv, CreateSpec, RefreshSpec, UnlockSpec, ConfirmSpec;
    match e
    case Create(now, details) =>
      var r :| CreateSpec(s.tab, s'.tab, now, details, Digits(s.gen + 1), r);
      CreateInv(s, now, details, Digits(s.gen + 1), s'.tab, r);
      CounterFree(s.(tab := s'.tab), s'.gen);
    case Refresh(now, token, duration) =>
      var r :| RefreshSpec(s.tab, s'.tab, now, token, duration, r);
      RefreshInv(s, now, token, duration, s'.tab, r);
    case Unlock(now, token) =>
      var r :| UnlockSpec(s.tab, s'.tab, now, token, r);
      UnlockInv(s, now, token, s'.tab, r);
    case Confirm(_, _, _, _, _) => ConfirmInv(s, s', e);
    case Release(id) => ReleaseInv(s, s', id);
  }

  /** Every state of every run: exclusion, distinct tokens, and the division of the held locks. */
  lemma {:induction false} RunInv(r: seq<State>, es: seq<Event>, n: nat)
    requires Run(r, es) && n < |r|
    ensures Inv(r[n])
  {
    hide Step;
    if n > 0 {
      RunInv(r, es, n - 1);
      StepInv(r[n - 1], es[n - 1], r[n - 1 + 1]);
    }
  }

  /** A held lock outlives every operation but the release that holds it, unchanged. */
  lemma HeldStep(s: State, e: Event, s': State, id: nat, k: string)
    requires Inv(s) && Step(s, e, s') && id in s.holds && k in s.holds[id] && e != Release(id)
    ensures id in s'.holds && s'.holds[id] == s.holds[id] && k in s'.tab && s'.tab[k] == s.tab[k]
  {
    hide Exclusive, Conflict, SlashClean, Covers;
    assert s.tab[k].held && (e.Release? ==> k !in s.holds[e.id]);
    if e.Confirm? && s'.holds != s.holds {
      ConfirmedWasFree(s.tab, s'.tab, e.now, e.name0, e.name1, e.conditions, s'.holds[e.id]);
    }
    if e.Refresh? || e.Unlock? {
      var t := Collect(s.tab, e.now);
      if j :| j in t && t[j].token == e.token { }
    }
  }

  lemma HeldInTable(s: State, id: nat, k: string)
    requires Inv(s) && id in s.holds && k in s.holds[id]
    ensures k in s.tab && s.tab[k].held
  {
  }

  /** Expiry, Unlock, Refresh and other clients' Confirm calls never remove or change a held lock. */
  lemma {:induction false} HeldUntilReleased(r: seq<State>, es: seq<Event>, i: nat, n: nat, id: nat, k: string)
    requires Run(r, es) && i <= n < |r| && id in r[i].holds && k in r[i].holds[id]
    requires forall j :: i <= j < n ==> es[j] != Release(id)
    ensures id in r[n].holds && r[n].holds[id] == r[i].holds[id]
    ensures k in r[i].tab && k in r[n].tab && r[n].tab[k] == r[i].tab[k]
    decreases n - i
  {
    hide Inv, Step;
    RunInv(r, es, i);
    HeldInTable(r[i], id, k);
    if i < n {
      HeldUntilReleased(r, es, i, n - 1, id, k);
      RunInv(r, es, n - 1);
      HeldStep(r[n - 1], es[n - 1], r[n - 1 + 1], id, k);
    }
  }

  // ---------- tokens are never used again ----------

  /** The locks of tab' whose token is not the new one were in tab, under the same token. */
  ghost predicate Inherits(tab: Table, tab': Table, token: string) {
    forall k :: k in tab' && tab'[k].token != token ==> k in tab && tab[k].token == tab'[k].token
  }

  /** All locks of tab' were in tab, under the same token. */
  ghost predicate Keeps(tab: Table, tab': Table) {
    forall k :: k in tab' ==> k in tab && tab[k].token == tab'[k].token
  }

  lemma CreateInherits(tab: Table, tab': Table, now: int, details: LockDetails, token: string, r: Result<string, LockError>)
    requires CreateSpec(tab, tab', now, details, token, r)
    ensures Inherits(tab, tab', token) && (r.Err? ==> Keeps(tab, tab'))
  {
    hide Conflict, SlashClean;
  }

  lemma RefreshKeeps(tab: Table, tab': Table, now: int, token: string, duration: int, r: Result<LockDetails, LockError>)
    requires RefreshSpec(tab, tab', now, token, duration, r)
    ensures Keeps(tab, tab')
  {
    var t := Collect(tab, now);
    if k :| k in t && t[k].token == token { }
  }

  lemma UnlockKeeps(tab: Table, tab': Table, now: int, token: string, r: Option<LockError>)
    requires UnlockSpec(tab, tab', now, token, r)
    ensures Keeps(tab, tab')
  {
    var t := Collect(tab, now);
    if k :| k in t && t[k].token == token { }
  }

  lemma ConfirmKeeps(s: State, e: Event, s': State)
    requires e.Confirm? && Step(s, e, s')
    ensures Keeps(s.tab, s'.tab)
  {
    hide Claimable, Chosen, SlashClean;
  }

  lemma StepInherits(s: State, e: Event, s': State)
    requires Step(s, e, s')
    ensures s.gen <= s'.gen && Inherits(s.tab, s'.tab, Digits(s.gen + 1)) && (s'.gen == s.gen ==> Keeps(s.tab, s'.tab))
  {
    hide CreateSpec, RefreshSpec, UnlockSpec, ConfirmSpec, Digits;
    match e
    case Create(now, details) =>
      var r :| CreateSpec(s.tab, s'.tab, now, details, Digits(s.gen + 1), r) && s'.gen == s.gen + (if r.Ok? then 1 else 0);
      CreateInherits(s.tab, s'.tab, now, details, Digits(s.gen + 1), r);
    case Refresh(now, token, duration) =>
      var r :| RefreshSpec(s.tab, s'.tab, now, token, duration, r);
      RefreshKeeps(s.tab, s'.tab, now, token, duration, r);
    case Unlock(now, token) =>
      var r :| UnlockSpec(s.tab, s'.tab, now, token, r);
      UnlockKeeps(s.tab, s'.tab, now, token, r);
    case Confirm(_, _, _, _, _) => ConfirmKeeps(s, e, s');
    case Release(_) =>
  }

  /** A token that nextToken can give out. */
  ghost predicate Possible(token: string) { exists n: nat :: 1 <= n <= MAX_UINT64 && token == Digits(n) }

  ghost predicate AllPossible(tab: Table) { forall k :: k in tab ==> Possible(tab[k].token) }

  /** The locks of every run have tokens that nextToken gave out. */
  lemma {:induction false} RunTokens(r: seq<State>, es: seq<Event>, n: nat)
    requires Run(r, es) && n < |r|
    ensures AllPossible(r[n].tab)
  {
    hide Step, Digits, Possible;
    if n > 0 {
      var s, e, s' := r[n - 1], es[n - 1], r[n - 1 + 1];
      RunTokens(r, es, n - 1);
      StepInherits(s, e, s');
      if s'.gen != s.gen {
        CounterGrows(s, e, s');
        NextPossible(s.gen);
      }
    }
  }

  lemma CounterGrows(s: State, e: Event, s': State)
    requires Step(s, e, s') && s'.gen != s.gen
    ensures s.gen < MAX_UINT64
  {
    hide CreateSpec, RefreshSpec, UnlockSpec, ConfirmSpec, Digits;
  }

  lemma NextPossible(gen: nat)
    requires gen < MAX_UINT64
    ensures Possible(Digits(gen + 1))
  {
    hide Digits;
  }

  /** Some run of the lock system reaches this table. */
  ghost predicate Reachable(tab: Table) {
    exists r: seq<State>, es :: Run(r, es) && r[|es|].tab == tab
  }

  lemma ReachableTokens(tab: Table)
    requires Reachable(tab)
    ensures AllPossible(tab)
  {
    hide AllPossible, Step;
    var r: seq<State>, es :| Run(r, es) && r[|es|].tab == tab;
    RunTokens(r, es, |es|);
  }

  /** A token that had been given out by moment i names, at any later moment, only a lock that it named then. */
  lemma {:induction false} TokenNeverReused(r: seq<State>, es: seq<Event>, i: nat, n: nat, j: nat, k: string)
    requires Run(r, es) && i <= n < |r| && j <= r[i].gen
    requires k in r[n].tab && r[n].tab[k].token == Digits(j)
    ensures r[i].gen <= r[n].gen && k in r[i].tab && r[i].tab[k].token == Digits(j)
    decreases n - i
  {
    hide Inv, Step, Digits, Inherits;
    if i < n {
      RunInv(r, es, n - 1);
      GenLater(r, es, i, n - 1);
      StepInherits(r[n - 1], es[n - 1], r[n - 1 + 1]);
      DigitsDiffer(j, r[n - 1].gen + 1);
      InheritsOne(r[n - 1].tab, r[n].tab, Digits(r[n - 1].gen + 1), k);
      TokenNeverReused(r, es, i, n - 1, j, k);
      GenLater(r, es, i, n);
    }
  }

  lemma InheritsOne(tab: Table, tab': Table, token: string, k: string)
    requires Inherits(tab, tab', token) && k in tab' && tab'[k].token != token
    ensures k in tab && tab[k].token == tab'[k].token
  {
  }

  lemma DigitsDiffer(j: nat, n: nat)
    requires j != n
    ensures Digits(j) != Digits(n)
  {
    ValueDigits(j);
    ValueDigits(n);
  }

  lemma {:induction false} GenLater(r: seq<State>, es: seq<Event>, i: nat, n: nat)
    requires Run(r, es) && i <= n < |r|
    ensures r[i].gen <= r[n].gen
    decreases n - i
  {
    hide Inv, Step;
    if i < n {
      GenLater(r, es, i, n - 1);
      RunInv(r, es, n - 1);
      StepInherits(r[n - 1], es[n - 1], r[n - 1 + 1]);
    }
  }

  /** Whatever other clients did since a request locked a name, giving its token back removes no lock but those
      that are due and the one it made: another client's lock never goes. */
  lemma UnlockRemovesOwn(r: seq<State>, es: seq<Event>, a: nat, c: nat, k: string)
    requires Run(r, es) && a < c < |es| && es[a].Create? && r[a + 1].gen == r[a].gen + 1
    requires es[c].Unlock? && es[c].token == Digits(r[a + 1].gen)
    requires k in r[c].tab && k !in r[c + 1].tab && !Expired(r[c].tab[k], es[c].now)
    ensures k == SlashClean(es[a].details.root) && k in r[a + 1].tab && k !in Collect(r[a].tab, es[a].now)
  {
    hide Inv, Digits, Step, SlashClean;
    var token := Digits(r[a + 1].gen);
    RunInv(r, es, c);
    RunInv(r, es, a);
    assert Step(r[c], es[c], r[c + 1]) && Step(r[a], es[a], r[a + 1]);
    UnlockTakes(r[c], es[c], r[c + 1], k);
    TokenNeverReused(r, es, a + 1, c, r[a + 1].gen, k);
    CreatedLock(r[a], es[a], r[a + 1], k);
  }

  lemma UnlockTakes(s: State, e: Event, s': State, k: string)
    requires Inv(s) && e.Unlock? && Step(s, e, s') && k in s.tab && k !in s'.tab && !Expired(s.tab[k], e.now)
    ensures s.tab[k].token == e.token
  {
    var t := Collect(s.tab, e.now);
    if j :| j in t && t[j].token == e.token { }
  }

  /** The only lock with the new token is the one that Create made. */
  lemma CreatedLock(s: State, e: Event, s': State, k: string)
    requires Inv(s) && e.Create? && Step(s, e, s') && s'.gen == s.gen + 1
    requires k in s'.tab && s'.tab[k].token == Digits(s'.gen)
    ensures k == SlashClean(e.details.root) && k !in Collect(s.tab, e.now)
  {
    hide Exclusive, SlashClean, Digits, Conflict;
  }

  // ---------- how long a lock is in force ----------

  /** The operation leaves the lock with this token in force until `expiry`: it is not its Unlock or Refresh, and does
      not come after that time (which is none for an infinite lock). */
  ghost predicate Spares(e: Event, token: string, duration: int, expiry: int) {
    && !(e.Unlock? && e.token == token) && !(e.Refresh? && e.token == token)
    && (duration >= 0 && !e.Release? ==> e.now < expiry)
  }

  /** The lock is there, but for its flag. */
  ghost predicate InForce(tab: Table, k: string, l: Lock) {
    k in tab && tab[k].details == l.details && tab[k].token == l.token && tab[k].expiry == l.expiry
  }

  lemma SparedStep(s: State, e: Event, s': State, k: string, l: Lock)
    requires Inv(s) && Step(s, e, s') && InForce(s.tab, k, l) && Spares(e, l.token, l.details.duration, l.expiry)
    ensures InForce(s'.tab, k, l)
  {
    hide Inv, CreateSpec, RefreshSpec, UnlockSpec, ConfirmSpec;
    match e
    case Create(now, details) =>
      var r :| CreateSpec(s.tab, s'.tab, now, details, Digits(s.gen + 1), r);
      SparedCreate(s.tab, s'.tab, now, details, Digits(s.gen + 1), r, k, l);
    case Refresh(now, token, duration) =>
      var r :| RefreshSpec(s.tab, s'.tab, now, token, duration, r);
      SparedRefresh(s.tab, s'.tab, now, token, duration, r, k, l);
    case Unlock(now, token) =>
      var r :| UnlockSpec(s.tab, s'.tab, now, token, r);
      SparedUnlock(s.tab, s'.tab, now, token, r, k, l);
    case Confirm(_, _, _, _, _) => SparedConfirm(s, e, s', k, l);
    case Release(id) =>
  }

  lemma SparedCreate(tab: Table, tab': Table, now: int, details: LockDetails, token: string, r: Result<string, LockError>, k: string, l: Lock)
    requires CreateSpec(tab, tab', now, details, token, r) && InForce(tab, k, l) && (l.details.duration >= 0 ==> now < l.expiry)
    ensures InForce(tab', k, l)
  {
    hide Conflict, SlashClean;
  }

  lemma SparedRefresh(tab: Table, tab': Table, now: int, token: string, duration: int, r: Result<LockDetails, LockError>, k: string, l: Lock)
    requires RefreshSpec(tab, tab', now, token, duration, r) && InForce(tab, k, l) && l.token != token
    requires l.details.duration >= 0 ==> now < l.expiry
    ensures InForce(tab', k, l)
  {
    var t := Collect(tab, now);
    if j :| j in t && t[j].token == token { }
  }

  lemma SparedUnlock(tab: Table, tab': Table, now: int, token: string, r: Option<LockError>, k: string, l: Lock)
    requires UnlockSpec(tab, tab', now, token, r) && InForce(tab, k, l) && l.token != token
    requires l.details.duration >= 0 ==> now < l.expiry
    ensures InForce(tab', k, l)
  {
    var t := Collect(tab, now);
    if j :| j in t && t[j].token == token { }
  }

  lemma SparedConfirm(s: State, e: Event, s': State, k: string, l: Lock)
    requires e.Confirm? && Step(s, e, s') && InForce(s.tab, k, l) && (l.details.duration >= 0 ==> e.now < l.expiry)
    ensures InForce(s'.tab, k, l)
  {
    hide Claimable, Chosen, SlashClean;
  }

  lemma {:induction false} SparedRun(r: seq<State>, es: seq<Event>, i: nat, n: nat, k: string, l: Lock)
    requires Run(r, es) && i <= n < |r| && InForce(r[i].tab, k, l)
    requires forall j :: i <= j < n ==> Spares(es[j], l.token, l.details.duration, l.expiry)
    ensures InForce(r[n].tab, k, l)
    decreases n - i
  {
    hide Inv, Step, InForce, Spares;
    if i < n {
      SparedRun(r, es, i, n - 1, k, l);
      RunInv(r, es, n - 1);
      SparedStep(r[n - 1], es[n - 1], r[n - 1 + 1], k, l);
    }
  }

  /** A lock that Create made is in force, as it was asked for and under its token, until it is unlocked or refreshed
      or its duration is over, whatever other clients do. */
  lemma LockLasts(r: seq<State>, es: seq<Event>, a: nat, n: nat)
    requires Run(r, es) && a < n < |r| && es[a].Create? && r[a + 1].gen == r[a].gen + 1
    requires forall j :: a < j < n ==>
               Spares(es[j], Digits(r[a + 1].gen), es[a].details.duration, es[a].now + es[a].details.duration)
    ensures var root := SlashClean(es[a].details.root);
            && root in r[n].tab && r[n].tab[root].token == Digits(r[a + 1].gen)
            && r[n].tab[root].details == es[a].details.(root := root)
  {
    hide Inv, Digits, SlashClean, Step;
    var e, s, s' := es[a], r[a], r[a + 1];
    assert Step(s, e, s');
    Granted(s, e, s');
    var root := SlashClean(e.details.root);
    assert InForce(s'.tab, root, s'.tab[root]);
    SparedRun(r, es, a + 1, n, root, s'.tab[root]);
  }

  lemma Granted(s: State, e: Event, s': State)
    requires Step(s, e, s') && e.Create? && s'.gen == s.gen + 1
    ensures var root := SlashClean(e.details.root);
            && root in s'.tab && s'.tab[root].token == Digits(s'.gen) && s'.tab[root].details == e.details.(root := root)
            && (e.details.duration >= 0 ==> s'.tab[root].expiry == e.now + e.details.duration)
  {
    hide SlashClean, Digits, Conflict, Collect;
  }

  /** Refresh gives a lock its new duration, from now on. */
  lemma RefreshExtends(s: State, e: Event, s': State, k: string)
    requires Inv(s) && Step(s, e, s') && e.Refresh? && k in s.tab && s.tab[k].token == e.token && !s.tab[k].held
    requires s.tab[k].details.duration >= 0 ==> e.now < s.tab[k].expiry
    ensures k in s'.tab && s'.tab[k].token == e.token && s'.tab[k].details == s.tab[k].details.(duration := e.duration)
    ensures e.duration >= 0 ==> s'.tab[k].expiry == e.now + e.duration
  {
    hide Exclusive;
    var t := Collect(s.tab, e.now);
    assert k in t && t[k].token == e.token;
  }

  /** And a lock ends when it is unlocked, or when anything but a release is done after its time, unless it is held:
      its token is never again that of a lock. */
  lemma LockEnds(r: seq<State>, es: seq<Event>, c: nat, n: nat, k: string, j: nat)
    requires Run(r, es) && c < n < |r| && j <= r[c].gen && k in r[c].tab && r[c].tab[k].token == Digits(j) && !r[c].tab[k].held
    requires !es[c].Release?
    requires || (r[c].tab[k].details.duration >= 0 && r[c].tab[k].expiry <= es[c].now)
             || (es[c].Unlock? && es[c].token == Digits(j))
    ensures forall k' :: k' in r[n].tab ==> r[n].tab[k'].token != Digits(j)
  {
    hide Inv, Digits, Step;
    RunInv(r, es, c);
    var s, e, s' := r[c], es[c], r[c + 1];
    assert Step(s, e, s');
    DigitsDiffer(j, s.gen + 1);
    Ends(s, e, s', k, Digits(j));
    GenLater(r, es, c, c + 1);
    forall k' | k' in r[n].tab ensures r[n].tab[k'].token != Digits(j) {
      if r[n].tab[k'].token == Digits(j) { TokenNeverReused(r, es, c + 1, n, j, k'); }
    }
  }

  lemma Ends(s: State, e: Event, s': State, k: string, token: string)
    requires Inv(s) && Step(s, e, s') && !e.Release? && k in s.tab && s.tab[k].token == token && !s.tab[k].held
    requires token != Digits(s.gen + 1) && (Expired(s.tab[k], e.now) || (e.Unlock? && e.token == token))
    ensures forall k' :: k' in s'.tab ==> s'.tab[k'].token != token
  {
    hide Exclusive, Digits, Conflict, SlashClean, Claimable, Chosen;
    var t := Collect(s.tab, e.now);
    assert forall k' :: k' in s.tab && s.tab[k'].token == token ==> k' == k;
    if e.Unlock? || e.Refresh? {
      if i :| i in t && t[i].token == e.token { }
    }
  }

  /** After a successful Confirm each non-empty name is covered by a lock that it holds and whose token the
      conditions name; nothing else changed but the flags and what had expired. */
  lemma ConfirmCovers(tab: Table, tab': Table, now: int, name0: string, name1: string, conditions: seq<Condition>, roots: set<string>)
    requires ConfirmSpec(tab, tab', now, name0, name1, conditions, Some(roots))
    ensures forall name :: name in {name0, name1} && name != "" ==>
              exists k, c :: k in roots && c in conditions && k in tab' && tab'[k].held && tab'[k].token == c.token
                             && Covers(tab'[k], SlashClean(name))
    ensures UnholdAll(tab', roots) == Collect(tab, now)
  {
    hide Covers, SlashClean;
    var t := Collect(tab, now);
    forall name | name in {name0, name1} && name != ""
      ensures exists k, c :: k in roots && c in conditions && k in tab' && tab'[k].held && tab'[k].token == c.token
                             && Covers(tab'[k], SlashClean(name))
    {
      var k :| k in roots && Chosen(t, conditions, SlashClean(name), k);
      var i :| FirstClaim(t, conditions, SlashClean(name), k, i);
      assert conditions[i] in conditions && Covers(t[k], SlashClean(name));
      CoversSame(t[k], tab'[k], SlashClean(name));
    }
    ConfirmedWasFree(tab, tab', now, name0, name1, conditions, roots);
  }

  lemma CoversSame(l: Lock, l': Lock, x: string)
    requires l'.details == l.details
    ensures Covers(l', x) <==> Covers(l, x)
  {
  }
}

