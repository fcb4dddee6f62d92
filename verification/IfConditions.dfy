/** The conditions of a list in the If header, as sections 10.4.3 and 10.4.8 of RFC 4918 and the comment on ifList in
    server/webdav/if.go read them, against what lookup and Confirm in server/webdav/lock.go make of them. */
module IfConditions {
  import opened Common
  import opened Numbers
  import opened Paths
  import opened LockHeap
  import opened LockTable
  import opened LockRuns

  /** Some lock with this token covers the (cleaned) name. */
  ghost predicate LockedWith(tab: Table, token: string, name: string) {
    exists k :: k in tab && tab[k].token == token && Covers(tab[k], SlashClean(name))
  }

  /** The condition is true of the name: its entity tag matches (`etags` says which do), or its token names a lock
      that covers the name; the other way round with Not. */
  ghost predicate Holds(tab: Table, c: Condition, name: string, etags: string -> bool) {
    c.not != if c.etag != "" then etags(c.etag) else LockedWith(tab, c.token, name)
  }

  /** A list is a conjunction of its conditions. */
  ghost predicate AllHold(tab: Table, conditions: seq<Condition>, name: string, etags: string -> bool) {
    forall c :: c in conditions ==> Holds(tab, c, name, etags)
  }

  /** A condition has a token or an entity tag, not both: so the parser makes them. */
  ghost predicate OneKind(conditions: seq<Condition>) {
    forall c :: c in conditions ==> c.token == "" || c.etag == ""
  }

  // ---------- conditions are alternatives, and Not is not read ----------

  /** The conditions without their Not. */
  function WithoutNot(conditions: seq<Condition>): seq<Condition> {
    if conditions == [] then [] else [conditions[0].(not := false)] + WithoutNot(conditions[1..])
  }

  lemma {:induction false} WithoutNotAt(conditions: seq<Condition>, i: nat)
    requires i < |conditions|
    ensures |WithoutNot(conditions)| == |conditions| && WithoutNot(conditions)[i] == conditions[i].(not := false)
  {
    if |conditions| > 1 { WithoutNotAt(conditions[1..], if i > 0 then i - 1 else 0); }
  }

  /** Not makes no difference to the lock that is chosen. */
  lemma NotIsIgnored(tab: Table, conditions: seq<Condition>, name: string, k: string)
    ensures Chosen(tab, WithoutNot(conditions), name, k) <==> Chosen(tab, conditions, name, k)
  {
    hide Claims;
    var other := WithoutNot(conditions);
    assert |other| == |conditions| by { if conditions != [] { WithoutNotAt(conditions, 0); } }
    forall i: nat | i < |conditions| ensures other[i].token == conditions[i].token { WithoutNotAt(conditions, i); }
    forall i ensures FirstClaim(tab, other, name, k, i) <==> FirstClaim(tab, conditions, name, k, i) {
    }
  }

  /** A list is accepted for a name as soon as one condition claims a lock for it. */
  lemma AnyConditionWill(tab: Table, conditions: seq<Condition>, name: string)
    requires name != ""
    ensures Claimable(tab, conditions, name) <==> exists c, k :: c in conditions && Claims(tab, c.token, SlashClean(name), k)
  {
    hide Claims, SlashClean;
    var n := SlashClean(name);
    if c, k :| c in conditions && Claims(tab, c.token, n, k) {
      var i :| 0 <= i < |conditions| && conditions[i] == c;
      SomeFirst(tab, conditions, n, i, k);
    }
    if k :| Chosen(tab, conditions, n, k) {
      var i :| FirstClaim(tab, conditions, n, k, i);
      assert conditions[i] in conditions && Claims(tab, conditions[i].token, n, k);
    }
  }

  lemma {:induction false} SomeFirst(tab: Table, conditions: seq<Condition>, n: string, i: nat, k: string)
    requires i < |conditions| && Claims(tab, conditions[i].token, n, k)
    ensures exists k' :: Chosen(tab, conditions, n, k')
    decreases i
  {
    hide Claims;
    if j, k' :| 0 <= j < i && Claims(tab, conditions[j].token, n, k') {
      SomeFirst(tab, conditions, n, j, k');
    } else {
      assert FirstClaim(tab, conditions, n, k, i);
      assert Chosen(tab, conditions, n, k);
    }
  }

  // ---------- when acceptance means that the list is true ----------

  /** Whatever the run of the lock system and the entity tags, a list that is accepted for a name is true of it. */
  ghost predicate AcceptsOnlyTrue(conditions: seq<Condition>) {
    forall tab, name, etags :: TrueIfAccepted(tab, conditions, name, etags)
  }

  ghost predicate TrueIfAccepted(tab: Table, conditions: seq<Condition>, name: string, etags: string -> bool) {
    Reachable(tab) && name != "" && Claimable(tab, conditions, name) ==> AllHold(tab, conditions, name, etags)
  }

  /** The condition is always true: it is Not and a token that no lock ever has. */
  ghost predicate Void(c: Condition) { c.not && c.etag == "" && !Possible(c.token) }

  /** All conditions but void ones name one token without Not; or none of them names a token that a lock can have. */
  ghost predicate OneToken(conditions: seq<Condition>) {
    || (forall c :: c in conditions ==> !Possible(c.token))
    || exists t :: Possible(t) && OnlyToken(conditions, t)
  }

  ghost predicate OnlyToken(conditions: seq<Condition>, t: string) {
    forall c :: c in conditions ==> c == Condition(false, t, "") || Void(c)
  }

  /** Accepting a list means that it is true, as the comment on ifList has it, exactly for lists that name one
      token and, beside it, only negated tokens that no lock ever has; and for lists that are never accepted. */
  lemma AcceptsOnlyTrueIff(conditions: seq<Condition>)
    requires OneKind(conditions)
    ensures AcceptsOnlyTrue(conditions) <==> OneToken(conditions)
  {
    hide OneToken, AcceptsOnlyTrue, TrueIfAccepted, OneKind;
    if OneToken(conditions) {
      forall tab, name, etags: string -> bool ensures TrueIfAccepted(tab, conditions, name, etags) {
        OneTokenIsTrue(tab, conditions, name, etags);
      }
      assert AcceptsOnlyTrue(conditions) by { TrueForAll(conditions); }
    }
    if AcceptsOnlyTrue(conditions) { OnlyOneToken(conditions); }
  }

  lemma TrueForAll(conditions: seq<Condition>)
    requires forall tab, name, etags :: TrueIfAccepted(tab, conditions, name, etags)
    ensures AcceptsOnlyTrue(conditions)
  {
    hide TrueIfAccepted;
  }

  lemma OneTokenIsTrue(tab: Table, conditions: seq<Condition>, name: string, etags: string -> bool)
    requires OneToken(conditions)
    ensures TrueIfAccepted(tab, conditions, name, etags)
  {
    hide SlashClean, Covers, Claimable, Reachable, Possible;
    if Reachable(tab) && name != "" && Claimable(tab, conditions, name) {
      ReachableTokens(tab);
      AnyConditionWill(tab, conditions, name);
      var c, k :| c in conditions && Claims(tab, c.token, SlashClean(name), k);
      assert LockedWith(tab, c.token, name) && Possible(c.token);
    }
  }

  /** A table whose one lock, with this token, is a zero-depth lock on "/". */
  function OneLock(token: string): Table {
    map["/" := Lock(LockDetails("/", -1, "", true), token, 0, false)]
  }

  lemma OneLockCovers(token: string)
    ensures SlashClean("/") == "/" && Covers(OneLock(token)["/"], "/")
    ensures forall t :: LockedWith(OneLock(token), t, "/") <==> t == token
  {
    hide Comps;
    RootAbove("/");
    var tab := OneLock(token);
    assert SlashClean("/") == "/";
    assert forall t :: LockedWith(tab, t, "/") ==> t == token;
    assert tab["/"].token == token && Covers(tab["/"], "/") && "/" in tab;
  }

  /** One call of Create reaches it. */
  lemma OneLockReachable(token: string)
    requires Possible(token)
    ensures Reachable(OneLock(token))
  {
    hide Digits, SlashClean, Covers;
    var n: nat :| 1 <= n <= MAX_UINT64 && token == Digits(n);
    OneLockCovers(token);
    var details := LockDetails("/", -1, "", true);
    var none: Table := map[];
    assert Collect(none, 0) == none && !Conflict(none, "/", true);
    assert CreateSpec(none, OneLock(token), 0, details, token, Ok(token));
    var s, s' := State(none, map[], n - 1), State(OneLock(token), map[], n);
    assert Step(s, Create(0, details), s');
    assert Run([s, s'], [Create(0, details)]);
  }

  /** If the list is accepted for one lock on "/" under the token t, all its conditions are true of "/". */
  lemma TrueOfOneLock(conditions: seq<Condition>, t: string, c: Condition, d: Condition)
    requires OneKind(conditions) && AcceptsOnlyTrue(conditions) && Possible(t)
    requires c in conditions && c.token == t && d in conditions
    ensures d.etag == "" && (d.not <==> d.token != t)
  {
    hide SlashClean, Covers, Claimable, Reachable, AllHold, LockedWith, OneLock, Possible;
    var tab := OneLock(t);
    var etags := (e: string) => d.not;
    OneLockCovers(t);
    OneLockReachable(t);
    OneLockClaims(t);
    AnyConditionWill(tab, conditions, "/");
    assert TrueIfAccepted(tab, conditions, "/", etags);
    HoldsOf(tab, conditions, "/", etags, d);
    PossibleNotEmpty(t);
  }

  lemma PossibleNotEmpty(t: string)
    requires Possible(t)
    ensures t != ""
  {
  }

  lemma OnlyOneToken(conditions: seq<Condition>)
    requires OneKind(conditions) && AcceptsOnlyTrue(conditions)
    ensures OneToken(conditions)
  {
    hide AcceptsOnlyTrue, Possible;
    if c :| c in conditions && Possible(c.token) {
      var t := c.token;
      forall d | d in conditions ensures d == Condition(false, t, "") || Void(d) {
        TrueOfOneLock(conditions, t, c, d);
        if Possible(d.token) { TrueOfOneLock(conditions, d.token, d, d); }
      }
      assert OnlyToken(conditions, t);
    }
  }

  lemma HoldsOf(tab: Table, conditions: seq<Condition>, name: string, etags: string -> bool, d: Condition)
    requires AllHold(tab, conditions, name, etags) && d in conditions
    ensures Holds(tab, d, name, etags)
  {
  }

  lemma OneLockClaims(token: string)
    ensures Claims(OneLock(token), token, SlashClean("/"), "/")
  {
    OneLockCovers(token);
  }

  /** A list that is false and accepted: not this token, where a lock with it covers the name. */
  lemma NotAccepted(token: string, etags: string -> bool)
    requires Possible(token)
    ensures var conditions := [Condition(true, token, "")];
            Reachable(OneLock(token)) && Claimable(OneLock(token), conditions, "/") && !AllHold(OneLock(token), conditions, "/", etags)
  {
    hide SlashClean, Covers, Claimable, Reachable, LockedWith, OneLock, Possible;
    var conditions := [Condition(true, token, "")];
    OneLockCovers(token);
    OneLockReachable(token);
    OneLockClaims(token);
    AnyConditionWill(OneLock(token), conditions, "/");
    assert conditions[0] in conditions;
    assert !Holds(OneLock(token), conditions[0], "/", etags);
  }

  /** Section 10.4.8 of RFC 4918 writes Not <DAV:no-lock> for a condition that is always true. Beside a lock token it
      does no harm; alone it makes a list that is never accepted. */
  lemma NoLockIdiom(token: string, tab: Table, name: string)
    requires Possible(token) && Reachable(tab) && name != ""
    ensures AcceptsOnlyTrue([Condition(false, token, ""), Condition(true, "DAV:no-lock", "")])
    ensures !Claimable(tab, [Condition(true, "DAV:no-lock", "")], name)
  {
    hide AcceptsOnlyTrue, Possible, Reachable, Claimable, SlashClean, Covers;
    var plain, none := Condition(false, token, ""), Condition(true, "DAV:no-lock", "");
    PossibleNotEmpty(token);
    NoLockImpossible();
    assert OnlyToken([plain, none], token);
    AcceptsOnlyTrueIff([plain, none]);
    ReachableTokens(tab);
    AnyConditionWill(tab, [none], name);
  }

  lemma NoLockImpossible()
    ensures !Possible("DAV:no-lock")
  {
    if Possible("DAV:no-lock") {
      var n: nat :| "DAV:no-lock" == Digits(n);
      assert Digits(n)[0] in Digits(n);
    }
  }
}
