/** What every run of the concurrent map does: the main results about pkg/generic_sync/map.go. */
module MapOfRuns {
  import opened Common
  import opened MapOfProtocol
  import opened MapOfInvariant
  import opened MapOfSteps
  import opened MapOfMoves

  // ---------- the invariant over one step ----------

  lemma ReadyFromInv(s: State, t: Tid)
    requires Inv(s) && t in s.threads
    ensures Ready(s.mem, s.hist, s.actors, t, s.threads[t], StageNow(s))
    ensures s.lock.None? ==> StageNow(s) == Calm
    ensures !Holds(s.threads[t].pc) ==> s.lock != Some(t)
  {
  }

  /** Every thread but t keeps what it knows over a step of t. */
  lemma OthersOk(s: State, mem': Mem, t: Tid, u: Tid)
    requires Inv(s) && u in s.threads && u != t
    requires Guarantee(s.mem, mem')
    requires s.lock == Some(t) || Quiet(s.mem, mem')
    ensures ThreadOk(mem', s.hist + [Abs(mem')], s.actors + [t], u, s.threads[u])
  {
    hide ThreadOk, Guarantee, Quiet, StageOk;
    assert ThreadOk(s.mem, s.hist, s.actors, u, s.threads[u]);
    BystanderOk(s.mem, mem', s.hist, s.actors, Abs(mem'), t, u, s.threads[u]);
  }

  lemma AcquireMove(mem: Mem, free: bool, th: Thread, pick: Key)
    ensures th.pc.Acquire? && Move1(mem, free, th, pick).Go? ==> free && Move1(mem, free, th, pick).pc == Recheck
  {
  }

  lemma AdvanceInv(s: State, s': State, t: Tid, pick: Key)
    requires Inv(s) && Advance(s, s', t, pick)
    ensures Inv(s') && Guarantee(s.mem, s'.mem) && Effect(s.mem, s'.mem, s.threads[t], s'.threads[t].pc)
  {
    hide ThreadOk, Guarantee, Quiet, StageOk, Effect, Move1;
    var th, st := s.threads[t], StageNow(s);
    ReadyFromInv(s, t);
    MoveOk(s.mem, s.hist, s.actors, t, th, st, s.lock.None?, pick);
    var move := Move1(s.mem, s.lock.None?, th, pick);
    assert s'.threads[t] == th.(pc := move.pc);
    assert Good(s.mem, s.hist, s.actors, t, th, st, s'.mem, move.pc);
    AcquireMove(s.mem, s.lock.None?, th, pick);
    assert StageNow(s') == if Holds(th.pc) then StageOf(th.(pc := move.pc)) else st;
    forall u | u in s'.threads
      ensures ThreadOk(s'.mem, s'.hist, s'.actors, u, s'.threads[u])
    {
      if u != t { OthersOk(s, s'.mem, t, u); }
    }
  }

  lemma SameMemGuarantee(mem: Mem)
    ensures Guarantee(mem, mem) && Quiet(mem, mem)
  {
  }

  lemma InvokeInv(s: State, s': State, t: Tid, op: Op)
    requires Inv(s) && Invoke(s, s', t, op)
    ensures Inv(s')
  {
    hide Guarantee, Quiet, StageOk;
    SameMemGuarantee(s.mem);
    forall u | u in s'.threads
      ensures ThreadOk(s'.mem, s'.hist, s'.actors, u, s'.threads[u])
    {
      if u != t { OthersOk(s, s.mem, t, u); }
    }
  }

  lemma ReturnInv(s: State, s': State, t: Tid)
    requires Inv(s) && Return(s, s', t)
    ensures Inv(s')
  {
    hide Guarantee, Quiet, StageOk, ThreadOk;
    SameMemGuarantee(s.mem);
    forall u | u in s'.threads
      ensures ThreadOk(s'.mem, s'.hist, s'.actors, u, s'.threads[u])
    {
      OthersOk(s, s.mem, t, u);
    }
  }

  /** Who steps from s to s'. */
  lemma StepBy(s: State, s': State) returns (t: Tid)
    requires Inv(s) && Step(s, s')
    ensures Inv(s') && Guarantee(s.mem, s'.mem)
    ensures s'.hist == s.hist + [Abs(s'.mem)] && s'.actors == s.actors + [t]
    ensures forall u :: u != t ==> (u in s.threads <==> u in s'.threads) && (u in s.threads ==> s'.threads[u] == s.threads[u])
    ensures t in s.threads && t in s'.threads ==>
              && s'.threads[t].op == s.threads[t].op && s'.threads[t].start == s.threads[t].start
              && Effect(s.mem, s'.mem, s.threads[t], s'.threads[t].pc)
    ensures t !in s.threads && t in s'.threads ==> s'.threads[t].start == |s.hist| && s'.mem == s.mem
    ensures t !in s'.threads ==> s'.mem == s.mem && t in s.threads && s.threads[t].pc.Finished?
    ensures t in s.threads || t in s'.threads
  {
    hide Guarantee, Inv, Effect;
    SameMemGuarantee(s.mem);
    if t', op :| Invoke(s, s', t', op) {
      t := t';
      InvokeInv(s, s', t, op);
    } else if t', pick :| Advance(s, s', t', pick) {
      t := t';
      AdvanceInv(s, s', t, pick);
    } else {
      t :| Return(s, s', t);
      ReturnInv(s, s', t);
    }
  }

  lemma InitInv(s: State)
    requires Init(s)
    ensures Inv(s)
  {
    assert Abs(s.mem) == map[];
  }

  // ---------- over whole runs ----------

  /** Every reachable state satisfies the invariant, and the recorded history is the run's. */
  lemma {:induction false} RunInv(r: seq<State>, n: nat)
    requires Run(r) && n < |r|
    ensures Inv(r[n]) && |r[n].hist| == n + 1
    ensures forall i :: 0 <= i <= n ==> r[n].hist[i] == Abs(r[i].mem)
    ensures forall i :: 0 <= i <= n ==> r[i].actors <= r[n].actors
    decreases n
  {
    hide Inv, Step, Init;
    if n == 0 {
      InitInv(r[0]);
      assert r[0].hist == [map[]] && Abs(r[0].mem) == map[] by { InitHist(r[0]); }
    } else {
      RunInv(r, n - 1);
      assert Step(r[n - 1], r[n - 1 + 1]);
      var t := StepBy(r[n - 1], r[n]);
    }
  }

  lemma InitHist(s: State)
    requires Init(s)
    ensures s.hist == [map[]] && Abs(s.mem) == map[]
  {
  }

  /** Neither an assignment to a nil dirty map nor an answer standing for nothing is ever reached. */
  lemma NeverBroken(r: seq<State>, n: nat, t: Tid)
    requires Run(r) && n < |r| && t in r[n].threads
    ensures !r[n].threads[t].pc.Broken?
  {
    RunInv(r, n);
  }

  /** A call is one unbroken stretch of the run: t runs the same call at every moment from its start on. */
  lemma {:induction false} CallStretch(r: seq<State>, i: nat, n: nat, t: Tid)
    requires Run(r) && i <= n < |r| && t in r[n].threads && r[n].threads[t].start <= i
    ensures t in r[i].threads && r[i].threads[t].op == r[n].threads[t].op && r[i].threads[t].start == r[n].threads[t].start
    decreases n - i
  {
    hide Inv, Step, Init, Abs;
    RunInv(r, n);
    if i < n {
      RunInv(r, n - 1);
      assert Step(r[n - 1], r[n - 1 + 1]);
      var u := StepBy(r[n - 1], r[n]);
      CallStretch(r, i, n - 1, t);
    }
  }

  lemma CommittedPoint(r: seq<State>, n: nat, t: Tid) returns (m: nat)
    requires Run(r) && n < |r| && t in r[n].threads && Committed(r[n].threads[t].pc) && !r[n].threads[t].op.Range?
    ensures |r[n].hist| == n + 1 && r[n].threads[t].start <= m <= n
    ensures Point(r[n].hist, r[n].actors, t, r[n].threads[t].op, RetOf(r[n].threads[t].pc), m)
  {
    RunInv(r, n);
    var th := r[n].threads[t];
    assert ThreadOk(r[n].mem, r[n].hist, r[n].actors, t, th);
    assert Explained(r[n].hist, r[n].actors, t, th, RetOf(th.pc));
    hide Inv, ThreadOk, Step;
    m :| th.start <= m && Point(r[n].hist, r[n].actors, t, th.op, RetOf(th.pc), m);
  }

  lemma {:induction false} ActorOfStep(r: seq<State>, m: nat, n: nat)
    requires Run(r) && m < n < |r|
    ensures m < |r[n].actors| && r[m + 1].actors == r[m].actors + [r[n].actors[m]]
  {
    hide Inv, Step, Init, Abs;
    RunInv(r, m);
    assert Step(r[m], r[m + 1]);
    var u := StepBy(r[m], r[m + 1]);
    RunInv(r, n);
    ActorsLength(r, m);
    ActorsLength(r, n);
    assert r[m + 1].actors <= r[n].actors;
  }

  lemma ActorsLength(r: seq<State>, n: nat)
    requires Run(r) && n < |r|
    ensures |r[n].actors| == n
  {
    RunInv(r, n);
  }

  /** Each change of the plain map is the whole effect of one call that had had none before, and its
      answer, fixed at that step, is the plain map's. */
  lemma EveryChangeIsOneCall(r: seq<State>, n: nat) returns (t: Tid)
    requires Run(r) && n + 1 < |r| && Abs(r[n + 1].mem) != Abs(r[n].mem)
    ensures t in r[n].threads && t in r[n + 1].threads && r[n + 1].actors == r[n].actors + [t]
    ensures !Committed(r[n].threads[t].pc) && Committed(r[n + 1].threads[t].pc)
    ensures r[n + 1].threads[t].op == r[n].threads[t].op && r[n + 1].threads[t].start == r[n].threads[t].start
    ensures var op := r[n].threads[t].op;
            && Abs(r[n + 1].mem) == Apply(op, Abs(r[n].mem))
            && RetOf(r[n + 1].threads[t].pc) == Answer(op, Abs(r[n].mem))
  {
    RunInv(r, n);
    t := StepBy(r[n], r[n + 1]);
  }

  /** Once a call has had its effect it keeps its answer. */
  lemma {:induction false} CommittedStays(r: seq<State>, i: nat, n: nat, t: Tid)
    requires Run(r) && i <= n < |r| && t in r[n].threads && r[n].threads[t].start <= i
    requires t in r[i].threads && Committed(r[i].threads[t].pc)
    ensures Committed(r[n].threads[t].pc) && RetOf(r[n].threads[t].pc) == RetOf(r[i].threads[t].pc)
    decreases n - i
  {
    hide Inv, Step, Init, Abs;
    if i < n {
      RunInv(r, n - 1);
      assert Step(r[n - 1], r[n - 1 + 1]);
      var u := StepBy(r[n - 1], r[n]);
      CallStretch(r, n - 1, n, t);
      CommittedStays(r, i, n - 1, t);
    }
  }

  /** No call changes the plain map twice. */
  lemma OneEffectPerCall(r: seq<State>, i: nat, n: nat, t: Tid)
    requires Run(r) && i < n && n + 1 < |r|
    requires t in r[n].threads && r[n].threads[t].start <= i
    requires r[i + 1].actors == r[i].actors + [t] && Abs(r[i + 1].mem) != Abs(r[i].mem)
    requires r[n + 1].actors == r[n].actors + [t]
    ensures Abs(r[n + 1].mem) == Abs(r[n].mem)
  {
    var u := EveryChangeIsOneCall(r, i);
    assert u == t by { assert (r[i].actors + [u])[|r[i].actors|] == (r[i].actors + [t])[|r[i].actors|]; }
    CommittedStays(r, i + 1, n, t);
    RunInv(r, n);
    var v := StepBy(r[n], r[n + 1]);
    assert v == t by { assert (r[n].actors + [v])[|r[n].actors|] == (r[n].actors + [t])[|r[n].actors|]; }
  }

  /** Step i of the run is t's own and changes the plain map. */
  ghost predicate Changes(r: seq<State>, i: nat, t: Tid) {
    i + 1 < |r| && r[i + 1].actors == r[i].actors + [t] && Abs(r[i + 1].mem) != Abs(r[i].mem)
  }

  /** The call of t, which has its answer by moment n, takes effect at moment m: within the call, the answer is the plain
      map's there; a change that the operation makes there is the step to m + 1, which is the call's own; and
      if any step of the call changes the plain map, it is that one. */
  ghost predicate TakesEffect(r: seq<State>, n: nat, t: Tid, m: nat)
    requires n < |r| && t in r[n].threads && Committed(r[n].threads[t].pc)
  {
    var op, ret := r[n].threads[t].op, RetOf(r[n].threads[t].pc);
    && r[n].threads[t].start <= m <= n
    && t in r[m].threads && r[m].threads[t].op == op && r[m].threads[t].start == r[n].threads[t].start
    && ret == Answer(op, Abs(r[m].mem))
    && (|| Apply(op, Abs(r[m].mem)) == Abs(r[m].mem)
        || (m < n && r[m + 1].actors == r[m].actors + [t] && Abs(r[m + 1].mem) == Apply(op, Abs(r[m].mem))))
    && forall i: nat :: r[n].threads[t].start <= i < n && Changes(r, i, t) ==> i == m
  }

  /** Linearizability: each Load, Store, LoadOrStore or Delete that has its answer, as every finished one has, took
      effect at one moment within the call. */
  lemma Linearizable(r: seq<State>, n: nat, t: Tid) returns (m: nat)
    requires Run(r) && n < |r| && t in r[n].threads && Committed(r[n].threads[t].pc) && !r[n].threads[t].op.Range?
    ensures TakesEffect(r, n, t, m)
  {
    var start := r[n].threads[t].start;
    if i: nat :| start <= i < n && Changes(r, i, t) {
      m := i;
      OwnChange(r, n, t, m);
    } else {
      m := CommittedPoint(r, n, t);
      CallStretch(r, m, n, t);
      RunInv(r, n);
      if m < n { ActorOfStep(r, m, n); }
    }
  }

  /** A step of the call that changes the plain map is the moment at which it takes effect. */
  lemma OwnChange(r: seq<State>, n: nat, t: Tid, m: nat)
    requires Run(r) && n < |r| && t in r[n].threads && Committed(r[n].threads[t].pc) && !r[n].threads[t].op.Range?
    requires r[n].threads[t].start <= m < n && Changes(r, m, t)
    ensures TakesEffect(r, n, t, m)
  {
    hide Inv, Step, Answer, Apply;
    var u := EveryChangeIsOneCall(r, m);
    SameLast(r[m].actors, u, t);
    CallStretch(r, m, n, t);
    CallStretch(r, m + 1, n, t);
    CommittedStays(r, m + 1, n, t);
    forall i: nat | r[n].threads[t].start <= i < n && Changes(r, i, t) ensures i == m {
      var lo, hi := if i < m then i else m, if i < m then m else i;
      if i != m {
        CallStretch(r, hi, n, t);
        OneEffectPerCall(r, lo, hi, t);
      }
    }
  }

  lemma SameLast(actors: seq<Tid>, u: Tid, t: Tid)
    requires actors + [u] == actors + [t]
    ensures u == t
  {
    assert (actors + [u])[|actors|] == (actors + [t])[|actors|];
  }

  /** The place of a call in one sequential order of all calls: a call that changes nothing at m comes before the
      step from m, a call that makes that step at it. */
  ghost function Rank(r: seq<State>, n: nat, t: Tid, m: nat): nat
    requires n < |r| && t in r[n].threads && m < |r| && !r[n].threads[t].op.Range?
  {
    2 * m + if Apply(r[n].threads[t].op, Abs(r[m].mem)) == Abs(r[m].mem) then 0 else 1
  }

  /** The order respects real time: a call that has its answer before another starts comes before it. */
  lemma RealTimeOrder(r: seq<State>, n: nat, t: Tid, m: nat, n': nat, t': Tid, m': nat)
    requires Run(r) && n < |r| && t in r[n].threads && Committed(r[n].threads[t].pc) && !r[n].threads[t].op.Range?
    requires n' < |r| && t' in r[n'].threads && Committed(r[n'].threads[t'].pc) && !r[n'].threads[t'].op.Range?
    requires TakesEffect(r, n, t, m) && TakesEffect(r, n', t', m') && n < r[n'].threads[t'].start
    ensures Rank(r, n, t, m) < Rank(r, n', t', m')
  {
    hide Apply, Answer, Run, Changes;
  }

  /** And calls that change the plain map have places of their own: two at one place are one call. */
  lemma ChangesApart(r: seq<State>, n: nat, t: Tid, m: nat, n': nat, t': Tid, m': nat)
    requires Run(r) && n < |r| && t in r[n].threads && Committed(r[n].threads[t].pc) && !r[n].threads[t].op.Range?
    requires n' < |r| && t' in r[n'].threads && Committed(r[n'].threads[t'].pc) && !r[n'].threads[t'].op.Range?
    requires TakesEffect(r, n, t, m) && TakesEffect(r, n', t', m')
    requires Rank(r, n, t, m) == Rank(r, n', t', m') && Rank(r, n, t, m) % 2 == 1
    ensures t == t' && r[n].threads[t].start == r[n'].threads[t'].start
  {
    hide Apply, Answer, Run, Changes;
    assert m == m';
    SameLast(r[m].actors, t, t');
  }

  /** A complete Range reports, for every key, what the plain map held for it at some moment of the call. */
  lemma RangeView(r: seq<State>, n: nat, t: Tid, k: Key) returns (m: nat)
    requires Run(r) && n < |r| && t in r[n].threads && r[n].threads[t].pc.Finished? && r[n].threads[t].op.Range?
    ensures r[n].threads[t].pc.ret.View? && r[n].threads[t].start <= m <= n
    ensures Get(r[n].threads[t].pc.ret.seen, k) == Get(Abs(r[m].mem), k)
  {
    RunInv(r, n);
    var th := r[n].threads[t];
    assert Explained(r[n].hist, r[n].actors, t, th, th.pc.ret);
    assert Seen(r[n].hist, th.start, k, Get(th.pc.ret.seen, k));
    m :| th.start <= m < |r[n].hist| && Get(r[n].hist[m], k) == Get(th.pc.ret.seen, k);
  }

  /** An entry that a call took from a snapshot is its key's entry in the read map, or is expunged and in neither
      map. A Load may also have taken it from the dirty map: then it is still its key's entry, or is in neither
      map, expunged or with the last value it had. */
  lemma SnapshotEntryFate(r: seq<State>, n: nat, t: Tid)
    requires Run(r) && n < |r| && t in r[n].threads && !r[n].threads[t].op.Range?
    requires r[n].threads[t].pc.AtEntry? || r[n].threads[t].pc.AtCas?
    ensures var k, e := r[n].threads[t].op.key, r[n].threads[t].pc.e;
            && Owned(r[n].mem, k, e)
            && if r[n].threads[t].op.Load? then
                 Live(r[n].mem, k, e) || (!InMaps(r[n].mem, k, e) && !PtrAt(r[n].mem, e).Nil?)
               else InRead(r[n].mem, k, e) || (!InMaps(r[n].mem, k, e) && PtrAt(r[n].mem, e).Expunged?)
  {
    RunInv(r, n);
  }

  /** And so are the entries that a Range has still to visit. */
  lemma RangeEntryFate(r: seq<State>, n: nat, t: Tid, k: Key)
    requires Run(r) && n < |r| && t in r[n].threads && r[n].threads[t].pc.Iter? && k in r[n].threads[t].pc.todo
    ensures k in r[n].threads[t].pc.m
    ensures var e := r[n].threads[t].pc.m[k];
            && Owned(r[n].mem, k, e)
            && (InRead(r[n].mem, k, e) || (!InMaps(r[n].mem, k, e) && PtrAt(r[n].mem, e).Expunged?))
  {
    RunInv(r, n);
  }

  /** An entry in neither map stays out of both and keeps its pointer for ever: expunged entries stay
      expunged, and an entry removed from dirty keeps its last value. */
  lemma {:induction false} LostEntryFrozen(r: seq<State>, i: nat, n: nat, k: Key, e: Id)
    requires Run(r) && i <= n < |r|
    requires Owned(r[i].mem, k, e) && !InMaps(r[i].mem, k, e)
    ensures Owned(r[n].mem, k, e) && !InMaps(r[n].mem, k, e) && PtrAt(r[n].mem, e) == PtrAt(r[i].mem, e)
    decreases n - i
  {
    hide Inv, Step, Init, Abs;
    if i < n {
      LostEntryFrozen(r, i, n - 1, k, e);
      RunInv(r, n - 1);
      assert Step(r[n - 1], r[n - 1 + 1]);
      var t := StepBy(r[n - 1], r[n]);
    }
  }

  /** Only the lock, while another thread holds it, keeps a thread from its next step. */
  lemma OnlyLockWaits(mem: Mem, free: bool, th: Thread, pick: Key)
    requires !th.pc.Finished? && !th.pc.Broken? && (th.pc.Acquire? ==> free)
    ensures Move1(mem, free, th, pick).Go?
  {
  }

  lemma MoveAdvances(s: State, t: Tid, pick: Key) returns (s': State)
    requires t in s.threads && Move1(s.mem, s.lock.None?, s.threads[t], pick).Go?
    ensures Advance(s, s', t, pick)
  {
    hide Move1;
    var move := Move1(s.mem, s.lock.None?, s.threads[t], pick);
    s' := Record(s, move.mem, t).(
            lock := (match move.lock case Keep => s.lock case Take => Some(t) case Drop => None),
            threads := s.threads[t := s.threads[t].(pc := move.pc)]);
  }

  /** No deadlock: as long as some call has not finished, some thread can step, whatever key the loops visit next. */
  lemma NoDeadlock(r: seq<State>, n: nat, t: Tid, pick: Key) returns (u: Tid, s': State)
    requires Run(r) && n < |r| && t in r[n].threads && !r[n].threads[t].pc.Finished?
    ensures Advance(r[n], s', u, pick)
  {
    hide Run, Move1, Advance;
    RunInv(r, n);
    var s := r[n];
    u := if s.threads[t].pc.Acquire? && s.lock.Some? then s.lock.value else t;
    if s.lock.Some? { HolderMoves(s); }
    NeverBroken(r, n, u);
    OnlyLockWaits(s.mem, s.lock.None?, s.threads[u], pick);
    s' := MoveAdvances(s, u, pick);
  }

  lemma HolderMoves(s: State)
    requires Inv(s) && s.lock.Some?
    ensures var u := s.lock.value; u in s.threads && !s.threads[u].pc.Acquire? && !s.threads[u].pc.Finished?
  {
  }
}
