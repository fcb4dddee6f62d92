/** What Do, DoChan and Forget of pkg/singleflight/singleflight.go give their callers, in every run. */
module SingleflightAnswers {
  import opened Common
  import opened Singleflight
  import opened SingleflightInvariant
  import opened SingleflightRuns

  // ---------- one step, seen from one thread ----------

  /** What one step does to thread t: nothing, or it is t's own. */
  lemma ThreadKept(s: State, s': State, t: Tid)
    requires Inv(s) && Step(s, s') && t in s.threads && t in s'.threads
    ensures s'.threads[t].op == s.threads[t].op
    ensures s'.threads[t] == s.threads[t] || exists o, w :: Advance(s, s', t, o, w)
  {
    hide Inv, CallOk, EntriesOk, ListsOk, ChanOk;
    if u, o, w :| Advance(s, s', u, o, w) {
      OneThread(s, s', u, o, w, t);
    }
  }

  lemma OneThread(s: State, s': State, u: Tid, o: Outcome, w: Tid, t: Tid)
    requires Advance(s, s', u, o, w) && t in s.threads
    ensures t in s'.threads && s'.threads[t].op == s.threads[t].op && (t != u ==> s'.threads[t] == s.threads[t])
  {
    hide BodyStep, DeleteStep, SendStep;
    BodyThreads(s, u, t);
    if s.threads[u].pc.Delete? && s.threads[u].pc.c < |s.calls| { EndThreads(s, u, s.threads[u].pc.c, 0, t); }
    if s.threads[u].pc.Send? && s.threads[u].pc.c < |s.calls| { EndThreads(s, u, s.threads[u].pc.c, s.threads[u].pc.i, t); }
  }

  /** s' has the threads of s, and only u's program point may differ. */
  ghost predicate OnlyMoves(s: State, s': State, u: Tid, t: Tid) {
    && s'.threads.Keys == s.threads.Keys
    && (t in s.threads ==> s'.threads[t].op == s.threads[t].op && (t != u ==> s'.threads[t] == s.threads[t]))
  }

  lemma BodyThreads(s: State, u: Tid, t: Tid)
    requires u in s.threads && MapOk(s)
    ensures OnlyMoves(s, BodyStep(s, u), u, t)
  {
  }

  lemma EndThreads(s: State, u: Tid, c: CallId, i: nat, t: Tid)
    requires u in s.threads && c < |s.calls|
    ensures OnlyMoves(s, DeleteStep(s, u, c), u, t)
    ensures SendStep(s, u, c, i).Some? ==> OnlyMoves(s, SendStep(s, u, c, i).value, u, t)
  {
  }

  /** Whoever comes to a state is about to lock, or is the goroutine of a call. */
  lemma ThreadComes(s: State, s': State, t: Tid)
    requires Step(s, s') && t !in s.threads && t in s'.threads
    ensures s'.threads[t].pc.Lock? || s'.threads[t].op.Worker?
  {
    hide Advance;
    if u, o, w :| Advance(s, s', u, o, w) {
      NewThread(s, s', u, o, w, t);
    }
  }

  lemma NewThread(s: State, s': State, u: Tid, o: Outcome, w: Tid, t: Tid)
    requires Advance(s, s', u, o, w) && t !in s.threads && t in s'.threads
    ensures s'.threads[t].op.Worker?
  {
    hide BodyStep, DeleteStep, SendStep;
    BodyThreads(s, u, t);
    if s.threads[u].pc.Delete? && s.threads[u].pc.c < |s.calls| { EndThreads(s, u, s.threads[u].pc.c, 0, t); }
    if s.threads[u].pc.Send? && s.threads[u].pc.c < |s.calls| { EndThreads(s, u, s.threads[u].pc.c, s.threads[u].pc.i, t); }
  }

  /** After its critical section, an operation is past it for good. */
  lemma BodyStays(s: State, s': State, t: Tid)
    requires Inv(s) && Step(s, s') && t in s.threads && t in s'.threads
    requires !s'.threads[t].pc.Lock? && !s'.threads[t].pc.Body? && !s.threads[t].op.Worker?
    ensures s.threads[t].pc.Body? ==> MapOk(s) && s' == BodyStep(s, t)
    ensures !s.threads[t].pc.Lock?
  {
    hide Inv, BodyStep, CallStep;
    ThreadKept(s, s', t);
  }

  // ---------- the operation that a thread is in ----------

  /** From moment i to moment n, t is in one and the same operation. */
  ghost predicate Since(r: seq<State>, i: nat, n: nat, t: Tid) {
    && i <= n < |r| && t in r[n].threads
    && forall j :: i <= j <= n ==> t in r[j].threads && r[j].threads[t].op == r[n].threads[t].op
  }

  /** The step to moment i is the critical section of the operation that t is in at moment n. */
  ghost predicate BegunAt(r: seq<State>, i: nat, n: nat, t: Tid) {
    && 0 < i <= n && Since(r, i - 1, n, t) && r[i - 1].threads[t].pc.Body? && MapOk(r[i - 1]) && r[i] == BodyStep(r[i - 1], t)
  }

  lemma {:induction false} HasBegun(r: seq<State>, n: nat, t: Tid) returns (i: nat)
    requires Run(r) && n < |r| && t in r[n].threads && !r[n].threads[t].op.Worker?
    requires !r[n].threads[t].pc.Lock? && !r[n].threads[t].pc.Body?
    ensures i <= n && BegunAt(r, i, n, t)
    decreases n
  {
    hide Inv, Step, BodyStep, MapOk;
    if n == 0 {
      assert false by { NobodyAtFirst(r, t); }
    }
    var s, s' := r[n - 1], r[n - 1 + 1];
    RunInv(r, n - 1);
    if t !in s.threads {
      ThreadComes(s, s', t);
      assert false;
    }
    ThreadKept(s, s', t);
    BodyStays(s, s', t);
    if s.threads[t].pc.Body? {
      i := n;
    } else {
      i := HasBegun(r, n - 1, t);
    }
  }

  lemma NobodyAtFirst(r: seq<State>, t: Tid)
    requires Run(r)
    ensures t !in r[0].threads
  {
    hide Step;
  }

  // ---------- the answer of Do ----------

  /** What the outcome of fn is for a caller. */
  function Given(o: Outcome, shared: bool): Ret {
    match o
    case Normal(v, e) => Answer(v, e, shared)
    case Panic => Panicked
    case Goexit => Exited
  }

  /** The caller got the result of the call's execution; a joiner got it as shared, the leader as shared if anybody
      has joined. */
  ghost predicate Got(call: Call, ret: Ret, led: bool) {
    && call.wgDone && call.result.Some? && ret == Given(call.result.value, call.joins > 0)
    && if led then call.stage.Closed? else call.joins > 0
  }

  function Past(pc: Pc): Pc { if pc.Unlock? then pc.next else pc }

  /** Past the critical section of Do, t works with the call c, or has got its answer. */
  ghost predicate On(call: Call, c: CallId, pc: Pc, led: bool) {
    var p := Past(pc);
    if p.Finished? then Got(call, p.ret, led)
    else if p.Wait? || p.Wake? then !led && p.c == c
    else led && !p.Lock? && !p.Body? && !p.Unlock? && !p.Spawn? && p.c == c
  }

  ghost predicate OnCall(s: State, t: Tid, c: CallId, led: bool) {
    t in s.threads && s.threads[t].op.Do? && c < |s.calls| && On(s.calls[c], c, s.threads[t].pc, led)
  }

  lemma GotStays(call: Call, call': Call, ret: Ret, led: bool)
    requires Got(call, ret, led) && Later(call, call') && CallOk(call)
    ensures Got(call', ret, led)
  {
  }

  lemma OnStays(s: State, s': State, t: Tid, c: CallId, led: bool)
    requires Inv(s) && OnCall(s, t, c, led) && t in s'.threads && s'.threads[t] == s.threads[t]
    requires c < |s'.calls| && Later(s.calls[c], s'.calls[c])
    ensures OnCall(s', t, c, led)
  {
    hide EntriesOk, ListsOk, ChanOk, CallOk, PcOk, Got, Later;
    var p := Past(s.threads[t].pc);
    if p.Finished? { GotStays(s.calls[c], s'.calls[c], p.ret, led); }
  }

  /** A step of t itself. */
  lemma OnSteps(s: State, s': State, t: Tid, o: Outcome, w: Tid, c: CallId, led: bool)
    requires Inv(s) && Advance(s, s', t, o, w) && OnCall(s, t, c, led)
    ensures OnCall(s', t, c, led)
  {
    hide Inv, OnCall;
    var pc := s.threads[t].pc;
    if pc.Delete? || pc.Send? {
      OnEnds(s, s', t, o, w, c, led);
    } else if pc.Unlock? || pc.Wait? || pc.Wake? || pc.Lead? || pc.DoneLock? {
      OnMoves(s, s', t, o, w, c, led);
    } else {
      OnRuns(s, s', t, o, w, c, led);
    }
  }

  lemma OnMoves(s: State, s': State, t: Tid, o: Outcome, w: Tid, c: CallId, led: bool)
    requires Inv(s) && Advance(s, s', t, o, w) && OnCall(s, t, c, led)
    requires var pc := s.threads[t].pc; pc.Unlock? || pc.Wait? || pc.Wake? || pc.Lead? || pc.DoneLock?
    ensures OnCall(s', t, c, led)
  {
    hide EntriesOk, ListsOk, ChanOk, BodyStep, DeleteStep, SendStep;
    assert CallOk(s.calls[c]);
    assert PcOk(s, t, s.threads[t].op, s.threads[t].pc);
  }

  lemma OnEnds(s: State, s': State, t: Tid, o: Outcome, w: Tid, c: CallId, led: bool)
    requires Inv(s) && Advance(s, s', t, o, w) && OnCall(s, t, c, led) && (s.threads[t].pc.Delete? || s.threads[t].pc.Send?)
    ensures OnCall(s', t, c, led)
  {
    hide EntriesOk, ListsOk, ChanOk, BodyStep;
    assert CallOk(s.calls[c]);
    assert PcOk(s, t, s.threads[t].op, s.threads[t].pc);
  }

  lemma OnRuns(s: State, s': State, t: Tid, o: Outcome, w: Tid, c: CallId, led: bool)
    requires Inv(s) && Advance(s, s', t, o, w) && OnCall(s, t, c, led)
    requires var pc := s.threads[t].pc; !(pc.Unlock? || pc.Wait? || pc.Wake? || pc.Lead? || pc.DoneLock? || pc.Delete? || pc.Send?)
    ensures OnCall(s', t, c, led)
  {
    hide EntriesOk, ListsOk, ChanOk, BodyStep, DeleteStep, SendStep;
    assert CallOk(s.calls[c]);
    assert PcOk(s, t, s.threads[t].op, s.threads[t].pc);
  }

  lemma OnStep(s: State, s': State, t: Tid, c: CallId, led: bool)
    requires Inv(s) && Step(s, s') && OnCall(s, t, c, led) && t in s'.threads
    ensures OnCall(s', t, c, led)
  {
    hide Inv, Advance, On;
    ThreadKept(s, s', t);
    StepLater(s, s', c);
    if s'.threads[t] == s.threads[t] {
      OnStays(s, s', t, c, led);
    } else {
      var o, w :| Advance(s, s', t, o, w);
      OnSteps(s, s', t, o, w, c, led);
    }
  }

  lemma {:induction false} OnRun(r: seq<State>, i: nat, n: nat, t: Tid, c: CallId, led: bool)
    requires Run(r) && Since(r, i, n, t) && OnCall(r[i], t, c, led)
    ensures OnCall(r[n], t, c, led)
    decreases n - i
  {
    hide Inv, Step, OnCall;
    if i < n {
      OnRun(r, i, n - 1, t, c, led);
      RunInv(r, n - 1);
      OnStep(r[n - 1], r[n - 1 + 1], t, c, led);
    }
  }

  /** After its critical section, Do has joined the call in the map, or leads a new one. */
  lemma DoBegins(s: State, t: Tid)
    requires Inv(s) && t in s.threads && s.threads[t].pc.Body? && s.threads[t].op.Do? && MapOk(s)
    ensures var key, s' := s.threads[t].op.key, BodyStep(s, t);
            key in s'.m && OnCall(s', t, s'.m[key], key !in s.m) && s'.calls[s'.m[key]].key == key
    ensures var key, s' := s.threads[t].op.key, BodyStep(s, t);
            if key in s.m then s'.m[key] == s.m[key] else s'.m[key] == |s.calls|
  {
    hide ListsOk, ChanOk, CallOk;
  }

  /** What Do returns, in every run. In its critical section the caller met the call c of its key in the map, or put
      it there as a new one; the call has run fn once, and what the caller gets is how that ended: the value and the
      error, shared for a joiner, and for the leader exactly if anybody has joined; or the panic; or the exit. */
  lemma DoReturns(r: seq<State>, n: nat, t: Tid) returns (i: nat, c: CallId)
    requires Run(r) && n < |r| && t in r[n].threads && r[n].threads[t].op.Do? && r[n].threads[t].pc.Finished?
    ensures BegunAt(r, i, n, t) && c < |r[n].calls|
    ensures var key := r[n].threads[t].op.key;
            if key in r[i - 1].m then c == r[i - 1].m[key] else c == |r[i - 1].calls| && key in r[i].m && r[i].m[key] == c
    ensures var key, call, ret := r[n].threads[t].op.key, r[n].calls[c], r[n].threads[t].pc.ret;
            && call.key == key && call.runs == 1 && call.result.Some?
            && (match call.result.value
                case Normal(v, e) => ret == Answer(v, e, call.joins > 0)
                case Panic => ret == Panicked
                case Goexit => ret == Exited)
            && (key in r[i - 1].m ==> call.joins > 0)
  {
    hide Inv, Step, BodyStep, Since, MapOk;
    i := HasBegun(r, n, t);
    SinceParts(r, i, n, t);
    RunInv(r, i - 1);
    DoBegins(r[i - 1], t);
    var key := r[n].threads[t].op.key;
    c := r[i].m[key];
    var led := key !in r[i - 1].m;
    OnRun(r, i, n, t, c, led);
    RunLater(r, i, n, c);
    RunsOnce(r, n, c);
  }

  lemma SinceParts(r: seq<State>, i: nat, n: nat, t: Tid)
    requires 0 < i <= n && Since(r, i - 1, n, t)
    ensures n < |r| && Since(r, i, n, t) && t in r[i - 1].threads && r[i - 1].threads[t].op == r[n].threads[t].op
    ensures t in r[i].threads && t in r[n].threads && r[i].threads[t].op == r[n].threads[t].op
  {
  }

  // ---------- the answer of DoChan ----------

  ghost predicate HasChannel(s: State, t: Tid, c: CallId, ch: ChanId) {
    && t in s.threads && s.threads[t].op.DoChan? && ch < |s.chans| && s.chans[ch].call == c
    && var p := Past(s.threads[t].pc); p == Finished(Channel(ch)) || p == Spawn(c, ch)
  }

  lemma ChannelStep(s: State, s': State, t: Tid, c: CallId, ch: ChanId)
    requires Inv(s) && Step(s, s') && HasChannel(s, t, c, ch) && t in s'.threads
    ensures HasChannel(s', t, c, ch)
  {
    hide Inv, Advance;
    ThreadKept(s, s', t);
    StepChans(s, s', ch);
    if s'.threads[t] != s.threads[t] {
      var o, w :| Advance(s, s', t, o, w);
      ChannelMoves(s, s', t, o, w, c, ch);
    }
  }

  lemma ChannelMoves(s: State, s': State, t: Tid, o: Outcome, w: Tid, c: CallId, ch: ChanId)
    requires Advance(s, s', t, o, w) && HasChannel(s, t, c, ch)
    ensures t in s'.threads && s'.threads[t].op.DoChan?
    ensures var p := Past(s'.threads[t].pc); p == Finished(Channel(ch)) || p == Spawn(c, ch)
  {
    hide BodyStep, DeleteStep, SendStep;
  }

  lemma {:induction false} ChannelRun(r: seq<State>, i: nat, n: nat, t: Tid, c: CallId, ch: ChanId)
    requires Run(r) && Since(r, i, n, t) && HasChannel(r[i], t, c, ch)
    ensures HasChannel(r[n], t, c, ch)
    decreases n - i
  {
    hide Inv, Step, HasChannel;
    if i < n {
      ChannelRun(r, i, n - 1, t, c, ch);
      RunInv(r, n - 1);
      ChannelStep(r[n - 1], r[n - 1 + 1], t, c, ch);
    }
  }

  lemma DoChanBegins(s: State, t: Tid)
    requires Inv(s) && t in s.threads && s.threads[t].pc.Body? && s.threads[t].op.DoChan? && MapOk(s)
    ensures var key, s' := s.threads[t].op.key, BodyStep(s, t);
            && key in s'.m && HasChannel(s', t, s'.m[key], |s.chans|)
            && s'.m[key] < |s'.calls| && s'.calls[s'.m[key]].key == key
            && (if key in s.m then s'.m[key] == s.m[key] && s'.calls[s'.m[key]].joins > 0 else s'.m[key] == |s.calls|)
  {
    hide ListsOk, ChanOk, CallOk;
  }

  /** What DoChan returns, in every run: a channel made in its critical section, which is listed in the call of its
      key that it met in the map, or put there. EachChannelGetsOneResult says what the channel gets. */
  lemma DoChanReturns(r: seq<State>, n: nat, t: Tid) returns (i: nat, c: CallId)
    requires Run(r) && n < |r| && t in r[n].threads && r[n].threads[t].op.DoChan? && r[n].threads[t].pc.Finished?
    ensures BegunAt(r, i, n, t) && c < |r[n].calls|
    ensures var key := r[n].threads[t].op.key;
            if key in r[i - 1].m then c == r[i - 1].m[key] else c == |r[i - 1].calls| && key in r[i].m && r[i].m[key] == c
    ensures var key, call, ch := r[n].threads[t].op.key, r[n].calls[c], |r[i - 1].chans|;
            && call.key == key && (key in r[i - 1].m ==> call.joins > 0)
            && r[n].threads[t].pc.ret == Channel(ch) && ch < |r[n].chans| && ch in call.chans && r[n].chans[ch].call == c
  {
    hide Inv, Step, BodyStep, Since, MapOk;
    i := HasBegun(r, n, t);
    SinceParts(r, i, n, t);
    RunInv(r, i - 1);
    DoChanBegins(r[i - 1], t);
    c := r[i].m[r[n].threads[t].op.key];
    var ch := |r[i - 1].chans|;
    ChannelRun(r, i, n, t, c, ch);
    RunLater(r, i, n, c);
    RunInv(r, n);
    Listed(r[n], ch);
  }

  lemma Listed(s: State, ch: ChanId)
    requires Inv(s) && ch < |s.chans|
    ensures var c := s.chans[ch].call; c < |s.calls| && ch in s.calls[c].chans
  {
    hide CallOk, PcOk;
    assert ChanOk(s, ch);
  }

  // ---------- Forget ----------

  lemma ForgetBegins(s: State, t: Tid)
    requires t in s.threads && s.threads[t].pc.Body? && s.threads[t].op.Forget? && MapOk(s)
    ensures var key, s' := s.threads[t].op.key, BodyStep(s, t);
            && s'.m == s.m - {key} && |s'.calls| == |s.calls| && (key in s.m ==> s'.calls[s.m[key]].forgotten)
            && t in s'.threads && Past(s'.threads[t].pc) == Finished(Nothing)
  {
  }

  /** Forget, in every run: in its critical section the key left the map, with no other, so that the next Do or DoChan
      makes a new call; and the call that was there is forgotten for ever. */
  lemma ForgetForgets(r: seq<State>, n: nat, t: Tid) returns (i: nat)
    requires Run(r) && n < |r| && t in r[n].threads && r[n].threads[t].op.Forget? && r[n].threads[t].pc.Finished?
    ensures BegunAt(r, i, n, t)
    ensures var key := r[n].threads[t].op.key;
            && r[i].m == r[i - 1].m - {key}
            && (key in r[i - 1].m ==> r[i - 1].m[key] < |r[n].calls| && r[n].calls[r[i - 1].m[key]].forgotten)
  {
    hide Inv, Step, BodyStep, Since, MapOk;
    i := HasBegun(r, n, t);
    SinceParts(r, i, n, t);
    RunInv(r, i - 1);
    KeyPositions(r[i - 1]);
    ForgetBegins(r[i - 1], t);
    var key := r[n].threads[t].op.key;
    if key in r[i - 1].m {
      MapIndex(r[i - 1], key);
      RunLater(r, i, n, r[i - 1].m[key]);
    }
  }

  lemma MapIndex(s: State, key: Key)
    requires MapOk(s) && key in s.m
    ensures s.m[key] < |s.calls|
  {
  }

  // ---------- who has joined ----------

  /** The step from s is the critical section of a Do or DoChan that meets the call c in the map. */
  ghost predicate Joins(s: State, s': State, c: CallId) {
    exists t :: JoinsAs(s, s', c, t)
  }

  ghost predicate JoinsAs(s: State, s': State, c: CallId, t: Tid) {
    && t in s.threads && s.threads[t].pc.Body? && (s.threads[t].op.Do? || s.threads[t].op.DoChan?)
    && s.threads[t].op.key in s.m && s.m[s.threads[t].op.key] == c && MapOk(s) && s' == BodyStep(s, t)
  }

  /** How many of the first n steps join the call. */
  ghost function JoinCount(r: seq<State>, n: nat, c: CallId): nat
    requires n < |r|
  {
    if n == 0 then 0 else JoinCount(r, n - 1, c) + if Joins(r[n - 1], r[n], c) then 1 else 0
  }

  lemma JoinsStep(s: State, s': State, c: CallId)
    requires Inv(s) && Step(s, s') && c < |s'.calls|
    ensures c >= |s.calls| ==> s'.calls[c].joins == 0 && !Joins(s, s', c)
    ensures c < |s.calls| ==> s'.calls[c].joins == s.calls[c].joins + if Joins(s, s', c) then 1 else 0
  {
    hide Inv, Advance, BodyStep, JoinsAs;
    if t, o, w :| Advance(s, s', t, o, w) {
      JoinsAdvance(s, s', t, o, w, c);
    } else {
      SameCalls(s, s');
      if t :| JoinsAs(s, s', c, t) { JoinsGrow(s, s', c, t); }
    }
  }

  lemma SameCalls(s: State, s': State)
    requires Step(s, s') && !exists t, o, w :: Advance(s, s', t, o, w)
    ensures s'.calls == s.calls
  {
    hide Advance;
  }

  lemma JoinsGrow(s: State, s': State, c: CallId, t: Tid)
    requires JoinsAs(s, s', c, t)
    ensures c < |s.calls| == |s'.calls| && s'.calls[c].joins == s.calls[c].joins + 1
    ensures forall d :: 0 <= d < |s.calls| && d != c ==> s'.calls[d].joins == s.calls[d].joins
  {
  }

  lemma JoinsAdvance(s: State, s': State, t: Tid, o: Outcome, w: Tid, c: CallId)
    requires Inv(s) && Advance(s, s', t, o, w) && c < |s'.calls|
    ensures c >= |s.calls| ==> s'.calls[c].joins == 0 && !Joins(s, s', c)
    ensures c < |s.calls| ==> s'.calls[c].joins == s.calls[c].joins + if Joins(s, s', c) then 1 else 0
  {
    hide Inv, BodyStep, JoinsAs, CallStep;
    if s.threads[t].pc.Body? {
      JoinsBody(s, t, c);
      if c < |s.calls| && s'.calls[c].joins == s.calls[c].joins + 1 { assert JoinsAs(s, s', c, t); }
      if u :| JoinsAs(s, s', c, u) { JoinsGrow(s, s', c, u); }
    } else {
      JoinsNot(s, s', t, o, w);
      if u :| JoinsAs(s, s', c, u) { JoinsGrow(s, s', c, u); }
    }
  }

  lemma JoinsBody(s: State, t: Tid, c: CallId)
    requires MapOk(s) && t in s.threads && s.threads[t].pc.Body? && c < |BodyStep(s, t).calls|
    ensures c >= |s.calls| ==> BodyStep(s, t).calls[c].joins == 0
    ensures c < |s.calls| ==>
      BodyStep(s, t).calls[c].joins == s.calls[c].joins + if JoinsAs(s, BodyStep(s, t), c, t) then 1 else 0
  {
  }

  lemma JoinsNot(s: State, s': State, t: Tid, o: Outcome, w: Tid)
    requires Advance(s, s', t, o, w) && !s.threads[t].pc.Body?
    ensures |s'.calls| == |s.calls| && forall d :: 0 <= d < |s.calls| ==> s'.calls[d].joins == s.calls[d].joins
  {
    hide BodyStep, DeleteStep, SendStep;
    var pc := s.threads[t].pc;
    if pc.Delete? && pc.c < |s.calls| { EndJoins(s, t, pc.c, 0); }
    if pc.Send? && pc.c < |s.calls| { EndJoins(s, t, pc.c, pc.i); }
  }

  lemma EndJoins(s: State, t: Tid, c: CallId, i: nat)
    requires t in s.threads && c < |s.calls|
    ensures var s' := DeleteStep(s, t, c);
            |s'.calls| == |s.calls| && forall d :: 0 <= d < |s.calls| ==> s'.calls[d].joins == s.calls[d].joins
    ensures var next := SendStep(s, t, c, i); next.Some? ==>
              |next.value.calls| == |s.calls| && forall d :: 0 <= d < |s.calls| ==> next.value.calls[d].joins == s.calls[d].joins
  {
  }

  /** The number that makes a result shared is the number of callers that have joined. */
  lemma {:induction false} JoinsAreCounted(r: seq<State>, n: nat, c: CallId)
    requires Run(r) && n < |r|
    ensures if c < |r[n].calls| then r[n].calls[c].joins == JoinCount(r, n, c) else JoinCount(r, n, c) == 0
    decreases n
  {
    hide Inv, Step, Joins;
    if n > 0 {
      JoinsAreCounted(r, n - 1, c);
      RunInv(r, n - 1);
      assert Step(r[n - 1], r[n - 1 + 1]);
      if c < |r[n].calls| {
        JoinsStep(r[n - 1], r[n], c);
      } else {
        if c < |r[n - 1].calls| { StepLater(r[n - 1], r[n], c); }
        NoneYet(r[n - 1], r[n], c);
      }
    } else {
      FirstCalls(r);
    }
  }

  lemma FirstCalls(r: seq<State>)
    requires Run(r)
    ensures r[0].calls == []
  {
    hide Step;
  }

  lemma NoneYet(s: State, s': State, c: CallId)
    requires c >= |s'.calls|
    ensures !Joins(s, s', c)
  {
    hide BodyStep, JoinsAs;
    if t :| JoinsAs(s, s', c, t) { JoinsGrow(s, s', c, t); }
  }

  // ---------- the outcome of fn ----------

  /** The call's fn has ended so, and the record says it as far as the deferred functions have come. */
  ghost predicate Ended(call: Call, o: Outcome) {
    if call.stage.Ran? then call.result == (if o.Goexit? then None else Some(o))
    else !call.stage.Created? && !call.stage.Running? && call.result == Some(o)
  }

  lemma EndedStep(s: State, s': State, c: CallId, o: Outcome)
    requires Inv(s) && Step(s, s') && c < |s.calls| && Ended(s.calls[c], o)
    ensures c < |s'.calls| && Ended(s'.calls[c], o)
  {
    hide Inv, Advance, Ended;
    StepLater(s, s', c);
    if t, p, w :| Advance(s, s', t, p, w) {
      EndedAdvance(s, s', t, p, w, c, o);
    } else {
      SameCalls(s, s');
    }
  }

  lemma EndedAdvance(s: State, s': State, t: Tid, p: Outcome, w: Tid, c: CallId, o: Outcome)
    requires Inv(s) && Advance(s, s', t, p, w) && c < |s.calls| && c < |s'.calls| && Ended(s.calls[c], o)
    ensures Ended(s'.calls[c], o)
  {
    hide EntriesOk, ListsOk, ChanOk, CallOk, BodyStep, Ended, CallStep, CallPcOk;
    var pc := s.threads[t].pc;
    assert PcOk(s, t, s.threads[t].op, pc);
    if pc.Body? {
      EndedBody(s, t, c, o);
    } else if !pc.Lock? && !pc.Unlock? {
      CallAfter(s, t, p, w);
      if pc.c == c { EndedAfter(s.calls[c], t, pc, p, w, s'.calls[c], o); }
    }
  }

  lemma EndedBody(s: State, t: Tid, c: CallId, o: Outcome)
    requires MapOk(s) && t in s.threads && s.threads[t].pc.Body? && c < |s.calls| && Ended(s.calls[c], o)
    ensures c < |BodyStep(s, t).calls| && Ended(BodyStep(s, t).calls[c], o)
  {
  }

  /** What a step at pc makes of the stage and the result of the call. */
  ghost predicate After(call: Call, pc: Pc, p: Outcome, call': Call) {
    if pc.Start? then call'.stage.Running? && call'.result == call.result
    else if pc.InFn? then call'.stage.Ran? && call'.result == if p.Goexit? then call.result else Some(p)
    else if pc.Deferred? then call'.stage.Settled? && call'.result == if pc.exited then Some(Goexit) else call.result
    else if pc.WgDone? || pc.Delete? || pc.Send? then
      (call'.stage.Done? || call'.stage.Sending? || call'.stage.Closed?) && call'.result == call.result
    else call'.stage == call.stage && call'.result == call.result
  }

  /** A step of a goroutine that works with a call changes the stage and the result of that call only. */
  lemma CallAfter(s: State, t: Tid, p: Outcome, w: Tid)
    requires t in s.threads && var pc := s.threads[t].pc;
             !pc.Body? && !pc.Lock? && !pc.Unlock? && !pc.Finished? && pc.c < |s.calls|
    ensures var pc := s.threads[t].pc; var next := CallStep(s, t, pc.c, p, w);
            next.Some? ==>
              && |next.value.calls| == |s.calls| && After(s.calls[pc.c], pc, p, next.value.calls[pc.c])
              && forall d :: 0 <= d < |s.calls| && d != pc.c ==> next.value.calls[d] == s.calls[d]
  {
    hide BodyStep, DeleteStep, SendStep;
    var pc := s.threads[t].pc;
    if pc.Delete? { DeleteAfter(s, t, pc.c); }
    if pc.Send? { SendAfter(s, t, pc.c, pc.i); }
  }

  lemma DeleteAfter(s: State, t: Tid, c: CallId)
    requires t in s.threads && c < |s.calls|
    ensures var s' := DeleteStep(s, t, c);
            && |s'.calls| == |s.calls| && s'.calls[c].result == s.calls[c].result
            && (s'.calls[c].stage.Sending? || s'.calls[c].stage.Closed?)
            && forall d :: 0 <= d < |s.calls| && d != c ==> s'.calls[d] == s.calls[d]
  {
  }

  lemma SendAfter(s: State, t: Tid, c: CallId, i: nat)
    requires t in s.threads && c < |s.calls|
    ensures var next := SendStep(s, t, c, i); next.Some? ==>
              var s' := next.value;
              && |s'.calls| == |s.calls| && s'.calls[c].result == s.calls[c].result
              && (s'.calls[c].stage.Sending? || s'.calls[c].stage.Closed?)
              && forall d :: 0 <= d < |s.calls| && d != c ==> s'.calls[d] == s.calls[d]
  {
  }

  lemma EndedAfter(call: Call, t: Tid, pc: Pc, p: Outcome, w: Tid, call': Call, o: Outcome)
    requires !pc.Body? && !pc.Lock? && !pc.Unlock? && !pc.Finished?
    requires CallPcOk(call, t, pc) && Ended(call, o) && After(call, pc, p, call')
    ensures Ended(call', o)
  {
  }

  lemma {:induction false} EndedRun(r: seq<State>, i: nat, n: nat, c: CallId, o: Outcome)
    requires Run(r) && i <= n < |r| && c < |r[i].calls| && Ended(r[i].calls[c], o)
    ensures c < |r[n].calls| && Ended(r[n].calls[c], o)
    decreases n - i
  {
    hide Inv, Step, Ended;
    if i < n {
      EndedRun(r, i, n - 1, c, o);
      RunInv(r, n - 1);
      EndedStep(r[n - 1], r[n - 1 + 1], c, o);
    }
  }

  /** The result of a call is how its fn ended: when fn ends with o, that is the result from wg.Done on. */
  lemma ResultIsOutcome(r: seq<State>, i: nat, n: nat, t: Tid, o: Outcome, w: Tid)
    requires Run(r) && i < n < |r| && Advance(r[i], r[i + 1], t, o, w) && r[i].threads[t].pc.InFn?
    ensures var c := r[i].threads[t].pc.c; c < |r[n].calls| && (r[n].calls[c].wgDone ==> r[n].calls[c].result == Some(o))
  {
    hide Inv, Step, CallOk;
    RunInv(r, i);
    FnEnds(r[i], r[i + 1], t, o, w);
    EndedRun(r, i + 1, n, r[i].threads[t].pc.c, o);
    RunInv(r, n);
    DoneIsPastRan(r[n], r[i].threads[t].pc.c);
  }

  lemma FnEnds(s: State, s': State, t: Tid, o: Outcome, w: Tid)
    requires Inv(s) && Advance(s, s', t, o, w) && s.threads[t].pc.InFn?
    ensures var c := s.threads[t].pc.c; c < |s'.calls| && Ended(s'.calls[c], o)
  {
    hide EntriesOk, ListsOk, ChanOk, BodyStep, DeleteStep, SendStep;
    assert PcOk(s, t, s.threads[t].op, s.threads[t].pc);
    assert CallOk(s.calls[s.threads[t].pc.c]);
  }

  lemma DoneIsPastRan(s: State, c: CallId)
    requires Inv(s) && c < |s.calls|
    ensures s.calls[c].wgDone ==> !s.calls[c].stage.Ran?
  {
    assert CallOk(s.calls[c]);
  }

  // ---------- nobody waits for nothing ----------

  /** The points of the goroutine that runs a call. */
  predicate Runs(pc: Pc) {
    pc.Spawn? || pc.Start? || pc.InFn? || pc.Deferred? || pc.WgDone? || pc.DoneLock? || pc.Delete? || pc.Send?
  }

  /** A call that is not closed has a goroutine that is still at it. */
  ghost predicate HasRunner(s: State, c: CallId)
    requires c < |s.calls|
  {
    s.calls[c].stage.Closed? || RunsAt(s, s.calls[c].runner, c)
  }

  ghost predicate RunsAt(s: State, t: Tid, c: CallId) {
    t in s.threads && var p := Past(s.threads[t].pc); Runs(p) && p.c == c
  }

  ghost predicate AllRun(s: State) { forall c :: 0 <= c < |s.calls| ==> HasRunner(s, c) }

  lemma RunnerStep(s: State, s': State)
    requires Inv(s) && AllRun(s) && Step(s, s')
    ensures AllRun(s')
  {
    hide Inv, Advance, RunsAt;
    if t, o, w :| Advance(s, s', t, o, w) {
      RunnerAdvance(s, s', t, o, w);
    } else {
      RunnerOther(s, s');
    }
  }

  lemma RunnerOther(s: State, s': State)
    requires AllRun(s) && Step(s, s') && !exists t, o, w :: Advance(s, s', t, o, w)
    ensures AllRun(s')
  {
    hide Advance;
    SameCalls(s, s');
    forall c | 0 <= c < |s'.calls| ensures HasRunner(s', c) { assert HasRunner(s, c); }
  }

  lemma RunnerAdvance(s: State, s': State, t: Tid, o: Outcome, w: Tid)
    requires Inv(s) && AllRun(s) && Advance(s, s', t, o, w)
    ensures AllRun(s')
  {
    hide EntriesOk, ListsOk, ChanOk, CallOk, BodyStep, CallStep, CallPcOk, HasRunner;
    var pc := s.threads[t].pc;
    assert PcOk(s, t, s.threads[t].op, pc);
    forall c | 0 <= c < |s'.calls| ensures HasRunner(s', c) {
      if c < |s.calls| { assert HasRunner(s, c); }
      if pc.Body? {
        RunnerBody(s, t, c);
      } else if pc.Lock? || pc.Unlock? {
        RunnerLock(s, s', t, o, w, c);
      } else if pc.c == c {
        RunnerOwn(s, s', t, o, w);
      } else {
        CallAfter(s, t, o, w);
        RunnerElse(s, s', t, o, w, c);
      }
    }
  }

  lemma RunnerBody(s: State, t: Tid, c: CallId)
    requires MapOk(s) && t in s.threads && s.threads[t].pc.Body? && c < |BodyStep(s, t).calls|
    requires c < |s.calls| ==> HasRunner(s, c)
    ensures HasRunner(BodyStep(s, t), c)
  {
  }

  lemma RunnerLock(s: State, s': State, t: Tid, o: Outcome, w: Tid, c: CallId)
    requires Advance(s, s', t, o, w) && (s.threads[t].pc.Lock? || s.threads[t].pc.Unlock?)
    requires PcOk(s, t, s.threads[t].op, s.threads[t].pc) && c < |s.calls| && HasRunner(s, c)
    ensures c < |s'.calls| && HasRunner(s', c)
  {
    hide BodyStep, DeleteStep, SendStep, CallStep;
  }

  /** A step with another call leaves this one's goroutine alone. */
  lemma RunnerElse(s: State, s': State, t: Tid, o: Outcome, w: Tid, c: CallId)
    requires Advance(s, s', t, o, w) && c < |s.calls| == |s'.calls| && HasRunner(s, c) && s'.calls[c] == s.calls[c]
    requires var pc := s.threads[t].pc; !pc.Body? && !pc.Lock? && !pc.Unlock? && !pc.Finished? && pc.c != c
    ensures HasRunner(s', c)
  {
    hide Advance;
    var u := s.calls[c].runner;
    if !s.calls[c].stage.Closed? {
      AdvanceThread(s, s', t, o, w);
      OneThread(s, s', t, o, w, u);
    }
  }

  /** A step with the call: the goroutine stays at it, hands it to another one, or closes it. */
  lemma RunnerOwn(s: State, s': State, t: Tid, o: Outcome, w: Tid)
    requires Advance(s, s', t, o, w)
    requires var pc := s.threads[t].pc;
             !pc.Body? && !pc.Lock? && !pc.Unlock? && !pc.Finished? && pc.c < |s.calls| && HasRunner(s, pc.c)
             && CallPcOk(s.calls[pc.c], t, pc)
    ensures var c := s.threads[t].pc.c; c < |s'.calls| && HasRunner(s', c)
  {
    hide BodyStep, DeleteStep, SendStep;
    var pc := s.threads[t].pc;
    if pc.Delete? { RunnerDelete(s, t, pc.c); }
    if pc.Send? { RunnerSend(s, t, pc.c, pc.i); }
  }

  lemma RunnerDelete(s: State, t: Tid, c: CallId)
    requires t in s.threads && c < |s.calls| && s.calls[c].runner == t
    ensures c < |DeleteStep(s, t, c).calls| && HasRunner(DeleteStep(s, t, c), c)
  {
  }

  lemma RunnerSend(s: State, t: Tid, c: CallId, i: nat)
    requires t in s.threads && c < |s.calls| && s.calls[c].runner == t
    ensures var next := SendStep(s, t, c, i); next.Some? ==> c < |next.value.calls| && HasRunner(next.value, c)
  {
  }

  /** In every run, each call that is not closed has a goroutine that is still at it. */
  lemma {:induction false} NoLostCall(r: seq<State>, n: nat)
    requires Run(r) && n < |r|
    ensures AllRun(r[n])
  {
    hide Inv, Step, HasRunner;
    if n == 0 {
      FirstCalls(r);
    } else {
      NoLostCall(r, n - 1);
      RunInv(r, n - 1);
      RunnerStep(r[n - 1], r[n - 1 + 1]);
    }
  }

  /** The step of the thread, if it can take one. */
  ghost predicate CanStep(s: State, t: Tid) {
    MapOk(s) && t in s.threads && exists o, w :: Step1(s, t, o, w).Some?
  }

  /** Whoever is not waiting for the lock or for wg, has not finished, and did not crash, can step. */
  lemma FreeSteps(s: State, t: Tid, o: Outcome)
    requires Inv(s) && t in s.threads
    requires var pc := s.threads[t].pc; !pc.Finished? && !pc.Crashed?
    requires var pc := s.threads[t].pc; (pc.Lock? || pc.DoneLock? ==> s.mu.None?) && (pc.Wait? ==> pc.c < |s.calls| && s.calls[pc.c].wgDone)
    ensures CanStep(s, t)
  {
    hide EntriesOk, ListsOk, ChanOk, CallOk, BodyStep, DeleteStep, SendStep, CallPcOk;
    var pc := s.threads[t].pc;
    assert PcOk(s, t, s.threads[t].op, pc);
    KeyPositions(s);
    var w := FreshTid(s.threads.Keys);
    if pc.Send? { SendStepOk(s, t, pc.c, pc.i); }
    assert Step1(s, t, o, w).Some?;
  }

  lemma FreshTid(used: set<Tid>) returns (w: Tid)
    ensures w !in used
  {
    w := Bound(used);
  }

  lemma {:induction false} Bound(used: set<Tid>) returns (w: Tid)
    ensures forall t :: t in used ==> t < w
    decreases |used|
  {
    w := 0;
    if used != {} {
      var t :| t in used;
      w := Bound(used - {t});
      assert forall u :: u in used ==> u == t || u in used - {t};
      if w <= t { w := t + 1; }
    }
  }

  /** No deadlock: in every run in which no goroutine has crashed with the lock held, some thread can step as long as
      one has not finished. */
  lemma NoDeadlock(r: seq<State>, n: nat, t: Tid, o: Outcome) returns (u: Tid)
    requires Run(r) && n < |r| && t in r[n].threads && !r[n].threads[t].pc.Finished?
    requires forall v :: v in r[n].threads ==> !r[n].threads[v].pc.Crashed?
    ensures CanStep(r[n], u)
  {
    hide CallOk, EntriesOk, ListsOk, ChanOk, CanStep, CallPcOk, Step;
    var s := r[n];
    RunInv(r, n);
    NoLostCall(r, n);
    var pc := s.threads[t].pc;
    u := t;
    if s.mu.Some? {
      u := s.mu.value;
    } else if pc.Wait? {
      assert PcOk(s, t, s.threads[t].op, pc);
      if !s.calls[pc.c].wgDone {
        u := s.calls[pc.c].runner;
        NotClosed(s, pc.c);
        assert HasRunner(s, pc.c);
      }
    }
    FreeSteps(s, u, o);
  }

  lemma NotClosed(s: State, c: CallId)
    requires Inv(s) && c < |s.calls| && !s.calls[c].wgDone
    ensures !s.calls[c].stage.Closed?
  {
    assert CallOk(s.calls[c]);
  }
}
