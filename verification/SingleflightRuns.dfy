/** What every run of singleflight does: the main results about pkg/singleflight/singleflight.go. */
module SingleflightRuns {
  import opened Common
  import opened Singleflight
  import opened SingleflightInvariant

  lemma {:induction false} RunInv(r: seq<State>, n: nat)
    requires Run(r) && n < |r|
    ensures Inv(r[n])
  {
    hide Inv, Step;
    if n == 0 {
      InitInv(r[0]);
    } else {
      RunInv(r, n - 1);
      assert Step(r[n - 1], r[n - 1 + 1]);
      StepInv(r[n - 1], r[n]);
    }
  }

  lemma InitInv(s: State)
    requires Init(s)
    ensures Inv(s)
  {
  }

  // ---------- one step, seen from one call ----------

  /** What any step may do to a call: its result is fixed by wg.Done; its list of joiners is fixed once it
      is out of the map, by its own deletion or by Forget; forgetting is for ever. */
  ghost predicate Later(call: Call, call': Call) {
    && call'.key == call.key
    && (call.wgDone ==> call'.wgDone && call'.result == call.result)
    && (call.forgotten ==> call'.forgotten)
    && (!Active(call) || call.forgotten ==> call'.joins == call.joins && call'.chans == call.chans && call'.dups == call.dups)
    && (!Active(call) ==> !Active(call'))
    && (call.stage.Closed? ==> call'.stage.Closed?)
    && call.runs <= call'.runs && call.joins <= call'.joins
  }

  /** Who may be forgotten by a step of a goroutine doing `op`. */
  ghost predicate ForgottenBy(s: State, s': State, op: Op) {
    forall c :: 0 <= c < |s'.calls| && s'.calls[c].forgotten ==> op.Forget? || (c < |s.calls| && s.calls[c].forgotten)
  }

  lemma BodyLater(s: State, t: Tid)
    requires Inv(s) && t in s.threads && s.threads[t].pc.Body?
    ensures MapOk(s) && ForgottenBy(s, BodyStep(s, t), s.threads[t].op)
    ensures forall c :: 0 <= c < |s.calls| ==> c < |BodyStep(s, t).calls| && Later(s.calls[c], BodyStep(s, t).calls[c])
  {
    hide ListsOk, ChanOk, CallOk, PcOk;
    forall c | 0 <= c < |s.calls| ensures Later(s.calls[c], BodyStep(s, t).calls[c]) {
      assert s.calls[c].forgotten || !Active(s.calls[c]) ==> c !in s.m.Values;
    }
  }

  /** If the step can be taken, it does to each call what any step may. */
  ghost predicate StepsLater(s: State, next: Option<State>, op: Op) {
    next.Some? ==> |next.value.calls| == |s.calls| && ForgottenBy(s, next.value, op)
                   && forall c :: 0 <= c < |s.calls| ==> Later(s.calls[c], next.value.calls[c])
  }

  lemma RunnerLater(s: State, t: Tid, o: Outcome, w: Tid)
    requires Inv(s) && t in s.threads
    requires var pc := s.threads[t].pc; pc.Start? || pc.InFn? || pc.Deferred? || pc.WgDone?
    ensures s.threads[t].pc.c < |s.calls| && StepsLater(s, CallStep(s, t, s.threads[t].pc.c, o, w), s.threads[t].op)
  {
    hide EntriesOk, ListsOk, ChanOk;
    var c := s.threads[t].pc.c;
    assert PcOk(s, t, s.threads[t].op, s.threads[t].pc);
    assert CallOk(s.calls[c]);
  }

  lemma WaiterLater(s: State, t: Tid, o: Outcome, w: Tid)
    requires Inv(s) && t in s.threads
    requires var pc := s.threads[t].pc; pc.Wait? || pc.Wake? || pc.Lead? || pc.DoneLock? || pc.Crashed?
    ensures s.threads[t].pc.c < |s.calls| && StepsLater(s, CallStep(s, t, s.threads[t].pc.c, o, w), s.threads[t].op)
  {
    hide EntriesOk, ListsOk, ChanOk;
    var c := s.threads[t].pc.c;
    assert PcOk(s, t, s.threads[t].op, s.threads[t].pc);
    assert CallOk(s.calls[c]);
  }

  lemma EndLater(s: State, t: Tid, o: Outcome, w: Tid)
    requires Inv(s) && t in s.threads
    requires var pc := s.threads[t].pc; pc.Spawn? || pc.Delete? || pc.Send?
    ensures s.threads[t].pc.c < |s.calls| && StepsLater(s, CallStep(s, t, s.threads[t].pc.c, o, w), s.threads[t].op)
  {
    hide EntriesOk, ListsOk, ChanOk;
    var c := s.threads[t].pc.c;
    assert PcOk(s, t, s.threads[t].op, s.threads[t].pc);
    assert CallOk(s.calls[c]);
  }

  lemma CallLater(s: State, t: Tid, o: Outcome, w: Tid)
    requires Inv(s) && t in s.threads
    requires var pc := s.threads[t].pc; !pc.Body? && !pc.Lock? && !pc.Unlock? && !pc.Finished?
    ensures s.threads[t].pc.c < |s.calls| && StepsLater(s, CallStep(s, t, s.threads[t].pc.c, o, w), s.threads[t].op)
  {
    hide Inv, StepsLater, CallStep;
    var pc := s.threads[t].pc;
    if pc.Start? || pc.InFn? || pc.Deferred? || pc.WgDone? {
      RunnerLater(s, t, o, w);
    } else if pc.Wait? || pc.Wake? || pc.Lead? || pc.DoneLock? || pc.Crashed? {
      WaiterLater(s, t, o, w);
    } else {
      EndLater(s, t, o, w);
    }
  }

  lemma AdvanceLater(s: State, s': State, t: Tid, o: Outcome, w: Tid)
    requires Inv(s) && Advance(s, s', t, o, w)
    ensures |s.calls| <= |s'.calls| && ForgottenBy(s, s', s.threads[t].op)
    ensures forall c :: 0 <= c < |s.calls| ==> Later(s.calls[c], s'.calls[c])
  {
    hide Inv, BodyStep, CallStep;
    var pc := s.threads[t].pc;
    if pc.Body? {
      BodyLater(s, t);
      BodyGrows(s, t);
    } else if !pc.Lock? && !pc.Unlock? && !pc.Finished? {
      CallLater(s, t, o, w);
    }
  }

  lemma BodyGrows(s: State, t: Tid)
    requires t in s.threads && MapOk(s)
    ensures |s.calls| <= |BodyStep(s, t).calls|
  {
  }

  lemma StepLater(s: State, s': State, c: CallId)
    requires Inv(s) && Step(s, s') && c < |s.calls|
    ensures c < |s'.calls| && Later(s.calls[c], s'.calls[c])
  {
    hide Inv, Advance;
    if t, o, w :| Advance(s, s', t, o, w) {
      AdvanceLater(s, s', t, o, w);
    }
  }

  lemma {:induction false} RunLater(r: seq<State>, i: nat, n: nat, c: CallId)
    requires Run(r) && i <= n < |r| && c < |r[i].calls|
    ensures c < |r[n].calls| && Later(r[i].calls[c], r[n].calls[c])
    decreases n - i
  {
    hide Inv, Step;
    if i < n {
      RunLater(r, i, n - 1, c);
      RunInv(r, n - 1);
      assert Step(r[n - 1], r[n - 1 + 1]);
      StepLater(r[n - 1], r[n], c);
    }
  }

  // ---------- main results ----------

  /** At most one run of fn per key is in progress among the calls that nobody has forgotten. */
  lemma OneRunPerKey(r: seq<State>, n: nat, t: Tid, u: Tid)
    requires Run(r) && n < |r| && t in r[n].threads && u in r[n].threads
    requires r[n].threads[t].pc.InFn? && r[n].threads[u].pc.InFn?
    ensures var c, d := r[n].threads[t].pc.c, r[n].threads[u].pc.c;
            && c < |r[n].calls| && d < |r[n].calls|
            && (r[n].calls[c].key == r[n].calls[d].key && !r[n].calls[c].forgotten && !r[n].calls[d].forgotten ==> t == u)
  {
    RunInv(r, n);
    assert PcOk(r[n], t, r[n].threads[t].op, r[n].threads[t].pc);
    assert PcOk(r[n], u, r[n].threads[u].op, r[n].threads[u].pc);
  }

  /** No call is forgotten in a run in which nobody calls Forget. */
  lemma {:induction false} NobodyForgets(r: seq<State>, n: nat, c: CallId)
    requires Run(r) && n < |r| && c < |r[n].calls|
    requires forall i, t :: 0 <= i < n && t in r[i].threads ==> !r[i].threads[t].op.Forget?
    ensures !r[n].calls[c].forgotten
    decreases n
  {
    hide Inv, Step;
    if n > 0 {
      RunInv(r, n - 1);
      assert Step(r[n - 1], r[n - 1 + 1]);
      var t := StepForgets(r[n - 1], r[n]);
      if c < |r[n - 1].calls| { NobodyForgets(r, n - 1, c); }
    }
  }

  lemma StepForgets(s: State, s': State) returns (op: Op)
    requires Inv(s) && Step(s, s')
    ensures ForgottenBy(s, s', op)
    ensures op.Forget? ==> exists t :: t in s.threads && s.threads[t].op == op
  {
    hide Inv, Advance;
    op := Worker;
    if t, o, w :| Advance(s, s', t, o, w) {
      AdvanceThread(s, s', t, o, w);
      AdvanceLater(s, s', t, o, w);
      op := s.threads[t].op;
    }
  }

  lemma AdvanceThread(s: State, s': State, t: Tid, o: Outcome, w: Tid)
    requires Advance(s, s', t, o, w)
    ensures t in s.threads
  {
  }

  /** Without Forget, at most one run of fn per key is in progress. */
  lemma OneRunPerKeyWithoutForget(r: seq<State>, n: nat, t: Tid, u: Tid)
    requires Run(r) && n < |r| && t in r[n].threads && u in r[n].threads
    requires r[n].threads[t].pc.InFn? && r[n].threads[u].pc.InFn?
    requires forall i, v :: 0 <= i < n && v in r[i].threads ==> !r[i].threads[v].op.Forget?
    ensures var c, d := r[n].threads[t].pc.c, r[n].threads[u].pc.c;
            c < |r[n].calls| && d < |r[n].calls| && (r[n].calls[c].key == r[n].calls[d].key ==> t == u)
  {
    OneRunPerKey(r, n, t, u);
    NobodyForgets(r, n, r[n].threads[t].pc.c);
    NobodyForgets(r, n, r[n].threads[u].pc.c);
  }

  /** A call runs fn once: never twice, and by wg.Done it has run. */
  lemma RunsOnce(r: seq<State>, n: nat, c: CallId)
    requires Run(r) && n < |r| && c < |r[n].calls|
    ensures r[n].calls[c].runs <= 1 && (r[n].calls[c].wgDone ==> r[n].calls[c].runs == 1 && r[n].calls[c].result.Some?)
  {
    RunInv(r, n);
    assert CallOk(r[n].calls[c]);
  }

  /** A joiner past wg.Wait, even one that came between wg.Done and the delete, is about to return the result
      of the call's one run of fn, and that result is what the call holds at every later moment. */
  lemma JoinersGetTheResult(r: seq<State>, i: nat, n: nat, t: Tid)
    requires Run(r) && i <= n < |r| && t in r[i].threads && r[i].threads[t].pc.Wake?
    ensures var c := r[i].threads[t].pc.c;
            && c < |r[i].calls| && c < |r[n].calls| && r[i].calls[c].result.Some? && r[i].calls[c].runs == 1
            && r[n].calls[c].result == r[i].calls[c].result
            && (match r[n].calls[c].result.value
                case Normal(v, e) => WakeRet(r[i].calls[c]) == Answer(v, e, true)
                case Panic => WakeRet(r[i].calls[c]) == Panicked
                case Goexit => WakeRet(r[i].calls[c]) == Exited)
  {
    RunInv(r, i);
    var c := r[i].threads[t].pc.c;
    assert PcOk(r[i], t, r[i].threads[t].op, r[i].threads[t].pc);
    assert CallOk(r[i].calls[c]);
    RunLater(r, i, n, c);
  }

  /** The leader of Do returns its run's value and error, with shared true exactly when some caller joined
      its call at any moment of the run, before or after. */
  lemma LeaderSharedIffJoined(r: seq<State>, i: nat, n: nat, t: Tid)
    requires Run(r) && i <= n < |r| && t in r[i].threads && r[i].threads[t].pc.Lead?
    ensures var c := r[i].threads[t].pc.c;
            && c < |r[i].calls| && c < |r[n].calls| && Normally(r[i].calls[c])
            && LeadRet(r[i].calls[c]) == Answer(r[i].calls[c].result.value.val, r[i].calls[c].result.value.err, r[n].calls[c].joins > 0)
  {
    RunInv(r, i);
    var c := r[i].threads[t].pc.c;
    assert PcOk(r[i], t, r[i].threads[t].op, r[i].threads[t].pc);
    assert CallOk(r[i].calls[c]);
    RunLater(r, i, n, c);
  }

  /** A call that finishes removes no entry but its own: after Forget, the successor's entry stays. */
  lemma DeleteRemovesOnlyItself(r: seq<State>, n: nat, t: Tid, c: CallId)
    requires Run(r) && n < |r| && t in r[n].threads && r[n].threads[t].pc == Delete(c)
    ensures c < |r[n].calls|
    ensures DeleteStep(r[n], t, c).m == map k | k in r[n].m && r[n].m[k] != c :: r[n].m[k]
  {
    RunInv(r, n);
    assert PcOk(r[n], t, r[n].threads[t].op, r[n].threads[t].pc);
  }

  /** A send under the lock can always be made at once. */
  lemma SendNeverBlocks(r: seq<State>, n: nat, t: Tid, c: CallId, i: nat)
    requires Run(r) && n < |r| && t in r[n].threads && r[n].threads[t].pc == Send(c, i)
    ensures c < |r[n].calls| && SendStep(r[n], t, c, i).Some?
  {
    RunInv(r, n);
    SendStepOk(r[n], t, c, i);
  }

  /** When a call that returned normally is closed, each channel that DoChan made for it has been sent
      exactly one message: the run's value and error, and whether anybody joined; and so it stays. */
  lemma EachChannelGetsOneResult(r: seq<State>, i: nat, n: nat, ch: ChanId)
    requires Run(r) && i <= n < |r| && ch < |r[i].chans|
    requires var c := r[i].chans[ch].call; c < |r[i].calls| && r[i].calls[c].stage.Closed? && Normally(r[i].calls[c])
    ensures ch < |r[n].chans| && r[n].chans[ch].sent == [Report(r[i].calls[r[i].chans[ch].call])]
    ensures var call := r[i].calls[r[i].chans[ch].call]; Report(call).shared <==> call.joins > 0
  {
    RunInv(r, i);
    RunInv(r, n);
    var c := r[i].chans[ch].call;
    assert ChanOk(r[i], ch) && CallOk(r[i].calls[c]);
    RunLater(r, i, n, c);
    RunChans(r, i, n, ch);
    assert ChanOk(r[n], ch);
  }

  lemma StepChans(s: State, s': State, ch: ChanId)
    requires Inv(s) && Step(s, s') && ch < |s.chans|
    ensures ch < |s'.chans| && s'.chans[ch].call == s.chans[ch].call && s'.chans[ch].index == s.chans[ch].index
  {
    hide Inv;
  }

  lemma {:induction false} RunChans(r: seq<State>, i: nat, n: nat, ch: ChanId)
    requires Run(r) && i <= n < |r| && ch < |r[i].chans|
    ensures ch < |r[n].chans| && r[n].chans[ch].call == r[i].chans[ch].call && r[n].chans[ch].index == r[i].chans[ch].index
    decreases n - i
  {
    hide Inv, Step;
    if i < n {
      RunChans(r, i, n - 1, ch);
      RunInv(r, n - 1);
      assert Step(r[n - 1], r[n - 1 + 1]);
      StepChans(r[n - 1], r[n], ch);
    }
  }
}
