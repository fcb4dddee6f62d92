/** The invariant of singleflight and its preservation by every step. */
module SingleflightInvariant {
  import opened Common
  import opened Singleflight

  /** The lock is held from Body to Unlock and from Delete to the last send. */
  ghost predicate Holds(pc: Pc) { pc.Body? || pc.Unlock? || pc.Delete? || pc.Send? || pc.Crashed? }

  /** The call has not yet been deleted from the map by its own goroutine. */
  ghost predicate Active(call: Call) { !call.stage.Sending? && !call.stage.Closed? }

  ghost predicate Normally(call: Call) { call.result.Some? && call.result.value.Normal? }

  ghost function Report(call: Call): Message
    requires Normally(call)
  {
    Message(call.result.value.val, call.result.value.err, call.dups > 0)
  }

  /** The i-th channel of the call has got its result. */
  ghost predicate Delivered(call: Call, i: nat) {
    Normally(call) && ((call.stage.Sending? && i < call.stage.n) || call.stage.Closed?)
  }

  ghost predicate CallOk(call: Call) {
    && (call.wgDone <==> call.stage.Done? || call.stage.Sending? || call.stage.Closed?)
    && (call.stage.Created? || call.stage.Running? ==> call.result.None?)
    && (call.stage.Settled? || call.wgDone ==> call.result.Some?)
    && call.runs == (if call.stage.Created? then 0 else 1)
    && call.dups == call.joins
    && (call.stage.Sending? ==> Normally(call) && call.stage.n <= |call.chans|)
  }

  /** A call that its goroutine has not deleted and nobody has forgotten is the map's entry for its key, and
      every entry of the map is such a call. */
  ghost predicate EntriesOk(s: State) {
    && (forall k :: k in s.m ==> s.m[k] < |s.calls| && s.calls[s.m[k]].key == k && Active(s.calls[s.m[k]]) && !s.calls[s.m[k]].forgotten)
    && (forall c :: 0 <= c < |s.calls| && Active(s.calls[c]) && !s.calls[c].forgotten ==>
          s.calls[c].key in s.m && s.m[s.calls[c].key] == c)
  }

  /** A channel is listed once, and has been sent its call's result exactly when that was delivered to it. */
  ghost predicate ChanOk(s: State, ch: ChanId)
    requires ch < |s.chans|
  {
    var x := s.chans[ch];
    && x.call < |s.calls| && x.index < |s.calls[x.call].chans| && s.calls[x.call].chans[x.index] == ch
    && |x.buffer| <= |x.sent|
    && x.sent == if Delivered(s.calls[x.call], x.index) then [Report(s.calls[x.call])] else []
  }

  ghost predicate ListsOk(s: State) {
    forall c, i :: 0 <= c < |s.calls| && 0 <= i < |s.calls[c].chans| ==>
      var ch := s.calls[c].chans[i]; ch < |s.chans| && s.chans[ch].call == c && s.chans[ch].index == i
  }

  /** What a goroutine at pc knows of the call it works with. */
  ghost predicate CallPcOk(call: Call, t: Tid, pc: Pc) {
    if pc.Wait? then call.joins > 0
    else if pc.Wake? then call.joins > 0 && call.wgDone
    else
      call.runner == t &&
      if pc.Spawn? || pc.Start? then call.stage.Created?
      else if pc.InFn? then call.stage.Running?
      else if pc.Deferred? then call.stage.Ran? && (pc.exited <==> call.result.None?)
      else if pc.WgDone? then call.stage.Settled?
      else if pc.DoneLock? || pc.Delete? then call.stage.Done?
      else if pc.Send? then call.stage == Sending(pc.i)
      else if pc.Crashed? then call.stage.Closed? && call.result == Some(Panic)
      else call.stage.Closed? && Normally(call)
  }

  ghost predicate PcOk(s: State, t: Tid, op: Op, pc: Pc)
    decreases pc
  {
    if pc.Lock? || pc.Body? then !op.Worker?
    else if pc.Finished? then true
    else if pc.Unlock? then !Holds(pc.next) && !pc.next.Lock? && PcOk(s, t, op, pc.next)
    else pc.c < |s.calls| && CallPcOk(s.calls[pc.c], t, pc)
  }

  ghost predicate Inv(s: State) {
    && (forall c :: 0 <= c < |s.calls| ==> CallOk(s.calls[c]))
    && EntriesOk(s) && ListsOk(s)
    && (forall ch :: 0 <= ch < |s.chans| ==> ChanOk(s, ch))
    && (forall t :: t in s.threads ==> PcOk(s, t, s.threads[t].op, s.threads[t].pc))
    && (forall t :: t in s.threads ==> (Holds(s.threads[t].pc) <==> s.mu == Some(t)))
    && (s.mu.Some? ==> s.mu.value in s.threads)
  }

  // ---------- what a step of t may do to a call, as others see it ----------

  ghost predicate Evolves(call: Call, call': Call, t: Tid) {
    && call'.key == call.key && call.joins <= call'.joins
    && (call.wgDone ==> call'.wgDone && call'.result == call.result)
    && (call.runner != t ==> call'.runner == call.runner && call'.stage == call.stage && call'.result == call.result)
  }

  ghost predicate AllEvolve(s: State, s': State, t: Tid) {
    |s.calls| <= |s'.calls| && forall c :: 0 <= c < |s.calls| ==> Evolves(s.calls[c], s'.calls[c], t)
  }

  lemma {:induction false} OtherPcOk(s: State, s': State, t: Tid, u: Tid, op: Op, pc: Pc)
    requires AllEvolve(s, s', t) && u != t && PcOk(s, u, op, pc)
    ensures PcOk(s', u, op, pc)
    decreases pc
  {
    if pc.Unlock? {
      OtherPcOk(s, s', t, u, op, pc.next);
    } else if !pc.Lock? && !pc.Body? && !pc.Finished? {
      assert Evolves(s.calls[pc.c], s'.calls[pc.c], t);
    }
  }

  /** What is left to show of a step of t when the calls evolve: the data, t itself, and the lock. */
  lemma Combine(s: State, s': State, t: Tid)
    requires Inv(s) && AllEvolve(s, s', t) && t in s.threads && t in s'.threads
    requires forall c :: 0 <= c < |s'.calls| ==> CallOk(s'.calls[c])
    requires EntriesOk(s') && ListsOk(s') && forall ch :: 0 <= ch < |s'.chans| ==> ChanOk(s', ch)
    requires s'.threads == s.threads[t := s'.threads[t]]
    requires PcOk(s', t, s'.threads[t].op, s'.threads[t].pc)
    requires if Holds(s.threads[t].pc) == Holds(s'.threads[t].pc) then s'.mu == s.mu
             else if Holds(s'.threads[t].pc) then s.mu.None? && s'.mu == Some(t) else s'.mu.None?
    ensures Inv(s')
  {
    hide CallOk, EntriesOk, ListsOk, ChanOk, AllEvolve, PcOk;
    forall u | u in s'.threads ensures PcOk(s', u, s'.threads[u].op, s'.threads[u].pc) {
      if u != t { OtherPcOk(s, s', t, u, s.threads[u].op, s.threads[u].pc); }
    }
  }

  // ---------- steps that change one call, not its place in the map nor its channels ----------

  /** call' differs from call only in stage, result and the like, and delivers nothing. */
  ghost predicate Mild(call: Call, call': Call) {
    && call'.key == call.key && call'.forgotten == call.forgotten && call'.chans == call.chans
    && Active(call) && Active(call')
  }

  lemma MildData(s: State, s': State, c: CallId, call': Call)
    requires Inv(s) && c < |s.calls| && s'.calls == s.calls[c := call'] && s'.m == s.m && s'.chans == s.chans
    requires Mild(s.calls[c], call')
    ensures EntriesOk(s') && ListsOk(s') && forall ch :: 0 <= ch < |s'.chans| ==> ChanOk(s', ch)
  {
    forall ch | 0 <= ch < |s'.chans| ensures ChanOk(s', ch) { assert ChanOk(s, ch); }
  }

  lemma MildStep(s: State, s': State, t: Tid, c: CallId, call': Call)
    requires Inv(s) && c < |s.calls| && s'.calls == s.calls[c := call'] && s'.m == s.m && s'.chans == s.chans
    requires Mild(s.calls[c], call') && CallOk(call') && Evolves(s.calls[c], call', t)
    requires t in s.threads && t in s'.threads && s'.threads == s.threads[t := s'.threads[t]]
    requires PcOk(s', t, s'.threads[t].op, s'.threads[t].pc)
    requires Holds(s.threads[t].pc) == Holds(s'.threads[t].pc) && s'.mu == s.mu
    ensures Inv(s')
  {
    hide CallOk, EntriesOk, ListsOk, ChanOk, Mild, PcOk;
    MildData(s, s', c, call');
    Combine(s, s', t);
  }

  /** A step that changes only the lock and the stepping thread. */
  lemma ThreadStep(s: State, s': State, t: Tid)
    requires Inv(s) && s'.calls == s.calls && s'.m == s.m && s'.chans == s.chans
    requires t in s.threads && t in s'.threads && s'.threads == s.threads[t := s'.threads[t]]
    requires PcOk(s', t, s'.threads[t].op, s'.threads[t].pc)
    requires if Holds(s.threads[t].pc) == Holds(s'.threads[t].pc) then s'.mu == s.mu
             else if Holds(s'.threads[t].pc) then s.mu.None? && s'.mu == Some(t) else s'.mu.None?
    ensures Inv(s')
  {
    hide CallOk, PcOk;
    forall ch | 0 <= ch < |s'.chans| ensures ChanOk(s', ch) { assert ChanOk(s, ch); }
    Combine(s, s', t);
  }

  // ---------- the steps ----------

  ghost predicate Ready(s: State, t: Tid) { Inv(s) && t in s.threads }

  lemma KeyPositions(s: State)
    requires Inv(s)
    ensures MapOk(s)
  {
  }

  /** The steps of a call's goroutine from the start of fn to wg.Done. */
  lemma StartStepOk(s: State, t: Tid, o: Outcome, w: Tid)
    requires Ready(s, t) && s.threads[t].pc.Start?
    ensures s.threads[t].pc.c < |s.calls|
    ensures var next := CallStep(s, t, s.threads[t].pc.c, o, w); next.Some? && Inv(next.value)
  {
    hide EntriesOk, ListsOk, ChanOk;
    var c := s.threads[t].pc.c;
    assert PcOk(s, t, s.threads[t].op, s.threads[t].pc);
    assert CallOk(s.calls[c]);
    var s' := CallStep(s, t, c, o, w).value;
    MildStep(s, s', t, c, s'.calls[c]);
  }

  lemma FnStepOk(s: State, t: Tid, o: Outcome, w: Tid)
    requires Ready(s, t) && s.threads[t].pc.InFn?
    ensures s.threads[t].pc.c < |s.calls|
    ensures var next := CallStep(s, t, s.threads[t].pc.c, o, w); next.Some? && Inv(next.value)
  {
    hide EntriesOk, ListsOk, ChanOk;
    var c := s.threads[t].pc.c;
    assert PcOk(s, t, s.threads[t].op, s.threads[t].pc);
    assert CallOk(s.calls[c]);
    var s' := CallStep(s, t, c, o, w).value;
    MildStep(s, s', t, c, s'.calls[c]);
  }

  lemma DeferredStepOk(s: State, t: Tid, o: Outcome, w: Tid)
    requires Ready(s, t) && s.threads[t].pc.Deferred?
    ensures s.threads[t].pc.c < |s.calls|
    ensures var next := CallStep(s, t, s.threads[t].pc.c, o, w); next.Some? && Inv(next.value)
  {
    hide EntriesOk, ListsOk, ChanOk;
    var c := s.threads[t].pc.c;
    assert PcOk(s, t, s.threads[t].op, s.threads[t].pc);
    assert CallOk(s.calls[c]);
    var s' := CallStep(s, t, c, o, w).value;
    MildStep(s, s', t, c, s'.calls[c]);
  }

  lemma WgDoneStepOk(s: State, t: Tid, o: Outcome, w: Tid)
    requires Ready(s, t) && s.threads[t].pc.WgDone?
    ensures s.threads[t].pc.c < |s.calls|
    ensures var next := CallStep(s, t, s.threads[t].pc.c, o, w); next.Some? && Inv(next.value)
  {
    hide EntriesOk, ListsOk, ChanOk;
    var c := s.threads[t].pc.c;
    assert PcOk(s, t, s.threads[t].op, s.threads[t].pc);
    assert CallOk(s.calls[c]);
    var s' := CallStep(s, t, c, o, w).value;
    MildStep(s, s', t, c, s'.calls[c]);
  }

  lemma JoinerStepOk(s: State, t: Tid, o: Outcome, w: Tid)
    requires Ready(s, t)
    requires var pc := s.threads[t].pc; pc.Wait? || pc.Wake? || pc.Lead? || pc.DoneLock?
    ensures s.threads[t].pc.c < |s.calls|
    ensures var next := CallStep(s, t, s.threads[t].pc.c, o, w); next.Some? ==> Inv(next.value)
  {
    hide EntriesOk, ListsOk, ChanOk, CallOk;
    var c := s.threads[t].pc.c;
    assert PcOk(s, t, s.threads[t].op, s.threads[t].pc);
    if CallStep(s, t, c, o, w).Some? {
      ThreadStep(s, CallStep(s, t, c, o, w).value, t);
    }
  }

  lemma LockStepOk(s: State, t: Tid, o: Outcome, w: Tid)
    requires Ready(s, t)
    requires var pc := s.threads[t].pc; pc.Lock? || pc.Unlock?
    ensures MapOk(s) && (Step1(s, t, o, w).Some? ==> Inv(Step1(s, t, o, w).value))
  {
    hide ListsOk, ChanOk, CallOk;
    assert PcOk(s, t, s.threads[t].op, s.threads[t].pc);
    if Step1(s, t, o, w).Some? {
      var s' := Step1(s, t, o, w).value;
      if s.threads[t].pc.Unlock? { SamePcOk(s, s', t, s.threads[t].op, s.threads[t].pc.next); }
      ThreadStep(s, s', t);
    }
  }

  lemma {:induction false} SamePcOk(s: State, s': State, t: Tid, op: Op, pc: Pc)
    requires s'.calls == s.calls && PcOk(s, t, op, pc)
    ensures PcOk(s', t, op, pc)
    decreases pc
  {
    if pc.Unlock? { SamePcOk(s, s', t, op, pc.next); }
  }

  lemma RunnerFree(call: Call, w: Tid)
    ensures CallOk(call.(runner := w)) <==> CallOk(call)
  {
  }

  lemma SpawnStepOk(s: State, t: Tid, o: Outcome, w: Tid)
    requires Ready(s, t) && s.threads[t].pc.Spawn?
    ensures s.threads[t].pc.c < |s.calls|
    ensures var next := CallStep(s, t, s.threads[t].pc.c, o, w); next.Some? ==> Inv(next.value)
  {
    hide EntriesOk, ListsOk, ChanOk, CallOk;
    var c := s.threads[t].pc.c;
    assert PcOk(s, t, s.threads[t].op, s.threads[t].pc);
    RunnerFree(s.calls[c], w);
    if w !in s.threads {
      var s' := CallStep(s, t, c, o, w).value;
      var call' := s.calls[c].(runner := w);
      MildData(s, s', c, call');
      forall u | u in s'.threads ensures PcOk(s', u, s'.threads[u].op, s'.threads[u].pc) {
        if u != t && u != w { OtherPcOk(s, s', t, u, s.threads[u].op, s.threads[u].pc); }
      }
    }
  }

  /** A caller joins the call c: it is counted, and DoChan's new channel goes to the end of the list. */
  ghost predicate Joined(s: State, s': State, c: CallId) {
    && c < |s.calls| && s'.m == s.m
    && var call := s.calls[c];
    && (|| (s'.chans == s.chans && s'.calls == s.calls[c := call.(dups := call.dups + 1, joins := call.joins + 1)])
        || (s'.chans == s.chans + [Chan([], [], c, |call.chans|)]
            && s'.calls == s.calls[c := call.(dups := call.dups + 1, joins := call.joins + 1, chans := call.chans + [|s.chans|])]))
  }

  lemma JoinData(s: State, s': State, c: CallId)
    requires Inv(s) && Joined(s, s', c) && Active(s.calls[c])
    ensures forall j :: 0 <= j < |s'.calls| ==> CallOk(s'.calls[j])
    ensures EntriesOk(s') && ListsOk(s') && forall ch :: 0 <= ch < |s'.chans| ==> ChanOk(s', ch)
  {
    assert CallOk(s.calls[c]);
    forall ch | 0 <= ch < |s'.chans| ensures ChanOk(s', ch) {
      if ch < |s.chans| { assert ChanOk(s, ch); }
    }
  }

  /** A caller starts a new call, alone or with DoChan's channel. */
  ghost predicate Led(s: State, s': State, key: Key, t: Tid) {
    && key !in s.m && s'.m == s.m[key := |s.calls|]
    && (|| (s'.chans == s.chans && s'.calls == s.calls + [NewCall(key, t, [])])
        || (s'.chans == s.chans + [Chan([], [], |s.calls|, 0)] && s'.calls == s.calls + [NewCall(key, t, [|s.chans|])]))
  }

  lemma LeadData(s: State, s': State, key: Key, t: Tid)
    requires Inv(s) && Led(s, s', key, t)
    ensures forall j :: 0 <= j < |s'.calls| ==> CallOk(s'.calls[j])
    ensures EntriesOk(s') && ListsOk(s') && forall ch :: 0 <= ch < |s'.chans| ==> ChanOk(s', ch)
  {
    hide PcOk;
    forall ch | 0 <= ch < |s'.chans| ensures ChanOk(s', ch) {
      if ch < |s.chans| { assert ChanOk(s, ch); }
    }
  }

  lemma ForgetData(s: State, s': State, key: Key)
    requires Inv(s) && s'.chans == s.chans && s'.m == s.m - {key}
    requires s'.calls == if key in s.m && s.m[key] < |s.calls| then s.calls[s.m[key] := s.calls[s.m[key]].(forgotten := true)] else s.calls
    ensures forall j :: 0 <= j < |s'.calls| ==> CallOk(s'.calls[j])
    ensures EntriesOk(s') && ListsOk(s') && forall ch :: 0 <= ch < |s'.chans| ==> ChanOk(s', ch)
  {
    forall ch | 0 <= ch < |s'.chans| ensures ChanOk(s', ch) { assert ChanOk(s, ch); }
  }

  lemma ForgetStepOk(s: State, t: Tid)
    requires Ready(s, t) && s.threads[t].pc.Body? && s.threads[t].op.Forget?
    ensures MapOk(s) && Inv(BodyStep(s, t))
  {
    KeyPositions(s);
    hide ListsOk, ChanOk, CallOk, EntriesOk;
    var s' := BodyStep(s, t);
    ForgetData(s, s', s.threads[t].op.key);
    Combine(s, s', t);
  }

  lemma JoinStepOk(s: State, t: Tid)
    requires Ready(s, t) && s.threads[t].pc.Body? && (s.threads[t].op.Do? || s.threads[t].op.DoChan?)
    requires s.threads[t].op.key in s.m
    ensures MapOk(s) && Inv(BodyStep(s, t))
  {
    KeyPositions(s);
    hide ListsOk, ChanOk, CallOk, EntriesOk;
    var op := s.threads[t].op;
    var s' := BodyStep(s, t);
    JoinData(s, s', s.m[op.key]);
    Combine(s, s', t);
  }

  lemma LeadStepOk(s: State, t: Tid)
    requires Ready(s, t) && s.threads[t].pc.Body? && (s.threads[t].op.Do? || s.threads[t].op.DoChan?)
    requires s.threads[t].op.key !in s.m
    ensures MapOk(s) && Inv(BodyStep(s, t))
  {
    KeyPositions(s);
    hide ListsOk, ChanOk, CallOk, EntriesOk;
    var op := s.threads[t].op;
    var s' := BodyStep(s, t);
    LeadData(s, s', op.key, t);
    Combine(s, s', t);
  }

  lemma BodyStepOk(s: State, t: Tid)
    requires Ready(s, t) && s.threads[t].pc.Body?
    ensures MapOk(s) && Inv(BodyStep(s, t))
  {
    hide BodyStep, Inv, MapOk;
    BodyOp(s, t);
    if s.threads[t].op.Forget? {
      ForgetStepOk(s, t);
    } else if s.threads[t].op.key in s.m {
      JoinStepOk(s, t);
    } else {
      LeadStepOk(s, t);
    }
  }

  lemma BodyOp(s: State, t: Tid)
    requires Ready(s, t) && s.threads[t].pc.Body?
    ensures !s.threads[t].op.Worker?
  {
    assert PcOk(s, t, s.threads[t].op, Body);
  }

  lemma DeleteData(s: State, s': State, c: CallId, stage: Stage)
    requires Inv(s) && c < |s.calls| && s.calls[c].stage.Done? && s'.chans == s.chans
    requires s'.m == if s.calls[c].forgotten then s.m else s.m - {s.calls[c].key}
    requires s'.calls == s.calls[c := s.calls[c].(stage := stage)]
    requires stage == if Normally(s.calls[c]) then Sending(0) else Closed
    ensures forall j :: 0 <= j < |s'.calls| ==> CallOk(s'.calls[j])
    ensures EntriesOk(s') && ListsOk(s') && forall ch :: 0 <= ch < |s'.chans| ==> ChanOk(s', ch)
  {
    assert CallOk(s.calls[c]);
    forall ch | 0 <= ch < |s'.chans| ensures ChanOk(s', ch) { assert ChanOk(s, ch); }
  }

  lemma DeleteStepOk(s: State, t: Tid, c: CallId)
    requires Ready(s, t) && s.threads[t].pc == Delete(c)
    ensures c < |s.calls| && Inv(DeleteStep(s, t, c))
  {
    hide EntriesOk, ListsOk, ChanOk;
    assert PcOk(s, t, s.threads[t].op, s.threads[t].pc);
    var s' := DeleteStep(s, t, c);
    assert CallOk(s.calls[c]);
    DeleteData(s, s', c, s'.calls[c].stage);
    Combine(s, s', t);
  }

  /** A send to a channel of a call that is sending finds the channel empty. */
  lemma ChannelEmpty(s: State, c: CallId, i: nat)
    requires Inv(s) && c < |s.calls| && s.calls[c].stage == Sending(i) && i < |s.calls[c].chans|
    ensures s.calls[c].chans[i] < |s.chans| && s.chans[s.calls[c].chans[i]].buffer == [] == s.chans[s.calls[c].chans[i]].sent
    ensures s.chans[s.calls[c].chans[i]].call == c && s.chans[s.calls[c].chans[i]].index == i
  {
    var ch := s.calls[c].chans[i];
    assert ch < |s.chans| && s.chans[ch].call == c && s.chans[ch].index == i;
    assert ChanOk(s, ch);
  }

  lemma SendData(s: State, s': State, c: CallId, i: nat)
    requires Inv(s) && c < |s.calls| && s.calls[c].stage == Sending(i) && s'.m == s.m && Normally(s.calls[c])
    requires if i < |s.calls[c].chans| then
               && s.calls[c].chans[i] < |s.chans|
               && s'.chans == s.chans[s.calls[c].chans[i] := s.chans[s.calls[c].chans[i]].(buffer := [Report(s.calls[c])], sent := [Report(s.calls[c])])]
               && s'.calls == s.calls[c := s.calls[c].(stage := Sending(i + 1))]
             else s'.chans == s.chans && s'.calls == s.calls[c := s.calls[c].(stage := Closed)]
    ensures forall j :: 0 <= j < |s'.calls| ==> CallOk(s'.calls[j])
    ensures EntriesOk(s') && ListsOk(s') && forall ch :: 0 <= ch < |s'.chans| ==> ChanOk(s', ch)
  {
    assert CallOk(s.calls[c]);
    if i < |s.calls[c].chans| { ChannelEmpty(s, c, i); }
    forall ch | 0 <= ch < |s'.chans| ensures ChanOk(s', ch) { assert ChanOk(s, ch); }
  }

  /** The send never blocks, though it is made with the lock held. */
  lemma SendStepOk(s: State, t: Tid, c: CallId, i: nat)
    requires Ready(s, t) && s.threads[t].pc == Send(c, i)
    ensures c < |s.calls| && SendStep(s, t, c, i).Some? && Inv(SendStep(s, t, c, i).value)
  {
    hide EntriesOk, ListsOk, ChanOk;
    assert PcOk(s, t, s.threads[t].op, s.threads[t].pc);
    assert CallOk(s.calls[c]);
    if i < |s.calls[c].chans| {
      ChannelEmpty(s, c, i);
      assert [] + [Report(s.calls[c])] == [Report(s.calls[c])];
    }
    var s' := SendStep(s, t, c, i).value;
    SendData(s, s', c, i);
    Combine(s, s', t);
  }

  /** Every step of every goroutine keeps the invariant. */
  lemma AdvanceInv(s: State, s': State, t: Tid, o: Outcome, w: Tid)
    requires Inv(s) && Advance(s, s', t, o, w)
    ensures Inv(s')
  {
    hide Inv, BodyStep, DeleteStep, SendStep;
    match s.threads[t].pc
    case Lock => LockStepOk(s, t, o, w);
    case Unlock(_) => LockStepOk(s, t, o, w);
    case Body => BodyStepOk(s, t);
    case Wait(_) => JoinerStepOk(s, t, o, w);
    case Wake(_) => JoinerStepOk(s, t, o, w);
    case Lead(_) => JoinerStepOk(s, t, o, w);
    case DoneLock(_) => JoinerStepOk(s, t, o, w);
    case Spawn(_, _) => SpawnStepOk(s, t, o, w);
    case Delete(c) => DeleteStepOk(s, t, c);
    case Send(c, i) => SendStepOk(s, t, c, i);
    case Start(_) => StartStepOk(s, t, o, w);
    case InFn(_) => FnStepOk(s, t, o, w);
    case Deferred(_, _) => DeferredStepOk(s, t, o, w);
    case WgDone(_) => WgDoneStepOk(s, t, o, w);
  }

  lemma OtherInv(s: State, s': State)
    requires Inv(s) && ((exists t, op :: Invoke(s, s', t, op)) || (exists t :: Leave(s, s', t)) || (exists ch :: Receive(s, s', ch)))
    ensures Inv(s')
  {
    hide CallOk;
    forall ch | 0 <= ch < |s'.chans| ensures ChanOk(s', ch) { assert ChanOk(s, ch); }
    forall t | t in s'.threads ensures PcOk(s', t, s'.threads[t].op, s'.threads[t].pc) {
      if t in s.threads { SamePcOk(s, s', t, s.threads[t].op, s.threads[t].pc); }
    }
  }

  lemma StepInv(s: State, s': State)
    requires Inv(s) && Step(s, s')
    ensures Inv(s')
  {
    hide Inv, Advance;
    if t, o, w :| Advance(s, s', t, o, w) {
      AdvanceInv(s, s', t, o, w);
    } else {
      OtherInv(s, s');
    }
  }
}
