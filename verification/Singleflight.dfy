/** The duplicate call suppression of pkg/singleflight/singleflight.go as a step system. Any number of
    goroutines call Do, DoChan and Forget; the lock, each critical section, the run of fn, wg.Done, each
    channel send and the unlock are separate steps, so a caller may join between wg.Done and the delete. */
module Singleflight {
  import opened Common

  type Key(==, !new)
  type Value(==, !new)
  type Error(==, !new)

  type Tid = nat
  type CallId = nat
  type ChanId = nat

  /** How fn ended. As a call's result it stands for the fields val and err. */
  datatype Outcome = Normal(val: Value, err: Error) | Panic | Goexit

  /** How far a call has come; not in the source, and read by no step but the sends' own counter. */
  datatype Stage = Created | Running | Ran | Settled | Done | Sending(n: nat) | Closed

  /** A call record. `stage`, `runner` (the goroutine that runs doCall), `runs` (how often fn was started)
      and `joins` (how many callers joined) record the run and steer no step. */
  datatype Call = Call(key: Key, result: Option<Outcome>, wgDone: bool, forgotten: bool, dups: nat, chans: seq<ChanId>,
                       stage: Stage, runner: Tid, runs: nat, joins: nat)

  datatype Message = Message(val: Value, err: Error, shared: bool)

  /** A channel of capacity 1: what waits in it, and everything ever sent (a record). `call` and `index`
      say where it is listed. */
  datatype Chan = Chan(buffer: seq<Message>, sent: seq<Message>, call: CallId, index: nat)

  datatype Op = Do(key: Key) | DoChan(key: Key) | Forget(key: Key) | Worker

  datatype Ret = Answer(val: Value, err: Error, shared: bool) | Panicked | Exited | Channel(ch: ChanId) | Nothing

  datatype Pc =
    | Lock                              // g.mu.Lock()
    | Body                              // the critical section of Do, DoChan or Forget
    | Unlock(next: Pc)                  // g.mu.Unlock()
    | Wait(c: CallId)                   // c.wg.Wait()
    | Wake(c: CallId)                   // a joiner reads the result
    | Spawn(c: CallId, ch: ChanId)      // go g.doCall(...)
    | Start(c: CallId)                  // about to run fn
    | InFn(c: CallId)                   // fn is running
    | Deferred(c: CallId, exited: bool) // the deferred function, before errGoexit is set
    | WgDone(c: CallId)                 // c.wg.Done()
    | DoneLock(c: CallId)               // g.mu.Lock()
    | Delete(c: CallId)                 // if !c.forgotten { delete(g.m, key) }
    | Send(c: CallId, i: nat)           // ch <- Result{...} for the i-th channel
    | Crashed(c: CallId)                // go panic(e); select {}
    | Lead(c: CallId)                   // the leader of Do reads c.val, c.err, c.dups
    | Finished(ret: Ret)

  datatype Thread = Thread(op: Op, pc: Pc)

  datatype State = State(calls: seq<Call>, m: map<Key, CallId>, chans: seq<Chan>, mu: Option<Tid>, threads: map<Tid, Thread>)

  // ---------- steps ----------

  function Go(s: State, t: Tid, pc: Pc): State
    requires t in s.threads
  {
    s.(threads := s.threads[t := s.threads[t].(pc := pc)])
  }

  function SetCall(s: State, c: CallId, call: Call): State
    requires c < |s.calls|
  {
    s.(calls := s.calls[c := call])
  }

  function NewCall(key: Key, t: Tid, chans: seq<ChanId>): Call {
    Call(key, None, false, false, 0, chans, Created, t, 0, 0)
  }

  /** The critical sections. */
  function BodyStep(s: State, t: Tid): State
    requires t in s.threads && forall k :: k in s.m ==> s.m[k] < |s.calls|
  {
    match s.threads[t].op
    case Do(key) =>
      if key in s.m then
        var c := s.m[key];
        Go(SetCall(s, c, s.calls[c].(dups := s.calls[c].dups + 1, joins := s.calls[c].joins + 1)), t, Unlock(Wait(c)))
      else
        var c := |s.calls|;
        Go(s.(calls := s.calls + [NewCall(key, t, [])], m := s.m[key := c]), t, Unlock(Start(c)))
    case DoChan(key) =>
      var ch := |s.chans|;
      if key in s.m then
        var c := s.m[key];
        var call := s.calls[c];
        var s1 := s.(chans := s.chans + [Chan([], [], c, |call.chans|)]);
        Go(SetCall(s1, c, call.(dups := call.dups + 1, chans := call.chans + [ch], joins := call.joins + 1)), t,
           Unlock(Finished(Channel(ch))))
      else
        var c := |s.calls|;
        Go(s.(chans := s.chans + [Chan([], [], c, 0)], calls := s.calls + [NewCall(key, t, [ch])], m := s.m[key := c]), t,
           Unlock(Spawn(c, ch)))
    case Forget(key) =>
      var s1 := if key in s.m then SetCall(s, s.m[key], s.calls[s.m[key]].(forgotten := true)) else s;
      Go(s1.(m := s1.m - {key}), t, Unlock(Finished(Nothing)))
    case Worker => Go(s, t, Finished(Nothing))
  }

  function AfterDelete(c: CallId, call: Call): Pc {
    match call.result
    case Some(Panic) => if call.chans != [] then Crashed(c) else Unlock(Finished(Panicked))
    case Some(Goexit) => Unlock(Finished(Exited))
    case _ => Send(c, 0)
  }

  function DeleteStep(s: State, t: Tid, c: CallId): State
    requires t in s.threads && c < |s.calls|
  {
    var call := s.calls[c];
    var s1 := if call.forgotten then s else s.(m := s.m - {call.key});
    var sends := call.result.Some? && call.result.value.Normal?;
    Go(SetCall(s1, c, call.(stage := if sends then Sending(0) else Closed)), t, AfterDelete(c, call))
  }

  /** A send blocks while the channel is full. */
  function SendStep(s: State, t: Tid, c: CallId, i: nat): Option<State>
    requires t in s.threads && c < |s.calls|
  {
    var call := s.calls[c];
    if i >= |call.chans| then
      var next := if s.threads[t].op.Do? then Lead(c) else Finished(Nothing);
      Some(Go(SetCall(s, c, call.(stage := Closed)), t, Unlock(next)))
    else if call.chans[i] < |s.chans| && call.result.Some? && call.result.value.Normal? then
      var ch := s.chans[call.chans[i]];
      if |ch.buffer| >= 1 then None
      else
        var msg := Message(call.result.value.val, call.result.value.err, call.dups > 0);
        var s1 := s.(chans := s.chans[call.chans[i] := ch.(buffer := ch.buffer + [msg], sent := ch.sent + [msg])]);
        Some(Go(SetCall(s1, c, call.(stage := Sending(i + 1))), t, Send(c, i + 1)))
    else None
  }

  function WakeRet(call: Call): Ret {
    match call.result
    case Some(Panic) => Panicked
    case Some(Goexit) => Exited
    case Some(Normal(v, e)) => Answer(v, e, true)
    case None => Nothing
  }

  function LeadRet(call: Call): Ret {
    match call.result
    case Some(Normal(v, e)) => Answer(v, e, call.dups > 0)
    case _ => Nothing
  }

  /** A step of a goroutine that works with call c. */
  function CallStep(s: State, t: Tid, c: CallId, o: Outcome, w: Tid): Option<State>
    requires t in s.threads && c < |s.calls|
  {
    var pc, call := s.threads[t].pc, s.calls[c];
    if pc.Wait? then
      if call.wgDone then Some(Go(s, t, Wake(c))) else None
    else if pc.Wake? then
      Some(Go(s, t, Finished(WakeRet(call))))
    else if pc.Spawn? then
      if w in s.threads then None
      else
        var s1 := Go(SetCall(s, c, call.(runner := w)), t, Finished(Channel(pc.ch)));
        Some(s1.(threads := s1.threads[w := Thread(Worker, Start(c))]))
    else if pc.Start? then
      Some(Go(SetCall(s, c, call.(stage := Running, runs := call.runs + 1)), t, InFn(c)))
    else if pc.InFn? then
      Some(Go(SetCall(s, c, call.(stage := Ran, result := if o.Goexit? then call.result else Some(o))), t, Deferred(c, o.Goexit?)))
    else if pc.Deferred? then
      Some(Go(SetCall(s, c, call.(stage := Settled, result := if pc.exited then Some(Goexit) else call.result)), t, WgDone(c)))
    else if pc.WgDone? then
      Some(Go(SetCall(s, c, call.(stage := Done, wgDone := true)), t, DoneLock(c)))
    else if pc.DoneLock? then
      if s.mu.None? then Some(Go(s.(mu := Some(t)), t, Delete(c))) else None
    else if pc.Delete? then
      Some(DeleteStep(s, t, c))
    else if pc.Send? then
      SendStep(s, t, c, pc.i)
    else if pc.Lead? then
      Some(Go(s, t, Finished(LeadRet(call))))
    else
      None
  }

  /** The step of thread t, if it can take one. `o` is how fn ends, `w` the goroutine that `go` starts. */
  function Step1(s: State, t: Tid, o: Outcome, w: Tid): Option<State>
    requires t in s.threads && (forall k :: k in s.m ==> s.m[k] < |s.calls|)
  {
    match s.threads[t].pc
    case Lock => if s.mu.None? then Some(Go(s.(mu := Some(t)), t, Body)) else None
    case Body => Some(BodyStep(s, t))
    case Unlock(next) => Some(Go(s.(mu := None), t, next))
    case Finished(_) => None
    case _ => if s.threads[t].pc.c < |s.calls| then CallStep(s, t, s.threads[t].pc.c, o, w) else None
  }

  ghost predicate MapOk(s: State) { forall k :: k in s.m ==> s.m[k] < |s.calls| }

  ghost predicate Advance(s: State, s': State, t: Tid, o: Outcome, w: Tid) {
    MapOk(s) && t in s.threads && Step1(s, t, o, w) == Some(s')
  }

  ghost predicate Invoke(s: State, s': State, t: Tid, op: Op) {
    t !in s.threads && !op.Worker? && s' == s.(threads := s.threads[t := Thread(op, Lock)])
  }

  /** The caller of a finished operation goes on. */
  ghost predicate Leave(s: State, s': State, t: Tid) {
    t in s.threads && s.threads[t].pc.Finished? && s' == s.(threads := s.threads - {t})
  }

  /** Whoever has a channel takes a message out of it. */
  ghost predicate Receive(s: State, s': State, ch: ChanId) {
    ch < |s.chans| && s.chans[ch].buffer != [] && s' == s.(chans := s.chans[ch := s.chans[ch].(buffer := s.chans[ch].buffer[1..])])
  }

  ghost predicate Init(s: State) { s == State([], map[], [], None, map[]) }

  ghost predicate Step(s: State, s': State) {
    || (exists t, o, w :: Advance(s, s', t, o, w))
    || (exists t, op :: Invoke(s, s', t, op))
    || (exists t :: Leave(s, s', t))
    || (exists ch :: Receive(s, s', ch))
  }

  ghost predicate Run(r: seq<State>) {
    |r| > 0 && Init(r[0]) && forall i :: 0 <= i < |r| - 1 ==> Step(r[i], r[i + 1])
  }
}
