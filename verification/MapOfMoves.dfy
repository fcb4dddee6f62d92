/** What the thread that takes a step does: to the memory, to the abstract map, and to what it knows. */
module MapOfMoves {
  import opened Common
  import opened MapOfProtocol
  import opened MapOfInvariant
  import opened MapOfSteps

  ghost predicate Ready(mem: Mem, hist: Hist, actors: seq<Tid>, t: Tid, th: Thread, st: Stage) {
    && |hist| == |actors| + 1 && hist[|hist| - 1] == Abs(mem)
    && StageOk(mem, st) && (Holds(th.pc) ==> st == StageOf(th))
    && ThreadOk(mem, hist, actors, t, th)
  }

  /** The operation has had its effect and carries its answer. */
  ghost predicate Committed(pc: Pc) {
    match pc
    case Finished(_) => true
    case Unlock(next) => next.ToDone?
    case Miss(next) => next.ToDone?
    case Promote(next) => next.ToDone?
    case ClearDirty(next) => next.ToDone?
    case ResetMisses(next) => next.ToDone?
    case _ => false
  }

  ghost function RetOf(pc: Pc): Ret
    requires Committed(pc)
  {
    match pc
    case Finished(ret) => ret
    case Unlock(next) => next.ret
    case Miss(next) => next.ret
    case Promote(next) => next.ret
    case ClearDirty(next) => next.ret
    case ResetMisses(next) => next.ret
  }

  /** A step leaves the plain map alone, or is the one step that carries out its operation. */
  ghost predicate Effect(mem: Mem, mem': Mem, th: Thread, pc': Pc) {
    && (Committed(th.pc) ==> Abs(mem') == Abs(mem) && Committed(pc') && RetOf(pc') == RetOf(th.pc))
    && (|| Abs(mem') == Abs(mem)
        || (!th.op.Range? && Committed(pc') && RetOf(pc') == Answer(th.op, Abs(mem)) && Abs(mem') == Apply(th.op, Abs(mem))))
  }

  ghost predicate Good(mem: Mem, hist: Hist, actors: seq<Tid>, t: Tid, th: Thread, st: Stage, mem': Mem, pc': Pc) {
    && Guarantee(mem, mem')
    && (!Holds(th.pc) ==> Quiet(mem, mem'))
    && StageOk(mem', if Holds(th.pc) then StageOf(th.(pc := pc')) else st)
    && ThreadOk(mem', hist + [Abs(mem')], actors + [t], t, th.(pc := pc'))
    && Effect(mem, mem', th, pc')
  }

  // ---------- steps that only read ----------

  lemma Stay(mem: Mem, hist: Hist, actors: seq<Tid>, t: Tid, th: Thread, st: Stage, pc': Pc)
    requires Ready(mem, hist, actors, t, th, st)
    requires ThreadOk(mem, hist, actors, t, th.(pc := pc'))
    requires Holds(th.pc) ==> StageOf(th.(pc := pc')) == st
    requires Committed(th.pc) ==> Committed(pc') && RetOf(pc') == RetOf(th.pc)
    ensures Good(mem, hist, actors, t, th, st, mem, pc')
  {
    BystanderOk(mem, mem, hist, actors, Abs(mem), t, t, th.(pc := pc'));
  }

  /** Outside the lock, and when the lock is held in a calm stage, an unamended read map is the whole map. */
  lemma UnamendedIsAll(mem: Mem, st: Stage, k: Key)
    requires StageOk(mem, st) && !mem.read.amended && k !in mem.read.m
    ensures Look(mem, k) == None
  {
  }

  lemma IterStart(mem: Mem, hist: Hist, start: nat, st: Stage)
    requires StageOk(mem, st) && !mem.read.amended
    requires start < |hist| && hist[|hist| - 1] == Abs(mem)
    ensures IterFact(mem, hist, start, mem.read.m, mem.read.m.Keys, map[])
  {
    forall k: Key | k !in mem.read.m.Keys ensures Seen(hist, start, k, Get(map[], k)) {
      UnamendedIsAll(mem, st, k);
      SeenNow(mem, hist, start, k);
    }
    forall k | k in mem.read.m ensures ReadFact(mem, hist, start, k, mem.read.m[k]) {
      assert Owned(mem, k, mem.read.m[k]);
    }
  }

  lemma AnswerAbsent(mem: Mem, op: Op)
    requires (op.Load? || op.Delete?) && Look(mem, op.key) == None
    ensures Apply(op, Abs(mem)) == Abs(mem)
    ensures Answer(op, Abs(mem)) == if op.Load? then Got(None) else Unit
  {
    AbsLook(mem, op.key);
    if op.Delete? { assert Abs(mem) - {op.key} == Abs(mem); }
  }

  lemma StartOk(mem: Mem, hist: Hist, actors: seq<Tid>, t: Tid, th: Thread, st: Stage)
    requires Ready(mem, hist, actors, t, th, st) && th.pc.Start?
    ensures Good(mem, hist, actors, t, th, st, mem, StartMove(mem, th.op))
  {
    var pc' := StartMove(mem, th.op);
    if th.op.Range? {
      if pc'.Iter? { IterStart(mem, hist, th.start, st); }
    } else if th.op.key in mem.read.m {
      assert Owned(mem, th.op.key, mem.read.m[th.op.key]);
    } else if pc'.Finished? {
      UnamendedIsAll(mem, st, th.op.key);
      AnswerAbsent(mem, th.op);
      ExplainedNow(mem, hist, actors, t, th, pc'.ret);
    }
    Stay(mem, hist, actors, t, th, st, pc');
  }

  /** What an entry pointer says about its key, for an entry found in the read map. */
  lemma PointerSeen(mem: Mem, hist: Hist, start: nat, k: Key, e: Id)
    requires start < |hist| && hist[|hist| - 1] == Abs(mem)
    requires AnyFact(mem, hist, start, k, e)
    ensures Seen(hist, start, k, ValueOf(PtrAt(mem, e)))
  {
    if Live(mem, k, e) { SeenNow(mem, hist, start, k); }
  }

  lemma ReadIsAny(mem: Mem, hist: Hist, start: nat, k: Key, e: Id)
    requires ReadFact(mem, hist, start, k, e)
    ensures AnyFact(mem, hist, start, k, e)
  {
  }

  lemma EntryOk(mem: Mem, hist: Hist, actors: seq<Tid>, t: Tid, th: Thread, st: Stage)
    requires Ready(mem, hist, actors, t, th, st) && th.pc.AtEntry?
    ensures !th.op.Range?
    ensures Good(mem, hist, actors, t, th, st, mem, EntryMove(mem, th.op, th.pc.e))
  {
    var e, pc' := th.pc.e, EntryMove(mem, th.op, th.pc.e);
    if !th.op.Load? { ReadIsAny(mem, hist, th.start, th.op.key, e); }
    if pc'.Finished? {
      PointerSeen(mem, hist, th.start, th.op.key, e);
      ExplainedBySeen(hist, actors, t, th, pc'.ret, ValueOf(PtrAt(mem, e)));
    }
    Stay(mem, hist, actors, t, th, st, pc');
  }

  lemma RecheckOk(mem: Mem, hist: Hist, actors: seq<Tid>, t: Tid, th: Thread, st: Stage)
    requires Ready(mem, hist, actors, t, th, st) && th.pc.Recheck?
    ensures Good(mem, hist, actors, t, th, st, mem, RecheckMove(mem, th.op))
  {
    var pc' := RecheckMove(mem, th.op);
    if th.op.Range? {
      if pc'.Unlock? { IterStart(mem, hist, th.start, st); }
    } else if th.op.key in mem.read.m {
      assert Owned(mem, th.op.key, mem.read.m[th.op.key]);
    } else if pc'.Unlock? {
      UnamendedIsAll(mem, st, th.op.key);
      AnswerAbsent(mem, th.op);
      ExplainedNow(mem, hist, actors, t, th, pc'.next.ret);
    }
    Stay(mem, hist, actors, t, th, st, pc');
  }

  lemma LookDirtyOk(mem: Mem, hist: Hist, actors: seq<Tid>, t: Tid, th: Thread, st: Stage)
    requires Ready(mem, hist, actors, t, th, st) && th.pc.LookDirty?
    ensures Good(mem, hist, actors, t, th, st, mem, LookDirtyMove(mem, th.op, th.pc.rd))
  {
    var pc' := LookDirtyMove(mem, th.op, th.pc.rd);
    if th.op.key in DirtyMap(mem) {
      assert Owned(mem, th.op.key, DirtyMap(mem)[th.op.key]);
    } else if th.op.Load? {
      AnswerAbsent(mem, th.op);
      ExplainedNow(mem, hist, actors, t, th, Got(None));
    }
    Stay(mem, hist, actors, t, th, st, pc');
  }

  lemma LockedEntryOk(mem: Mem, hist: Hist, actors: seq<Tid>, t: Tid, th: Thread, st: Stage)
    requires Ready(mem, hist, actors, t, th, st) && th.pc.LockedEntry?
    ensures Good(mem, hist, actors, t, th, st, mem, LockedEntryMove(mem, th.pc.e, th.pc.miss))
  {
    var p := PtrAt(mem, th.pc.e);
    var pc' := LockedEntryMove(mem, th.pc.e, th.pc.miss);
    if p.Val? {
      AbsLook(mem, th.op.key);
      ExplainedNow(mem, hist, actors, t, th, Actual(p.v, true));
    }
    Stay(mem, hist, actors, t, th, st, pc');
  }

  lemma IterOk(mem: Mem, hist: Hist, actors: seq<Tid>, t: Tid, th: Thread, st: Stage, pick: Key)
    requires Ready(mem, hist, actors, t, th, st) && th.pc.Iter?
    ensures Good(mem, hist, actors, t, th, st, mem, IterMove(mem, th.pc.m, th.pc.todo, th.pc.seen, pick))
  {
    hide StageOk;
    var Iter(m, todo, seen) := th.pc;
    var pc' := IterMove(mem, m, todo, seen, pick);
    if pick in todo {
      ReadIsAny(mem, hist, th.start, pick, m[pick]);
      PointerSeen(mem, hist, th.start, pick, m[pick]);
    }
    if pc'.Iter? {
      forall k: Key | k !in pc'.todo ensures Seen(hist, th.start, k, Get(pc'.seen, k)) {
        if k != pick || k !in todo { assert Get(pc'.seen, k) == Get(seen, k); }
      }
    }
    Stay(mem, hist, actors, t, th, st, pc');
  }

  // ---------- steps that set the pointer of an entry ----------

  lemma LookSet(mem: Mem, e: Id, p: Ptr, k: Key, pending: set<Key>)
    requires Shape(mem, pending) && Live(mem, k, e) && Owned(mem, k, e)
    ensures Look(SetPtr(mem, e, p), k) == ValueOf(p)
    ensures forall k' :: k' != k ==> Look(SetPtr(mem, e, p), k') == Look(mem, k')
  {
  }

  /** A value (or nil) put into the live entry of a key changes the plain map at that key only. */
  lemma AbsSet(mem: Mem, e: Id, p: Ptr, k: Key, pending: set<Key>)
    requires Shape(mem, pending) && Live(mem, k, e) && Owned(mem, k, e)
    ensures Abs(SetPtr(mem, e, p)) == (if p.Val? then Abs(mem)[k := p.v] else Abs(mem) - {k})
  {
    var a := if p.Val? then Abs(mem)[k := p.v] else Abs(mem) - {k};
    forall k' ensures Look(SetPtr(mem, e, p), k') == Get(a, k') {
      LookSet(mem, e, p, k, pending);
      AbsLook(mem, k');
    }
    AbsIs(SetPtr(mem, e, p), a);
  }

  lemma StageShape(mem: Mem, st: Stage) returns (pending: set<Key>)
    requires StageOk(mem, st)
    ensures Shape(mem, pending)
  {
    match st
    case Fixing(k) => pending := {k};
    case Copying(todo) => pending := todo;
    case _ => pending := {};
  }

  lemma CasMem(mem: Mem, e: Id, p: Ptr, k: Key, st: Stage)
    requires StageOk(mem, st) && InRead(mem, k, e) && Owned(mem, k, e)
    requires !PtrAt(mem, e).Expunged? && !p.Expunged?
    ensures var mem' := SetPtr(mem, e, p);
            && Quiet(mem, mem') && Guarantee(mem, mem') && StageOk(mem', st)
            && Abs(mem') == (if p.Val? then Abs(mem)[k := p.v] else Abs(mem) - {k})
  {
    var mem' := SetPtr(mem, e, p);
    assert QuietSet(mem, mem', e, p);
    QuietGuarantee(mem, mem');
    QuietStage(mem, mem', st);
    var pending := StageShape(mem, st);
    AbsSet(mem, e, p, k, pending);
  }

  lemma CasHit(mem: Mem, hist: Hist, actors: seq<Tid>, t: Tid, th: Thread, st: Stage, p: Ptr, ret: Ret)
    requires Ready(mem, hist, actors, t, th, st) && th.pc.AtCas? && PtrAt(mem, th.pc.e) == th.pc.p
    requires p == if th.op.Delete? then Nil else Val(th.start, th.op.value)
    requires ret == if th.op.LoadOrStore? then Actual(th.op.value, false) else Unit
    ensures Good(mem, hist, actors, t, th, st, SetPtr(mem, th.pc.e, p), Finished(ret))
  {
    hide Guarantee, StageOk, Abs;
    CasMem(mem, th.pc.e, p, th.op.key, st);
    AbsLook(mem, th.op.key);
    ExplainedByStep(mem, SetPtr(mem, th.pc.e, p), hist, actors, t, th, ret);
  }

  lemma CasOk(mem: Mem, hist: Hist, actors: seq<Tid>, t: Tid, th: Thread, st: Stage)
    requires Ready(mem, hist, actors, t, th, st) && th.pc.AtCas?
    ensures !th.op.Range? && !th.op.Load?
    ensures var move := CasMove(mem, th.op, th.start, th.pc.e, th.pc.p);
            move.Go? && move.lock.Keep? && Good(mem, hist, actors, t, th, st, move.mem, move.pc)
  {
    if PtrAt(mem, th.pc.e) != th.pc.p {
      Stay(mem, hist, actors, t, th, st, AtEntry(th.pc.e));
    } else {
      CasHit(mem, hist, actors, t, th, st,
             if th.op.Delete? then Nil else Val(th.start, th.op.value),
             if th.op.LoadOrStore? then Actual(th.op.value, false) else Unit);
    }
  }

  /** Storing under the lock into a live entry that is not expunged. */
  lemma LockedSetMem(mem: Mem, e: Id, p: Ptr, k: Key)
    requires StageOk(mem, Calm) && Live(mem, k, e) && !PtrAt(mem, e).Expunged? && p.Val?
    ensures var mem' := SetPtr(mem, e, p);
            StageOk(mem', Calm) && Guarantee(mem, mem') && Abs(mem') == Abs(mem)[k := p.v]
  {
    var mem' := SetPtr(mem, e, p);
    if k in mem.read.m { assert ReadKeyOk(mem, {}, k); }
    assert Owned(mem, k, e);
    forall j | j in mem'.read.m ensures ReadKeyOk(mem', {}, j) { assert ReadKeyOk(mem, {}, j); }
    forall j | j in DirtyMap(mem')
      ensures Owned(mem', j, DirtyMap(mem')[j]) && (j !in mem'.read.m ==> PtrAt(mem', DirtyMap(mem')[j]).Val?)
    {
      assert Owned(mem, j, DirtyMap(mem)[j]);
    }
    AbsSet(mem, e, p, k, {});
  }

  lemma LockedStoreOk(mem: Mem, hist: Hist, actors: seq<Tid>, t: Tid, th: Thread, st: Stage)
    requires Ready(mem, hist, actors, t, th, st) && th.pc.LockedStore?
    ensures th.op.Store?
    ensures Good(mem, hist, actors, t, th, st, SetPtr(mem, th.pc.e, Val(th.start, th.op.value)), Unlock(ToDone(Unit)))
  {
    hide Guarantee, StageOk, Abs;
    var e, p := th.pc.e, Val(th.start, th.op.value);
    LockedSetMem(mem, e, p, th.op.key);
    ExplainedByStep(mem, SetPtr(mem, e, p), hist, actors, t, th, Unit);
  }

  lemma LockedCasOk(mem: Mem, hist: Hist, actors: seq<Tid>, t: Tid, th: Thread, st: Stage)
    requires Ready(mem, hist, actors, t, th, st) && th.pc.LockedCas?
    ensures var move := Move1(mem, false, th, th.op.key);
            move.Go? && move.lock.Keep? && Good(mem, hist, actors, t, th, st, move.mem, move.pc)
  {
    hide Guarantee, StageOk, Abs;
    var LockedCas(e, miss) := th.pc;
    if !PtrAt(mem, e).Nil? {
      Stay(mem, hist, actors, t, th, st, LockedEntry(e, miss));
    } else {
      var p := Val(th.start, th.op.value);
      LockedSetMem(mem, e, p, th.op.key);
      AbsLook(mem, th.op.key);
      ExplainedByStep(mem, SetPtr(mem, e, p), hist, actors, t, th, Actual(th.op.value, false));
    }
  }

  lemma UnexpungeMem(mem: Mem, e: Id, k: Key)
    requires StageOk(mem, Calm) && InRead(mem, k, e) && PtrAt(mem, e).Expunged?
    ensures var mem' := SetPtr(mem, e, Nil);
            InRead(mem', k, e) && StageOk(mem', Fixing(k)) && Guarantee(mem, mem') && Abs(mem') == Abs(mem)
  {
    var mem' := SetPtr(mem, e, Nil);
    assert ReadKeyOk(mem, {}, k);
    forall j | j in mem'.read.m ensures ReadKeyOk(mem', {k}, j) { assert ReadKeyOk(mem, {}, j); }
    forall j | j in DirtyMap(mem')
      ensures Owned(mem', j, DirtyMap(mem')[j]) && (j !in mem'.read.m ==> PtrAt(mem', DirtyMap(mem')[j]).Val?)
    {
      assert Owned(mem, j, DirtyMap(mem)[j]);
    }
    AbsSame(mem, mem');
  }

  lemma UnexpungeOk(mem: Mem, hist: Hist, actors: seq<Tid>, t: Tid, th: Thread, st: Stage)
    requires Ready(mem, hist, actors, t, th, st) && th.pc.Unexpunge?
    ensures var move := UnexpungeMove(mem, th.op, th.pc.e);
            move.Go? && move.lock.Keep? && Good(mem, hist, actors, t, th, st, move.mem, move.pc)
  {
    hide Guarantee, StageOk, Abs;
    if PtrAt(mem, th.pc.e).Expunged? {
      UnexpungeMem(mem, th.pc.e, th.op.key);
    } else {
      Stay(mem, hist, actors, t, th, st, UnexpungeMove(mem, th.op, th.pc.e).pc);
    }
  }

  // ---------- steps that change the maps ----------

  lemma AddDirtyMem(mem: Mem, e: Id, k: Key)
    requires StageOk(mem, Fixing(k)) && InRead(mem, k, e)
    ensures mem.dirty.Some?
    ensures var mem' := mem.(dirty := Some(mem.dirty.value[k := e]));
            && InRead(mem', k, e) && !PtrAt(mem', e).Expunged?
            && StageOk(mem', Calm) && Guarantee(mem, mem') && Abs(mem') == Abs(mem)
  {
    var mem' := mem.(dirty := Some(mem.dirty.value[k := e]));
    assert ReadKeyOk(mem, {k}, k);
    forall j | j in mem'.read.m ensures ReadKeyOk(mem', {}, j) { assert ReadKeyOk(mem, {k}, j); }
    AbsSame(mem, mem');
  }

  lemma AddDirtyOk(mem: Mem, hist: Hist, actors: seq<Tid>, t: Tid, th: Thread, st: Stage)
    requires Ready(mem, hist, actors, t, th, st) && th.pc.AddDirty?
    ensures var move := Move1(mem, false, th, th.op.key);
            move.Go? && move.lock.Keep? && Good(mem, hist, actors, t, th, st, move.mem, move.pc)
  {
    hide Guarantee, StageOk, Abs;
    AddDirtyMem(mem, th.pc.e, th.op.key);
  }

  lemma PromoteMem(mem: Mem)
    requires StageOk(mem, Calm) && mem.dirty.Some?
    ensures var mem' := mem.(read := ReadOnly(DirtyMap(mem), false));
            StageOk(mem', Promoted) && Guarantee(mem, mem') && Abs(mem') == Abs(mem)
  {
    var mem' := mem.(read := ReadOnly(DirtyMap(mem), false));
    forall k ensures k in mem.read.m ==> ReadKeyOk(mem, {}, k) {}
    assert Shape(mem', {});
    AbsSame(mem, mem');
  }

  lemma PromoteOk(mem: Mem, hist: Hist, actors: seq<Tid>, t: Tid, th: Thread, st: Stage)
    requires Ready(mem, hist, actors, t, th, st) && th.pc.Promote?
    ensures Good(mem, hist, actors, t, th, st, mem.(read := ReadOnly(DirtyMap(mem), false)), ClearDirty(th.pc.next))
  {
    hide Guarantee, StageOk, Abs, IterFact;
    var mem' := mem.(read := ReadOnly(DirtyMap(mem), false));
    PromoteMem(mem);
    if th.op.Range? {
      IterStart(mem', hist + [Abs(mem')], th.start, Promoted);
    } else {
      NextFactStable(mem, mem', hist, Abs(mem'), actors, t, t, th, th.pc.next);
    }
  }

  lemma ClearDirtyMem(mem: Mem)
    requires StageOk(mem, Promoted)
    ensures var mem' := mem.(dirty := None);
            StageOk(mem', Calm) && Guarantee(mem, mem') && Abs(mem') == Abs(mem)
  {
    var mem' := mem.(dirty := None);
    forall j | j in mem'.read.m ensures ReadKeyOk(mem', {}, j) { assert ReadKeyOk(mem, {}, j); }
    AbsSame(mem, mem');
  }

  lemma ClearDirtyOk(mem: Mem, hist: Hist, actors: seq<Tid>, t: Tid, th: Thread, st: Stage)
    requires Ready(mem, hist, actors, t, th, st) && th.pc.ClearDirty?
    ensures Good(mem, hist, actors, t, th, st, mem.(dirty := None), ResetMisses(th.pc.next))
  {
    hide Guarantee, StageOk, Abs;
    ClearDirtyMem(mem);
    NextFactStable(mem, mem.(dirty := None), hist, Abs(mem.(dirty := None)), actors, t, t, th, th.pc.next);
  }

  lemma MissesMem(mem: Mem, n: nat)
    requires StageOk(mem, Calm)
    ensures var mem' := mem.(misses := n);
            StageOk(mem', Calm) && Guarantee(mem, mem') && Abs(mem') == Abs(mem)
  {
    var mem' := mem.(misses := n);
    forall j | j in mem'.read.m ensures ReadKeyOk(mem', {}, j) { assert ReadKeyOk(mem, {}, j); }
    AbsSame(mem, mem');
  }

  lemma MissesOk(mem: Mem, hist: Hist, actors: seq<Tid>, t: Tid, th: Thread, st: Stage, n: nat, pc': Pc)
    requires Ready(mem, hist, actors, t, th, st)
    requires (th.pc.Miss? && (pc' == Unlock(th.pc.next) || pc' == Promote(th.pc.next))) || (th.pc.ResetMisses? && pc' == Unlock(th.pc.next))
    ensures Good(mem, hist, actors, t, th, st, mem.(misses := n), pc')
  {
    hide Guarantee, StageOk, Abs, EntryFact, IterFact;
    MissesMem(mem, n);
    NextFactStable(mem, mem.(misses := n), hist, Abs(mem.(misses := n)), actors, t, t, th, th.pc.next);
  }

  lemma MakeDirtyMem(mem: Mem)
    requires StageOk(mem, Calm) && mem.dirty.None?
    ensures var mem' := mem.(dirty := Some(map[]));
            StageOk(mem', Copying(mem.read.m.Keys)) && Guarantee(mem, mem') && Abs(mem') == Abs(mem)
  {
    var mem' := mem.(dirty := Some(map[]));
    forall j | j in mem'.read.m ensures ReadKeyOk(mem', mem.read.m.Keys, j) { assert ReadKeyOk(mem, {}, j); }
    AbsSame(mem, mem');
  }

  lemma MakeDirtyOk(mem: Mem, hist: Hist, actors: seq<Tid>, t: Tid, th: Thread, st: Stage)
    requires Ready(mem, hist, actors, t, th, st) && th.pc.MakeDirty?
    ensures Good(mem, hist, actors, t, th, st, mem.(dirty := Some(map[])), Copy(th.pc.rd, th.pc.cm, th.pc.cm.Keys))
  {
    hide Guarantee, StageOk, Abs;
    MakeDirtyMem(mem);
  }

  lemma CopyShape(mem: Mem, mem': Mem, todo: set<Key>, k: Key, e: Id)
    requires StageOk(mem, Copying(todo)) && k in todo && InRead(mem, k, e)
    requires || (PtrAt(mem, e).Nil? && mem' == SetPtr(mem, e, Expunged))
             || mem' == mem.(dirty := Some(mem.dirty.value[k := e]))
    ensures StageOk(mem', Copying(todo - {k})) && Guarantee(mem, mem') && Abs(mem') == Abs(mem)
  {
    assert ReadKeyOk(mem, todo, k);
    forall j | j in mem'.read.m ensures ReadKeyOk(mem', todo - {k}, j) { assert ReadKeyOk(mem, todo, j); }
    forall j | j in DirtyMap(mem') ensures Owned(mem', j, DirtyMap(mem')[j]) {
      if j != k { assert Owned(mem, j, DirtyMap(mem)[j]); }
    }
    AbsSame(mem, mem');
  }

  lemma ExpungeOk(mem: Mem, hist: Hist, actors: seq<Tid>, t: Tid, th: Thread, st: Stage)
    requires Ready(mem, hist, actors, t, th, st) && (th.pc.ExpungeLoad? || th.pc.ExpungeCas? || th.pc.CopyIn?)
    ensures var move := ExpungeMove(mem, th.pc);
            move.Go? && move.lock.Keep? && Good(mem, hist, actors, t, th, st, move.mem, move.pc)
  {
    hide Guarantee, Abs, Shape;
    var move := ExpungeMove(mem, th.pc);
    var k, todo := th.pc.k, th.pc.todo;
    NotExpunged(mem, todo, k);
    if th.pc.CopyIn? {
      CopyShape(mem, move.mem, todo, k, mem.read.m[k]);
    } else if th.pc.ExpungeCas? && PtrAt(mem, mem.read.m[k]).Nil? {
      CopyShape(mem, move.mem, todo, k, mem.read.m[k]);
    } else {
      Stay(mem, hist, actors, t, th, st, move.pc);
    }
  }

  lemma NotExpunged(mem: Mem, todo: set<Key>, k: Key)
    requires StageOk(mem, Copying(todo)) && k in todo
    ensures k in mem.read.m && !PtrAt(mem, mem.read.m[k]).Expunged?
  {
    assert ReadKeyOk(mem, todo, k);
  }

  lemma CopyOk(mem: Mem, hist: Hist, actors: seq<Tid>, t: Tid, th: Thread, st: Stage, pick: Key)
    requires Ready(mem, hist, actors, t, th, st) && (th.pc.Copy? || th.pc.CheckDirty? || th.pc.ReloadRead?)
    ensures var move := Move1(mem, false, th, pick);
            move.Go? && move.lock.Keep? && Good(mem, hist, actors, t, th, st, move.mem, move.pc)
  {
    hide Guarantee, Abs, Shape;
    Stay(mem, hist, actors, t, th, st, Move1(mem, false, th, pick).pc);
  }

  lemma SetAmendedMem(mem: Mem)
    requires StageOk(mem, Copying({}))
    ensures var mem' := mem.(read := ReadOnly(mem.read.m, true));
            && mem'.dirty.Some? && mem'.dirty.value.Keys <= mem'.read.m.Keys
            && StageOk(mem', Calm) && Guarantee(mem, mem') && Abs(mem') == Abs(mem)
  {
    var mem' := mem.(read := ReadOnly(mem.read.m, true));
    forall j | j in mem'.read.m ensures ReadKeyOk(mem', {}, j) { assert ReadKeyOk(mem, {}, j); }
    AbsSame(mem, mem');
  }

  lemma SetAmendedOk(mem: Mem, hist: Hist, actors: seq<Tid>, t: Tid, th: Thread, st: Stage)
    requires Ready(mem, hist, actors, t, th, st) && th.pc.SetAmended?
    ensures Good(mem, hist, actors, t, th, st, mem.(read := ReadOnly(th.pc.rd.m, true)), Insert)
  {
    hide Guarantee, StageOk, Abs;
    SetAmendedMem(mem);
  }

  lemma InsertAbs(mem: Mem, op: Op, start: nat)
    requires Writes(op) && mem.dirty.Some? && op.key !in mem.read.m && op.key !in mem.dirty.value
    requires Shape(mem, {})
    ensures Abs(InsertMove(mem, op, start).mem) == Abs(mem)[op.key := op.value]
  {
    var mem' := InsertMove(mem, op, start).mem;
    forall j ensures Look(mem', j) == Get(Abs(mem)[op.key := op.value], j) {
      AbsLook(mem, j);
      if j in mem.read.m { assert ReadKeyOk(mem, {}, j); }
    }
    AbsIs(mem', Abs(mem)[op.key := op.value]);
  }

  lemma InsertMem(mem: Mem, op: Op, start: nat)
    requires Writes(op) && mem.dirty.Some? && op.key !in mem.read.m && op.key !in mem.dirty.value
    requires StageOk(mem, Calm)
    ensures var mem' := InsertMove(mem, op, start).mem;
            StageOk(mem', Calm) && Guarantee(mem, mem') && Abs(mem') == Abs(mem)[op.key := op.value]
  {
    hide Abs;
    InsertAbs(mem, op, start);
    var k := op.key;
    var mem' := InsertMove(mem, op, start).mem;
    forall j | j in mem'.read.m ensures ReadKeyOk(mem', {}, j) { assert ReadKeyOk(mem, {}, j); }
    forall j | j in DirtyMap(mem')
      ensures Owned(mem', j, DirtyMap(mem')[j]) && (j !in mem'.read.m ==> PtrAt(mem', DirtyMap(mem')[j]).Val?)
    {
      if j != k { assert Owned(mem, j, DirtyMap(mem)[j]); }
    }
  }

  lemma InsertOk(mem: Mem, hist: Hist, actors: seq<Tid>, t: Tid, th: Thread, st: Stage)
    requires Ready(mem, hist, actors, t, th, st) && th.pc.Insert?
    ensures Writes(th.op)
    ensures var move := InsertMove(mem, th.op, th.start);
            move.Go? && move.lock.Keep? && Good(mem, hist, actors, t, th, st, move.mem, move.pc)
  {
    hide Guarantee, StageOk, Abs;
    InsertMem(mem, th.op, th.start);
    AbsLook(mem, th.op.key);
    ExplainedByStep(mem, InsertMove(mem, th.op, th.start).mem, hist, actors, t, th,
                    if th.op.Store? then Unit else Actual(th.op.value, false));
  }

  lemma DropDirtyMem(mem: Mem, k: Key)
    requires StageOk(mem, Calm) && mem.dirty.Some? && k !in mem.read.m
    ensures var mem' := mem.(dirty := Some(mem.dirty.value - {k}));
            StageOk(mem', Calm) && Guarantee(mem, mem') && Abs(mem') == Abs(mem) - {k}
  {
    var mem' := mem.(dirty := Some(mem.dirty.value - {k}));
    forall j | j in mem'.read.m ensures ReadKeyOk(mem', {}, j) { assert ReadKeyOk(mem, {}, j); }
    forall j | j in DirtyMap(mem')
      ensures Owned(mem', j, DirtyMap(mem')[j]) && (j !in mem'.read.m ==> PtrAt(mem', DirtyMap(mem')[j]).Val?)
    {
      assert Owned(mem, j, DirtyMap(mem)[j]);
    }
    forall j ensures Look(mem', j) == Get(Abs(mem) - {k}, j) { AbsLook(mem, j); }
    AbsIs(mem', Abs(mem) - {k});
  }

  lemma DropDirtyOk(mem: Mem, hist: Hist, actors: seq<Tid>, t: Tid, th: Thread, st: Stage)
    requires Ready(mem, hist, actors, t, th, st) && th.pc.DropDirty?
    ensures th.op.Delete? && mem.dirty.Some?
    ensures Good(mem, hist, actors, t, th, st, mem.(dirty := Some(mem.dirty.value - {th.op.key})), Unlock(ToDone(Unit)))
  {
    hide Guarantee, StageOk, Abs;
    var mem' := mem.(dirty := Some(mem.dirty.value - {th.op.key}));
    DropDirtyMem(mem, th.op.key);
    ExplainedByStep(mem, mem', hist, actors, t, th, Unit);
  }

  lemma UnlockOk(mem: Mem, hist: Hist, actors: seq<Tid>, t: Tid, th: Thread, st: Stage)
    requires Ready(mem, hist, actors, t, th, st) && th.pc.Unlock?
    ensures Good(mem, hist, actors, t, th, st, mem, NextMove(th.pc.next))
  {
    Stay(mem, hist, actors, t, th, st, NextMove(th.pc.next));
  }

  lemma AcquireOk(mem: Mem, hist: Hist, actors: seq<Tid>, t: Tid, th: Thread, st: Stage)
    requires Ready(mem, hist, actors, t, th, st) && th.pc.Acquire?
    ensures Good(mem, hist, actors, t, th, st, mem, Recheck)
  {
    Stay(mem, hist, actors, t, th, st, Recheck);
  }

  lemma NotBroken(mem: Mem, hist: Hist, actors: seq<Tid>, t: Tid, th: Thread, st: Stage)
    requires Ready(mem, hist, actors, t, th, st)
    ensures !th.pc.Broken?
  {
  }

  /** The step that t can take, if it can take one, is good, and moves the lock only at Acquire and Unlock. */
  ghost predicate MoveGood(mem: Mem, hist: Hist, actors: seq<Tid>, t: Tid, th: Thread, st: Stage, free: bool, pick: Key) {
    var move := Move1(mem, free, th, pick);
    move.Go? ==>
      && Good(mem, hist, actors, t, th, st, move.mem, move.pc)
      && (move.lock == if th.pc.Acquire? then Take else if th.pc.Unlock? then Drop else Keep)
      && (Holds(move.pc) <==> if th.pc.Acquire? then true else if th.pc.Unlock? then false else Holds(th.pc))
  }

  lemma UnlockedMoveOk(mem: Mem, hist: Hist, actors: seq<Tid>, t: Tid, th: Thread, st: Stage, free: bool, pick: Key)
    requires Ready(mem, hist, actors, t, th, st) && !Holds(th.pc)
    requires free ==> st == Calm
    ensures MoveGood(mem, hist, actors, t, th, st, free, pick)
  {
    hide Good, Ready;
    match th.pc
    case Start => StartOk(mem, hist, actors, t, th, st);
    case AtEntry(_) => EntryOk(mem, hist, actors, t, th, st);
    case AtCas(_, _) => CasOk(mem, hist, actors, t, th, st);
    case Acquire => AcquireOk(mem, hist, actors, t, th, st);
    case Iter(_, _, _) => IterOk(mem, hist, actors, t, th, st, pick);
    case Finished(_) =>
  }

  ghost predicate Building(pc: Pc) {
    || pc.CheckDirty? || pc.ReloadRead? || pc.MakeDirty? || pc.Copy? || pc.ExpungeLoad? || pc.ExpungeCas? || pc.CopyIn?
    || pc.SetAmended? || pc.Insert?
  }

  lemma BuildingMoveOk(mem: Mem, hist: Hist, actors: seq<Tid>, t: Tid, th: Thread, st: Stage, free: bool, pick: Key)
    requires Ready(mem, hist, actors, t, th, st) && Building(th.pc)
    ensures MoveGood(mem, hist, actors, t, th, st, free, pick)
  {
    hide Good, Ready;
    match th.pc
    case MakeDirty(_, _) => MakeDirtyOk(mem, hist, actors, t, th, st);
    case ExpungeLoad(_, _, _, _) => ExpungeOk(mem, hist, actors, t, th, st);
    case ExpungeCas(_, _, _, _) => ExpungeOk(mem, hist, actors, t, th, st);
    case CopyIn(_, _, _, _) => ExpungeOk(mem, hist, actors, t, th, st);
    case SetAmended(_) => SetAmendedOk(mem, hist, actors, t, th, st);
    case Insert => InsertOk(mem, hist, actors, t, th, st);
    case _ => CopyOk(mem, hist, actors, t, th, st, pick);
  }

  ghost predicate Promoting(pc: Pc) {
    pc.Miss? || pc.Promote? || pc.ClearDirty? || pc.ResetMisses? || pc.Unlock? || pc.DropDirty?
  }

  lemma PromotingMoveOk(mem: Mem, hist: Hist, actors: seq<Tid>, t: Tid, th: Thread, st: Stage, free: bool, pick: Key)
    requires Ready(mem, hist, actors, t, th, st) && Promoting(th.pc)
    ensures MoveGood(mem, hist, actors, t, th, st, free, pick)
  {
    hide Good, Ready;
    match th.pc
    case Miss(_) => MissesOk(mem, hist, actors, t, th, st, mem.misses + 1, Move1(mem, free, th, pick).pc);
    case Promote(_) => PromoteOk(mem, hist, actors, t, th, st);
    case ClearDirty(_) => ClearDirtyOk(mem, hist, actors, t, th, st);
    case ResetMisses(next) => MissesOk(mem, hist, actors, t, th, st, 0, Unlock(next));
    case Unlock(_) => UnlockOk(mem, hist, actors, t, th, st);
    case DropDirty => DropDirtyOk(mem, hist, actors, t, th, st);
  }

  lemma LockedMoveOk(mem: Mem, hist: Hist, actors: seq<Tid>, t: Tid, th: Thread, st: Stage, free: bool, pick: Key)
    requires Ready(mem, hist, actors, t, th, st) && Holds(th.pc) && !Building(th.pc) && !Promoting(th.pc)
    ensures MoveGood(mem, hist, actors, t, th, st, free, pick)
  {
    hide Good, Ready;
    match th.pc
    case Recheck => RecheckOk(mem, hist, actors, t, th, st);
    case Unexpunge(_) => UnexpungeOk(mem, hist, actors, t, th, st);
    case AddDirty(_) => AddDirtyOk(mem, hist, actors, t, th, st);
    case LockedStore(_) => LockedStoreOk(mem, hist, actors, t, th, st);
    case LockedEntry(_, _) => LockedEntryOk(mem, hist, actors, t, th, st);
    case LockedCas(_, _) => LockedCasOk(mem, hist, actors, t, th, st);
    case LookDirty(_) => LookDirtyOk(mem, hist, actors, t, th, st);
    case Broken => NotBroken(mem, hist, actors, t, th, st);
  }

  /** Any step of any thread. */
  lemma MoveOk(mem: Mem, hist: Hist, actors: seq<Tid>, t: Tid, th: Thread, st: Stage, free: bool, pick: Key)
    requires Ready(mem, hist, actors, t, th, st)
    requires free && !Holds(th.pc) ==> st == Calm
    ensures MoveGood(mem, hist, actors, t, th, st, free, pick)
  {
    if !Holds(th.pc) {
      UnlockedMoveOk(mem, hist, actors, t, th, st, free, pick);
    } else if Building(th.pc) {
      BuildingMoveOk(mem, hist, actors, t, th, st, free, pick);
    } else if Promoting(th.pc) {
      PromotingMoveOk(mem, hist, actors, t, th, st, free, pick);
    } else {
      LockedMoveOk(mem, hist, actors, t, th, st, free, pick);
    }
  }
}
