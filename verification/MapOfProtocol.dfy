/** The concurrent map of pkg/generic_sync/map.go as a step system.

    Every atomic load, atomic store, compare-and-swap, lock, locked mutation and
    unlock of the source is one step; any number of threads may be in the middle
    of an operation, and any of them may take the next step.  */
module MapOfProtocol {
  import opened Common

  type Key(==, !new)
  type Value(==, !new)

  type Tid = nat
  type Id = nat

  /** The pointer of an entry: nil, the expunged mark, or a pointer to a value.
      `stamp` tells apart pointers allocated by different calls. */
  datatype Ptr = Nil | Expunged | Val(stamp: nat, v: Value)

  /** An entry; `owner` (the key it was made for) is not in the source and is never read by a step. */
  datatype Entry = Entry(owner: Key, p: Ptr)

  datatype ReadOnly = ReadOnly(m: map<Key, Id>, amended: bool)

  /** The shared memory: the entries, the read snapshot, the dirty map (None is nil), the miss counter. */
  datatype Mem = Mem(ents: seq<Entry>, read: ReadOnly, dirty: Option<map<Key, Id>>, misses: nat)

  datatype Op = Load(key: Key) | Store(key: Key, value: Value) | LoadOrStore(key: Key, value: Value)
              | Delete(key: Key) | Range

  datatype Ret = Got(found: Option<Value>) | Unit | Actual(actual: Value, loaded: bool) | View(seen: map<Key, Value>)

  /** What a thread does once it has released the lock. */
  datatype Next = ToEntry(e: Id) | ToDone(ret: Ret) | ToIter(m: map<Key, Id>)

  /** Program points. The lock is held from Recheck through Unlock. */
  datatype Pc =
    | Start                                   // read.Load(), no lock held
    | AtEntry(e: Id)                          // load e.p, no lock held
    | AtCas(e: Id, p: Ptr)                    // compare-and-swap e.p from p, no lock held
    | Acquire                                 // mu.Lock()
    | Recheck                                 // read.Load() under the lock
    | Unexpunge(e: Id)                        // compare-and-swap e.p from expunged to nil
    | AddDirty(e: Id)                         // dirty[key] = e
    | LockedStore(e: Id)                      // storeLocked
    | LockedEntry(e: Id, miss: bool)          // tryLoadOrStore under the lock: load e.p
    | LockedCas(e: Id, miss: bool)            // ... and its compare-and-swap from nil
    | LookDirty(rd: ReadOnly)                 // e, ok = dirty[key]
    | Miss(next: Next)                        // misses++ and the test against len(dirty)
    | Promote(next: Next)                     // read.Store(dirty)
    | ClearDirty(next: Next)                  // dirty = nil
    | ResetMisses(next: Next)                 // misses = 0
    | CheckDirty(rd: ReadOnly)                // dirtyLocked: dirty != nil?
    | ReloadRead(rd: ReadOnly)                // dirtyLocked: read.Load()
    | MakeDirty(rd: ReadOnly, cm: map<Key, Id>)                         // dirty = make(map)
    | Copy(rd: ReadOnly, cm: map<Key, Id>, todo: set<Key>)              // next key of the copy loop
    | ExpungeLoad(rd: ReadOnly, cm: map<Key, Id>, todo: set<Key>, k: Key)
    | ExpungeCas(rd: ReadOnly, cm: map<Key, Id>, todo: set<Key>, k: Key)
    | CopyIn(rd: ReadOnly, cm: map<Key, Id>, todo: set<Key>, k: Key)    // dirty[k] = e
    | SetAmended(rd: ReadOnly)                // read.Store(amended: true)
    | Insert                                  // dirty[key] = newEntry(value)
    | DropDirty                               // delete(dirty, key)
    | Unlock(next: Next)
    | Iter(m: map<Key, Id>, todo: set<Key>, seen: map<Key, Value>)      // the loop of Range
    | Finished(ret: Ret)
    | Broken                                  // assignment to a nil map, or a result that stands for nothing

  /** `start` is the number of states seen before and including the one the call began in. */
  datatype Thread = Thread(op: Op, start: nat, pc: Pc)

  /** `hist` (the abstract map after each step) and `actors` (who took each step) record the
      run; no step reads them. */
  datatype State = State(mem: Mem, lock: Option<Tid>, threads: map<Tid, Thread>,
                         hist: seq<map<Key, Value>>, actors: seq<Tid>)

  // ---------- the plain map the program stands for ----------

  function PtrAt(mem: Mem, e: Id): Ptr {
    if e < |mem.ents| then mem.ents[e].p else Nil
  }

  function ValueOf(p: Ptr): Option<Value> {
    if p.Val? then Some(p.v) else None
  }

  function DirtyMap(mem: Mem): map<Key, Id> {
    if mem.dirty.Some? then mem.dirty.value else map[]
  }

  function Look(mem: Mem, k: Key): Option<Value> {
    if k in mem.read.m then ValueOf(PtrAt(mem, mem.read.m[k]))
    else if k in DirtyMap(mem) then ValueOf(PtrAt(mem, DirtyMap(mem)[k]))
    else None
  }

  function Abs(mem: Mem): map<Key, Value> {
    map k | k in mem.read.m.Keys + DirtyMap(mem).Keys && Look(mem, k).Some? :: Look(mem, k).value
  }

  /** What an operation does to a plain map, and what it returns. */
  function Apply(op: Op, a: map<Key, Value>): map<Key, Value> {
    match op
    case Store(k, v) => a[k := v]
    case LoadOrStore(k, v) => if k in a then a else a[k := v]
    case Delete(k) => a - {k}
    case _ => a
  }

  function Answer(op: Op, a: map<Key, Value>): Ret {
    match op
    case Load(k) => Got(Get(a, k))
    case LoadOrStore(k, v) => if k in a then Actual(a[k], true) else Actual(v, false)
    case Range => View(a)
    case _ => Unit
  }

  // ---------- steps ----------

  datatype LockMove = Keep | Take | Drop
  datatype Move = Blocked | Go(mem: Mem, lock: LockMove, pc: Pc)

  function SetPtr(mem: Mem, e: Id, p: Ptr): Mem {
    if e < |mem.ents| then mem.(ents := mem.ents[e := mem.ents[e].(p := p)]) else mem
  }

  function StartMove(mem: Mem, op: Op): Pc {
    var rd := mem.read;
    match op
    case Range => if rd.amended then Acquire else Iter(rd.m, rd.m.Keys, map[])
    case Load(k) => if k in rd.m then AtEntry(rd.m[k]) else if rd.amended then Acquire else Finished(Got(None))
    case Delete(k) => if k in rd.m then AtEntry(rd.m[k]) else if rd.amended then Acquire else Finished(Unit)
    case Store(k, _) => if k in rd.m then AtEntry(rd.m[k]) else Acquire
    case LoadOrStore(k, _) => if k in rd.m then AtEntry(rd.m[k]) else Acquire
  }

  function EntryMove(mem: Mem, op: Op, e: Id): Pc {
    var p := PtrAt(mem, e);
    match op
    case Load(_) => Finished(Got(ValueOf(p)))
    case Store(_, _) => if p.Expunged? then Acquire else AtCas(e, p)
    case LoadOrStore(_, _) =>
      if p.Expunged? then Acquire else if p.Val? then Finished(Actual(p.v, true)) else AtCas(e, p)
    case Delete(_) => if p.Val? then AtCas(e, p) else Finished(Unit)
    case Range => Broken
  }

  function CasMove(mem: Mem, op: Op, start: nat, e: Id, p: Ptr): Move {
    if PtrAt(mem, e) != p then Go(mem, Keep, AtEntry(e))
    else match op
      case Store(_, v) => Go(SetPtr(mem, e, Val(start, v)), Keep, Finished(Unit))
      case LoadOrStore(_, v) => Go(SetPtr(mem, e, Val(start, v)), Keep, Finished(Actual(v, false)))
      case Delete(_) => Go(SetPtr(mem, e, Nil), Keep, Finished(Unit))
      case _ => Go(mem, Keep, Broken)
  }

  function RecheckMove(mem: Mem, op: Op): Pc {
    var rd := mem.read;
    match op
    case Range => if rd.amended then Promote(ToIter(DirtyMap(mem))) else Unlock(ToIter(rd.m))
    case Load(k) =>
      if k in rd.m then Unlock(ToEntry(rd.m[k]))
      else if rd.amended then LookDirty(rd) else Unlock(ToDone(Got(None)))
    case Delete(k) =>
      if k in rd.m then Unlock(ToEntry(rd.m[k])) else if rd.amended then DropDirty else Unlock(ToDone(Unit))
    case Store(k, _) => if k in rd.m then Unexpunge(rd.m[k]) else LookDirty(rd)
    case LoadOrStore(k, _) => if k in rd.m then Unexpunge(rd.m[k]) else LookDirty(rd)
  }

  function UnexpungeMove(mem: Mem, op: Op, e: Id): Move {
    if PtrAt(mem, e).Expunged? then Go(SetPtr(mem, e, Nil), Keep, AddDirty(e))
    else Go(mem, Keep, if op.Store? then LockedStore(e) else LockedEntry(e, false))
  }

  function LookDirtyMove(mem: Mem, op: Op, rd: ReadOnly): Pc {
    var d := DirtyMap(mem);
    match op
    case Load(k) => Miss(if k in d then ToEntry(d[k]) else ToDone(Got(None)))
    case Store(k, _) => if k in d then LockedStore(d[k]) else if !rd.amended then CheckDirty(rd) else Insert
    case LoadOrStore(k, _) =>
      if k in d then LockedEntry(d[k], true) else if !rd.amended then CheckDirty(rd) else Insert
    case _ => Broken
  }

  function AfterTry(miss: bool, ret: Ret): Pc {
    if miss then Miss(ToDone(ret)) else Unlock(ToDone(ret))
  }

  function LockedEntryMove(mem: Mem, e: Id, miss: bool): Pc {
    match PtrAt(mem, e)
    case Expunged => Broken
    case Nil => LockedCas(e, miss)
    case Val(_, v) => AfterTry(miss, Actual(v, true))
  }

  function PutDirty(mem: Mem, k: Key, e: Id, pc: Pc): Move {
    if mem.dirty.None? then Go(mem, Keep, Broken)
    else Go(mem.(dirty := Some(mem.dirty.value[k := e])), Keep, pc)
  }

  function InsertMove(mem: Mem, op: Op, start: nat): Move
    requires op.Store? || op.LoadOrStore?
  {
    var mem' := mem.(ents := mem.ents + [Entry(op.key, Val(start, op.value))]);
    PutDirty(mem', op.key, |mem.ents|,
             Unlock(ToDone(if op.Store? then Unit else Actual(op.value, false))))
  }

  function NextMove(next: Next): Pc {
    match next
    case ToEntry(e) => AtEntry(e)
    case ToDone(ret) => Finished(ret)
    case ToIter(m) => Iter(m, m.Keys, map[])
  }

  function IterMove(mem: Mem, m: map<Key, Id>, todo: set<Key>, seen: map<Key, Value>, pick: Key): Pc {
    if todo == {} then Finished(View(seen))
    else if pick !in todo || pick !in m then Iter(m, todo, seen)
    else match PtrAt(mem, m[pick])
      case Val(_, v) => Iter(m, todo - {pick}, seen[pick := v])
      case _ => Iter(m, todo - {pick}, seen)
  }

  function ExpungeMove(mem: Mem, pc: Pc): Move
    requires pc.ExpungeLoad? || pc.ExpungeCas? || pc.CopyIn?
  {
    var e := if pc.k in pc.cm then pc.cm[pc.k] else |mem.ents|;
    var rest := Copy(pc.rd, pc.cm, pc.todo - {pc.k});
    match pc
    case ExpungeLoad(rd, cm, todo, k) =>
      Go(mem, Keep, match PtrAt(mem, e)
                    case Nil => ExpungeCas(rd, cm, todo, k)
                    case Expunged => rest
                    case Val(_, _) => CopyIn(rd, cm, todo, k))
    case ExpungeCas(rd, cm, todo, k) =>
      if PtrAt(mem, e).Nil? then Go(SetPtr(mem, e, Expunged), Keep, rest)
      else Go(mem, Keep, ExpungeLoad(rd, cm, todo, k))
    case CopyIn(_, _, _, k) => PutDirty(mem, k, e, rest)
  }

  /** The step of a thread. `pick` is the key that the two loops over a Go map visit next. */
  function Move1(mem: Mem, free: bool, th: Thread, pick: Key): Move {
    match th.pc
    case Start => Go(mem, Keep, StartMove(mem, th.op))
    case AtEntry(e) => Go(mem, Keep, EntryMove(mem, th.op, e))
    case AtCas(e, p) => CasMove(mem, th.op, th.start, e, p)
    case Acquire => if free then Go(mem, Take, Recheck) else Blocked
    case Recheck => Go(mem, Keep, RecheckMove(mem, th.op))
    case Unexpunge(e) => UnexpungeMove(mem, th.op, e)
    case AddDirty(e) =>
      if th.op.Range? then Go(mem, Keep, Broken)
      else PutDirty(mem, th.op.key, e, if th.op.Store? then LockedStore(e) else LockedEntry(e, false))
    case LockedStore(e) =>
      if th.op.Store? then Go(SetPtr(mem, e, Val(th.start, th.op.value)), Keep, Unlock(ToDone(Unit)))
      else Go(mem, Keep, Broken)
    case LockedEntry(e, miss) => Go(mem, Keep, LockedEntryMove(mem, e, miss))
    case LockedCas(e, miss) =>
      if !PtrAt(mem, e).Nil? then Go(mem, Keep, LockedEntry(e, miss))
      else if th.op.LoadOrStore?
      then Go(SetPtr(mem, e, Val(th.start, th.op.value)), Keep, AfterTry(miss, Actual(th.op.value, false)))
      else Go(mem, Keep, Broken)
    case LookDirty(rd) => Go(mem, Keep, LookDirtyMove(mem, th.op, rd))
    case Miss(next) =>
      Go(mem.(misses := mem.misses + 1), Keep,
         if mem.misses + 1 < |DirtyMap(mem)| then Unlock(next) else Promote(next))
    case Promote(next) => Go(mem.(read := ReadOnly(DirtyMap(mem), false)), Keep, ClearDirty(next))
    case ClearDirty(next) => Go(mem.(dirty := None), Keep, ResetMisses(next))
    case ResetMisses(next) => Go(mem.(misses := 0), Keep, Unlock(next))
    case CheckDirty(rd) => Go(mem, Keep, if mem.dirty.Some? then SetAmended(rd) else ReloadRead(rd))
    case ReloadRead(rd) => Go(mem, Keep, MakeDirty(rd, mem.read.m))
    case MakeDirty(rd, cm) => Go(mem.(dirty := Some(map[])), Keep, Copy(rd, cm, cm.Keys))
    case Copy(rd, cm, todo) =>
      Go(mem, Keep, if todo == {} then SetAmended(rd)
                    else if pick in todo then ExpungeLoad(rd, cm, todo, pick) else th.pc)
    case ExpungeLoad(_, _, _, _) => ExpungeMove(mem, th.pc)
    case ExpungeCas(_, _, _, _) => ExpungeMove(mem, th.pc)
    case CopyIn(_, _, _, _) => ExpungeMove(mem, th.pc)
    case SetAmended(rd) => Go(mem.(read := ReadOnly(rd.m, true)), Keep, Insert)
    case Insert => if th.op.Store? || th.op.LoadOrStore? then InsertMove(mem, th.op, th.start) else Go(mem, Keep, Broken)
    case DropDirty =>
      if th.op.Range? then Go(mem, Keep, Broken)
      else Go(mem.(dirty := if mem.dirty.Some? then Some(mem.dirty.value - {th.op.key}) else None), Keep, Unlock(ToDone(Unit)))
    case Unlock(next) => Go(mem, Drop, NextMove(next))
    case Iter(m, todo, seen) => Go(mem, Keep, IterMove(mem, m, todo, seen, pick))
    case Finished(_) => Blocked
    case Broken => Blocked
  }

  function Record(s: State, mem: Mem, t: Tid): State {
    s.(mem := mem, hist := s.hist + [Abs(mem)], actors := s.actors + [t])
  }

  ghost predicate Invoke(s: State, s': State, t: Tid, op: Op) {
    && t !in s.threads
    && s' == Record(s, s.mem, t).(threads := s.threads[t := Thread(op, |s.hist|, Start)])
  }

  ghost predicate Return(s: State, s': State, t: Tid) {
    && t in s.threads && s.threads[t].pc.Finished?
    && s' == Record(s, s.mem, t).(threads := s.threads - {t})
  }

  ghost predicate Advance(s: State, s': State, t: Tid, pick: Key) {
    && t in s.threads
    && var move := Move1(s.mem, s.lock.None?, s.threads[t], pick);
    && move.Go?
    && s' == Record(s, move.mem, t).(
               lock := (match move.lock case Keep => s.lock case Take => Some(t) case Drop => None),
               threads := s.threads[t := s.threads[t].(pc := move.pc)])
  }

  ghost predicate Init(s: State) {
    s == State(Mem([], ReadOnly(map[], false), None, 0), None, map[], [map[]], [])
  }

  ghost predicate Step(s: State, s': State) {
    || (exists t, op :: Invoke(s, s', t, op))
    || (exists t, pick :: Advance(s, s', t, pick))
    || (exists t :: Return(s, s', t))
  }

  ghost predicate Run(r: seq<State>) {
    |r| > 0 && Init(r[0]) && forall i :: 0 <= i < |r| - 1 ==> Step(r[i], r[i + 1])
  }
}
