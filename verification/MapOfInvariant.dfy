/** The invariant of the concurrent map, and its preservation by every step of every thread. */
module MapOfInvariant {
  import opened Common
  import opened MapOfProtocol

  // ---------- the shape of the shared memory, by phase of the lock holder ----------

  /** Calm: no window is open. Fixing(k): k is unexpunged but not yet in dirty.
      Copying(todo): dirtyLocked has still to visit todo, and read is not yet amended.
      Promoted: dirty has become the read map but is not yet nil. */
  datatype Stage = Calm | Fixing(k: Key) | Copying(todo: set<Key>) | Promoted

  ghost function StageOf(th: Thread): Stage {
    match th.pc
    case AddDirty(_) => if th.op.Range? then Calm else Fixing(th.op.key)
    case Copy(_, _, todo) => Copying(todo)
    case ExpungeLoad(_, _, todo, _) => Copying(todo)
    case ExpungeCas(_, _, todo, _) => Copying(todo)
    case CopyIn(_, _, todo, _) => Copying(todo)
    case SetAmended(_) => Copying({})
    case ClearDirty(_) => Promoted
    case _ => Calm
  }

  ghost predicate Holds(pc: Pc) {
    !(pc.Start? || pc.AtEntry? || pc.AtCas? || pc.Acquire? || pc.Iter? || pc.Finished?)
  }

  ghost predicate InRead(mem: Mem, k: Key, e: Id) { k in mem.read.m && mem.read.m[k] == e }

  ghost predicate InDirty(mem: Mem, k: Key, e: Id) { k in DirtyMap(mem) && DirtyMap(mem)[k] == e }

  ghost predicate Owned(mem: Mem, k: Key, e: Id) { e < |mem.ents| && mem.ents[e].owner == k }

  /** The entry of a key of the read map: missing from dirty and expunged, or in dirty and not expunged;
      a key in `pending` is, for the moment, neither. */
  ghost predicate ReadKeyOk(mem: Mem, pending: set<Key>, k: Key)
    requires k in mem.read.m
  {
    var e := mem.read.m[k];
    && Owned(mem, k, e)
    && (if mem.dirty.None? then !PtrAt(mem, e).Expunged?
        else if k in pending then k !in mem.dirty.value && !PtrAt(mem, e).Expunged?
        else if k in mem.dirty.value then mem.dirty.value[k] == e && !PtrAt(mem, e).Expunged?
        else PtrAt(mem, e).Expunged?)
  }

  ghost predicate Shape(mem: Mem, pending: set<Key>) {
    && (forall k :: k in mem.read.m ==> ReadKeyOk(mem, pending, k))
    && (forall k :: k in DirtyMap(mem) ==> Owned(mem, k, DirtyMap(mem)[k]))
    && (forall k :: k in DirtyMap(mem) && k !in mem.read.m ==> PtrAt(mem, DirtyMap(mem)[k]).Val?)
  }

  ghost predicate StageOk(mem: Mem, st: Stage) {
    match st
    case Calm => (mem.read.amended <==> mem.dirty.Some?) && Shape(mem, {})
    case Fixing(k) => mem.read.amended && mem.dirty.Some? && k in mem.read.m && k !in mem.dirty.value && Shape(mem, {k})
    case Copying(todo) =>
      !mem.read.amended && mem.dirty.Some? && mem.dirty.value.Keys <= mem.read.m.Keys && todo <= mem.read.m.Keys
      && Shape(mem, todo)
    case Promoted => !mem.read.amended && mem.dirty == Some(mem.read.m) && Shape(mem, {})
  }

  // ---------- what a thread knows ----------

  /** At some moment since `start` the abstract map answered `o` for k. */
  ghost predicate Seen(hist: seq<map<Key, Value>>, start: nat, k: Key, o: Option<Value>) {
    exists m :: start <= m < |hist| && Get(hist[m], k) == o
  }

  ghost predicate InMaps(mem: Mem, k: Key, e: Id) { InRead(mem, k, e) || InDirty(mem, k, e) }

  ghost predicate Live(mem: Mem, k: Key, e: Id) {
    InRead(mem, k, e) || (k !in mem.read.m && InDirty(mem, k, e))
  }

  /** An entry found in a read snapshot is still the key's entry, or out of both maps and expunged. */
  ghost predicate ReadFact(mem: Mem, hist: seq<map<Key, Value>>, start: nat, k: Key, e: Id) {
    && Owned(mem, k, e)
    && (InRead(mem, k, e) || (!InMaps(mem, k, e) && PtrAt(mem, e).Expunged? && Seen(hist, start, k, None)))
  }

  /** An entry found in either map may also have been removed from dirty, keeping its last value. */
  ghost predicate AnyFact(mem: Mem, hist: seq<map<Key, Value>>, start: nat, k: Key, e: Id) {
    && Owned(mem, k, e)
    && (|| Live(mem, k, e)
        || (!InMaps(mem, k, e) && PtrAt(mem, e).Expunged? && Seen(hist, start, k, None))
        || (!InMaps(mem, k, e) && PtrAt(mem, e).Val? && Seen(hist, start, k, ValueOf(PtrAt(mem, e)))))
  }

  ghost predicate EntryFact(mem: Mem, hist: seq<map<Key, Value>>, start: nat, op: Op, e: Id) {
    match op
    case Load(k) => AnyFact(mem, hist, start, k, e)
    case Range => false
    case _ => ReadFact(mem, hist, start, op.key, e)
  }

  /** The operation of t takes effect at moment m: its answer is the plain map's answer there, and
      if it changes the plain map, the next step is t's and makes exactly that change. */
  ghost predicate Point(hist: seq<map<Key, Value>>, actors: seq<Tid>, t: Tid, op: Op, ret: Ret, m: nat) {
    && m < |hist|
    && ret == Answer(op, hist[m])
    && (|| Apply(op, hist[m]) == hist[m]
        || (m + 1 < |hist| && m < |actors| && actors[m] == t && hist[m + 1] == Apply(op, hist[m])))
  }

  ghost predicate Explained(hist: seq<map<Key, Value>>, actors: seq<Tid>, t: Tid, th: Thread, ret: Ret) {
    if th.op.Range? then
      ret.View? && forall k: Key :: Seen(hist, th.start, k, Get(ret.seen, k))
    else
      exists m :: th.start <= m && Point(hist, actors, t, th.op, ret, m)
  }

  ghost predicate IterFact(mem: Mem, hist: seq<map<Key, Value>>, start: nat, m: map<Key, Id>, todo: set<Key>, seen: map<Key, Value>) {
    && todo <= m.Keys
    && (forall k :: k in todo ==> k !in seen && ReadFact(mem, hist, start, k, m[k]))
    && (forall k: Key :: k !in todo ==> Seen(hist, start, k, Get(seen, k)))
  }

  ghost predicate NextFact(mem: Mem, hist: seq<map<Key, Value>>, actors: seq<Tid>, t: Tid, th: Thread, next: Next) {
    match next
    case ToEntry(e) => EntryFact(mem, hist, th.start, th.op, e)
    case ToDone(ret) => Explained(hist, actors, t, th, ret)
    case ToIter(m) => th.op.Range? && IterFact(mem, hist, th.start, m, m.Keys, map[])
  }

  ghost predicate Writes(op: Op) { op.Store? || op.LoadOrStore? }

  ghost predicate CopyFact(mem: Mem, op: Op, rd: ReadOnly, cm: map<Key, Id>) {
    Writes(op) && rd.m == mem.read.m == cm && op.key !in rd.m
  }

  ghost predicate ThreadOk(mem: Mem, hist: seq<map<Key, Value>>, actors: seq<Tid>, t: Tid, th: Thread) {
    && th.start < |hist|
    && match th.pc
       case Start => true
       case AtEntry(e) => EntryFact(mem, hist, th.start, th.op, e)
       case AtCas(e, p) =>
         EntryFact(mem, hist, th.start, th.op, e) && !p.Expunged? && !th.op.Load? && (th.op.LoadOrStore? ==> p.Nil?) && (th.op.Delete? ==> p.Val?)
       case Acquire => true
       case Recheck => true
       case Unexpunge(e) => Writes(th.op) && InRead(mem, th.op.key, e)
       case AddDirty(e) => Writes(th.op) && InRead(mem, th.op.key, e)
       case LockedStore(e) => th.op.Store? && Live(mem, th.op.key, e) && !PtrAt(mem, e).Expunged?
       case LockedEntry(e, miss) => th.op.LoadOrStore? && (miss ==> mem.dirty.Some?) && Live(mem, th.op.key, e) && !PtrAt(mem, e).Expunged?
       case LockedCas(e, miss) => th.op.LoadOrStore? && (miss ==> mem.dirty.Some?) && Live(mem, th.op.key, e) && !PtrAt(mem, e).Expunged?
       case LookDirty(rd) => !th.op.Range? && !th.op.Delete? && rd == mem.read && th.op.key !in rd.m && (th.op.Load? ==> rd.amended)
       case Miss(next) => !th.op.Range? && mem.dirty.Some? && NextFact(mem, hist, actors, t, th, next)
       case Promote(next) => mem.dirty.Some? &&
         (if th.op.Range? then next == ToIter(DirtyMap(mem)) else NextFact(mem, hist, actors, t, th, next))
       case ClearDirty(next) => NextFact(mem, hist, actors, t, th, next)
       case ResetMisses(next) => NextFact(mem, hist, actors, t, th, next)
       case CheckDirty(rd) => Writes(th.op) && mem.dirty.None? && rd == mem.read && th.op.key !in rd.m
       case ReloadRead(rd) => Writes(th.op) && mem.dirty.None? && rd == mem.read && th.op.key !in rd.m
       case MakeDirty(rd, cm) => mem.dirty.None? && CopyFact(mem, th.op, rd, cm)
       case Copy(rd, cm, todo) => CopyFact(mem, th.op, rd, cm)
       case ExpungeLoad(rd, cm, todo, k) => k in todo && CopyFact(mem, th.op, rd, cm)
       case ExpungeCas(rd, cm, todo, k) => k in todo && CopyFact(mem, th.op, rd, cm)
       case CopyIn(rd, cm, todo, k) => k in todo && CopyFact(mem, th.op, rd, cm)
       case SetAmended(rd) => CopyFact(mem, th.op, rd, rd.m)
       case Insert => Writes(th.op) && mem.dirty.Some? && th.op.key !in mem.read.m && th.op.key !in mem.dirty.value
       case DropDirty => th.op.Delete? && mem.dirty.Some? && th.op.key !in mem.read.m
       case Unlock(next) => NextFact(mem, hist, actors, t, th, next)
       case Iter(m, todo, seen) => th.op.Range? && IterFact(mem, hist, th.start, m, todo, seen)
       case Finished(ret) => Explained(hist, actors, t, th, ret)
       case Broken => false
  }

  ghost function StageNow(s: State): Stage {
    if s.lock.Some? && s.lock.value in s.threads then StageOf(s.threads[s.lock.value]) else Calm
  }

  ghost predicate Inv(s: State) {
    && |s.hist| == |s.actors| + 1
    && s.hist[|s.hist| - 1] == Abs(s.mem)
    && (forall t :: t in s.threads ==> (Holds(s.threads[t].pc) <==> s.lock == Some(t)))
    && (s.lock.Some? ==> s.lock.value in s.threads)
    && StageOk(s.mem, StageNow(s))
    && (forall t :: t in s.threads ==> ThreadOk(s.mem, s.hist, s.actors, t, s.threads[t]))
  }
}
