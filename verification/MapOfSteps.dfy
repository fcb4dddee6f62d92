/** Preservation of the invariant of the concurrent map by every step. */
module MapOfSteps {
  import opened Common
  import opened MapOfProtocol
  import opened MapOfInvariant

  type Hist = seq<map<Key, Value>>

  // ---------- the abstract map ----------

  lemma AbsLook(mem: Mem, k: Key)
    ensures Get(Abs(mem), k) == Look(mem, k)
  {
  }

  lemma AbsIs(mem: Mem, a: map<Key, Value>)
    requires forall k :: Look(mem, k) == Get(a, k)
    ensures Abs(mem) == a
  {
    forall k ensures k in Abs(mem) <==> k in a {
      AbsLook(mem, k);
      assert Look(mem, k) == Get(a, k);
    }
    forall k | k in a ensures Abs(mem)[k] == a[k] {
      AbsLook(mem, k);
      assert Look(mem, k) == Get(a, k);
    }
  }

  lemma AbsSame(mem: Mem, mem': Mem)
    requires forall k :: Look(mem', k) == Look(mem, k)
    ensures Abs(mem') == Abs(mem)
  {
    forall k ensures Look(mem', k) == Get(Abs(mem), k) { AbsLook(mem, k); }
    AbsIs(mem', Abs(mem));
  }

  // ---------- history ----------

  lemma SeenLater(hist: Hist, x: map<Key, Value>, start: nat, k: Key, o: Option<Value>)
    requires Seen(hist, start, k, o)
    ensures Seen(hist + [x], start, k, o)
  {
    var m :| start <= m < |hist| && Get(hist[m], k) == o;
    assert Get((hist + [x])[m], k) == o;
  }

  lemma SeenNow(mem: Mem, hist: Hist, start: nat, k: Key)
    requires start < |hist| && hist[|hist| - 1] == Abs(mem)
    ensures Seen(hist, start, k, Look(mem, k))
  {
    AbsLook(mem, k);
    assert Get(hist[|hist| - 1], k) == Look(mem, k);
  }

  lemma ExplainedLater(hist: Hist, actors: seq<Tid>, t: Tid, th: Thread, ret: Ret, x: map<Key, Value>, u: Tid)
    requires |hist| == |actors| + 1
    requires Explained(hist, actors, t, th, ret)
    ensures Explained(hist + [x], actors + [u], t, th, ret)
  {
    if th.op.Range? {
      forall k: Key ensures Seen(hist + [x], th.start, k, Get(ret.seen, k)) {
        SeenLater(hist, x, th.start, k, Get(ret.seen, k));
      }
    } else {
      var m :| th.start <= m && Point(hist, actors, t, th.op, ret, m);
      assert Point(hist + [x], actors + [u], t, th.op, ret, m);
    }
  }

  /** An answer of the plain map as it is now. */
  lemma ExplainedNow(mem: Mem, hist: Hist, actors: seq<Tid>, t: Tid, th: Thread, ret: Ret)
    requires th.start < |hist| && hist[|hist| - 1] == Abs(mem)
    requires !th.op.Range? && ret == Answer(th.op, Abs(mem)) && Apply(th.op, Abs(mem)) == Abs(mem)
    ensures Explained(hist, actors, t, th, ret)
  {
    assert Point(hist, actors, t, th.op, ret, |hist| - 1);
  }

  /** An answer of the plain map just before this step, whose effect this step makes. */
  lemma ExplainedByStep(mem: Mem, mem': Mem, hist: Hist, actors: seq<Tid>, t: Tid, th: Thread, ret: Ret)
    requires |hist| == |actors| + 1
    requires th.start < |hist| && hist[|hist| - 1] == Abs(mem)
    requires !th.op.Range? && ret == Answer(th.op, Abs(mem)) && Abs(mem') == Apply(th.op, Abs(mem))
    ensures Explained(hist + [Abs(mem')], actors + [t], t, th, ret)
  {
    assert Point(hist + [Abs(mem')], actors + [t], t, th.op, ret, |hist| - 1);
  }

  /** A read-only answer that was right at some moment since the call began. */
  lemma ExplainedBySeen(hist: Hist, actors: seq<Tid>, t: Tid, th: Thread, ret: Ret, o: Option<Value>)
    requires !th.op.Range? && Seen(hist, th.start, th.op.key, o)
    requires th.op.Load? ==> ret == Got(o)
    requires th.op.Delete? ==> o.None? && ret == Unit
    requires th.op.LoadOrStore? ==> o.Some? && ret == Actual(o.value, true)
    requires !th.op.Store?
    ensures Explained(hist, actors, t, th, ret)
  {
    var m :| th.start <= m < |hist| && Get(hist[m], th.op.key) == o;
    assert Apply(th.op, hist[m]) == hist[m];
    assert Point(hist, actors, t, th.op, ret, m);
  }

  // ---------- what a step may do to the memory, as the other threads see it ----------

  ghost predicate Guarantee(mem: Mem, mem': Mem) {
    && |mem.ents| <= |mem'.ents|
    && (forall e :: 0 <= e < |mem.ents| ==> mem'.ents[e].owner == mem.ents[e].owner)
    && (forall k, e :: Owned(mem, k, e) && InRead(mem, k, e) ==>
          InRead(mem', k, e) || (!InMaps(mem', k, e) && PtrAt(mem', e).Expunged? && PtrAt(mem, e).Expunged?))
    && (forall k, e :: Owned(mem, k, e) && !InMaps(mem, k, e) ==>
          !InMaps(mem', k, e) && PtrAt(mem', e) == PtrAt(mem, e))
    && (forall k, e :: Owned(mem, k, e) && k !in mem.read.m && InDirty(mem, k, e) ==>
          Live(mem', k, e) || (!InMaps(mem', k, e) && PtrAt(mem', e) == PtrAt(mem, e) && PtrAt(mem, e).Val?))
  }

  lemma ReadFactStable(mem: Mem, mem': Mem, hist: Hist, x: map<Key, Value>, start: nat, k: Key, e: Id)
    requires Guarantee(mem, mem')
    requires start < |hist| && hist[|hist| - 1] == Abs(mem)
    requires ReadFact(mem, hist, start, k, e)
    ensures ReadFact(mem', hist + [x], start, k, e)
  {
    assert Owned(mem', k, e);
    if InRead(mem, k, e) {
      if !InRead(mem', k, e) {
        SeenNow(mem, hist, start, k);
        SeenLater(hist, x, start, k, None);
      }
    } else {
      SeenLater(hist, x, start, k, None);
    }
  }

  lemma AnyFactStable(mem: Mem, mem': Mem, hist: Hist, x: map<Key, Value>, start: nat, k: Key, e: Id)
    requires Guarantee(mem, mem')
    requires start < |hist| && hist[|hist| - 1] == Abs(mem)
    requires AnyFact(mem, hist, start, k, e)
    ensures AnyFact(mem', hist + [x], start, k, e)
  {
    assert Owned(mem', k, e);
    if Live(mem, k, e) {
      if !Live(mem', k, e) {
        SeenNow(mem, hist, start, k);
        SeenLater(hist, x, start, k, Look(mem, k));
      }
    } else if PtrAt(mem, e).Expunged? {
      SeenLater(hist, x, start, k, None);
    } else {
      SeenLater(hist, x, start, k, ValueOf(PtrAt(mem, e)));
    }
  }

  lemma EntryFactStable(mem: Mem, mem': Mem, hist: Hist, x: map<Key, Value>, start: nat, op: Op, e: Id)
    requires Guarantee(mem, mem')
    requires start < |hist| && hist[|hist| - 1] == Abs(mem)
    requires EntryFact(mem, hist, start, op, e)
    ensures EntryFact(mem', hist + [x], start, op, e)
  {
    if op.Load? {
      AnyFactStable(mem, mem', hist, x, start, op.key, e);
    } else {
      ReadFactStable(mem, mem', hist, x, start, op.key, e);
    }
  }

  lemma IterFactStable(mem: Mem, mem': Mem, hist: Hist, x: map<Key, Value>, start: nat,
                       m: map<Key, Id>, todo: set<Key>, seen: map<Key, Value>)
    requires Guarantee(mem, mem')
    requires start < |hist| && hist[|hist| - 1] == Abs(mem)
    requires IterFact(mem, hist, start, m, todo, seen)
    ensures IterFact(mem', hist + [x], start, m, todo, seen)
  {
    forall k | k in todo ensures k !in seen && ReadFact(mem', hist + [x], start, k, m[k]) {
      ReadFactStable(mem, mem', hist, x, start, k, m[k]);
    }
    forall k: Key | k !in todo ensures Seen(hist + [x], start, k, Get(seen, k)) {
      SeenLater(hist, x, start, k, Get(seen, k));
    }
  }

  lemma NextFactStable(mem: Mem, mem': Mem, hist: Hist, x: map<Key, Value>, actors: seq<Tid>, u: Tid,
                       t: Tid, th: Thread, next: Next)
    requires Guarantee(mem, mem')
    requires |hist| == |actors| + 1 && th.start < |hist| && hist[|hist| - 1] == Abs(mem)
    requires NextFact(mem, hist, actors, t, th, next)
    ensures NextFact(mem', hist + [x], actors + [u], t, th, next)
  {
    match next
    case ToEntry(e) => EntryFactStable(mem, mem', hist, x, th.start, th.op, e);
    case ToDone(ret) => ExplainedLater(hist, actors, t, th, ret, x, u);
    case ToIter(m) => IterFactStable(mem, mem', hist, x, th.start, m, m.Keys, map[]);
  }

  /** What a thread that does not hold the lock may do: nothing, or replace the pointer of an entry
      of the read map that is not expunged by one that is not expunged. */
  ghost predicate Quiet(mem: Mem, mem': Mem) {
    mem' == mem || exists e, p :: QuietSet(mem, mem', e, p)
  }

  ghost predicate QuietSet(mem: Mem, mem': Mem, e: Id, p: Ptr) {
    && e < |mem.ents| && InRead(mem, mem.ents[e].owner, e)
    && !PtrAt(mem, e).Expunged? && !p.Expunged?
    && mem' == SetPtr(mem, e, p)
  }

  lemma QuietGuarantee(mem: Mem, mem': Mem)
    requires Quiet(mem, mem')
    ensures Guarantee(mem, mem')
  {
  }

  lemma QuietShape(mem: Mem, mem': Mem, pending: set<Key>)
    requires Quiet(mem, mem') && Shape(mem, pending)
    ensures Shape(mem', pending)
  {
    forall k | k in mem'.read.m ensures ReadKeyOk(mem', pending, k) {
      assert ReadKeyOk(mem, pending, k);
    }
    forall k | k in DirtyMap(mem')
      ensures Owned(mem', k, DirtyMap(mem')[k]) && (k !in mem'.read.m ==> PtrAt(mem', DirtyMap(mem')[k]).Val?)
    {
      assert Owned(mem, k, DirtyMap(mem)[k]);
    }
  }

  lemma QuietStage(mem: Mem, mem': Mem, st: Stage)
    requires Quiet(mem, mem') && StageOk(mem, st)
    ensures StageOk(mem', st)
  {
    match st
    case Fixing(k) => QuietShape(mem, mem', {k});
    case Copying(todo) => QuietShape(mem, mem', todo);
    case _ => QuietShape(mem, mem', {});
  }

  // ---------- a thread that does not move keeps what it knows ----------

  lemma BystanderOk(mem: Mem, mem': Mem, hist: Hist, actors: seq<Tid>, x: map<Key, Value>, t: Tid, u: Tid, th: Thread)
    requires |hist| == |actors| + 1 && hist[|hist| - 1] == Abs(mem)
    requires Guarantee(mem, mem')
    requires Holds(th.pc) ==> Quiet(mem, mem')
    requires ThreadOk(mem, hist, actors, u, th)
    ensures ThreadOk(mem', hist + [x], actors + [t], u, th)
  {
    match th.pc
    case AtEntry(e) => EntryFactStable(mem, mem', hist, x, th.start, th.op, e);
    case AtCas(e, p) => EntryFactStable(mem, mem', hist, x, th.start, th.op, e);
    case Miss(next) => NextFactStable(mem, mem', hist, x, actors, t, u, th, next);
    case Promote(next) =>
      if !th.op.Range? { NextFactStable(mem, mem', hist, x, actors, t, u, th, next); }
    case ClearDirty(next) => NextFactStable(mem, mem', hist, x, actors, t, u, th, next);
    case ResetMisses(next) => NextFactStable(mem, mem', hist, x, actors, t, u, th, next);
    case Unlock(next) => NextFactStable(mem, mem', hist, x, actors, t, u, th, next);
    case Iter(m, todo, seen) => IterFactStable(mem, mem', hist, x, th.start, m, todo, seen);
    case Finished(ret) => ExplainedLater(hist, actors, u, th, ret, x, t);
    case _ =>
  }
}
