/** The calls of any run of the concurrent map of pkg/generic_sync/map.go, put into one sequential order. */
module MapOfOrder {
  import opened MapOfProtocol
  import opened MapOfMoves
  import opened MapOfRuns

  /** A Load, Store, LoadOrStore or Delete with its answer; `tid` and `start` tell calls apart. */
  datatype Call = Call(tid: Tid, start: nat, op: Op, ret: Ret)

  /** The call is in progress at moment n, or finished, and has had its effect. */
  ghost predicate Answered(r: seq<State>, n: nat, c: Call) {
    && n < |r| && c.tid in r[n].threads
    && var th := r[n].threads[c.tid];
    th.start == c.start && th.op == c.op && !th.op.Range? && Committed(th.pc) && RetOf(th.pc) == c.ret
  }

  /** All calls of the run that have had their effect, the finished ones among them. */
  ghost function Calls(r: seq<State>): set<Call> {
    set n: nat, t | n < |r| && t in r[n].threads && !r[n].threads[t].op.Range? && Committed(r[n].threads[t].pc)
      :: Call(t, r[n].threads[t].start, r[n].threads[t].op, RetOf(r[n].threads[t].pc))
  }

  /** The plain map after these calls, one after the other, from the empty map. */
  ghost function Replay(order: seq<Call>): map<Key, Value> {
    if order == [] then map[] else Apply(order[|order| - 1].op, Replay(order[..|order| - 1]))
  }

  /** Each call has the answer that the plain map gives it in its turn. */
  ghost predicate Legal(order: seq<Call>) {
    forall i :: 0 <= i < |order| ==> order[i].ret == Answer(order[i].op, Replay(order[..i]))
  }

  /** No call is in it twice. */
  ghost predicate EachOnce(order: seq<Call>) {
    forall i, j :: 0 <= i < j < |order| ==> order[i].tid != order[j].tid || order[i].start != order[j].start
  }

  /** A call that has its answer before another starts comes before it. */
  ghost predicate InRealTime(r: seq<State>, order: seq<Call>) {
    forall i, j, n: nat :: 0 <= i < |order| && 0 <= j < |order| && Answered(r, n, order[i]) && n < order[j].start ==> i < j
  }

  // ---------- the place of a call ----------

  lemma CallsAnswered(r: seq<State>, c: Call)
    ensures c in Calls(r) <==> exists n: nat :: Answered(r, n, c)
  {
    hide Committed, RetOf;
    if n: nat :| Answered(r, n, c) {
      assert n < |r| && c.tid in r[n].threads;
    }
    if c in Calls(r) {
      var n: nat, t :| n < |r| && t in r[n].threads && !r[n].threads[t].op.Range? && Committed(r[n].threads[t].pc)
        && c == Call(t, r[n].threads[t].start, r[n].threads[t].op, RetOf(r[n].threads[t].pc));
      assert Answered(r, n, c);
    }
  }

  lemma StartsBefore(r: seq<State>, n: nat, t: Tid)
    requires Run(r) && n < |r| && t in r[n].threads
    ensures r[n].threads[t].start <= n
  {
    RunInv(r, n);
  }

  /** A call has one operation and one answer. */
  lemma SameCall(r: seq<State>, n: nat, c: Call, n': nat, c': Call)
    requires Run(r) && Answered(r, n, c) && Answered(r, n', c') && c.tid == c'.tid && c.start == c'.start
    ensures c == c'
  {
    hide Run, Committed, RetOf;
    if n <= n' {
      StartsBefore(r, n, c.tid);
      CallStretch(r, n, n', c.tid);
      CommittedStays(r, n, n', c.tid);
    } else {
      SameCall(r, n', c', n, c);
    }
  }

  /** The first moment at which the call has its answer. */
  ghost function End(r: seq<State>, c: Call, n: nat): (e: nat)
    requires Answered(r, n, c)
    ensures e <= n && Answered(r, e, c) && forall n': nat :: Answered(r, n', c) ==> e <= n'
  {
    if n': nat :| n' < n && Answered(r, n', c) then End(r, c, n') else n
  }

  ghost predicate EffectAt(r: seq<State>, c: Call, e: nat, m: nat) {
    Answered(r, e, c) && TakesEffect(r, e, c.tid, m)
  }

  lemma HasEffect(r: seq<State>, c: Call, e: nat)
    requires Run(r) && Answered(r, e, c)
    ensures exists m: nat :: EffectAt(r, c, e, m)
  {
    hide Run, TakesEffect, Committed, RetOf;
    var m := Linearizable(r, e, c.tid);
    assert EffectAt(r, c, e, m);
  }

  /** The place of a call of the run in the order: 2m if it changes nothing at its moment m, and 2m + 1 if it does. */
  ghost function Place(r: seq<State>, c: Call): nat {
    if n: nat :| Run(r) && Answered(r, n, c) then
      var e := End(r, c, n);
      HasEffect(r, c, e);
      var m: nat :| EffectAt(r, c, e, m);
      Rank(r, e, c.tid, m)
    else 0
  }

  /** The moment m of the call, and whether it changes the plain map there (b is 1) or not (b is 0). */
  ghost predicate PlacedAt(r: seq<State>, c: Call, m: nat, b: nat) {
    && b <= 1 && m + b < |r| && c.start <= m && Place(r, c) == 2 * m + b
    && c.ret == Answer(c.op, Abs(r[m].mem)) && Abs(r[m + b].mem) == Apply(c.op, Abs(r[m].mem))
    && forall n: nat :: Answered(r, n, c) ==> m + b <= n
  }

  lemma PlaceFacts(r: seq<State>, c: Call) returns (e: nat, m: nat, b: nat)
    requires Run(r) && c in Calls(r)
    ensures PlacedAt(r, c, m, b) && EffectAt(r, c, e, m) && Rank(r, e, c.tid, m) == Place(r, c)
    ensures forall n: nat :: Answered(r, n, c) ==> e <= n
  {
    hide Run, Committed, RetOf, Apply, Answer, Abs, Changes, Calls;
    CallsAnswered(r, c);
    var n: nat :| Run(r) && Answered(r, n, c);
    e := End(r, c, n);
    HasEffect(r, c, e);
    m :| EffectAt(r, c, e, m) && Rank(r, e, c.tid, m) == Place(r, c);
    b := Rank(r, e, c.tid, m) - 2 * m;
  }

  /** Two calls at one odd place are one call. */
  lemma OddApart(r: seq<State>, c: Call, d: Call)
    requires Run(r) && c in Calls(r) && d in Calls(r) && Place(r, c) == Place(r, d) && Place(r, c) % 2 == 1
    ensures c == d
  {
    hide Run, Committed, RetOf, Apply, Answer, Abs, Changes, Calls, TakesEffect, Rank, Place;
    var e, m, _ := PlaceFacts(r, c);
    var e', m', _ := PlaceFacts(r, d);
    ChangesApart(r, e, c.tid, m, e', d.tid, m');
    SameCall(r, e, c, e', d);
  }

  /** A step from j that changes the plain map is a call's, which has not had its answer before. */
  lemma ChangerAnswered(r: seq<State>, j: nat) returns (c: Call)
    requires Run(r) && j + 1 < |r| && Abs(r[j + 1].mem) != Abs(r[j].mem)
    ensures Answered(r, j + 1, c) && c.start <= j && Changes(r, j, c.tid) && Abs(r[j + 1].mem) == Apply(c.op, Abs(r[j].mem))
    ensures forall n: nat :: Answered(r, n, c) ==> j < n
  {
    hide Run, RetOf, Abs, Committed, Answer;
    var t := EveryChangeIsOneCall(r, j);
    StartsBefore(r, j, t);
    var th := r[j + 1].threads[t];
    c := Call(t, th.start, th.op, RetOf(th.pc));
    forall n: nat | Answered(r, n, c) ensures j < n {
      if n <= j {
        StartsBefore(r, n, t);
        CommittedStays(r, n, j, t);
      }
    }
  }

  /** Its place is 2j + 1. */
  lemma ChangeHasPlace(r: seq<State>, j: nat) returns (c: Call)
    requires Run(r) && j + 1 < |r| && Abs(r[j + 1].mem) != Abs(r[j].mem)
    ensures c in Calls(r) && Place(r, c) == 2 * j + 1
  {
    hide Run, RetOf, Apply, Answer, Abs, Calls, Place, Committed, Changes;
    c := ChangerAnswered(r, j);
    CallsAnswered(r, c);
    var e, m, b := PlaceFacts(r, c);
    assert m == j;
  }

  /** Where no step changes the plain map it stays as it is. */
  lemma {:induction false} Still(r: seq<State>, lo: nat, hi: nat)
    requires lo <= hi < |r| && forall j: nat :: lo <= j < hi ==> Abs(r[j + 1].mem) == Abs(r[j].mem)
    ensures Abs(r[hi].mem) == Abs(r[lo].mem)
    decreases hi
  {
    hide Abs;
    if lo < hi {
      Still(r, lo, hi - 1);
      assert Abs(r[hi - 1 + 1].mem) == Abs(r[hi - 1].mem);
    }
  }

  // ---------- the order ----------

  /** The calls of the run, each once, by their places. */
  ghost predicate Sorted(r: seq<State>, order: seq<Call>) {
    && (forall c :: c in order <==> c in Calls(r))
    && forall i, j :: 0 <= i < j < |order| ==> order[i] != order[j] && Place(r, order[i]) <= Place(r, order[j])
  }

  lemma {:induction false} SortCalls(r: seq<State>, cs: set<Call>) returns (order: seq<Call>)
    ensures forall c :: c in order <==> c in cs
    ensures forall i, j :: 0 <= i < j < |order| ==> order[i] != order[j] && Place(r, order[i]) <= Place(r, order[j])
    decreases |cs|
  {
    hide *;
    if cs == {} {
      order := [];
    } else {
      var last := LastCall(r, cs);
      var init := SortCalls(r, cs - {last});
      order := init + [last];
      forall i | 0 <= i < |init| ensures init[i] in cs && init[i] != last { assert init[i] in init; }
    }
  }

  lemma {:induction false} LastCall(r: seq<State>, cs: set<Call>) returns (last: Call)
    requires cs != {}
    ensures last in cs && forall c :: c in cs ==> Place(r, c) <= Place(r, last)
    decreases |cs|
  {
    hide *;
    last :| last in cs;
    if cs != {last} {
      var other := LastCall(r, cs - {last});
      if Place(r, last) < Place(r, other) { last := other; }
    }
  }

  /** The moment x lies between the first i calls and the others. */
  ghost predicate Between(r: seq<State>, order: seq<Call>, i: nat, x: nat) {
    forall k :: 0 <= k < |order| ==> if k < i then Place(r, order[k]) <= 2 * x else Place(r, order[k]) >= 2 * x
  }

  /** The call's own moment lies between the calls before it and the others. */
  lemma OwnMoment(r: seq<State>, order: seq<Call>, i: nat) returns (m: nat, b: nat)
    requires Run(r) && Sorted(r, order) && i < |order|
    ensures PlacedAt(r, order[i], m, b) && Between(r, order, i, m)
  {
    hide Run, Place, Calls, EffectAt, Rank;
    assert order[i] in order;
    var e;
    e, m, b := PlaceFacts(r, order[i]);
    forall k | 0 <= k < i ensures Place(r, order[k]) <= 2 * m {
      assert order[k] in order;
      if Place(r, order[k]) == 2 * m + 1 { OddApart(r, order[k], order[i]); }
    }
  }

  /** No step from lo up to x changes the plain map, if the places of calls leave these steps out. */
  lemma NoPlaceNoChange(r: seq<State>, order: seq<Call>, lo: nat, x: nat)
    requires Run(r) && Sorted(r, order) && lo <= x < |r|
    requires forall k :: 0 <= k < |order| ==> Place(r, order[k]) < 2 * lo + 1 || Place(r, order[k]) >= 2 * x
    ensures Abs(r[x].mem) == Abs(r[lo].mem)
  {
    hide Run, Place, Calls, Abs;
    forall j: nat | lo <= j < x ensures Abs(r[j + 1].mem) == Abs(r[j].mem) {
      if Abs(r[j + 1].mem) != Abs(r[j].mem) {
        var c := ChangeHasPlace(r, j);
      }
    }
    Still(r, lo, x);
  }

  /** At a moment between the first i calls and the others, the plain map is what replaying the first i gives. */
  lemma {:induction false} ReplayUpTo(r: seq<State>, order: seq<Call>, i: nat, x: nat)
    requires Run(r) && Sorted(r, order) && i <= |order| && x < |r| && Between(r, order, i, x)
    ensures Replay(order[..i]) == Abs(r[x].mem)
    decreases i
  {
    hide Run, Place, Sorted, Abs, Apply, Answer, Answered;
    if i == 0 {
      EmptyAtFirst(r);
      NoPlaceNoChange(r, order, 0, x);
    } else {
      var m, b := OwnMoment(r, order, i - 1);
      ReplayUpTo(r, order, i - 1, m);
      assert order[..i][..i - 1] == order[..i - 1];
      SortedAt(r, order, i - 1);
      NoPlaceNoChange(r, order, m + b, x);
    }
  }

  lemma SortedAt(r: seq<State>, order: seq<Call>, i: nat)
    requires Sorted(r, order) && i < |order|
    ensures forall k :: 0 <= k < i ==> Place(r, order[k]) <= Place(r, order[i])
  {
    hide Place, Calls;
  }

  lemma EmptyAtFirst(r: seq<State>)
    requires Run(r)
    ensures |r| > 0 && Abs(r[0].mem) == map[]
  {
    hide Step;
    InitHist(r[0]);
  }

  /** Linearizability as one order: the calls that have had their effect can be put one after the other so that
      each is there once, a call that has its answer before another starts comes before it, and replaying them on
      a plain map, from the empty one, gives every call its own answer and ends in the plain map of the last state. */
  lemma SequentialOrder(r: seq<State>) returns (order: seq<Call>)
    requires Run(r)
    ensures forall c :: c in order <==> exists n: nat :: Answered(r, n, c)
    ensures EachOnce(order) && InRealTime(r, order)
    ensures Legal(order) && Replay(order) == Abs(r[|r| - 1].mem)
  {
    hide Run, Place, Calls, Abs, Answered, Answer, Replay;
    EmptyAtFirst(r);
    order := SortCalls(r, Calls(r));
    forall c ensures c in order <==> exists n: nat :: Answered(r, n, c) { CallsAnswered(r, c); }
    OrderOnce(r, order);
    OrderInRealTime(r, order);
    forall i | 0 <= i < |order| ensures order[i].ret == Answer(order[i].op, Replay(order[..i])) {
      var m, b := OwnMoment(r, order, i);
      ReplayUpTo(r, order, i, m);
    }
    forall k | 0 <= k < |order| ensures Place(r, order[k]) <= 2 * (|r| - 1) {
      var m, b := OwnMoment(r, order, k);
    }
    ReplayUpTo(r, order, |order|, |r| - 1);
    assert order[..|order|] == order;
  }

  lemma OrderOnce(r: seq<State>, order: seq<Call>)
    requires Run(r) && Sorted(r, order)
    ensures EachOnce(order)
  {
    hide Run, Place, Calls, Answered;
    forall i, j | 0 <= i < j < |order| ensures order[i].tid != order[j].tid || order[i].start != order[j].start {
      assert order[i] in order && order[j] in order;
      CallsAnswered(r, order[i]);
      CallsAnswered(r, order[j]);
      if order[i].tid == order[j].tid && order[i].start == order[j].start {
        var n: nat :| Answered(r, n, order[i]);
        var n': nat :| Answered(r, n', order[j]);
        SameCall(r, n, order[i], n', order[j]);
      }
    }
  }

  lemma OrderInRealTime(r: seq<State>, order: seq<Call>)
    requires Run(r) && Sorted(r, order)
    ensures InRealTime(r, order)
  {
    hide Run, Place, Calls, Answered, Abs, Apply, Answer;
    forall i, j, n: nat | 0 <= i < |order| && 0 <= j < |order| && Answered(r, n, order[i]) && n < order[j].start
      ensures i < j
    {
      var m, b := OwnMoment(r, order, i);
      var m', b' := OwnMoment(r, order, j);
      SortedAt(r, order, i);
    }
  }
}
