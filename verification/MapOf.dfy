/** The map of pkg/generic_sync/map.go used by one goroutine: every method does to Contents()
    what the operation of a plain map does. MapOfProtocol covers concurrent use. */
module MapOfSequential {
  import opened Common

  type Key(==, !new)
  type Value(==, !new)

  datatype Pointer = Nil | Expunged | Val(v: Value)

  function ValueOf(p: Pointer): Option<Value> {
    if p.Val? then Some(p.v) else None
  }

  class Entry {
    ghost const key: Key
    var p: Pointer

    constructor (ghost key: Key, v: Value)
      ensures this.key == key && p == Val(v)
    {
      this.key := key;
      p := Val(v);
    }

    method Load() returns (value: Option<Value>)
      ensures value == ValueOf(p)
    {
      if p.Nil? || p.Expunged? { return None; }
      return Some(p.v);
    }

    method TryStore(v: Value) returns (ok: bool)
      modifies this
      ensures ok <==> !old(p).Expunged?
      ensures p == if ok then Val(v) else old(p)
    {
      if p.Expunged? { return false; }
      p := Val(v);
      return true;
    }

    method UnexpungeLocked() returns (wasExpunged: bool)
      modifies this
      ensures wasExpunged <==> old(p).Expunged?
      ensures p == if wasExpunged then Nil else old(p)
    {
      wasExpunged := p.Expunged?;
      if wasExpunged { p := Nil; }
    }

    method StoreLocked(v: Value)
      modifies this
      ensures p == Val(v)
    {
      p := Val(v);
    }

    /** `result` is None when the entry is expunged, otherwise the value and whether it was loaded. */
    method TryLoadOrStore(v: Value) returns (result: Option<(Value, bool)>)
      modifies this
      ensures result == (match old(p) case Expunged => None case Nil => Some((v, false)) case Val(w) => Some((w, true)))
      ensures p == if old(p).Nil? then Val(v) else old(p)
    {
      if p.Expunged? { return None; }
      if p.Val? { return Some((p.v, true)); }
      p := Val(v);
      return Some((v, false));
    }

    method Delete() returns (hadValue: bool)
      modifies this
      ensures hadValue <==> old(p).Val?
      ensures p == if hadValue then Nil else old(p)
    {
      hadValue := p.Val?;
      if hadValue { p := Nil; }
    }

    method TryExpungeLocked() returns (isExpunged: bool)
      modifies this
      ensures p == if old(p).Nil? then Expunged else old(p)
      ensures isExpunged <==> p.Expunged?
    {
      if p.Nil? { p := Expunged; }
      return p.Expunged?;
    }
  }

  datatype ReadOnly = ReadOnly(m: map<Key, Entry>, amended: bool)

  class MapOf {
    var read: ReadOnly
    /** A nil dirty map is empty, with `hasDirty` false. */
    var dirty: map<Key, Entry>
    var hasDirty: bool
    var misses: nat

    /** All entries the two maps have ever held. */
    ghost var entries: set<Entry>

    ghost predicate Closed()
      reads this
    {
      && (forall k :: k in read.m ==> read.m[k] in entries && read.m[k].key == k)
      && (forall k :: k in dirty ==> dirty[k] in entries && dirty[k].key == k)
    }

    /** A read entry is expunged exactly when there is a dirty map and it lacks the key. */
    ghost predicate Valid()
      reads this, entries
    {
      && Closed()
      && (read.amended <==> hasDirty) && (!hasDirty ==> dirty == map[])
      && (forall k :: k in read.m ==> (read.m[k].p.Expunged? <==> hasDirty && k !in dirty))
      && (forall k :: k in dirty && k in read.m ==> dirty[k] == read.m[k])
      && (forall k :: k in dirty && k !in read.m ==> dirty[k].p.Val?)
    }

    ghost function Look(k: Key): Option<Value>
      requires Closed()
      reads this, entries
    {
      if k in read.m then ValueOf(read.m[k].p)
      else if k in dirty then ValueOf(dirty[k].p)
      else None
    }

    ghost function Contents(): map<Key, Value>
      requires Closed()
      reads this, entries
    {
      map k | k in read.m.Keys + dirty.Keys && Look(k).Some? :: Look(k).value
    }

    /** The contents are pinned down key by key. */
    lemma ContentsAre(c: map<Key, Value>)
      requires Closed()
      requires forall k :: Look(k) == Get(c, k)
      ensures Contents() == c
    {
      forall k ensures k in Contents() <==> k in c { assert Look(k) == Get(c, k); }
      forall k | k in c ensures Contents()[k] == c[k] { assert Look(k) == Get(c, k); }
    }

    lemma ContentsLook(k: Key)
      requires Closed()
      ensures Get(Contents(), k) == Look(k)
    {
    }

    /** The dirty map holds every live key, so taking it as the read map loses nothing. */
    twostate lemma Promoted()
      requires old(Valid()) && old(hasDirty)
      requires read == ReadOnly(old(dirty), false) && dirty == map[] && !hasDirty && entries == old(entries)
      requires forall e :: e in old(entries) ==> e.p == old(e.p)
      ensures Valid() && Contents() == old(Contents())
    {
      forall k ensures Look(k) == Get(old(Contents()), k) { assert old(Get(Contents(), k) == Look(k)); }
      ContentsAre(old(Contents()));
    }

    /** The zero value of the type. */
    constructor ()
      ensures Valid() && Contents() == map[]
    {
      read, dirty, hasDirty, misses, entries := ReadOnly(map[], false), map[], false, 0, {};
    }

    method Load(key: Key) returns (value: Option<Value>)
      requires Valid()
      modifies this
      ensures Valid() && Contents() == old(Contents()) && entries == old(entries)
      ensures value == Get(old(Contents()), key)
    {
      hide Contents;
      ContentsLook(key);
      var rd := read;
      var e: Option<Entry> := Get(rd.m, key);
      if e.None? && rd.amended {
        e := Get(dirty, key);
        MissLocked();
      }
      if e.None? { return None; }
      value := e.value.Load();
    }

    method Has(key: Key) returns (ok: bool)
      requires Valid()
      modifies this
      ensures Valid() && Contents() == old(Contents()) && entries == old(entries)
      ensures ok <==> key in old(Contents())
    {
      var value := Load(key);
      return value.Some?;
    }

    method Store(key: Key, value: Value)
      requires Valid()
      modifies this, entries
      ensures Valid() && Contents() == old(Contents())[key := value] && fresh(entries - old(entries))
    {
      ghost var c := Contents();
      forall k ensures Get(c, k) == Look(k) { ContentsLook(k); }
      if key in read.m {
        var e := read.m[key];
        var ok := e.TryStore(value);
        if !ok {
          var wasExpunged := e.UnexpungeLocked();
          if wasExpunged { dirty := dirty[key := e]; }
          e.StoreLocked(value);
        }
        forall k ensures Look(k) == Get(c[key := value], k) { assert old(Look(k)) == Get(c, k); }
        ContentsAre(c[key := value]);
      } else if key in dirty {
        dirty[key].StoreLocked(value);
        forall k ensures Look(k) == Get(c[key := value], k) { assert old(Look(k)) == Get(c, k); }
        ContentsAre(c[key := value]);
      } else {
        AddNew(key, value);
      }
    }

    method LoadOrStore(key: Key, value: Value) returns (actual: Value, loaded: bool)
      requires Valid()
      modifies this, entries
      ensures Valid() && fresh(entries - old(entries))
      ensures Get(old(Contents()), key) == if loaded then Some(actual) else None
      ensures !loaded ==> actual == value
      ensures Contents() == if loaded then old(Contents()) else old(Contents())[key := value]
    {
      ghost var c := Contents();
      forall k ensures Get(c, k) == Look(k) { ContentsLook(k); }
      var r;
      if key in read.m {
        var e := read.m[key];
        r := e.TryLoadOrStore(value);
        if r.None? {
          var wasExpunged := e.UnexpungeLocked();
          if wasExpunged { dirty := dirty[key := e]; }
          r := e.TryLoadOrStore(value);
        }
        actual, loaded := r.value.0, r.value.1;
        if loaded {
          forall k ensures Look(k) == Get(c, k) { assert old(Look(k)) == Get(c, k); }
          ContentsAre(c);
        } else {
          forall k ensures Look(k) == Get(c[key := value], k) { assert old(Look(k)) == Get(c, k); }
          ContentsAre(c[key := value]);
        }
      } else if key in dirty {
        r := dirty[key].TryLoadOrStore(value);
        forall k ensures Look(k) == Get(c, k) { assert old(Look(k)) == Get(c, k); }
        ContentsAre(c);
        MissLocked();
        actual, loaded := r.value.0, r.value.1;
      } else {
        AddNew(key, value);
        actual, loaded := value, false;
      }
    }

    /** The branch of Store and LoadOrStore that adds a key found in neither map. */
    method AddNew(key: Key, value: Value)
      requires Valid() && key !in read.m && key !in dirty
      modifies this, entries
      ensures Valid() && fresh(entries - old(entries))
      ensures Contents() == old(Contents())[key := value]
    {
      ghost var c := Contents();
      forall k ensures Get(c, k) == Look(k) { ContentsLook(k); }
      if !read.amended {
        DirtyLocked();
        read := ReadOnly(read.m, true);
      }
      var e := new Entry(key, value);
      dirty := dirty[key := e];
      entries := entries + {e};
      forall k ensures Look(k) == Get(c[key := value], k) { assert old(Look(k)) == Get(c, k); }
      ContentsAre(c[key := value]);
    }

    method Delete(key: Key)
      requires Valid()
      modifies this, entries
      ensures Valid() && Contents() == old(Contents()) - {key}
      ensures entries == old(entries)
      ensures read == old(read) && hasDirty == old(hasDirty)
    {
      if key !in read.m {
        if read.amended { dirty := dirty - {key}; }
      } else {
        var hadValue := read.m[key].Delete();
      }
    }

    /** Promotes the dirty map: the plain map does not change. */
    method MissLocked()
      requires Valid() && hasDirty
      modifies this
      ensures Valid() && Contents() == old(Contents()) && entries == old(entries)
      ensures if old(misses) + 1 < |old(dirty)|
              then read == old(read) && dirty == old(dirty) && misses == old(misses) + 1
              else read == ReadOnly(old(dirty), false) && !hasDirty && misses == 0
    {
      ghost var c := Contents();
      forall k ensures Get(c, k) == Look(k) { ContentsLook(k); }
      misses := misses + 1;
      if misses < |dirty| {
        forall k ensures Look(k) == Get(c, k) { assert old(Look(k)) == Get(c, k); }
        ContentsAre(c);
        return;
      }
      read := ReadOnly(dirty, false);
      dirty, hasDirty := map[], false;
      misses := 0;
      Promoted();
    }

    /** The loop of dirtyLocked: expunges the deleted entries of the read map and collects the others. */
    method CopyLive() returns (d: map<Key, Entry>)
      requires Closed()
      modifies entries
      ensures forall k :: k in read.m ==> read.m[k].p == if old(read.m[k].p).Nil? then Expunged else old(read.m[k].p)
      ensures forall k :: k in d <==> k in read.m && !read.m[k].p.Expunged?
      ensures forall k :: k in d ==> d[k] == read.m[k]
    {
      d := map[];
      var todo := read.m.Keys;
      while todo != {}
        invariant todo <= read.m.Keys
        invariant forall k :: k in read.m ==>
          read.m[k].p == if k !in todo && old(read.m[k].p).Nil? then Expunged else old(read.m[k].p)
        invariant forall k :: k in d <==> k in read.m && k !in todo && !read.m[k].p.Expunged?
        invariant forall k :: k in d ==> d[k] == read.m[k]
        modifies entries
        decreases |todo|
      {
        var k :| k in todo;
        var isExpunged := read.m[k].TryExpungeLocked();
        if !isExpunged { d := d[k := read.m[k]]; }
        todo := todo - {k};
      }
    }

    /** Rebuilds the dirty map. Only the flag `amended` is left for the caller to set. */
    method DirtyLocked()
      requires Valid() && !hasDirty
      modifies this, entries
      ensures hasDirty && read == old(read) && dirty.Keys <= read.m.Keys
      ensures forall k :: k in read.m ==> (read.m[k].p.Expunged? <==> k !in dirty)
      ensures forall k :: k in dirty ==> dirty[k] == read.m[k]
      ensures Closed() && Contents() == old(Contents()) && entries == old(entries)
    {
      ghost var c := Contents();
      forall k ensures Get(c, k) == Look(k) { ContentsLook(k); }
      var d := CopyLive();
      dirty, hasDirty := d, true;
      forall k ensures Look(k) == Get(c, k) { assert old(Look(k)) == Get(c, k); }
      ContentsAre(c);
    }

    /** The part of Range before its loop: afterwards the read map holds every key. */
    method RangeSnapshot() returns (m: map<Key, Entry>)
      requires Valid()
      modifies this
      ensures Valid() && Contents() == old(Contents()) && entries == old(entries)
      ensures m == read.m && !hasDirty
      ensures forall k :: Get(Contents(), k) == if k in m then ValueOf(m[k].p) else None
    {
      if read.amended {
        read := ReadOnly(dirty, false);
        dirty, hasDirty := map[], false;
        misses := 0;
        Promoted();
      }
      m := read.m;
      forall k ensures Get(Contents(), k) == if k in m then ValueOf(m[k].p) else None { ContentsLook(k); }
    }

    /** Range with a callback that records each pair. */
    method ToMap() returns (ans: map<Key, Value>)
      requires Valid()
      modifies this
      ensures Valid() && Contents() == old(Contents()) && entries == old(entries)
      ensures ans == old(Contents())
    {
      hide Contents, Look;
      var m := RangeSnapshot();
      ghost var c := Contents();
      ans := map[];
      var todo := m.Keys;
      while todo != {}
        invariant todo <= m.Keys
        invariant forall k :: Get(ans, k) == if k in todo then None else Get(c, k)
        modifies {}
        decreases |todo|
      {
        var k :| k in todo;
        var v := m[k].Load();
        assert v == Get(c, k);
        if v.Some? { ans := ans[k := v.value]; }
        todo := todo - {k};
      }
      assert forall k :: Get(ans, k) == Get(c, k);
      assert forall k :: k in ans <==> Get(ans, k).Some?;
      assert forall k :: k in c <==> Get(c, k).Some?;
    }

    /** Range with a callback that deletes each key it is shown. */
    method Clear()
      requires Valid()
      modifies this, entries
      ensures Valid() && Contents() == map[] && entries == old(entries)
    {
      hide Contents;
      var m := RangeSnapshot();
      var todo := m.Keys;
      forall k | k in Contents() ensures k in todo { assert Get(Contents(), k).Some?; }
      while todo != {}
        invariant Valid() && entries == old(entries) && read.m == m && !hasDirty
        invariant todo <= m.Keys
        invariant Contents().Keys <= todo
        decreases |todo|
      {
        var k :| k in todo;
        ContentsLook(k);
        var v := m[k].Load();
        if v.Some? { Delete(k); }
        todo := todo - {k};
      }
    }
  }
}
