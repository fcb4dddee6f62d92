/** addFieldInfo of server/webdav/internal/xml/typeinfo.go: the fields of a struct, seen as XML paths, are
    collected so that no path is in the way of another. */
module TypeInfo {
  import opened Common

  datatype Field = Field(idx: seq<int>, name: string, xmlns: string, flags: bv8, parents: seq<string>)

  /** fElement | fAttr | fCharData | fInnerXml | fComment | fAny */
  const MODE: bv8 := 63

  /** The XML path of a field. */
  function PathOf(f: Field): seq<string> { f.parents + [f.name] }

  /** The fields have the same mode, namespaces that can be the same, and one path begins the other. */
  predicate Conflicting(f: Field, g: Field) {
    && f.flags & MODE == g.flags & MODE
    && (f.xmlns == "" || g.xmlns == "" || f.xmlns == g.xmlns)
    && (PathOf(f) <= PathOf(g) || PathOf(g) <= PathOf(f))
  }

  /** The field takes an XML item of this mode and namespace at this path, or within what is at its own path. */
  predicate Takes(f: Field, mode: bv8, ns: string, path: seq<string>) {
    f.flags & MODE == mode && (f.xmlns == "" || f.xmlns == ns) && PathOf(f) <= path
  }

  /** Two fields conflict exactly when some XML item would be taken by both. */
  lemma ConflictIsShared(f: Field, g: Field)
    ensures Conflicting(f, g) <==> exists mode, ns, path :: Takes(f, mode, ns, path) && Takes(g, mode, ns, path)
  {
    var p, q := PathOf(f), PathOf(g);
    if Conflicting(f, g) {
      var mode, ns, path := f.flags & MODE, if f.xmlns == "" then g.xmlns else f.xmlns, if p <= q then q else p;
      assert Takes(f, mode, ns, path) && Takes(g, mode, ns, path);
    }
    if mode, ns, path :| Takes(f, mode, ns, path) && Takes(g, mode, ns, path) {
      if |p| <= |q| { assert p == path[..|p|] == q[..|p|]; } else { assert q == path[..|q|] == p[..|q|]; }
    }
  }

  predicate Deeper(f: Field, g: Field) { |f.idx| > |g.idx| }

  ghost predicate NoConflicts(fields: seq<Field>) {
    forall i, j :: 0 <= i < j < |fields| ==> !Conflicting(fields[i], fields[j])
  }

  /** The fields that are not in the way of f, in their order. */
  function Without(fields: seq<Field>, f: Field): seq<Field> {
    if fields == [] then []
    else Without(fields[..|fields| - 1], f) + if Conflicting(fields[|fields| - 1], f) then [] else [fields[|fields| - 1]]
  }

  /** Go's rule for embedded fields: a shallower field in the way wins, one at the same depth is an error, and
      deeper ones give way. The error is a field at the same depth. */
  ghost predicate Adds(fields: seq<Field>, f: Field, fields': seq<Field>, err: Option<Field>) {
    if exists g :: g in fields && Conflicting(g, f) && Deeper(f, g) then
      fields' == fields && err == None
    else if exists g :: g in fields && Conflicting(g, f) && |g.idx| == |f.idx| then
      fields' == fields && err.Some? && err.value in fields && Conflicting(err.value, f) && |err.value.idx| == |f.idx|
    else
      fields' == Without(fields, f) + [f] && err == None
  }

  // ---------- the method ----------

  /** The path comparison of the code decides whether one path begins the other. */
  method InTheWay(oldf: Field, newf: Field) returns (r: bool)
    ensures r <==> Conflicting(oldf, newf)
  {
    if oldf.flags & MODE != newf.flags & MODE { return false; }
    if oldf.xmlns != "" && newf.xmlns != "" && oldf.xmlns != newf.xmlns { return false; }
    var minl := if |newf.parents| <= |oldf.parents| then |newf.parents| else |oldf.parents|;
    for p := 0 to minl
      invariant oldf.parents[..p] == newf.parents[..p]
    {
      if oldf.parents[p] != newf.parents[p] {
        assert PathOf(oldf)[p] != PathOf(newf)[p];
        return false;
      }
    }
    PathsMeet(oldf, newf, minl);
    if |oldf.parents| > |newf.parents| {
      r := oldf.parents[|newf.parents|] == newf.name;
    } else if |oldf.parents| < |newf.parents| {
      r := newf.parents[|oldf.parents|] == oldf.name;
    } else {
      r := newf.name == oldf.name;
    }
  }

  lemma PathsMeet(f: Field, g: Field, m: nat)
    requires m == (if |g.parents| <= |f.parents| then |g.parents| else |f.parents|) && f.parents[..m] == g.parents[..m]
    ensures (PathOf(f) <= PathOf(g) || PathOf(g) <= PathOf(f)) <==> PathOf(f)[m] == PathOf(g)[m]
  {
    var p, q := PathOf(f), PathOf(g);
    assert p[..m] == f.parents[..m] && q[..m] == g.parents[..m];
    assert p[..m + 1] == p[..m] + [p[m]] && q[..m + 1] == q[..m] + [q[m]];
  }

  class Info {
    var fields: seq<Field>

    constructor ()
      ensures fields == []
    {
      fields := [];
    }

    /** The first loop: the indices of the fields in the way, in order. */
    method Conflicts(newf: Field) returns (conflicts: seq<nat>)
      ensures forall c, d :: 0 <= c < d < |conflicts| ==> conflicts[c] < conflicts[d]
      ensures forall i: nat :: i in conflicts <==> i < |fields| && Conflicting(fields[i], newf)
    {
      conflicts := [];
      for i := 0 to |fields|
        invariant forall c, d :: 0 <= c < d < |conflicts| ==> conflicts[c] < conflicts[d]
        invariant forall k: nat :: k in conflicts <==> k < i && Conflicting(fields[k], newf)
        invariant forall c :: 0 <= c < |conflicts| ==> conflicts[c] < i
      {
        var inTheWay := InTheWay(fields[i], newf);
        if inTheWay { conflicts := conflicts + [i]; }
      }
    }

    /** addFieldInfo */
    method AddFieldInfo(newf: Field) returns (err: Option<Field>)
      modifies this
      ensures Adds(old(fields), newf, fields, err)
    {
      hide Conflicting;
      var conflicts := Conflicts(newf);
      if |conflicts| == 0 {
        NothingInTheWay(fields, newf);
        fields := fields + [newf];
        return None;
      }
      assert forall c :: 0 <= c < |conflicts| ==> conflicts[c] in conflicts;
      for c := 0 to |conflicts|
        invariant forall d :: 0 <= d < c ==> |fields[conflicts[d]].idx| >= |newf.idx|
      {
        var i := conflicts[c];
        if |fields[i].idx| < |newf.idx| { return None; }
      }
      for c := 0 to |conflicts|
        invariant forall d :: 0 <= d < c ==> |fields[conflicts[d]].idx| > |newf.idx|
      {
        var i := conflicts[c];
        if |fields[i].idx| == |newf.idx| { return Some(fields[i]); }
      }
      forall g | g in fields && Conflicting(g, newf) ensures |g.idx| > |newf.idx| {
        var i :| 0 <= i < |fields| && fields[i] == g;
        var d :| 0 <= d < |conflicts| && conflicts[d] == i;
      }
      Drop(conflicts, newf);
      fields := fields + [newf];
      return None;
    }

    /** The deletion loop, from the last of the indices to the first: the others keep their order. */
    method Drop(conflicts: seq<nat>, ghost newf: Field)
      requires forall c, d :: 0 <= c < d < |conflicts| ==> conflicts[c] < conflicts[d]
      requires forall i: nat :: i in conflicts <==> i < |fields| && Conflicting(fields[i], newf)
      modifies this
      ensures fields == Without(old(fields), newf)
    {
      hide Conflicting, Without;
      var c := |conflicts| - 1;
      ghost var all := fields;
      while c >= 0
        invariant -1 <= c < |conflicts|
        invariant Without(fields, newf) == Without(all, newf)
        invariant var b := if c + 1 < |conflicts| then conflicts[c + 1] else |all|;
                  && b <= |fields| && b <= |all| && fields[..b] == all[..b]
                  && forall k :: b <= k < |fields| ==> !Conflicting(fields[k], newf)
      {
        var i := conflicts[c];
        assert i in conflicts;
        ghost var before := fields;
        ghost var b := if c + 1 < |conflicts| then conflicts[c + 1] else |all|;
        assert all[i] == fields[..b][i];
        forall k: nat | i < k < b ensures !Conflicting(before[k], newf) {
          assert before[..b][k] == all[k];
          NotBetween(conflicts, c, k);
        }
        WithoutDrop(fields, newf, i);
        fields := fields[..i] + fields[i + 1..] + [fields[|fields| - 1]];
        fields := fields[..|fields| - 1];
        assert fields == before[..i] + before[i + 1..];
        c := c - 1;
      }
      ghost var b := if |conflicts| > 0 then conflicts[0] else |all|;
      forall k: nat | k < b ensures !Conflicting(fields[k], newf) {
        assert fields[..b][k] == all[k];
        if k in conflicts { NotBetween(conflicts, -1, k); }
      }
      NothingInTheWay(fields, newf);
    }
  }

  /** No index of an increasing list lies strictly between two neighbours. */
  lemma NotBetween(conflicts: seq<nat>, c: int, k: nat)
    requires forall c, d :: 0 <= c < d < |conflicts| ==> conflicts[c] < conflicts[d]
    requires -1 <= c < |conflicts|
    requires (c >= 0 ==> conflicts[c] < k) && (c + 1 < |conflicts| ==> k < conflicts[c + 1])
    ensures k !in conflicts
  {
    if k in conflicts {
      var d :| 0 <= d < |conflicts| && conflicts[d] == k;
    }
  }

  lemma {:induction false} WithoutDrop(fields: seq<Field>, f: Field, i: nat)
    requires i < |fields| && Conflicting(fields[i], f)
    ensures Without(fields[..i] + fields[i + 1..], f) == Without(fields, f)
  {
    hide Conflicting;
    var n := |fields| - 1;
    var rest := fields[..i] + fields[i + 1..];
    if i < n {
      WithoutDrop(fields[..n], f, i);
      assert rest[..|rest| - 1] == fields[..n][..i] + fields[..n][i + 1..];
      assert rest[|rest| - 1] == fields[n];
    } else {
      assert rest == fields[..n];
      assert Without(fields[..n], f) + [] == Without(fields[..n], f);
    }
  }

  lemma {:induction false} NothingInTheWay(fields: seq<Field>, f: Field)
    requires forall g :: g in fields ==> !Conflicting(g, f)
    ensures Without(fields, f) == fields
  {
    if fields != [] {
      NothingInTheWay(fields[..|fields| - 1], f);
      assert fields[|fields| - 1] in fields;
    }
  }

  // ---------- what every run of additions keeps ----------

  lemma {:induction false} WithoutIn(fields: seq<Field>, f: Field, g: Field)
    ensures g in Without(fields, f) <==> g in fields && !Conflicting(g, f)
  {
    hide Conflicting;
    if fields != [] {
      var n := |fields| - 1;
      WithoutIn(fields[..n], f, g);
      assert fields == fields[..n] + [fields[n]];
    }
  }

  lemma {:induction false} WithoutNoConflicts(fields: seq<Field>, f: Field)
    requires NoConflicts(fields)
    ensures NoConflicts(Without(fields, f) + [f])
  {
    hide Conflicting;
    if fields != [] {
      var n := |fields| - 1;
      var init, last := fields[..n], fields[n];
      WithoutNoConflicts(init, f);
      var w, w' := Without(init, f), Without(fields, f);
      forall i, j | 0 <= i < j < |w' + [f]| ensures !Conflicting((w' + [f])[i], (w' + [f])[j]) {
        if j < |w| {
          assert !Conflicting((w + [f])[i], (w + [f])[j]);
        } else if j < |w'| {
          WithoutIn(init, f, w[i]);
        } else {
          WithoutIn(fields, f, w'[i]);
        }
      }
    }
  }

  /** One addition keeps the fields free of conflicts. */
  lemma AddsKeepsNoConflicts(fields: seq<Field>, f: Field, fields': seq<Field>, err: Option<Field>)
    requires NoConflicts(fields) && Adds(fields, f, fields', err)
    ensures NoConflicts(fields')
  {
    hide Conflicting, Without;
    WithoutNoConflicts(fields, f);
  }

  /** Additions of `offered`, in order, each without error, starting from no fields. */
  ghost predicate Built(offered: seq<Field>, fields: seq<Field>)
    decreases |offered|
  {
    if offered == [] then fields == []
    else exists before :: BuiltBy(offered, before, fields)
  }

  ghost predicate BuiltBy(offered: seq<Field>, before: seq<Field>, fields: seq<Field>)
    requires offered != []
    decreases |offered|, 0
  {
    Built(offered[..|offered| - 1], before) && Adds(before, offered[|offered| - 1], fields, None)
  }

  lemma {:induction false} BuiltNoConflicts(offered: seq<Field>, fields: seq<Field>)
    requires Built(offered, fields)
    ensures NoConflicts(fields)
  {
    hide Adds, NoConflicts;
    if offered != [] {
      var before :| BuiltBy(offered, before, fields);
      BuiltNoConflicts(offered[..|offered| - 1], before);
      AddsKeepsNoConflicts(before, offered[|offered| - 1], fields, None);
    } else {
      EmptyNoConflicts();
    }
  }

  lemma EmptyNoConflicts()
    ensures NoConflicts([])
  {
  }

  /** The field f is missing because a shallower field was offered that is in its way. */
  ghost predicate Beaten(offered: seq<Field>, f: Field) {
    exists g :: g in offered && Conflicting(g, f) && Deeper(f, g)
  }

  lemma ConflictIsMutual(f: Field, g: Field)
    ensures Conflicting(f, g) <==> Conflicting(g, f)
  {
  }

  /** Every field comes from the offers, and an offer is missing only if a strictly shallower offer is in its way;
      so an offer with no shallower offer in its way is there. */
  lemma {:induction false} MissingIsBeaten(offered: seq<Field>, fields: seq<Field>, f: Field)
    requires Built(offered, fields)
    ensures f in fields ==> f in offered
    ensures f in offered ==> f in fields || Beaten(offered, f)
  {
    hide Conflicting, Deeper, Without;
    if offered != [] {
      var n := |offered| - 1;
      var init, last := offered[..n], offered[n];
      var before :| BuiltBy(offered, before, fields);
      MissingIsBeaten(init, before, f);
      assert offered == init + [last];
      assert Beaten(init, f) ==> Beaten(offered, f);
      forall g ensures g in before ==> g in init { MissingIsBeaten(init, before, g); }
      AddsMissing(before, last, fields, f);
      if f == last && f !in fields {
        var g :| g in before && Conflicting(g, f) && Deeper(f, g);
        assert g in offered;
      } else if f in before && f !in fields {
        assert last in offered;
      }
    }
  }

  lemma AddsMissing(before: seq<Field>, last: Field, fields: seq<Field>, f: Field)
    requires Adds(before, last, fields, None)
    ensures f in fields ==> f in before || f == last
    ensures f == last ==> f in fields || exists g :: g in before && Conflicting(g, f) && Deeper(f, g)
    ensures f in before ==> f in fields || (Conflicting(last, f) && Deeper(f, last))
  {
    hide Conflicting, Without;
    WithoutIn(before, last, f);
    ConflictIsMutual(f, last);
  }
}
