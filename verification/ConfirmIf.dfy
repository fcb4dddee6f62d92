/** confirmLocks of server/webdav/webdav.go for a request with an If header: the lists are tried in order, and
    the first whose conditions claim a lock on each name is confirmed. */
module ConfirmIf {
  import opened Common
  import opened Numbers
  import opened Strings
  import opened LockTable
  import opened Locks
  import opened IfGrammar
  import opened IfParser

  const STATUS_BAD_REQUEST := 400
  const STATUS_NOT_FOUND := 404
  const STATUS_PRECONDITION_FAILED := 412

  datatype IfError = ErrInvalidIfHeader | ErrPrefixMismatch | Locked

  datatype IfFailure = IfFailure(status: int, err: IfError)

  /** The host and the path of a URL, None where url.Parse fails: net/url is not part of this model. */
  type UrlParser = string -> Option<(string, string)>

  /** What the handler knows of itself and of the request. */
  datatype Request = Request(prefix: string, host: string, src: string, dst: string)

  /** stripPrefix: None for the prefix mismatch. */
  function StripPrefix(prefix: string, p: string): Option<string> {
    if prefix == "" then Some(p)
    else if HasPrefix(p, prefix) then Some(p[|prefix|..])
    else None
  }

  lemma StripPrefixInverse(prefix: string, p: string, rest: string)
    ensures StripPrefix(prefix, p) == Some(rest) <==> p == prefix + rest
  {
    if HasPrefix(p, prefix) { assert p == prefix + p[|prefix|..]; }
  }

  /** The source name that a list is about: its tag's path below the prefix, if the tag names this host. */
  datatype Target = Skip | Refuse | Try(name: string)

  function TargetOf(tag: string, req: Request, url: UrlParser): Target {
    if tag == "" then Try(req.src)
    else
      var u := url(tag);
      if u.None? || u.value.0 != req.host then Skip
      else
        var name := StripPrefix(req.prefix, u.value.1);
        if name.None? then Refuse else Try(name.value)
  }

  /** The tag names this host, with this path. */
  ghost predicate Names(tag: string, req: Request, url: UrlParser, path: string) {
    tag != "" && url(tag) == Some((req.host, path))
  }

  /** What a list is about: an untagged one about the source; one tagged with this host and a path below the prefix
      about what follows the prefix. A tag for another host, or none that parses, is passed over, and a path that
      does not start with the prefix ends the search. */
  ghost predicate IsTarget(tag: string, req: Request, url: UrlParser, target: Target) {
    match target
    case Try(name) => if tag == "" then name == req.src else Names(tag, req, url, req.prefix + name)
    case Skip => tag != "" && forall path :: !Names(tag, req, url, path)
    case Refuse => exists path :: Names(tag, req, url, path) && forall name :: path != req.prefix + name
  }

  /** There is exactly one such target. */
  lemma TargetIs(tag: string, req: Request, url: UrlParser, target: Target)
    ensures IsTarget(tag, req, url, target) <==> target == TargetOf(tag, req, url)
  {
    hide StripPrefix;
    if tag != "" && url(tag).Some? {
      var path := url(tag).value.1;
      forall name ensures StripPrefix(req.prefix, path) == Some(name) <==> path == req.prefix + name {
        StripPrefixInverse(req.prefix, path, name);
      }
      assert url(tag).value.0 == req.host ==> Names(tag, req, url, path);
    }
  }

  datatype Verdict = HeldBy(i: nat, name: string) | PrefixMismatch | AllFailed

  /** Trying the lists from number i on, at the times that clock gives: the table met at the end, and the verdict. */
  ghost function Decide(tab: Table, lists: seq<IfList>, req: Request, url: UrlParser, clock: nat -> int, i: nat): (Table, Verdict)
    decreases |lists| - i
  {
    if i >= |lists| then (tab, AllFailed)
    else
      match TargetOf(lists[i].resourceTag, req, url)
      case Skip => Decide(tab, lists, req, url, clock, i + 1)
      case Refuse => (tab, PrefixMismatch)
      case Try(name) =>
        var t := Collect(tab, clock(i));
        if Claimable(t, lists[i].conditions, name) && Claimable(t, lists[i].conditions, req.dst) then (t, HeldBy(i, name))
        else Decide(t, lists, req, url, clock, i + 1)
  }

  /** The result, and the table left, are those of the verdict. */
  ghost predicate Outcome(tab: Table, tab': Table, lists: seq<IfList>, req: Request, url: UrlParser, clock: nat -> int,
                          held: Result<set<string>, IfFailure>) {
    var (t, verdict) := Decide(tab, lists, req, url, clock, 0);
    match verdict
    case AllFailed => held == Err(IfFailure(STATUS_PRECONDITION_FAILED, Locked)) && tab' == t
    case PrefixMismatch => held == Err(IfFailure(STATUS_NOT_FOUND, ErrPrefixMismatch)) && tab' == t
    case HeldBy(i, name) =>
      && held.Ok? && i < |lists|
      && ConfirmSpec(t, tab', clock(i), name, req.dst, lists[i].conditions, Some(held.value))
  }

  lemma ConfirmCollected(tab: Table, tab': Table, now: int, name0: string, name1: string,
                         conditions: seq<Condition>, roots: Option<set<string>>)
    requires ConfirmSpec(tab, tab', now, name0, name1, conditions, roots)
    ensures ConfirmSpec(Collect(tab, now), tab', now, name0, name1, conditions, roots)
  {
    assert Collect(Collect(tab, now), now) == Collect(tab, now);
  }

  /** confirmLocks, where the header is not empty. */
  method ConfirmLocksIf(ls: MemLS, hdr: string, req: Request, url: UrlParser, clock: nat -> int)
    returns (r: Result<Release, IfFailure>)
    requires ls.Valid()
    modifies ls, ls.byExpiry, ls.nodes
    ensures ls.Valid() && ls.gen == old(ls.gen)
    ensures (forall lists :: !Denotes(hdr, lists)) ==>
      r == Err(IfFailure(STATUS_BAD_REQUEST, ErrInvalidIfHeader)) && ls.tab == old(ls.tab)
    ensures forall lists :: Denotes(hdr, lists) ==>
      Outcome(old(ls.tab), ls.tab, lists, req, url, clock,
              if r.Ok? then Ok(MemLS.RootsOf(r.value.n0, r.value.n1)) else Err(r.error))
    ensures ls.outstanding == if r.Ok? then old(ls.outstanding) + {r.value} else old(ls.outstanding)
  {
    hide *;
    var ih := ParseIfHeader(hdr);
    if ih.None? { return Err(IfFailure(STATUS_BAD_REQUEST, ErrInvalidIfHeader)); }
    var lists := ih.value;
    forall other | Denotes(hdr, other) ensures other == lists { ReadIsDenotes(hdr, other); ReadIsDenotes(hdr, lists); }
    ghost var tab := ls.tab;
    for i := 0 to |lists|
      invariant ls.Valid() && ls.gen == old(ls.gen) && ls.outstanding == old(ls.outstanding)
      invariant ls.nodes == old(ls.nodes)
      invariant Decide(tab, lists, req, url, clock, 0) == Decide(ls.tab, lists, req, url, clock, i)
    {
      var l := lists[i];
      var target := FindTarget(l.resourceTag, req, url);
      TargetIs(l.resourceTag, req, url, target);
      if target == Skip {
        Skips(ls.tab, lists, req, url, clock, i);
        continue;
      }
      if target == Refuse {
        Refuses(tab, ls.tab, lists, req, url, clock, i);
        return Err(IfFailure(STATUS_NOT_FOUND, ErrPrefixMismatch));
      }
      ghost var before := ls.tab;
      var release := ls.Confirm(clock(i), target.name, req.dst, l.conditions);
      if release.Err? {
        ConfirmFails(before, ls.tab, lists, req, url, clock, i);
        continue;
      }
      ConfirmHolds(tab, before, ls.tab, lists, req, url, clock, i, MemLS.RootsOf(release.value.n0, release.value.n1));
      return Ok(release.value);
    }
    AllFail(tab, ls.tab, lists, req, url, clock);
    return Err(IfFailure(STATUS_PRECONDITION_FAILED, Locked));
  }

  lemma Skips(tab: Table, lists: seq<IfList>, req: Request, url: UrlParser, clock: nat -> int, i: nat)
    requires i < |lists| && TargetOf(lists[i].resourceTag, req, url) == Skip
    ensures Decide(tab, lists, req, url, clock, i) == Decide(tab, lists, req, url, clock, i + 1)
  {
  }

  lemma Refuses(tab: Table, tab': Table, lists: seq<IfList>, req: Request, url: UrlParser, clock: nat -> int, i: nat)
    requires i < |lists| && TargetOf(lists[i].resourceTag, req, url) == Refuse
    requires Decide(tab, lists, req, url, clock, 0) == Decide(tab', lists, req, url, clock, i)
    ensures Outcome(tab, tab', lists, req, url, clock, Err(IfFailure(STATUS_NOT_FOUND, ErrPrefixMismatch)))
  {
    hide TargetOf;
  }

  lemma AllFail(tab: Table, tab': Table, lists: seq<IfList>, req: Request, url: UrlParser, clock: nat -> int)
    requires Decide(tab, lists, req, url, clock, 0) == Decide(tab', lists, req, url, clock, |lists|)
    ensures Outcome(tab, tab', lists, req, url, clock, Err(IfFailure(STATUS_PRECONDITION_FAILED, Locked)))
  {
  }

  /** A failed Confirm leaves the table without its expired locks, and the next list is tried. */
  lemma ConfirmFails(tab: Table, tab': Table, lists: seq<IfList>, req: Request, url: UrlParser, clock: nat -> int, i: nat)
    requires i < |lists| && TargetOf(lists[i].resourceTag, req, url).Try?
    requires ConfirmSpec(tab, tab', clock(i), TargetOf(lists[i].resourceTag, req, url).name, req.dst, lists[i].conditions, None)
    ensures Decide(tab, lists, req, url, clock, i) == Decide(tab', lists, req, url, clock, i + 1)
  {
    hide Claimable, TargetOf, Collect;
  }

  lemma ConfirmHolds(tab: Table, before: Table, tab': Table, lists: seq<IfList>, req: Request, url: UrlParser,
                     clock: nat -> int, i: nat, roots: set<string>)
    requires i < |lists| && TargetOf(lists[i].resourceTag, req, url).Try?
    requires Decide(tab, lists, req, url, clock, 0) == Decide(before, lists, req, url, clock, i)
    requires ConfirmSpec(before, tab', clock(i), TargetOf(lists[i].resourceTag, req, url).name, req.dst, lists[i].conditions, Some(roots))
    ensures Outcome(tab, tab', lists, req, url, clock, Ok(roots))
  {
    hide Claimable, TargetOf, Collect;
    ConfirmCollected(before, tab', clock(i), TargetOf(lists[i].resourceTag, req, url).name, req.dst, lists[i].conditions, Some(roots));
  }

  /** The part of the loop that reads the tag. */
  method FindTarget(tag: string, req: Request, url: UrlParser) returns (target: Target)
    ensures IsTarget(tag, req, url, target)
  {
    var lsrc := tag;
    if lsrc == "" { return Try(req.src); }
    var u := url(lsrc);
    if u.None? { return Skip; }
    if u.value.0 != req.host { return Skip; }
    var stripped := StripPrefix(req.prefix, u.value.1);
    TargetIs(tag, req, url, if stripped.None? then Refuse else Try(stripped.value));
    if stripped.None? { return Refuse; }
    return Try(stripped.value);
  }

  // ---------- the verdict, list by list ----------

  /** Nothing comes of list i: its tag is about something else, or its conditions do not claim both names. */
  ghost predicate Fails(tab: Table, lists: seq<IfList>, req: Request, url: UrlParser, clock: nat -> int, i: nat)
    requires i < |lists|
  {
    match TargetOf(lists[i].resourceTag, req, url)
    case Skip => true
    case Refuse => false
    case Try(name) =>
      var t := Collect(tab, clock(i));
      !(Claimable(t, lists[i].conditions, name) && Claimable(t, lists[i].conditions, req.dst))
  }

  ghost predicate Forward(clock: nat -> int) { forall i: nat, j: nat :: i <= j ==> clock(i) <= clock(j) }

  /** From list number `from` on, list i decides: the lists before it fail against the table that the request
      met, and it does not. */
  ghost predicate Decides(tab: Table, lists: seq<IfList>, req: Request, url: UrlParser, clock: nat -> int, from: nat, i: nat) {
    && from <= i < |lists| && !Fails(tab, lists, req, url, clock, i)
    && forall j :: from <= j < i ==> Fails(tab, lists, req, url, clock, j)
  }

  ghost predicate NoneDecides(tab: Table, lists: seq<IfList>, req: Request, url: UrlParser, clock: nat -> int, from: nat) {
    forall i :: from <= i < |lists| ==> Fails(tab, lists, req, url, clock, i)
  }

  /** The verdict that list i stands for when it decides. */
  ghost predicate VerdictAt(lists: seq<IfList>, req: Request, url: UrlParser, i: nat, verdict: Verdict) {
    i < |lists| && match TargetOf(lists[i].resourceTag, req, url)
                   case Skip => false
                   case Refuse => verdict == PrefixMismatch
                   case Try(name) => verdict == HeldBy(i, name)
  }

  /** The verdict is that of the first list that does not fail, although each failed Confirm before it may have
      dropped expired locks: a disjunction of lists, as section 10.4 of RFC 4918 asks. */
  lemma VerdictOfFirst(tab: Table, lists: seq<IfList>, req: Request, url: UrlParser, clock: nat -> int)
    requires Forward(clock)
    ensures var verdict := Decide(tab, lists, req, url, clock, 0).1;
            && (verdict == AllFailed <==> NoneDecides(tab, lists, req, url, clock, 0))
            && (forall i: nat :: Decides(tab, lists, req, url, clock, 0, i) ==> VerdictAt(lists, req, url, i, verdict))
  {
    hide Fails, Decide;
    VerdictFrom(tab, tab, lists, req, url, clock, 0);
  }

  /** tab' is what the tries before list i have left of tab. */
  lemma {:induction false} VerdictFrom(tab: Table, tab': Table, lists: seq<IfList>, req: Request, url: UrlParser,
                                       clock: nat -> int, i: nat)
    requires Forward(clock) && i <= |lists|
    requires tab' == tab || exists j: nat :: j < i && tab' == Collect(tab, clock(j))
    ensures var verdict := Decide(tab', lists, req, url, clock, i).1;
            if verdict == AllFailed then NoneDecides(tab, lists, req, url, clock, i)
            else exists k: nat :: Decides(tab, lists, req, url, clock, i, k) && VerdictAt(lists, req, url, k, verdict)
    decreases |lists| - i
  {
    hide Claimable, TargetOf, Collect;
    if i < |lists| {
      var target := TargetOf(lists[i].resourceTag, req, url);
      if target.Try? { CollectLater(tab, tab', clock, i); }
      if Fails(tab, lists, req, url, clock, i) {
        VerdictFrom(tab, if target.Try? then Collect(tab', clock(i)) else tab', lists, req, url, clock, i + 1);
        var verdict := Decide(tab', lists, req, url, clock, i).1;
        if verdict != AllFailed {
          var k: nat :| Decides(tab, lists, req, url, clock, i + 1, k) && VerdictAt(lists, req, url, k, verdict);
          assert Decides(tab, lists, req, url, clock, i, k);
        }
      } else {
        assert Decides(tab, lists, req, url, clock, i, i);
      }
    }
  }

  lemma CollectLater(tab: Table, tab': Table, clock: nat -> int, i: nat)
    requires Forward(clock) && (tab' == tab || exists j: nat :: j < i && tab' == Collect(tab, clock(j)))
    ensures Collect(tab', clock(i)) == Collect(tab, clock(i))
  {
  }
}
