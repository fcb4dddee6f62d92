/** ParseRange of pkg/http_range/range.go: the Range header of section 2.1 of RFC 7233. */
module Ranges {
  import opened Common
  import opened Numbers
  import opened Strings

  /** Go's int64: Dafny rejects every operation that could overflow it. */
  newtype int64 = x: int | MIN_INT64 <= x <= MAX_INT64

  datatype Range = Range(start: int64, length: int64)

  datatype RangeError = ErrNoOverlap | ErrInvalid

  // ---------- what a header asks for ----------

  /** byte-range-spec and suffix-byte-range-spec. */
  datatype Spec = FromTo(first: nat, last: nat) | From(first: nat) | Suffix(length: nat)

  /** The spec selects byte k of a file of this size. */
  predicate Selects(spec: Spec, k: int, size: nat) {
    0 <= k < size && match spec
                     case FromTo(first, last) => first <= k <= last
                     case From(first) => first <= k
                     case Suffix(length) => size - length <= k
  }

  /** The spec begins after the end of the file. */
  predicate Beyond(spec: Spec, size: nat) { !spec.Suffix? && spec.first >= size }

  predicate IsAsciiSpace(c: char) { c == ' ' || c == '\t' || c == '\n' || c == '\r' }

  /** textproto.TrimString */
  function TrimString(s: string): (t: string)
    ensures |t| <= |s|
    ensures s != "" && !IsAsciiSpace(s[0]) && !IsAsciiSpace(s[|s| - 1]) ==> t == s
    decreases |s|
  {
    if s == "" then ""
    else if IsAsciiSpace(s[0]) then TrimString(s[1..])
    else if IsAsciiSpace(s[|s| - 1]) then TrimString(s[..|s| - 1])
    else s
  }

  /** The spec that a part between commas states; None when it is malformed. As in the code, what follows the
      first position is not looked at when that position is after the end of the file. */
  function ReadSpec(ra: string, size: nat): Option<Spec> {
    var i := IndexOf(ra, '-');
    if i < 0 then None
    else
      var start, end := TrimString(ra[..i]), TrimString(ra[i + 1..]);
      var first, last := ParseInt(start), ParseInt(end);
      if start == "" then
        if end == "" || end[0] == '-' || last.None? || last.value < 0 then None else Some(Suffix(last.value))
      else if first.None? || first.value < 0 then None
      else if first.value >= size || end == "" then Some(From(first.value))
      else if last.None? || last.value < first.value then None
      else Some(FromTo(first.value, last.value))
  }

  // ---------- which parts the code rejects ----------

  /** The number without its sign: a plus, or, where `minus` allows it, a minus before a zero. */
  function Unsigned(x: string, minus: bool): string {
    if |x| > 1 && AllDigits(x[1..]) && (x[0] == '+' || (minus && x[0] == '-' && Value(x[1..]) == 0)) then x[1..] else x
  }

  /** 1*DIGIT, for a number that fits an int64. */
  predicate Small(x: string) { AllDigits(x) && Value(x) <= MAX_INT64 }

  /** Once the blanks at its ends and around its dash are gone, and the signs, the part is a spec with int64s. */
  predicate Tolerated(ra: string) {
    var i := IndexOf(ra, '-');
    i >= 0 && var start, end := TrimString(ra[..i]), TrimString(ra[i + 1..]);
    if start == "" then Small(Unsigned(end, false))
    else
      var first, last := Unsigned(start, true), Unsigned(end, true);
      Small(first) && (end == "" || (Small(last) && Value(first) <= Value(last)))
  }

  /** The first position of the part can be read, and is after the end of the file. */
  predicate StartsBeyond(ra: string, size: nat) {
    var i := IndexOf(ra, '-');
    i >= 0 && var first := Unsigned(TrimString(ra[..i]), true); Small(first) && Value(first) >= size
  }

  lemma ReadNumber(x: string)
    ensures var n := ParseInt(x);
            && (n.Some? && n.value >= 0 <==> Small(Unsigned(x, true)))
            && (n.Some? && n.value >= 0 ==> n.value == Value(Unsigned(x, true)))
            && (x != "" && x[0] != '-' && n.Some? && n.value >= 0 <==> Small(Unsigned(x, false)))
            && (Small(Unsigned(x, false)) ==> n.value == Value(Unsigned(x, false)))
  {
    hide Value;
    if x != "" && AllDigits(x) { assert x[0] in x && IsDigit(x[0]); }
    if x != "" && !AllDigits(x) && !IsDigit(x[0]) { assert x[0] in x; }
  }

  /** The code rejects a part exactly when it is not tolerated and does not begin after the end of the file. */
  lemma ReadSpecRejects(ra: string, size: nat)
    ensures ReadSpec(ra, size).None? <==> !Tolerated(ra) && !StartsBeyond(ra, size)
  {
    hide TrimString, IndexOf, ParseInt, Small, Unsigned, Value;
    var i := IndexOf(ra, '-');
    if i >= 0 {
      ReadNumber(TrimString(ra[..i]));
      ReadNumber(TrimString(ra[i + 1..]));
      NoNumber();
    }
  }

  lemma NoNumber()
    ensures ParseInt("").None? && !Small(Unsigned("", true)) && !Small(Unsigned("", false))
  {
  }

  /** The specs of the parts; None when one is malformed. Empty parts are skipped. */
  function ReadSpecs(parts: seq<string>, size: nat): Option<seq<Spec>> {
    if parts == [] then Some([])
    else
      var n := |parts| - 1;
      var before, ra := ReadSpecs(parts[..n], size), TrimString(parts[n]);
      if before.None? || ra == "" then before
      else
        var spec := ReadSpec(ra, size);
        if spec.None? then None else Some(before.value + [spec.value])
  }

  const PREFIX := "bytes="

  function SpecsOf(s: string, size: nat): Option<seq<Spec>> {
    if s == "" then Some([])
    else if !HasPrefix(s, PREFIX) then None
    else ReadSpecs(Split(s[|PREFIX|..], ','), size)
  }

  // ---------- which headers the code rejects ----------

  ghost predicate RejectedPart(ra: string, size: nat) { ra != "" && !Tolerated(ra) && !StartsBeyond(ra, size) }

  ghost predicate Rejected(parts: seq<string>, size: nat) {
    exists i :: 0 <= i < |parts| && RejectedPart(TrimString(parts[i]), size)
  }

  /** The header does not begin as it should, or one of its parts is rejected. */
  ghost predicate RejectedHeader(s: string, size: nat) {
    s != "" && (!HasPrefix(s, PREFIX) || Rejected(Split(s[|PREFIX|..], ','), size))
  }

  lemma {:induction false} ReadSpecsRejects(parts: seq<string>, size: nat)
    ensures ReadSpecs(parts, size).None? <==> Rejected(parts, size)
  {
    hide ReadSpec, Tolerated, StartsBeyond, TrimString;
    if parts != [] {
      var n := |parts| - 1;
      ReadSpecsRejects(parts[..n], size);
      ReadSpecRejects(TrimString(parts[n]), size);
      assert forall i :: 0 <= i < n ==> parts[..n][i] == parts[i];
      assert Rejected(parts, size) <==> Rejected(parts[..n], size) || RejectedPart(TrimString(parts[n]), size);
    }
  }

  lemma SpecsOfRejects(s: string, size: nat)
    ensures SpecsOf(s, size).None? <==> RejectedHeader(s, size)
  {
    hide ReadSpecs, Rejected;
    if s != "" && HasPrefix(s, PREFIX) { ReadSpecsRejects(Split(s[|PREFIX|..], ','), size); }
  }

  // ---------- what the answer promises ----------

  /** The range lies within the file, and holds exactly the bytes that the spec selects. */
  ghost predicate Answers(r: Range, spec: Spec, size: nat) {
    && 0 <= r.start as int <= r.start as int + r.length as int <= size
    && forall k :: InRange(r, k) <==> Selects(spec, k, size)
  }

  predicate InRange(r: Range, k: int) { r.start as int <= k < r.start as int + r.length as int }

  /** The specs that do not begin after the end of the file. */
  function Live(specs: seq<Spec>, size: nat): seq<Spec> {
    if specs == [] then []
    else Live(specs[..|specs| - 1], size) + if Beyond(specs[|specs| - 1], size) then [] else [specs[|specs| - 1]]
  }

  ghost predicate AllAnswer(ranges: seq<Range>, specs: seq<Spec>, size: nat) {
    |ranges| == |specs| && forall i :: 0 <= i < |ranges| ==> Answers(ranges[i], specs[i], size)
  }

  /** The right reply: invalid, no overlap, or one range for each spec that does not begin after the end. */
  ghost predicate RepliesTo(specs: Option<seq<Spec>>, size: nat, r: Result<seq<Range>, RangeError>) {
    match specs
    case None => r == Err(ErrInvalid)
    case Some(specs) =>
      if specs != [] && Live(specs, size) == [] then r == Err(ErrNoOverlap)
      else r.Ok? && AllAnswer(r.value, Live(specs, size), size)
  }

  ghost predicate Replies(s: string, size: nat, r: Result<seq<Range>, RangeError>) {
    RepliesTo(SpecsOf(s, size), size, r)
  }

  /** The loop of ParseRange over the parts. */
  method ParseParts(parts: seq<string>, size: int64) returns (r: Result<seq<Range>, RangeError>)
    requires size >= 0
    ensures RepliesTo(ReadSpecs(parts, size as int), size as int, r)
  {
    hide ReadSpec, Selects, Answers, TrimString, Beyond;
    var ranges: seq<Range>, noOverlap := [], false;
    ghost var specs := [];
    for n := 0 to |parts|
      invariant ReadSpecs(parts[..n], size as int) == Some(specs)
      invariant AllAnswer(ranges, Live(specs, size as int), size as int)
      invariant noOverlap <==> |Live(specs, size as int)| < |specs|
      invariant |Live(specs, size as int)| <= |specs|
    {
      assert parts[..n + 1][..n] == parts[..n];
      var ra := TrimString(parts[n]);
      if ra == "" { continue; }
      var one := ParseOne(ra, size);
      if one.None? {
        MalformedPart(parts, n, size as int);
        return Err(ErrInvalid);
      }
      ghost var spec := ReadSpec(ra, size as int).value;
      assert (specs + [spec])[..|specs|] == specs;
      specs := specs + [spec];
      if one.value.None? { noOverlap := true; continue; }
      ranges := ranges + [one.value.value];
    }
    assert parts[..|parts|] == parts;
    if noOverlap && |ranges| == 0 { return Err(ErrNoOverlap); }
    return Ok(ranges);
  }

  /** ParseRange */
  method ParseRange(s: string, size: int64) returns (r: Result<seq<Range>, RangeError>)
    requires size >= 0
    ensures Replies(s, size as int, r)
    ensures r == Err(ErrInvalid) <==> RejectedHeader(s, size as int)
    ensures s == "" ==> r == Ok([])
  {
    hide RejectedHeader, ReadSpecs, Split;
    SpecsOfRejects(s, size as int);
    if s == "" { return Ok([]); }
    if !HasPrefix(s, PREFIX) { return Err(ErrInvalid); }
    r := ParseParts(Split(s[|PREFIX|..], ','), size);
  }

  lemma {:induction false} MalformedPart(parts: seq<string>, n: nat, size: nat)
    requires n < |parts| && ReadSpecs(parts[..n + 1], size).None?
    ensures ReadSpecs(parts, size).None?
    decreases |parts|
  {
    if n + 1 < |parts| {
      var init := parts[..|parts| - 1];
      assert init[..n + 1] == parts[..n + 1];
      MalformedPart(init, n, size);
    } else {
      assert parts[..n + 1] == parts;
    }
  }

  /** The body of the loop, for one part: None for the error, Some(None) for a range after the end. */
  method ParseOne(ra: string, size: int64) returns (r: Option<Option<Range>>)
    requires size >= 0
    ensures match ReadSpec(ra, size as int)
            case None => r == None
            case Some(spec) =>
              r.Some? && if Beyond(spec, size as int) then r.value == None
                         else r.value.Some? && Answers(r.value.value, spec, size as int)
  {
    var i := IndexOf(ra, '-');
    if i < 0 { return None; }
    var start, end := TrimString(ra[..i]), TrimString(ra[i + 1..]);
    if start == "" {
      if end == "" || end[0] == '-' { return None; }
      var parsed := ParseInt(end);
      if parsed.None? || parsed.value < 0 { return None; }
      var i := parsed.value as int64;
      if i > size { i := size; }
      var from := size - i;
      return Some(Some(Range(from, size - from)));
    }
    var parsed := ParseInt(start);
    if parsed.None? || parsed.value < 0 { return None; }
    var first := parsed.value as int64;
    if first >= size { return Some(None); }
    if end == "" { return Some(Some(Range(first, size - first))); }
    parsed := ParseInt(end);
    if parsed.None? || first as int > parsed.value { return None; }
    var last := parsed.value as int64;
    if last >= size { last := size - 1; }
    return Some(Some(Range(first, last - first + 1)));
  }

  // ---------- the union of the ranges ----------

  ghost predicate InSome(ranges: seq<Range>, k: int) { exists i :: 0 <= i < |ranges| && InRange(ranges[i], k) }

  ghost predicate Selected(specs: seq<Spec>, k: int, size: nat) {
    exists i :: 0 <= i < |specs| && Selects(specs[i], k, size)
  }

  /** The ranges together hold exactly the bytes that some spec selects. */
  lemma UnionIsSelection(ranges: seq<Range>, specs: seq<Spec>, size: nat, k: int)
    requires AllAnswer(ranges, Live(specs, size), size)
    ensures InSome(ranges, k) <==> Selected(specs, k, size)
  {
    LiveSelects(specs, size, k);
    var live := Live(specs, size);
    if i :| 0 <= i < |ranges| && InRange(ranges[i], k) { assert Answers(ranges[i], live[i], size) && Selects(live[i], k, size); }
    if i :| 0 <= i < |live| && Selects(live[i], k, size) { assert Answers(ranges[i], live[i], size) && InRange(ranges[i], k); }
  }

  lemma {:induction false} LiveSelects(specs: seq<Spec>, size: nat, k: int)
    ensures Selected(Live(specs, size), k, size) <==> Selected(specs, k, size)
  {
    if specs != [] {
      var n := |specs| - 1;
      var init, last := specs[..n], specs[n];
      LiveSelects(init, size, k);
      SelectedSnoc(init, last, k, size);
      assert init + [last] == specs;
      if !Beyond(last, size) { SelectedSnoc(Live(init, size), last, k, size); }
      assert Live(init, size) + [] == Live(init, size);
    }
  }

  lemma SelectedSnoc(specs: seq<Spec>, last: Spec, k: int, size: nat)
    ensures Selected(specs + [last], k, size) <==> Selected(specs, k, size) || Selects(last, k, size)
  {
    hide Selects;
    var all := specs + [last];
    if i :| 0 <= i < |specs| && Selects(specs[i], k, size) { assert Selects(all[i], k, size); }
    if Selects(last, k, size) { assert Selects(all[|specs|], k, size); }
  }

  // ---------- ranges that cannot be satisfied ----------

  /** A satisfiable set of section 2.1: some spec begins within the file, or asks for a suffix that is not empty. */
  ghost predicate Satisfiable(specs: seq<Spec>, size: nat) {
    exists i :: 0 <= i < |specs| && CanSatisfy(specs[i], size)
  }

  predicate CanSatisfy(spec: Spec, size: nat) { if spec.Suffix? then spec.length > 0 else spec.first < size }

  lemma {:induction false} NoneLive(specs: seq<Spec>, size: nat)
    ensures Live(specs, size) == [] <==> forall i :: 0 <= i < |specs| ==> Beyond(specs[i], size)
  {
    hide Beyond;
    if specs != [] { NoneLive(specs[..|specs| - 1], size); }
  }

  /** The answer ErrNoOverlap means that the specs cannot be satisfied, unless a suffix of no bytes is among
      them and all the others begin after the end. */
  lemma NoOverlapIff(s: string, size: nat, r: Result<seq<Range>, RangeError>)
    requires Replies(s, size, r) && SpecsOf(s, size).Some? && SpecsOf(s, size).value != []
    ensures var specs := SpecsOf(s, size).value;
            (r == Err(ErrNoOverlap) <==> !Satisfiable(specs, size)) <==> (Suffix(0) in specs ==> Satisfiable(specs, size))
  {
    hide SpecsOf, Live, AllAnswer;
    var specs := SpecsOf(s, size).value;
    NoneLive(specs, size);
    if i :| 0 <= i < |specs| && !Beyond(specs[i], size) {
      assert CanSatisfy(specs[i], size) || specs[i] == Suffix(0);
    }
  }

  /** A suffix of no bytes cannot be satisfied, and is answered with an empty range. */
  lemma EmptySuffix(r: Result<seq<Range>, RangeError>)
    requires Replies("bytes=-0", 3, r)
    ensures SpecsOf("bytes=-0", 3) == Some([Suffix(0)]) && !Satisfiable([Suffix(0)], 3)
    ensures r.Ok? && |r.value| == 1 && r.value[0].length == 0
  {
    hide SpecsOf, Split, ReadSpecs;
    var specs := [Suffix(0)];
    ReadEmptySuffix();
    assert specs[..0] == [] && Live(specs, 3) == [] + specs;
    assert Answers(r.value[0], specs[0], 3);
    assert !InRange(r.value[0], r.value[0].start as int) by { assert !Selects(specs[0], r.value[0].start as int, 3); }
  }

  lemma ReadEmptySuffix()
    ensures SpecsOf("bytes=-0", 3) == Some([Suffix(0)])
  {
    hide SpecsOf, SpecTexts, SpecText, Join;
    var specs := [Suffix(0)];
    WriteThenParse(specs, 3, 0);
    EmptySuffixText();
    OneSpecText(Suffix(0), "-0");
    assert PREFIX + "-0" == "bytes=-0";
    assert specs[..0] == [];
    assert AllSeen(specs[..0], 3) == [];
    assert AllSeen(specs, 3) == specs;
    assert SpecsOf(PREFIX + "-0", 3) == Some(specs);
  }

  lemma EmptySuffixText()
    ensures SpecText(Suffix(0)) == "-0"
  {
    assert DigitOf(0) == '0' && Digits(0) == "0";
  }

  lemma OneSpecText(spec: Spec, text: string)
    requires SpecText(spec) == text
    ensures Join(SpecTexts([spec]), ',') == text
  {
    hide SpecText;
    assert [spec][..0] == [] && SpecTexts([spec]) == [] + [text];
  }

  // ---------- writing a header ----------

  function SpecText(spec: Spec): string {
    match spec
    case FromTo(first, last) => Digits(first) + "-" + Digits(last)
    case From(first) => Digits(first) + "-"
    case Suffix(length) => "-" + Digits(length)
  }

  /** The spec can be written: its numbers fit, and it is not backwards. */
  predicate Writable(spec: Spec) {
    match spec
    case FromTo(first, last) => first <= last <= MAX_INT64
    case From(first) => first <= MAX_INT64
    case Suffix(length) => length <= MAX_INT64
  }

  /** What reading makes of a written spec: the end of a spec after the end of the file is lost. */
  function Seen(spec: Spec, size: nat): Spec {
    if spec.FromTo? && spec.first >= size then From(spec.first) else spec
  }

  function SpecTexts(specs: seq<Spec>): seq<string> {
    if specs == [] then [] else SpecTexts(specs[..|specs| - 1]) + [SpecText(specs[|specs| - 1])]
  }

  function AllSeen(specs: seq<Spec>, size: nat): seq<Spec> {
    if specs == [] then [] else AllSeen(specs[..|specs| - 1], size) + [Seen(specs[|specs| - 1], size)]
  }

  lemma DigitsText(n: nat)
    requires n <= MAX_INT64
    ensures var d := Digits(n); TrimString(d) == d && ParseInt(d) == Some(n) && '-' !in d && ',' !in d && d[0] != '-'
  {
    ParseFormat(n);
    var d := Digits(n);
    assert d[0] in d && d[|d| - 1] in d;
  }

  /** The text before the dash, and the text after it. */
  function Start(spec: Spec): string { if spec.Suffix? then "" else Digits(spec.first) }

  function End(spec: Spec): string {
    match spec
    case FromTo(_, last) => Digits(last)
    case From(_) => ""
    case Suffix(length) => Digits(length)
  }

  lemma DashCuts(a: string, b: string)
    requires '-' !in a
    ensures var ra := a + "-" + b; IndexOf(ra, '-') == |a| && ra[..|a|] == a && ra[|a| + 1..] == b && ra != ""
  {
    hide IndexOf;
    var ra := a + "-" + b;
    assert ra[|a|] == '-' && forall k :: 0 <= k < |a| ==> ra[k] == a[k];
  }

  lemma SpecTextIs(spec: Spec)
    ensures SpecText(spec) == Start(spec) + "-" + End(spec)
  {
    hide Digits;
    if spec.Suffix? { assert "" + "-" == "-"; }
  }

  lemma PartsText(spec: Spec)
    requires Writable(spec)
    ensures TrimString(Start(spec)) == Start(spec) && TrimString(End(spec)) == End(spec)
    ensures '-' !in Start(spec) && ',' !in Start(spec) && ',' !in End(spec)
    ensures !spec.Suffix? ==> Start(spec) != "" && ParseInt(Start(spec)) == Some(spec.first)
    ensures spec.FromTo? ==> End(spec) != "" && ParseInt(End(spec)) == Some(spec.last)
    ensures spec.Suffix? ==> End(spec) != "" && End(spec)[0] != '-' && ParseInt(End(spec)) == Some(spec.length)
  {
    hide ParseInt, Digits, TrimString;
    EmptyTrim();
    if !spec.Suffix? { DigitsText(spec.first); }
    match spec
    case FromTo(_, last) => DigitsText(last);
    case From(_) =>
    case Suffix(length) => DigitsText(length);
  }

  lemma ReadWritten(spec: Spec, size: nat)
    requires Writable(spec)
    ensures var ra := SpecText(spec);
            TrimString(ra) == ra && ra != "" && ',' !in ra && ReadSpec(ra, size) == Some(Seen(spec, size))
  {
    hide ParseInt, TrimString, SpecText, Start, IndexOf, End;
    SpecTextIs(spec);
    PartsText(spec);
    DashCuts(Start(spec), End(spec));
    NoSpaceAtEnds(spec);
    EndOfFrom(spec);
  }

  lemma EndOfFrom(spec: Spec)
    ensures spec.From? ==> End(spec) == ""
    ensures spec.Suffix? ==> Start(spec) == ""
  {
  }

  lemma EmptyTrim()
    ensures TrimString("") == ""
  {
  }

  lemma NoSpaceAtEnds(spec: Spec)
    ensures TrimString(SpecText(spec)) == SpecText(spec)
  {
    hide Digits;
    var ra := SpecText(spec);
    match spec {
      case FromTo(first, last) =>
        DigitEnds(first);
        DigitEnds(last);
        assert ra[0] == Digits(first)[0] && ra[|ra| - 1] == Digits(last)[|Digits(last)| - 1];
      case From(first) =>
        DigitEnds(first);
        assert ra[0] == Digits(first)[0];
      case Suffix(length) =>
        DigitEnds(length);
        assert ra[|ra| - 1] == Digits(length)[|Digits(length)| - 1];
    }
  }

  lemma DigitEnds(n: nat)
    ensures var d := Digits(n); !IsAsciiSpace(d[0]) && !IsAsciiSpace(d[|d| - 1])
  {
    var d := Digits(n);
    assert d[0] in d && d[|d| - 1] in d;
  }

  lemma {:induction false} ReadWrittenAll(specs: seq<Spec>, size: nat)
    requires forall spec :: spec in specs ==> Writable(spec)
    ensures ReadSpecs(SpecTexts(specs), size) == Some(AllSeen(specs, size))
    ensures (forall t :: t in SpecTexts(specs) ==> ',' !in t) && |SpecTexts(specs)| == |specs|
  {
    if specs != [] {
      var n := |specs| - 1;
      ReadWrittenAll(specs[..n], size);
      assert Writable(specs[n]);
      ReadWritten(specs[n], size);
      assert SpecTexts(specs)[..n] == SpecTexts(specs[..n]);
    }
  }

  lemma {:induction false} SeenSelects(specs: seq<Spec>, size: nat, k: int)
    ensures Selected(AllSeen(specs, size), k, size) <==> Selected(specs, k, size)
  {
    if specs != [] {
      var n := |specs| - 1;
      SeenSelects(specs[..n], size, k);
      SelectedSnoc(specs[..n], specs[n], k, size);
      SelectedSnoc(AllSeen(specs[..n], size), Seen(specs[n], size), k, size);
      assert specs[..n] + [specs[n]] == specs;
    }
  }

  /** A written header is never refused as malformed, and it selects the bytes that its specs select. */
  lemma WriteThenParse(specs: seq<Spec>, size: nat, k: int)
    requires specs != [] && forall spec :: spec in specs ==> Writable(spec)
    ensures var read := SpecsOf(PREFIX + Join(SpecTexts(specs), ','), size);
            read == Some(AllSeen(specs, size)) && (Selected(read.value, k, size) <==> Selected(specs, k, size))
  {
    var text := Join(SpecTexts(specs), ',');
    ReadWrittenAll(specs, size);
    SplitJoin(SpecTexts(specs), ',');
    assert (PREFIX + text)[|PREFIX|..] == text;
    SeenSelects(specs, size, k);
  }
}
