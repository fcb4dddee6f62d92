/** The byte-ranges-specifier of section 2.1 of RFC 7233, with its list in the form that section 7 of RFC 7230
    makes a recipient accept, and the headers on which ParseRange of pkg/http_range/range.go differs from it. */
module RangeGrammar {
  import opened Common
  import opened Numbers
  import opened Strings
  import opened Ranges

  // ---------- the grammar ----------

  predicate IsOws(c: char) { c == ' ' || c == '\t' }

  /** OWS */
  predicate Blank(s: string) { forall c :: c in s ==> IsOws(c) }

  /** byte-range-spec, not backwards, or suffix-byte-range-spec: digits around a dash, and nothing else. */
  predicate Element(e: string) {
    var i := IndexOf(e, '-');
    i >= 0 && var first, last := e[..i], e[i + 1..];
    if first == "" then AllDigits(last)
    else AllDigits(first) && (last == "" || (AllDigits(last) && Value(first) <= Value(last)))
  }

  /** What stands between two commas is this element, with whitespace around it. */
  ghost predicate Listed(part: string, e: string) {
    Element(e) && exists i: nat, j: nat :: Around(part, i, j) && part[i..j] == e
  }

  predicate Around(part: string, i: nat, j: nat) {
    i <= j <= |part| && Blank(part[..i]) && Blank(part[j..])
  }

  ghost predicate InList(part: string) { Blank(part) || exists e :: Listed(part, e) }

  predicate BlankEnds(list: string) { list != "" && (IsOws(list[0]) || IsOws(list[|list| - 1])) }

  /** byte-range-set: elements between commas, at least one, with empty places allowed. */
  ghost predicate ByteRangeSet(list: string) {
    var parts := Split(list, ',');
    && !BlankEnds(list) && (forall k :: 0 <= k < |parts| ==> InList(parts[k]))
    && exists k, e :: 0 <= k < |parts| && Listed(parts[k], e)
  }

  /** bytes-unit, in capital or small letters. */
  predicate BytesUnit(u: string) {
    |u| == 5 && forall i :: 0 <= i < 5 ==> u[i] == PREFIX[i] || u[i] as int + 32 == PREFIX[i] as int
  }

  /** byte-ranges-specifier */
  ghost predicate ByteRanges(s: string) {
    |s| >= 6 && BytesUnit(s[..5]) && s[5] == '=' && ByteRangeSet(s[6..])
  }

  /** The header is there, and is not a byte-ranges-specifier; one of another range unit counts as invalid. */
  ghost predicate InvalidHeader(s: string) { s != "" && !ByteRanges(s) }

  // ---------- where the code differs ----------

  /** The element has a number beyond int64 which the code reads: the last position is not read when the first
      is after the end of the file. */
  predicate TooBig(e: string, size: nat) {
    var i := IndexOf(e, '-');
    i >= 0 && var first, last := e[..i], e[i + 1..];
    if first == "" then Value(last) > MAX_INT64
    else Value(first) > MAX_INT64 || (last != "" && Value(first) < size && Value(last) > MAX_INT64)
  }

  /** Between the commas there is whitespace, or an element that is not too big. */
  ghost predicate Proper(part: string, size: nat) {
    Blank(part) || exists e :: Listed(part, e) && !TooBig(e, size)
  }

  /** Between the commas there is neither whitespace nor an element, but with line ends at the ends, blanks at the
      dash and signs taken off it is empty or an element, or it begins after the end of the file. */
  ghost predicate Excused(part: string, size: nat) {
    !InList(part) && var ra := TrimString(part); ra == "" || Tolerated(ra) || StartsBeyond(ra, size)
  }

  /** A byte-ranges-specifier whose unit has a capital letter, or which has a number that is too big. */
  ghost predicate TooStrict(s: string, size: nat) {
    ByteRanges(s) && (!HasPrefix(s, PREFIX) || SomeTooBig(Split(s[6..], ','), size))
  }

  ghost predicate SomeTooBig(parts: seq<string>, size: nat) {
    exists k, e :: 0 <= k < |parts| && Listed(parts[k], e) && TooBig(e, size)
  }

  /** Every part is proper or excused; and some part is excused, or all are whitespace, or whitespace stands at an
      end of the list. */
  ghost predicate TooLenient(s: string, size: nat) {
    HasPrefix(s, PREFIX) && var parts := Split(s[6..], ',');
    AllAccepted(parts, size) && (SomeExcused(parts, size) || AllBlank(parts) || BlankEnds(s[6..]))
  }

  ghost predicate AllAccepted(parts: seq<string>, size: nat) {
    forall k :: 0 <= k < |parts| ==> Proper(parts[k], size) || Excused(parts[k], size)
  }

  ghost predicate SomeExcused(parts: seq<string>, size: nat) { exists k :: 0 <= k < |parts| && Excused(parts[k], size) }

  predicate AllBlank(parts: seq<string>) { forall k :: 0 <= k < |parts| ==> Blank(parts[k]) }

  // ---------- one part ----------

  lemma {:induction false} TrimBlank(part: string)
    requires Blank(part)
    ensures TrimString(part) == ""
  {
    if part != "" {
      assert part[0] in part;
      TrimBlank(part[1..]);
    }
  }

  lemma {:induction false} TrimAround(part: string, i: nat, j: nat)
    requires Around(part, i, j) && i < j && !IsAsciiSpace(part[i]) && !IsAsciiSpace(part[j - 1])
    ensures TrimString(part) == part[i..j]
    decreases |part|
  {
    hide TrimString;
    if i > 0 {
      var rest := part[1..];
      assert part[0] in part[..i] && part[..i][1..] == rest[..i - 1] && rest[j - 1..] == part[j..];
      TrimHead(part);
      TrimAround(rest, i - 1, j - 1);
      assert rest[i - 1..j - 1] == part[i..j];
    } else if j < |part| {
      var init := part[..|part| - 1];
      assert part[|part| - 1] in part[j..] && init[j..] == part[j..][..|part| - 1 - j] && init[..i] == part[..i];
      TrimTail(part);
      TrimAround(init, i, j);
      assert init[i..j] == part[i..j];
    } else {
      assert part[i..j] == part;
    }
  }

  lemma TrimHead(part: string)
    requires part != "" && IsAsciiSpace(part[0])
    ensures TrimString(part) == TrimString(part[1..])
  {
  }

  lemma TrimTail(part: string)
    requires part != "" && !IsAsciiSpace(part[0]) && IsAsciiSpace(part[|part| - 1])
    ensures TrimString(part) == TrimString(part[..|part| - 1])
  {
  }

  lemma ElementEnds(e: string)
    requires Element(e)
    ensures e != "" && !IsAsciiSpace(e[0]) && !IsAsciiSpace(e[|e| - 1]) && !Blank(e)
  {
    hide IndexOf, Value;
    var i := IndexOf(e, '-');
    var first, last := e[..i], e[i + 1..];
    assert e[i] in e && !IsOws(e[i]);
    if first != "" { assert first[0] in first; }
    if last != "" { assert last[|last| - 1] in last; }
  }

  /** A part holds one element at most, and that is the part without its blanks. */
  lemma ListedIsTrimmed(part: string, e: string)
    requires Listed(part, e)
    ensures TrimString(part) == e && !Blank(part)
  {
    hide Element, Blank;
    var i: nat, j: nat :| Around(part, i, j) && part[i..j] == e;
    ElementEnds(e);
    TrimAround(part, i, j);
    if Blank(part) { BlankPart(part, i, j); }
  }

  lemma BlankPart(part: string, i: nat, j: nat)
    requires Blank(part) && i <= j <= |part|
    ensures Blank(part[i..j])
  {
  }

  lemma DigitsPlain(x: string)
    requires x == "" || AllDigits(x)
    ensures TrimString(x) == x && Unsigned(x, true) == x && Unsigned(x, false) == x
  {
    if x != "" { assert x[0] in x && x[|x| - 1] in x; }
  }

  /** The code rejects an element exactly when it is too big. */
  lemma ElementRejected(e: string, size: nat)
    requires Element(e)
    ensures RejectedPart(e, size) <==> TooBig(e, size)
  {
    hide IndexOf, TrimString, Unsigned, Value;
    var i := IndexOf(e, '-');
    DigitsPlain(e[..i]);
    DigitsPlain(e[i + 1..]);
  }

  /** What the code makes of one part. */
  lemma PartAccepted(part: string, size: nat)
    ensures RejectedPart(TrimString(part), size) <==> !(Proper(part, size) || Excused(part, size))
    ensures Blank(part) ==> !RejectedPart(TrimString(part), size)
    ensures forall e :: Listed(part, e) ==> !Blank(part) && (TooBig(e, size) <==> RejectedPart(TrimString(part), size))
  {
    hide Blank, TrimString, Listed, TooBig, Tolerated, StartsBeyond;
    if Blank(part) { TrimBlank(part); }
    forall e | Listed(part, e) ensures TrimString(part) == e && !Blank(part) && (RejectedPart(e, size) <==> TooBig(e, size)) {
      ListedIsTrimmed(part, e);
      ListedElement(part, e);
      ElementRejected(e, size);
    }
  }

  lemma ListedElement(part: string, e: string)
    requires Listed(part, e)
    ensures Element(e)
  {
  }

  // ---------- the whole list ----------

  /** A list of the grammar is rejected exactly for a number that is too big. */
  lemma SetRejected(list: string, size: nat)
    requires ByteRangeSet(list)
    ensures var parts := Split(list, ','); Rejected(parts, size) <==> SomeTooBig(parts, size)
  {
    hide Split, Listed, TrimString, TooBig, Blank, RejectedPart, Excused, Proper;
    var parts := Split(list, ',');
    if k :| 0 <= k < |parts| && RejectedPart(TrimString(parts[k]), size) {
      PartAccepted(parts[k], size);
      assert InList(parts[k]);
      var e :| Listed(parts[k], e);
    }
    if k, e :| 0 <= k < |parts| && Listed(parts[k], e) && TooBig(e, size) { PartAccepted(parts[k], size); }
  }

  lemma AllAcceptedIff(parts: seq<string>, size: nat)
    ensures AllAccepted(parts, size) <==> !Rejected(parts, size)
  {
    hide Proper, Excused, TrimString, RejectedPart;
    forall k | 0 <= k < |parts|
      ensures RejectedPart(TrimString(parts[k]), size) <==> !(Proper(parts[k], size) || Excused(parts[k], size))
    {
      PartAccepted(parts[k], size);
    }
  }

  /** A list that the code accepts is outside the grammar exactly for these reasons. */
  lemma SetAccepted(list: string, size: nat)
    requires AllAccepted(Split(list, ','), size)
    ensures var parts := Split(list, ',');
            !ByteRangeSet(list) <==> SomeExcused(parts, size) || AllBlank(parts) || BlankEnds(list)
  {
    hide Split, Listed, TooBig, Blank, BlankEnds, TrimString, Tolerated, StartsBeyond;
    var parts := Split(list, ',');
    forall k, e | 0 <= k < |parts| && Listed(parts[k], e) ensures !Blank(parts[k]) { PartAccepted(parts[k], size); }
    if !SomeExcused(parts, size) {
      forall k | 0 <= k < |parts| ensures InList(parts[k]) && Proper(parts[k], size) { }
    }
  }

  lemma PrefixIsUnit(s: string)
    requires HasPrefix(s, PREFIX)
    ensures |PREFIX| == 6 && |s| >= 6 && BytesUnit(s[..5]) && s[5] == '='
    ensures ByteRanges(s) <==> ByteRangeSet(s[6..])
  {
    hide ByteRangeSet;
    assert forall i :: 0 <= i < 6 ==> s[i] == PREFIX[i];
  }

  /** ErrInvalid is given exactly to headers that are no byte-ranges-specifiers, as the comment on ParseRange has it,
      if and only if the header is not one of two kinds; on the first kind the code is too strict, and on the
      second too lenient. */
  lemma RejectsInvalidIff(s: string, size: nat)
    ensures RejectedHeader(s, size) && !InvalidHeader(s) <==> TooStrict(s, size)
    ensures !RejectedHeader(s, size) && InvalidHeader(s) <==> TooLenient(s, size)
    ensures (RejectedHeader(s, size) <==> InvalidHeader(s)) <==> !TooStrict(s, size) && !TooLenient(s, size)
  {
    hide ByteRangeSet, Rejected, SomeTooBig, SomeExcused, AllBlank, BlankEnds, AllAccepted, Split, BytesUnit;
    if HasPrefix(s, PREFIX) {
      PrefixIsUnit(s);
      var parts := Split(s[6..], ',');
      AllAcceptedIff(parts, size);
      if AllAccepted(parts, size) { SetAccepted(s[6..], size); }
      if ByteRangeSet(s[6..]) { SetRejected(s[6..], size); }
    }
  }

  // ---------- written headers ----------

  lemma SpecTextElement(spec: Spec)
    requires Writable(spec)
    ensures Element(SpecText(spec)) && Listed(SpecText(spec), SpecText(spec))
  {
    hide IndexOf, Digits, Value;
    SpecTextIs(spec);
    PartsText(spec);
    DashCuts(Start(spec), End(spec));
    match spec {
      case FromTo(first, last) =>
        ValueDigits(first);
        ValueDigits(last);
      case From(_) =>
      case Suffix(_) =>
    }
    var text := SpecText(spec);
    assert Around(text, 0, |text|) && text[0..|text|] == text;
  }

  /** Joined strings have the ends of the first and of the last. */
  lemma {:induction false} JoinEnds(parts: seq<string>)
    requires parts != [] && forall k :: 0 <= k < |parts| ==> parts[k] != ""
    ensures var s := Join(parts, ','); s != "" && s[0] == parts[0][0]
    ensures var s, last := Join(parts, ','), parts[|parts| - 1]; s[|s| - 1] == last[|last| - 1]
  {
    if |parts| > 1 { JoinEnds(parts[1..]); }
  }

  lemma {:induction false} SpecTextsElements(specs: seq<Spec>)
    requires forall spec :: spec in specs ==> Writable(spec)
    ensures |SpecTexts(specs)| == |specs| && forall k :: 0 <= k < |specs| ==> Element(SpecTexts(specs)[k])
    ensures forall k :: 0 <= k < |specs| ==> Listed(SpecTexts(specs)[k], SpecTexts(specs)[k]) && ',' !in SpecTexts(specs)[k]
  {
    hide Element, Listed, SpecText;
    if specs != [] {
      var n := |specs| - 1;
      assert Writable(specs[n]);
      SpecTextsElements(specs[..n]);
      SpecTextElement(specs[n]);
      ReadWritten(specs[n], 0);
    }
  }

  /** A header that is written spec by spec is a byte-ranges-specifier. */
  lemma WrittenIsByteRanges(specs: seq<Spec>)
    requires specs != [] && forall spec :: spec in specs ==> Writable(spec)
    ensures ByteRanges(PREFIX + Join(SpecTexts(specs), ','))
  {
    hide Element, Listed, SpecTexts, Join, Split, Writable, Blank;
    var texts := SpecTexts(specs);
    var list := Join(texts, ',');
    SpecTextsElements(specs);
    forall k | 0 <= k < |texts| ensures texts[k] != "" && !IsOws(texts[k][0]) && !IsOws(texts[k][|texts[k]| - 1]) {
      ElementEnds(texts[k]);
    }
    JoinEnds(texts);
    SplitJoin(texts, ',');
    assert Listed(texts[0], texts[0]);
    assert (PREFIX + list)[6..] == list;
    PrefixIsUnit(PREFIX + list);
  }

  // ---------- headers on which they differ ----------

  lemma OnePart(s: string, list: string)
    requires s == PREFIX + list && ',' !in list
    ensures HasPrefix(s, PREFIX) && s[6..] == list && s[|PREFIX|..] == list && Split(list, ',') == [list]
  {
    hide Split;
  }

  /** The header is invalid if it has one part, with no whitespace at its ends, which is no element. */
  lemma OneBadPart(s: string, list: string)
    requires s == PREFIX + list && ',' !in list && !Element(list)
    requires list == "" || (!IsOws(list[0]) && !IsOws(list[|list| - 1]))
    ensures InvalidHeader(s)
  {
    hide Split, Element;
    OnePart(s, list);
    PrefixIsUnit(s);
    if e :| Listed(list, e) { NoBlankListed(list, e); }
  }

  lemma NoBlankListed(part: string, e: string)
    requires Listed(part, e) && (part == "" || (!IsOws(part[0]) && !IsOws(part[|part| - 1])))
    ensures e == part
  {
    hide Element;
    var i: nat, j: nat :| Around(part, i, j) && part[i..j] == e;
  }

  /** What the code makes of a header with one part. */
  lemma OneSpec(s: string, list: string, size: nat)
    requires s == PREFIX + list && ',' !in list
    ensures var ra := TrimString(list); var spec := ReadSpec(ra, size);
            SpecsOf(s, size) == if ra == "" then Some([]) else if spec.None? then None else Some([spec.value])
  {
    hide Split, ReadSpec, TrimString;
    OnePart(s, list);
    var parts := [list];
    assert parts[..0] == [] && ReadSpecs(parts[..0], size) == Some([]);
    var spec := ReadSpec(TrimString(list), size);
    if spec.Some? { assert [] + [spec.value] == [spec.value]; }
  }

  lemma OneReply(s: string, size: nat, spec: Spec, r: Result<seq<Range>, RangeError>)
    requires Replies(s, size, r) && SpecsOf(s, size) == Some([spec])
    ensures if Beyond(spec, size) then r == Err(ErrNoOverlap) else r.Ok? && |r.value| == 1 && Answers(r.value[0], spec, size)
  {
    hide SpecsOf, Answers, Beyond;
    var specs := [spec];
    assert specs[..0] == [] && Live(specs[..0], size) == [];
    assert Live(specs, size) == if Beyond(spec, size) then [] else specs;
  }

  /** A sign: invalid, and answered with a range. */
  lemma InvalidSign(r: Result<seq<Range>, RangeError>)
    requires Replies("bytes=+1-2", 3, r)
    ensures InvalidHeader("bytes=+1-2") && r.Ok? && |r.value| == 1 && Answers(r.value[0], FromTo(1, 2), 3)
  {
    hide SpecsOf, ReadSpec, Element;
    var list := "+1-2";
    assert PREFIX + list == "bytes=+1-2";
    SignTexts();
    OneBadPart("bytes=+1-2", list);
    OneSpec("bytes=+1-2", list, 3);
    OneReply("bytes=+1-2", 3, FromTo(1, 2), r);
  }

  lemma SignTexts()
    ensures var list := "+1-2";
            ',' !in list && TrimString(list) == list && !Element(list) && ReadSpec(list, 3) == Some(FromTo(1, 2))
  {
    hide ParseInt, Value, TrimString;
    DashCuts("+1", "2");
    assert "+1" + "-" + "2" == "+1-2";
    assert !AllDigits("+1") by { assert '+' in "+1"; }
    SignNumbers();
  }

  lemma SignNumbers()
    ensures TrimString("+1-2") == "+1-2" && TrimString("+1") == "+1" && TrimString("2") == "2"
    ensures ParseInt("+1") == Some(1) && ParseInt("2") == Some(2)
  {
    assert Value("1") == 1 by { ValueDigits(1); }
    assert Value("2") == 2 by { ValueDigits(2); }
    assert "+1"[1..] == "1";
  }

  /** No element at all: invalid, and answered with no ranges. */
  lemma InvalidEmpty(size: nat, r: Result<seq<Range>, RangeError>)
    requires Replies("bytes=", size, r)
    ensures InvalidHeader("bytes=") && r == Ok([])
  {
    hide SpecsOf;
    assert PREFIX + "" == "bytes=" && IndexOf("", '-') == -1 && TrimString("") == "";
    OneBadPart("bytes=", "");
    OneSpec("bytes=", "", size);
  }

  /** The end of a range that begins after the end of the file: invalid, and not looked at. */
  lemma InvalidBeyond(r: Result<seq<Range>, RangeError>)
    requires Replies("bytes=5-x", 3, r)
    ensures InvalidHeader("bytes=5-x") && r == Err(ErrNoOverlap)
  {
    hide SpecsOf, ReadSpec, Element;
    var list := "5-x";
    assert PREFIX + list == "bytes=5-x";
    BeyondTexts();
    OneBadPart("bytes=5-x", list);
    OneSpec("bytes=5-x", list, 3);
    OneReply("bytes=5-x", 3, From(5), r);
  }

  lemma BeyondTexts()
    ensures var list := "5-x";
            ',' !in list && TrimString(list) == list && !Element(list) && ReadSpec(list, 3) == Some(From(5))
  {
    hide ParseInt, Value, TrimString;
    DashCuts("5", "x");
    assert "5" + "-" + "x" == "5-x";
    assert !AllDigits("x") by { assert 'x' in "x"; }
    BeyondNumbers();
  }

  lemma BeyondNumbers()
    ensures TrimString("5-x") == "5-x" && TrimString("5") == "5" && TrimString("x") == "x" && ParseInt("5") == Some(5)
  {
    assert Value("5") == 5 by { ValueDigits(5); }
  }

  /** A position beyond int64: a byte-ranges-specifier, and found invalid. */
  lemma ValidTooBig(size: nat)
    ensures var s := PREFIX + (Digits(MAX_INT64 + 1) + "-"); ByteRanges(s) && RejectedHeader(s, size)
  {
    hide Element, TooBig, Digits, ByteRanges, RejectedHeader;
    var d := Digits(MAX_INT64 + 1);
    var list := d + "-";
    var s := PREFIX + list;
    ElementOfBig(d, list, size);
    OneListed(s, list);
    var parts := [list];
    assert Listed(parts[0], list) && SomeTooBig(parts, size);
    RejectsInvalidIff(s, size);
    OnePart(s, list);
  }

  lemma ElementOfBig(d: string, list: string, size: nat)
    requires d == Digits(MAX_INT64 + 1) && list == d + "-"
    ensures Element(list) && TooBig(list, size) && ',' !in list
  {
    hide Digits;
    ValueDigits(MAX_INT64 + 1);
    assert '-' !in d && d + "-" + "" == d + "-";
    DashCuts(d, "");
  }

  lemma OneListed(s: string, list: string)
    requires s == PREFIX + list && ',' !in list && Element(list)
    ensures ByteRanges(s) && Listed(list, list) && Split(s[6..], ',') == [list]
  {
    hide Split, Element;
    OnePart(s, list);
    PrefixIsUnit(s);
    ElementEnds(list);
    assert list[0..|list|] == list && Around(list, 0, |list|);
    assert Listed([list][0], list);
    assert !BlankEnds(list);
  }

  /** A capital letter in the unit: a byte-ranges-specifier, and found invalid. */
  lemma ValidCapital(size: nat)
    ensures ByteRanges("Bytes=0-") && RejectedHeader("Bytes=0-", size)
  {
    hide ByteRangeSet, Element, Split;
    FromZero();
    OneListed("bytes=0-", "0-");
    PrefixIsUnit("bytes=0-");
    assert "bytes=0-"[6..] == "0-" && "Bytes=0-"[6..] == "0-";
    CapitalUnit();
  }

  lemma FromZero()
    ensures Element("0-") && ',' !in "0-" && "bytes=0-" == PREFIX + "0-"
  {
    hide Value;
    DashCuts("0", "");
    assert "0" + "-" + "" == "0-" && AllDigits("0");
  }

  lemma CapitalUnit()
    ensures var s := "Bytes=0-"; BytesUnit(s[..5]) && s[5] == '=' && !HasPrefix(s, PREFIX)
  {
    var s := "Bytes=0-";
    assert s[0] == 'B' && s[1] == 'y' && s[2] == 't' && s[3] == 'e' && s[4] == 's' && s[0] != PREFIX[0];
  }
}
