/** The Range and Content-Range headers (internal/tgutil/util.go), against the meaning that
  * section 2.1 of RFC 7233 gives to a byte-range-spec. */
module RangeHeader {
  import opened Common

  /** Both ends are inclusive. */
  datatype Range = Range(start: int64, end: int64)

  datatype Parsed = Whole | Part(range: Range) | Malformed | Unsatisfiable

  // ---------------------------------------------------------------- numbers

  predicate IsDigit(c: char) { '0' <= c <= '9' }

  predicate AllDigits(s: string) { forall i :: 0 <= i < |s| ==> IsDigit(s[i]) }

  function Value(s: string): (v: nat)
    requires AllDigits(s)
  {
    if s == "" then 0 else 10 * Value(s[..|s| - 1]) + (s[|s| - 1] - '0') as int
  }

  /** strconv.ParseInt in base 10: an optional sign, digits, and no overflow. */
  function ParseInt(s: string): Option<int64> {
    var negative := s != "" && s[0] == '-';
    var t := if s != "" && (s[0] == '+' || s[0] == '-') then s[1..] else s;
    if t == "" || !AllDigits(t) then None
    else
      var v: int := Value(t);
      if negative && v <= MAX_INT64 + 1 then Some(-v)
      else if !negative && v <= MAX_INT64 then Some(v)
      else None
  }

  function Digit(d: nat): (c: char)
    requires d < 10
    ensures IsDigit(c)
  {
    '0' + d as char
  }

  /** Decimal notation. */
  function Decimal(n: nat): (s: string)
    ensures s != "" && AllDigits(s)
  {
    if n < 10 then [Digit(n)] else Decimal(n / 10) + [Digit(n % 10)]
  }

  lemma {:induction false} DecimalRoundTrip(n: nat)
    ensures Value(Decimal(n)) == n
  {
    var s := Decimal(n);
    if n < 10 {
      assert s[..0] == "";
    } else {
      DecimalRoundTrip(n / 10);
      assert s[..|s| - 1] == Decimal(n / 10);
    }
  }

  // ---------------------------------------------------------------- parsing

  /** The index of the first c in s, as strings.IndexByte has it. */
  function IndexOf(s: string, c: char): (i: Option<nat>)
    ensures i.None? <==> c !in s
    ensures i.Some? ==> i.value < |s| && s[i.value] == c && c !in s[..i.value]
  {
    if s == "" then None
    else if s[0] == c then Some(0)
    else
      match IndexOf(s[1..], c)
      case None => None
      case Some(i) => assert s[..i + 1] == [s[0]] + s[1..][..i]; Some(i + 1)
  }

  lemma {:induction false} IndexOfFirst(a: string, c: char, b: string)
    requires c !in a
    ensures IndexOf(a + [c] + b, c) == Some(|a|)
  {
    var s := a + [c] + b;
    if a == "" {
      assert s[0] == c;
    } else {
      assert s[1..] == a[1..] + [c] + b;
      IndexOfFirst(a[1..], c, b);
    }
  }

  const PREFIX := "bytes="

  /** The range, if it is one, lies within a file of the given size. */
  predicate Within(p: Parsed, size: int64) {
    !p.Whole? && (p.Part? ==> 0 <= p.range.start <= p.range.end < size)
  }

  function ParseSuffix(text: string, size: int64): (p: Parsed)
    requires 0 < size
    ensures Within(p, size)
  {
    if text == "" then Malformed
    else
      match ParseInt(text)
      case None => Malformed
      case Some(n) => if n <= 0 then Malformed else Part(Range(size - Min(n, size), size - 1))
  }

  function ParseSpan(first: string, last: string, size: int64): (p: Parsed)
    requires 0 < size
    ensures Within(p, size)
  {
    match ParseInt(first)
    case None => Malformed
    case Some(start) =>
      if start < 0 then Malformed
      else if start >= size then Unsatisfiable
      else if last == "" then Part(Range(start, size - 1))
      else
        match ParseInt(last)
        case None => Unsatisfiable
        case Some(end) => if end < start then Unsatisfiable else Part(Range(start, Min(end, size - 1)))
  }

  /** The first range of a list. */
  function FirstOf(spec: string): string {
    match IndexOf(spec, ',')
    case None => spec
    case Some(i) => TrimSpace(spec[..i])
  }

  function ParseSpec(spec: string, size: int64): (p: Parsed)
    requires 0 < size
    ensures Within(p, size)
  {
    match IndexOf(spec, '-')
    case None => Malformed
    case Some(i) =>
      var first, last := TrimSpace(spec[..i]), TrimSpace(spec[i + 1..]);
      if first == "" then ParseSuffix(last, size) else ParseSpan(first, last, size)
  }

  /** ParseRange. Whatever the header, a range it accepts lies within the file. */
  function ParseRange(header: string, size: int64): (p: Parsed)
    ensures p.Part? ==> 0 <= p.range.start <= p.range.end < size
    ensures p.Whole? <==> header == ""
    ensures header != "" && size <= 0 ==> p == Unsatisfiable
  {
    if header == "" then Whole
    else if size <= 0 then Unsatisfiable
    else if !(PREFIX <= header) then Malformed
    else
      var spec := TrimSpace(header[|PREFIX|..]);
      if spec == "" || FirstOf(spec) == "" then Malformed else ParseSpec(FirstOf(spec), size)
  }

  // ---------------------------------------------------------------- RFC 7233

  /** Every syntactically correct byte-range-spec of section 2.1. */
  datatype Spec =
    | Span(first: nat, last: nat)     // first-byte-pos "-" last-byte-pos
    | From(first: nat)                // first-byte-pos "-"
    | Last(length: nat)               // "-" suffix-length

  /** What the RFC answers for a representation of the given size. By section 2.1 a span that ends
    * before it begins is invalid and a suffix of length zero unsatisfiable; section 3.1 answers
    * invalid and unsatisfiable ranges alike, with 416. */
  function Selected(spec: Spec, size: int64): Parsed
    requires 0 < size
  {
    match spec
    case Span(a, b) =>
      if b < a || a >= size then Unsatisfiable else Part(Range(a, if b < size then b else size - 1))
    case From(a) => if a >= size then Unsatisfiable else Part(Range(a, size - 1))
    case Last(n) => if n == 0 then Unsatisfiable else Part(Range(if n < size then size - n else 0, size - 1))
  }

  lemma PlainNumber(s: string)
    requires s != "" && AllDigits(s)
    ensures ParseInt(s) == if Value(s) <= MAX_INT64 then Some(Value(s)) else None
  {
    hide Value;
  }

  /** The text of a spec: digits, a hyphen, digits. */
  predicate IsSpec(f: string, l: string) {
    AllDigits(f) && AllDigits(l) && (f != "" || l != "")
  }

  function SpecText(f: string, l: string): string {
    f + ['-'] + l
  }

  lemma SpecIsPlain(f: string, l: string)
    requires IsSpec(f, l)
    ensures var spec := SpecText(f, l); spec != "" && TrimSpace(spec) == spec && ',' !in spec
  {
    var spec := SpecText(f, l);
    assert !IsSpace(spec[0]) && !IsSpace(spec[|spec| - 1]);
  }

  lemma DigitsAreTrimmed(s: string)
    requires AllDigits(s)
    ensures TrimSpace(s) == s
  {}

  lemma SpecSplits(f: string, l: string, size: int64)
    requires IsSpec(f, l) && 0 < size
    ensures ParseSpec(SpecText(f, l), size) == if f == "" then ParseSuffix(l, size) else ParseSpan(f, l, size)
  {
    hide ParseSuffix, ParseSpan, TrimSpace;
    IndexOfFirst(f, '-', l);
    DigitsAreTrimmed(f);
    DigitsAreTrimmed(l);
    var spec := SpecText(f, l);
    assert spec[..|f|] == f && spec[|f| + 1..] == l;
  }

  /** A spec of digits and one hyphen goes through trimming and splitting untouched. */
  lemma SplitsAtHyphen(f: string, l: string, size: int64)
    requires IsSpec(f, l) && 0 < size
    ensures ParseRange(PREFIX + SpecText(f, l), size) ==
              if f == "" then ParseSuffix(l, size) else ParseSpan(f, l, size)
  {
    hide ParseSpec, ParseSuffix, ParseSpan, SpecText, TrimSpace;
    var header := PREFIX + SpecText(f, l);
    assert header[|PREFIX|..] == SpecText(f, l);
    SpecIsPlain(f, l);
    SpecSplits(f, l, size);
  }

  /** The code answers a span as the RFC does exactly when the positions that matter fit an int64.
    * Beyond that, a huge first position is called malformed and a huge last position unsatisfiable,
    * where the RFC would clamp it. */
  lemma SpanExactly(f: string, l: string, size: int64)
    requires f != "" && l != "" && AllDigits(f) && AllDigits(l) && 0 < size
    ensures ParseRange(PREFIX + SpecText(f, l), size) == Selected(Span(Value(f), Value(l)), size)
            <==> Value(f) <= MAX_INT64 && (Value(f) >= size || Value(l) <= MAX_INT64)
  {
    hide ParseRange, ParseInt, SpecText, TrimSpace;
    SplitsAtHyphen(f, l, size);
    PlainNumber(f);
    PlainNumber(l);
  }

  lemma FromExactly(f: string, size: int64)
    requires f != "" && AllDigits(f) && 0 < size
    ensures ParseRange(PREFIX + SpecText(f, ""), size) == Selected(From(Value(f)), size) <==> Value(f) <= MAX_INT64
  {
    hide ParseRange, ParseInt, SpecText, TrimSpace;
    SplitsAtHyphen(f, "", size);
    PlainNumber(f);
  }

  /** A suffix is answered as the RFC does exactly when its length is positive and fits an int64. */
  lemma LastExactly(l: string, size: int64)
    requires l != "" && AllDigits(l) && 0 < size
    ensures ParseRange(PREFIX + SpecText("", l), size) == Selected(Last(Value(l)), size)
            <==> 0 < Value(l) <= MAX_INT64
  {
    hide ParseRange, ParseInt, SpecText, TrimSpace;
    SplitsAtHyphen("", l, size);
    PlainNumber(l);
  }

  /** A last position before the first is never ignored: the header is refused, as unsatisfiable
    * when the first position fits an int64. */
  lemma BackwardSpan(f: string, l: string, size: int64)
    requires f != "" && l != "" && AllDigits(f) && AllDigits(l) && 0 < size && Value(l) < Value(f)
    ensures ParseRange(PREFIX + SpecText(f, l), size) == if Value(f) <= MAX_INT64 then Unsatisfiable else Malformed
  {
    hide ParseRange, ParseInt, SpecText, TrimSpace;
    SplitsAtHyphen(f, l, size);
    PlainNumber(f);
    PlainNumber(l);
  }

  /** A suffix of length zero is answered with 400 instead of 416, and a last position or a suffix
    * length of 2^63 with 416 and 400 instead of bytes, for every file. */
  lemma FailingHeaders(size: int64)
    requires 0 < size
    ensures ParseRange(PREFIX + SpecText("", "0"), size) == Malformed && Selected(Last(0), size) == Unsatisfiable
    ensures var huge := Decimal(MAX_INT64 + 1);
            && ParseRange(PREFIX + SpecText("0", huge), size) == Unsatisfiable
            && ParseRange(PREFIX + SpecText("", huge), size) == Malformed
            && Selected(Span(0, MAX_INT64 + 1), size) == Selected(Last(MAX_INT64 + 1), size) == Part(Range(0, size - 1))
  {
    hide Decimal;
    var huge := Decimal(MAX_INT64 + 1);
    DecimalRoundTrip(MAX_INT64 + 1);
    assert Value("0") == 0 by { assert "0"[..0] == ""; }
    SplitsAtHyphen("", "0", size);
    SplitsAtHyphen("0", huge, size);
    SplitsAtHyphen("", huge, size);
    PlainNumber("0");
    PlainNumber(huge);
  }

  /** The spec for a range. */
  function RangeText(r: Range): string
    requires 0 <= r.start && 0 <= r.end
  {
    SpecText(Decimal(r.start), Decimal(r.end))
  }

  /** The header for a range parses back to it. */
  lemma RangeRoundTrip(r: Range, size: int64)
    requires 0 <= r.start <= r.end < size
    ensures ParseRange(PREFIX + RangeText(r), size) == Part(r)
  {
    DecimalRoundTrip(r.start);
    DecimalRoundTrip(r.end);
    SpanExactly(Decimal(r.start), Decimal(r.end), size);
  }

  lemma {:induction false} TrimRightKeeps(s: string, k: nat)
    requires k < |s| && !IsSpace(s[k])
    ensures k < |TrimRight(s)|
  {
    if IsSpace(s[|s| - 1]) {
      TrimRightKeeps(s[..|s| - 1], k);
    }
  }

  lemma {:induction false} TrimLeftOfList(spec: string, rest: string)
    requires ',' !in spec
    ensures TrimLeft(spec + [','] + rest) == TrimLeft(spec) + [','] + rest && ',' !in TrimLeft(spec)
  {
    var list := spec + [','] + rest;
    if spec != "" && IsSpace(spec[0]) {
      assert list[1..] == spec[1..] + [','] + rest;
      TrimLeftOfList(spec[1..], rest);
    } else {
      assert !IsSpace(list[0]);
    }
  }

  /** Trimming a list and cutting it at the comma leaves its first range, trimmed. */
  lemma ListTrimmed(spec: string, rest: string)
    requires ',' !in spec
    ensures TrimSpace(spec + [','] + rest) != "" && FirstOf(TrimSpace(spec + [','] + rest)) == TrimSpace(spec)
  {
    hide TrimRight;
    TrimLeftOfList(spec, rest);
    var first := TrimLeft(spec);
    var list := first + [','] + rest;
    assert list[|first|] == ',';
    TrimRightKeeps(list, |first|);
    var t := TrimRight(list);
    assert t == first + [','] + t[|first| + 1..];
    IndexOfFirst(first, ',', t[|first| + 1..]);
    assert t[..|first|] == first;
    assert TrimLeft(first) == first;
  }

  /** Only the first range of a list counts, whatever it is and whatever follows the comma. */
  lemma OnlyTheFirstRange(spec: string, rest: string, size: int64)
    requires ',' !in spec
    ensures ParseRange(PREFIX + (spec + [','] + rest), size) == ParseRange(PREFIX + spec, size)
  {
    hide ParseSpec, TrimSpace;
    ListTrimmed(spec, rest);
    TrimmedIsPlain(spec);
    assert (PREFIX + (spec + [','] + rest))[|PREFIX|..] == spec + [','] + rest;
    assert (PREFIX + spec)[|PREFIX|..] == spec;
  }

  lemma TrimmedIsPlain(spec: string)
    requires ',' !in spec
    ensures FirstOf(TrimSpace(spec)) == TrimSpace(spec)
  {
    TrimLeftOfList(spec, "");
  }

  // ---------------------------------------------------------------- sets of ranges, and other units

  /** The two numerals of a byte-range-spec, one of them possibly empty. */
  datatype Numerals = Numerals(first: string, last: string)
  {
    predicate Ok() { IsSpec(first, last) }

    function Spec(): Spec
      requires Ok()
    {
      if first == "" then Last(Value(last))
      else if last == "" then From(Value(first))
      else Span(Value(first), Value(last))
    }

    /** The positions that matter fit an int64. */
    predicate Fits(size: int64)
      requires Ok()
    {
      if first == "" then Value(last) <= MAX_INT64
      else Value(first) <= MAX_INT64 && (last == "" || Value(last) <= MAX_INT64)
    }
  }

  predicate IsSet(specs: seq<Numerals>) {
    specs != [] && forall i :: 0 <= i < |specs| ==> specs[i].Ok()
  }

  /** The specs of a byte-range-set, separated by commas. */
  function SetText(specs: seq<Numerals>): string
    requires specs != []
  {
    var text := SpecText(specs[0].first, specs[0].last);
    if |specs| == 1 then text else text + [','] + SetText(specs[1..])
  }

  /** Section 2.1 of RFC 7233: a set is satisfiable if all of its specs are valid and one of them
    * selects something. */
  predicate Satisfiable(specs: seq<Numerals>, size: int64)
    requires IsSet(specs) && 0 < size
  {
    && (forall i :: 0 <= i < |specs| ==> Valid(specs[i].Spec()))
    && exists i :: 0 <= i < |specs| && Selected(specs[i].Spec(), size).Part?
  }

  predicate Valid(spec: Spec) { spec.Span? ==> spec.first <= spec.last }

  lemma OneSpec(n: Numerals, size: int64)
    requires n.Ok() && 0 < size
    ensures var p := ParseRange(PREFIX + SpecText(n.first, n.last), size);
            && (p.Part? <==> Selected(n.Spec(), size).Part? && n.Fits(size))
            && (p.Part? ==> p == Selected(n.Spec(), size))
  {
    hide ParseRange, ParseInt, SpecText, TrimSpace, Value;
    SplitsAtHyphen(n.first, n.last, size);
    if n.first != "" {
      PlainNumber(n.first);
    }
    if n.last != "" {
      PlainNumber(n.last);
    }
  }

  lemma SetIsItsFirst(specs: seq<Numerals>, size: int64)
    requires IsSet(specs)
    ensures ParseRange(PREFIX + SetText(specs), size) ==
            ParseRange(PREFIX + SpecText(specs[0].first, specs[0].last), size)
  {
    hide ParseRange;
    var text := SpecText(specs[0].first, specs[0].last);
    if |specs| > 1 {
      SpecIsPlain(specs[0].first, specs[0].last);
      OnlyTheFirstRange(text, SetText(specs[1..]), size);
    }
  }

  predicate OthersValid(specs: seq<Numerals>)
    requires IsSet(specs)
  {
    forall i :: 1 <= i < |specs| ==> Valid(specs[i].Spec())
  }

  lemma FirstSelects(specs: seq<Numerals>, size: int64)
    requires IsSet(specs) && 0 < size && Selected(specs[0].Spec(), size).Part?
    ensures Satisfiable(specs, size) <==> OthersValid(specs)
  {
    hide Value, IsSpec;
    assert Valid(specs[0].Spec());
  }

  /** A set is accepted just when the RFC calls it satisfiable, exactly if its first spec selects
    * something and fits and the others are valid, or the RFC does not call it satisfiable and the
    * first spec alone selects nothing or does not fit. */
  lemma SetExactly(specs: seq<Numerals>, size: int64)
    requires IsSet(specs) && 0 < size
    ensures var p, first := ParseRange(PREFIX + SetText(specs), size), specs[0];
            && ((p.Part? <==> Satisfiable(specs, size)) <==>
                  if Selected(first.Spec(), size).Part? && first.Fits(size)
                  then OthersValid(specs)
                  else !Satisfiable(specs, size))
            && (p.Part? ==> p == Selected(first.Spec(), size))
  {
    hide ParseRange, SetText, SpecText, Selected, Satisfiable, OthersValid, Numerals.Spec, Numerals.Fits;
    SetIsItsFirst(specs, size);
    OneSpec(specs[0], size);
    if Selected(specs[0].Spec(), size).Part? {
      FirstSelects(specs, size);
    }
  }

  /** A satisfiable set whose first spec lies beyond the file is refused, for every file. */
  lemma LaterRangeMissed(size: int64)
    requires 0 < size
    ensures var specs := [Numerals(Decimal(size), ""), Numerals("0", "0")];
            && IsSet(specs) && Satisfiable(specs, size)
            && ParseRange(PREFIX + SetText(specs), size) == Unsatisfiable
  {
    hide ParseRange, ParseInt, SetText, SpecText, TrimSpace, Decimal;
    var specs := [Numerals(Decimal(size), ""), Numerals("0", "0")];
    DecimalRoundTrip(size);
    assert Value("0") == 0 by { assert "0"[..0] == ""; }
    assert Selected(specs[1].Spec(), size).Part?;
    SetIsItsFirst(specs, size);
    SplitsAtHyphen(Decimal(size), "", size);
    PlainNumber(Decimal(size));
  }

  lemma UnitIsBytes(unit: string, rest: string, spec: string)
    requires '=' !in unit && unit + ['='] + rest == PREFIX + spec
    ensures unit == "bytes"
  {
    var header := unit + ['='] + rest;
    IndexOfFirst(unit, '=', rest);
    assert header == "bytes" + ['='] + spec;
    IndexOfFirst("bytes", '=', spec);
    assert header[..|unit|] == unit && header[..5] == "bytes";
  }

  /** Every other range unit is refused; section 3.1 of RFC 7233 has such a header ignored. */
  lemma OtherUnitsRefused(unit: string, rest: string, size: int64)
    requires '=' !in unit && unit != "bytes"
    ensures ParseRange(unit + ['='] + rest, size) == if size <= 0 then Unsatisfiable else Malformed
  {
    hide ParseSpec, FirstOf, TrimSpace;
    var header := unit + ['='] + rest;
    if PREFIX <= header {
      UnitIsBytes(unit, rest, header[|PREFIX|..]);
    }
  }

  // ---------------------------------------------------------------- Content-Range

  function ContentRangeValue(r: Range, total: int64): string
    requires 0 <= r.start && 0 <= r.end && 0 <= total
  {
    "bytes " + (Decimal(r.start) + ['-'] + (Decimal(r.end) + ['/'] + Decimal(total)))
  }

  /** A Content-Range value states the range in the form in which a Range header asks for it: cut out up
    * to the slash, it parses back to the range; behind the slash stands the size. */
  lemma ContentRangeParsesBack(r: Range, total: int64)
    requires 0 <= r.start <= r.end < total
    ensures var value := ContentRangeValue(r, total);
            && "bytes " <= value
            && var i := IndexOf(value, '/');
               && i.Some? && |"bytes "| <= i.value
               && ParseRange(PREFIX + value[|"bytes "|..i.value], total) == Part(r)
               && AllDigits(value[i.value + 1..]) && Value(value[i.value + 1..]) == total
  {
    hide Decimal, ParseRange, Value;
    var value, size := ContentRangeValue(r, total), Decimal(total);
    var spec := SpecText(Decimal(r.start), Decimal(r.end));
    assert value == ("bytes " + spec) + ['/'] + size;
    assert '/' !in "bytes " + spec by { NoSlash(Decimal(r.start), Decimal(r.end)); }
    IndexOfFirst("bytes " + spec, '/', size);
    assert value[|"bytes "|..|"bytes "| + |spec|] == spec;
    assert value[|"bytes "| + |spec| + 1..] == size;
    RangeRoundTrip(r, total);
    DecimalRoundTrip(total);
  }

  lemma NoSlash(f: string, l: string)
    requires AllDigits(f) && AllDigits(l)
    ensures '/' !in "bytes " + SpecText(f, l)
  {
    assert "bytes " == ['b', 'y', 't', 'e', 's', ' '];
  }

  function LeadingDigits(s: string): nat {
    if s != "" && IsDigit(s[0]) then 1 + LeadingDigits(s[1..]) else 0
  }

  lemma {:induction false} LeadingNumeral(a: string, c: char, x: string)
    requires AllDigits(a) && !IsDigit(c)
    ensures LeadingDigits(a + [c] + x) == |a|
  {
    if a != "" {
      assert (a + [c] + x)[1..] == a[1..] + [c] + x;
      LeadingNumeral(a[1..], c, x);
    }
  }

  /** Two numerals followed by the same separator are found again. */
  lemma NumeralsSplit(a: string, b: string, c: char, x: string, y: string)
    requires AllDigits(a) && AllDigits(b) && !IsDigit(c) && a + [c] + x == b + [c] + y
    ensures a == b && x == y
  {
    var s := a + [c] + x;
    LeadingNumeral(a, c, x);
    LeadingNumeral(b, c, y);
    assert s[..|a|] == a && s[..|b|] == b;
    assert s[|a| + 1..] == x && s[|b| + 1..] == y;
  }

  lemma DecimalsDiffer(m: nat, n: nat)
    requires Decimal(m) == Decimal(n)
    ensures m == n
  {
    DecimalRoundTrip(m);
    DecimalRoundTrip(n);
  }

  /** A Content-Range value says which bytes were sent, and of how many. */
  lemma ContentRangeDetermines(r: Range, total: int64, q: Range, size: int64)
    requires 0 <= r.start && 0 <= r.end && 0 <= total && 0 <= q.start && 0 <= q.end && 0 <= size
    requires ContentRangeValue(r, total) == ContentRangeValue(q, size)
    ensures r == q && total == size
  {
    hide Decimal;
    var x, y := Decimal(r.end) + ['/'] + Decimal(total), Decimal(q.end) + ['/'] + Decimal(size);
    assert ContentRangeValue(r, total)[|"bytes "|..] == Decimal(r.start) + ['-'] + x;
    assert ContentRangeValue(q, size)[|"bytes "|..] == Decimal(q.start) + ['-'] + y;
    NumeralsSplit(Decimal(r.start), Decimal(q.start), '-', x, y);
    NumeralsSplit(Decimal(r.end), Decimal(q.end), '/', Decimal(total), Decimal(size));
    DecimalsDiffer(r.start, q.start);
    DecimalsDiffer(r.end, q.end);
    DecimalsDiffer(total, size);
  }
}
