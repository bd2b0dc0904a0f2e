/** The pages of the authorized list (internal/bot/handlers_owner.go): the body is split at blank
  * lines and packed greedily into pages. */
module PagePacking {
  import opened Common

  /** Lengths are counted in bytes. */
  type Bytes = seq<byte>

  const SEPARATOR: Bytes := [10, 10]

  const PAGE_MAX := 3500

  function Join(parts: seq<Bytes>): Bytes {
    if parts == [] then []
    else if |parts| == 1 then parts[0]
    else parts[0] + SEPARATOR + Join(parts[1..])
  }

  // ---------------------------------------------------------------- splitting

  /** strings.Split at every separator, leftmost first; seen is the entry so far. */
  function SplitFrom(seen: Bytes, s: Bytes): (parts: seq<Bytes>)
    ensures parts != []
    decreases |s|
  {
    if s == [] then [seen]
    else if SEPARATOR <= s then [seen] + SplitFrom([], s[2..])
    else SplitFrom(seen + [s[0]], s[1..])
  }

  function Split(s: Bytes): seq<Bytes> { SplitFrom([], s) }

  lemma {:induction false} SplitFromJoins(seen: Bytes, s: Bytes)
    ensures Join(SplitFrom(seen, s)) == seen + s
    decreases |s|
  {
    if s == [] {
      assert seen + s == seen;
    } else if SEPARATOR <= s {
      SplitFromJoins([], s[2..]);
      assert s == SEPARATOR + s[2..];
      var rest := SplitFrom([], s[2..]);
      assert ([seen] + rest)[1..] == rest;
      assert Join([seen] + rest) == seen + SEPARATOR + ([] + s[2..]);
    } else {
      SplitFromJoins(seen + [s[0]], s[1..]);
      assert seen + [s[0]] + s[1..] == seen + s;
    }
  }

  /** Joining the entries gives the body back. */
  lemma SplitJoins(s: Bytes)
    ensures Join(Split(s)) == s
  {
    SplitFromJoins([], s);
  }

  /** Two line breaks in a row. */
  predicate Parted(s: Bytes) {
    exists i :: 0 <= i < |s| - 1 && PartedAt(s, i)
  }

  predicate PartedAt(s: Bytes, i: nat)
    requires i + 1 < |s|
  {
    s[i] == 10 && s[i + 1] == 10
  }

  /** Every separator of the text parts entries: no entry contains one, and none could begin earlier,
    * at a line break that ends an entry. */
  predicate Entries(parts: seq<Bytes>) {
    && parts != []
    && (forall i :: 0 <= i < |parts| ==> !Parted(parts[i]))
    && (forall i :: 0 <= i < |parts| - 1 && parts[i] != [] ==> parts[i][|parts[i]| - 1] != 10)
  }

  /** What has been seen of an entry contains no separator and does not begin one with what follows. */
  predicate Seeing(seen: Bytes, s: Bytes) {
    !Parted(seen) && (seen != [] && seen[|seen| - 1] == 10 ==> !([10] <= s))
  }

  lemma SeesMore(seen: Bytes, s: Bytes)
    requires Seeing(seen, s) && s != [] && !(SEPARATOR <= s)
    ensures Seeing(seen + [s[0]], s[1..])
  {
    var more := seen + [s[0]];
    forall i | 0 <= i < |more| - 1 ensures !PartedAt(more, i) {
      if i + 1 < |seen| {
        assert !PartedAt(seen, i);
      } else {
        assert seen[|seen| - 1] == 10 ==> !([10] <= s);
      }
    }
    TwoBreaks(s);
  }

  lemma TwoBreaks(s: Bytes)
    ensures s != [] && s[0] == 10 && [10] <= s[1..] ==> SEPARATOR <= s
    ensures SEPARATOR <= s ==> [10] <= s && |s| >= 2 && PartedAt(s, 0)
  {
    if s != [] && s[0] == 10 && [10] <= s[1..] {
      assert s[1] == s[1..][0];
    }
    if SEPARATOR <= s {
      assert s[0] == SEPARATOR[0] && s[1] == SEPARATOR[1];
    }
  }

  lemma ConsEntries(e: Bytes, rest: seq<Bytes>)
    requires !Parted(e) && (e != [] ==> e[|e| - 1] != 10) && Entries(rest)
    ensures Entries([e] + rest)
  {
    hide Parted;
    var parts := [e] + rest;
    assert forall i :: 1 <= i < |parts| ==> parts[i] == rest[i - 1];
  }

  lemma {:induction false} SplitFromParts(seen: Bytes, s: Bytes)
    requires Seeing(seen, s)
    ensures Entries(SplitFrom(seen, s))
    decreases |s|
  {
    hide Parted;
    if s == [] {
    } else if SEPARATOR <= s {
      TwoBreaks(s);
      NothingSeen(s[2..]);
      SplitFromParts([], s[2..]);
      ConsEntries(seen, SplitFrom([], s[2..]));
    } else {
      SeesMore(seen, s);
      SplitFromParts(seen + [s[0]], s[1..]);
    }
  }

  lemma NothingSeen(s: Bytes)
    ensures Seeing([], s)
  {}

  /** The text up to its next separator is one entry. */
  lemma {:induction false} SplitFromEntry(seen: Bytes, e: Bytes, s: Bytes)
    requires !Parted(e) && (e != [] ==> e[|e| - 1] != 10)
    ensures SplitFrom(seen, e + SEPARATOR + s) == [seen + e] + SplitFrom([], s)
    decreases |e|
  {
    var text := e + SEPARATOR + s;
    if e == [] {
      assert text == SEPARATOR + s && text[2..] == s;
      assert seen + e == seen;
    } else {
      TailIsUnparted(e);
      assert text[0] == e[0] && text[1..] == e[1..] + SEPARATOR + s;
      TwoBreaks(text);
      assert |e| > 1 ==> text[1] == e[1] && !PartedAt(e, 0);
      SplitFromEntry(seen + [e[0]], e[1..], s);
      assert seen + [e[0]] + e[1..] == seen + e;
    }
  }

  lemma TailIsUnparted(e: Bytes)
    requires e != [] && !Parted(e)
    ensures !Parted(e[1..])
  {
    forall i | 0 <= i < |e[1..]| - 1 ensures !PartedAt(e[1..], i) {
      assert !PartedAt(e, i + 1);
    }
  }

  lemma {:induction false} SplitFromLast(seen: Bytes, e: Bytes)
    requires !Parted(e)
    ensures SplitFrom(seen, e) == [seen + e]
    decreases |e|
  {
    if e == [] {
      assert seen + e == seen;
    } else {
      TailIsUnparted(e);
      TwoBreaks(e);
      SplitFromLast(seen + [e[0]], e[1..]);
      assert seen + [e[0]] + e[1..] == seen + e;
    }
  }

  lemma {:induction false} SplitOfJoin(parts: seq<Bytes>)
    requires Entries(parts)
    ensures Split(Join(parts)) == parts
    decreases |parts|
  {
    hide Parted;
    if |parts| == 1 {
      SplitFromLast([], parts[0]);
      assert [] + parts[0] == parts[0];
    } else {
      assert Entries(parts[1..]) by { assert forall i :: 0 <= i < |parts[1..]| ==> parts[1..][i] == parts[i + 1]; }
      SplitOfJoin(parts[1..]);
      SplitFromEntry([], parts[0], Join(parts[1..]));
      assert [] + parts[0] == parts[0];
      assert [parts[0]] + parts[1..] == parts;
    }
  }

  /** The entries of a body are the one list of texts without a separator, none but the last ending in a
    * line break, that joins to the body. */
  lemma SplitExactly(body: Bytes, parts: seq<Bytes>)
    ensures parts == Split(body) <==> Entries(parts) && Join(parts) == body
  {
    SplitJoins(body);
    NothingSeen(body);
    SplitFromParts([], body);
    if Entries(parts) && Join(parts) == body {
      SplitOfJoin(parts);
    }
  }

  // ---------------------------------------------------------------- packing

  function Append(cur: Bytes, entry: Bytes): Bytes {
    if cur == [] then entry else cur + SEPARATOR + entry
  }

  predicate Overflows(cur: Bytes, entry: Bytes) {
    |cur| > 0 && |cur| + |entry| + 2 > PAGE_MAX
  }

  /** The pages still to come from a page begun and the entries left. */
  function Rest(cur: Bytes, entries: seq<Bytes>): seq<Bytes>
    decreases entries
  {
    if entries == [] then (if cur == [] then [] else [cur])
    else if Overflows(cur, entries[0]) then [cur] + Rest(entries[0], entries[1..])
    else Rest(Append(cur, entries[0]), entries[1..])
  }

  function Pack(entries: seq<Bytes>): seq<Bytes> {
    if Rest([], entries) == [] then [[]] else Rest([], entries)
  }

  lemma RestStep(cur: Bytes, entries: seq<Bytes>, i: nat)
    requires i < |entries|
    ensures Rest(cur, entries[i..]) ==
              if Overflows(cur, entries[i]) then [cur] + Rest(entries[i], entries[i + 1..])
              else Rest(Append(cur, entries[i]), entries[i + 1..])
  {
    assert entries[i..][1..] == entries[i + 1..];
  }

  /** The pagination loop. */
  method Paginate(body: Bytes) returns (pages: seq<Bytes>)
    ensures pages == Pack(Split(body))
  {
    pages := [];
    var cur: Bytes := [];
    var entries := Split(body);
    for i := 0 to |entries|
      invariant pages + Rest(cur, entries[i..]) == Rest([], entries)
    {
      var entry := entries[i];
      RestStep(cur, entries, i);
      ghost var next := if Overflows(cur, entry) then entry else Append(cur, entry);
      if |cur| > 0 && |cur| + |entry| + 2 > PAGE_MAX {
        assert pages + ([cur] + Rest(entry, entries[i + 1..])) == pages + [cur] + Rest(entry, entries[i + 1..]);
        pages := pages + [cur];
        cur := [];
      }
      if |cur| > 0 {
        cur := cur + SEPARATOR;
      }
      cur := cur + entry;
      assert cur == next;
    }
    assert pages + [] == pages;
    if |cur| > 0 || |pages| == 0 {
      pages := pages + [cur];
    }
  }

  // ---------------------------------------------------------------- rebuilding the body

  /** The text that a page begun and the entries left stand for. */
  function Pending(cur: Bytes, entries: seq<Bytes>): Bytes {
    if cur == [] then Join(entries) else Join([cur] + entries)
  }

  /** No empty entry is ever the first of a page. */
  predicate NoEmptyStart(cur: Bytes, entries: seq<Bytes>)
    decreases entries
  {
    entries == [] ||
    (if cur == [] || Overflows(cur, entries[0]) then entries[0] != [] && NoEmptyStart(entries[0], entries[1..])
     else NoEmptyStart(Append(cur, entries[0]), entries[1..]))
  }

  lemma JoinCons(a: Bytes, parts: seq<Bytes>)
    ensures Join([a] + parts) == if parts == [] then a else a + SEPARATOR + Join(parts)
  {
    assert ([a] + parts)[1..] == parts;
  }

  /** Appending to a page begun does not change the text to come. */
  lemma JoinAppend(cur: Bytes, entry: Bytes, entries: seq<Bytes>)
    requires cur != []
    ensures Join([cur] + ([entry] + entries)) == Join([cur + SEPARATOR + entry] + entries)
  {
    JoinCons(cur, [entry] + entries);
    JoinCons(entry, entries);
    JoinCons(cur + SEPARATOR + entry, entries);
  }

  lemma {:induction false} RestRebuilds(cur: Bytes, entries: seq<Bytes>)
    requires NoEmptyStart(cur, entries)
    ensures Join(Rest(cur, entries)) == Pending(cur, entries)
    ensures cur != [] || entries != [] ==> Rest(cur, entries) != []
    decreases entries
  {
    if entries == [] {
    } else {
      var e, es := entries[0], entries[1..];
      assert entries == [e] + es;
      if Overflows(cur, e) {
        RestRebuilds(e, es);
        JoinCons(cur, Rest(e, es));
        JoinCons(cur, entries);
      } else {
        RestRebuilds(Append(cur, e), es);
        if cur != [] {
          JoinAppend(cur, e, es);
        }
      }
    }
  }

  /** Every empty entry at the start of a page costs a separator. */
  lemma {:induction false} RestIsNoLonger(cur: Bytes, entries: seq<Bytes>)
    ensures |Join(Rest(cur, entries))| <= |Pending(cur, entries)|
    ensures !NoEmptyStart(cur, entries) && (cur != [] || |entries| > 1) ==>
              |Join(Rest(cur, entries))| < |Pending(cur, entries)|
    decreases entries
  {
    if entries == [] {
    } else {
      var e, es := entries[0], entries[1..];
      assert entries == [e] + es;
      JoinCons(cur, entries);
      JoinCons(e, es);
      if Overflows(cur, e) {
        RestIsNoLonger(e, es);
        JoinCons(cur, Rest(e, es));
      } else {
        RestIsNoLonger(Append(cur, e), es);
        if cur != [] {
          JoinAppend(cur, e, es);
        }
      }
    }
  }

  /** The pages joined by the separator give the entries' text back exactly when no page begins
    * with an empty entry, a lone empty entry aside. */
  lemma PagesRebuildExactly(entries: seq<Bytes>)
    ensures Join(Pack(entries)) == Join(entries) <==> entries == [[]] || NoEmptyStart([], entries)
  {
    RestIsNoLonger([], entries);
    if NoEmptyStart([], entries) {
      RestRebuilds([], entries);
    }
  }

  predicate NonEmpty(entries: seq<Bytes>) {
    forall i :: 0 <= i < |entries| ==> entries[i] != []
  }

  lemma {:induction false} NonEmptyStarts(cur: Bytes, entries: seq<Bytes>)
    requires NonEmpty(entries)
    ensures NoEmptyStart(cur, entries)
    decreases entries
  {
    if entries != [] {
      NonEmptyStarts(entries[0], entries[1..]);
      NonEmptyStarts(Append(cur, entries[0]), entries[1..]);
    }
  }

  lemma PagesRebuildBody(body: Bytes)
    requires NonEmpty(Split(body))
    ensures Join(Pack(Split(body))) == body
  {
    NonEmptyStarts([], Split(body));
    PagesRebuildExactly(Split(body));
    SplitJoins(body);
  }

  /** A blank line too many at the start is dropped. */
  lemma LeadingBlankIsLost()
    ensures Split([10, 10, 65]) == [[], [65]] && Pack([[], [65]]) == [[65]]
    ensures Join(Pack(Split([10, 10, 65]))) != [10, 10, 65]
  {
    var body: Bytes := [10, 10, 65];
    assert SEPARATOR <= body && body[2..] == [65];
    assert Split([10, 10, 65]) == [[]] + SplitFrom([], [65]);
    var last: Bytes := [65];
    assert last[1..] == [] && [] + [last[0]] == last;
    assert SplitFrom([], last) == SplitFrom(last, []);
    var entries: seq<Bytes> := [[], [65]];
    assert entries[1..] == [[65]];
    assert Rest([], entries) == Rest([], [[65]]);
    assert [last][1..] == [];
    assert Rest([], [last]) == Rest(last, []);
  }

  // ---------------------------------------------------------------- page sizes

  predicate Fit(entries: seq<Bytes>) {
    forall i :: 0 <= i < |entries| ==> |entries[i]| <= PAGE_MAX
  }

  lemma {:induction false} RestFits(cur: Bytes, entries: seq<Bytes>)
    requires |cur| <= PAGE_MAX && Fit(entries)
    ensures Fit(Rest(cur, entries))
    decreases entries
  {
    if entries != [] {
      RestFits(if Overflows(cur, entries[0]) then entries[0] else Append(cur, entries[0]), entries[1..]);
    }
  }

  /** What is on a page stays on a page. */
  lemma {:induction false} RestHolds(cur: Bytes, entries: seq<Bytes>) returns (i: nat)
    requires cur != []
    ensures i < |Rest(cur, entries)| && cur <= Rest(cur, entries)[i]
    decreases entries
  {
    i := 0;
    if entries != [] && !Overflows(cur, entries[0]) {
      i := RestHolds(Append(cur, entries[0]), entries[1..]);
    }
  }

  lemma {:induction false} OversizedStays(cur: Bytes, entries: seq<Bytes>, k: nat) returns (i: nat)
    requires k < |entries| && |entries[k]| > PAGE_MAX
    ensures i < |Rest(cur, entries)| && |Rest(cur, entries)[i]| > PAGE_MAX
    decreases entries
  {
    var breaks := Overflows(cur, entries[0]);
    var next := if breaks then entries[0] else Append(cur, entries[0]);
    if k == 0 {
      i := RestHolds(next, entries[1..]);
    } else {
      i := OversizedStays(next, entries[1..], k - 1);
    }
    if breaks {
      i := i + 1;
    }
  }

  /** Every page is within the limit exactly when every entry is. */
  lemma PagesFitExactly(entries: seq<Bytes>)
    ensures Fit(Pack(entries)) <==> Fit(entries)
  {
    if Fit(entries) {
      RestFits([], entries);
    } else {
      var k :| 0 <= k < |entries| && |entries[k]| > PAGE_MAX;
      var i := OversizedStays([], entries, k);
    }
  }

  // ---------------------------------------------------------------- optimality

  function Flatten(parts: seq<seq<Bytes>>): seq<Bytes> {
    if parts == [] then [] else parts[0] + Flatten(parts[1..])
  }

  /** A way to cut the entries, in order, into pages within the limit. */
  predicate Partition(parts: seq<seq<Bytes>>, entries: seq<Bytes>) {
    && Flatten(parts) == entries
    && forall i :: 0 <= i < |parts| ==> parts[i] != [] && |Join(parts[i])| <= PAGE_MAX
  }

  /** A head start of one page is all that any begun page can cost. */
  lemma {:induction false} AtMostOneMore(c: Bytes, d: Bytes, entries: seq<Bytes>)
    ensures |Rest(c, entries)| <= 1 + |Rest(d, entries)|
    decreases entries, 0
  {
    if entries != [] {
      var e, es := entries[0], entries[1..];
      if Overflows(c, e) && !Overflows(d, e) {
        ShorterIsNoWorse(e, Append(d, e), es);
      } else if !Overflows(c, e) {
        AtMostOneMore(Append(c, e), if Overflows(d, e) then e else Append(d, e), es);
      }
    }
  }

  lemma {:induction false} ShorterIsNoWorse(c: Bytes, d: Bytes, entries: seq<Bytes>)
    requires |c| <= |d|
    ensures |Rest(c, entries)| <= |Rest(d, entries)|
    decreases entries, 0
  {
    if entries != [] {
      var e, es := entries[0], entries[1..];
      if Overflows(c, e) {
      } else if Overflows(d, e) {
        AtMostOneMore(Append(c, e), e, es);
      } else {
        ShorterIsNoWorse(Append(c, e), Append(d, e), es);
      }
    }
  }

  lemma AppendedFits(cur: Bytes, e: Bytes, es: seq<Bytes>)
    ensures |Append(cur, e)| <= |cur| + 2 + |e|
    ensures |Join([Append(cur, e)] + es)| <= |Join([cur] + ([e] + es))|
    ensures |cur| + 2 + |e| <= |Join([cur] + ([e] + es))|
  {
    assert ([cur] + ([e] + es))[1..] == [e] + es;
    assert ([e] + es)[1..] == es && ([Append(cur, e)] + es)[1..] == es;
  }

  /** A part that fits a page needs no more than that one; an empty entry at its start saves bytes. */
  lemma {:induction false} FillsOne(cur: Bytes, part: seq<Bytes>, entries: seq<Bytes>)
    requires |Join([cur] + part)| <= PAGE_MAX
    ensures |Rest(cur, part + entries)| <= |Rest(Join([cur] + part), entries)|
    decreases part
  {
    if part == [] {
      assert part + entries == entries;
    } else {
      var e, es := part[0], part[1..];
      assert part == [e] + es;
      assert (part + entries)[1..] == es + entries;
      AppendedFits(cur, e, es);
      FillsOne(Append(cur, e), es, entries);
      ShorterIsNoWorse(Join([Append(cur, e)] + es), Join([cur] + part), entries);
    }
  }

  /** No partition of the entries within the limit has fewer pages. */
  lemma GreedyIsOptimal(parts: seq<seq<Bytes>>, entries: seq<Bytes>)
    requires entries != [] && Partition(parts, entries)
    ensures |Pack(entries)| <= |parts|
  {
    RestIsOptimal(parts, entries);
  }

  lemma {:induction false} RestIsOptimal(parts: seq<seq<Bytes>>, entries: seq<Bytes>)
    requires Partition(parts, entries)
    ensures |Rest([], entries)| <= |parts|
    decreases parts
  {
    if parts != [] {
      var part, rest := parts[0], Flatten(parts[1..]);
      assert entries == part + rest;
      assert part[0] == entries[0];
      assert [part[0]] + part[1..] == part;
      assert entries[1..] == part[1..] + rest;
      FillsOne(part[0], part[1..], rest);
      AtMostOneMore(Join(part), [], rest);
      RestIsOptimal(parts[1..], rest);
    }
  }

  /** The greedy pages are themselves such a partition, so their number is the least possible. */
  lemma {:induction false} GreedyIsPartition(entries: seq<Bytes>) returns (parts: seq<seq<Bytes>>)
    requires NonEmpty(entries) && Fit(entries) && entries != []
    ensures Partition(parts, entries) && |parts| == |Pack(entries)|
    ensures forall i :: 0 <= i < |parts| ==> Join(parts[i]) == Pack(entries)[i]
  {
    assert [entries[0]] + entries[1..] == entries;
    parts := Groups([entries[0]], entries[1..]);
  }

  lemma {:induction false} Groups(group: seq<Bytes>, entries: seq<Bytes>) returns (parts: seq<seq<Bytes>>)
    requires group != [] && Join(group) != [] && |Join(group)| <= PAGE_MAX && NonEmpty(entries) && Fit(entries)
    ensures Partition(parts, group + entries)
    ensures |parts| == |Rest(Join(group), entries)|
    ensures forall i :: 0 <= i < |parts| ==> Join(parts[i]) == Rest(Join(group), entries)[i]
    decreases entries
  {
    var cur := Join(group);
    if entries == [] {
      parts := [group];
      assert Flatten(parts) == group + entries by { assert parts[1..] == []; }
    } else {
      var e, es := entries[0], entries[1..];
      assert [e] + es == entries;
      if Overflows(cur, e) {
        var rest := Groups([e], es);
        parts := [group] + rest;
        assert parts[1..] == rest;
      } else {
        JoinSnoc(group, e);
        parts := Groups(group + [e], es);
        assert group + [e] + es == group + entries;
      }
    }
  }

  lemma {:induction false} JoinSnoc(group: seq<Bytes>, e: Bytes)
    requires group != []
    ensures Join(group + [e]) == Join(group) + SEPARATOR + e
  {
    if |group| == 1 {
      assert (group + [e])[1..] == [e];
    } else {
      JoinSnoc(group[1..], e);
      assert (group + [e])[1..] == group[1..] + [e];
    }
  }
}
