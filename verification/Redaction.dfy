/** The core of redaction: byte ranges found in any order are sorted and merged, then each is replaced by one marker. */
module Redaction {
  import opened Bytes

  /** The half-open byte range `start..end`. */
  datatype Range = Range(start: nat, end: nat)

  /** The bytes of `[REDACTED]`. */
  const REDACTED: seq<Byte> := [91, 82, 69, 68, 65, 67, 84, 69, 68, 93]

  predicate Covers(ranges: seq<Range>, p: int) {
    exists r | r in ranges :: r.start <= p < r.end
  }

  ghost predicate SameCover(a: seq<Range>, b: seq<Range>) {
    forall p: int :: Covers(a, p) <==> Covers(b, p)
  }

  predicate InBounds(ranges: seq<Range>, n: nat) {
    forall r | r in ranges :: r.start < r.end <= n
  }

  /** A gap of at least one byte lies between neighbours. */
  predicate Separated(ranges: seq<Range>) {
    forall i, j | 0 <= i < j < |ranges| :: ranges[i].end < ranges[j].start
  }

  predicate SortedByStart(ranges: seq<Range>) {
    forall i, j | 0 <= i < j < |ranges| :: ranges[i].start <= ranges[j].start
  }

  // ----- sorting, by (start, end)

  predicate Before(a: Range, b: Range) {
    a.start < b.start || (a.start == b.start && a.end <= b.end)
  }

  function Insert(r: Range, sorted: seq<Range>): seq<Range> {
    if sorted == [] then [r]
    else if Before(r, sorted[0]) then [r] + sorted
    else [sorted[0]] + Insert(r, sorted[1..])
  }

  function Sort(ranges: seq<Range>): seq<Range> {
    if ranges == [] then [] else Insert(ranges[0], Sort(ranges[1..]))
  }

  lemma {:induction false} InsertPermutes(r: Range, sorted: seq<Range>)
    ensures multiset(Insert(r, sorted)) == multiset(sorted) + multiset{r}
  {
    if sorted == [] {
    } else {
      assert sorted == [sorted[0]] + sorted[1..];
      InsertPermutes(r, sorted[1..]);
    }
  }

  lemma {:induction false} InsertSorts(r: Range, sorted: seq<Range>)
    requires SortedByStart(sorted)
    ensures SortedByStart(Insert(r, sorted))
    ensures forall x | x in Insert(r, sorted) :: x == r || x in sorted
  {
    if sorted == [] {
    } else {
      InsertSorts(r, sorted[1..]);
      var rest := Insert(r, sorted[1..]);
      forall j | 0 <= j < |rest| ensures r.start < sorted[0].start || sorted[0].start <= rest[j].start {
        assert rest[j] in rest;
      }
    }
  }

  lemma {:induction false} SortSorts(ranges: seq<Range>)
    ensures multiset(Sort(ranges)) == multiset(ranges)
    ensures SortedByStart(Sort(ranges))
  {
    if ranges == [] {
    } else {
      assert ranges == [ranges[0]] + ranges[1..];
      SortSorts(ranges[1..]);
      InsertPermutes(ranges[0], Sort(ranges[1..]));
      InsertSorts(ranges[0], Sort(ranges[1..]));
    }
  }

  lemma SortKeepsMembers(ranges: seq<Range>)
    ensures forall r :: r in Sort(ranges) <==> r in ranges
  {
    SortSorts(ranges);
    forall r ensures r in Sort(ranges) <==> r in ranges {
      assert r in multiset(Sort(ranges)) <==> r in multiset(ranges);
    }
  }

  // ----- merging

  /** What the merge loop has made of a sorted prefix. */
  ghost predicate Merged(merged: seq<Range>, prefix: seq<Range>) {
    && Separated(merged)
    && (forall r | r in merged :: r.start < r.end)
    && SameCover(merged, prefix)
    && (prefix != [] ==> forall m | m in merged :: m.start <= prefix[|prefix| - 1].start)
    && (prefix == [] ==> merged == [])
  }

  lemma CoverLast(s: seq<Range>, r: Range)
    ensures forall p: int :: Covers(s + [r], p) <==> Covers(s, p) || r.start <= p < r.end
  {
    forall p: int ensures Covers(s + [r], p) <==> Covers(s, p) || r.start <= p < r.end {
      assert r in s + [r] && forall x | x in s :: x in s + [r];
    }
  }

  function Join(last: Range, r: Range): Range {
    Range(last.start, if last.end < r.end then r.end else last.end)
  }

  lemma MergeInto(front: seq<Range>, last: Range, prefix: seq<Range>, r: Range)
    requires Merged(front + [last], prefix) && SortedByStart(prefix + [r]) && r.start < r.end
    requires r.start <= last.end
    ensures Merged(front + [Join(last, r)], prefix + [r])
  {
    LastStartsBy(front + [last], prefix, r);
    assert last in front + [last];
    forall m | m in front ensures m in front + [last] {}
    CoverLast(front, last);
    CoverLast(front, Join(last, r));
    CoverLast(prefix, r);
    SeparatedLast(front, last, Join(last, r));
    forall p: int ensures Covers(front + [Join(last, r)], p) <==> Covers(prefix + [r], p) {
      assert Covers(front + [last], p) <==> Covers(prefix, p);
    }
  }

  lemma SeparatedLast(front: seq<Range>, last: Range, other: Range)
    requires Separated(front + [last]) && last.start == other.start
    ensures Separated(front + [other])
  {
    var was, now := front + [last], front + [other];
    forall i, j | 0 <= i < j < |now| ensures now[i].end < now[j].start {
      assert was[i].end < was[j].start;
    }
  }

  lemma MergeApart(merged: seq<Range>, prefix: seq<Range>, r: Range)
    requires Merged(merged, prefix) && SortedByStart(prefix + [r]) && r.start < r.end
    requires merged != [] ==> merged[|merged| - 1].end < r.start
    ensures Merged(merged + [r], prefix + [r])
  {
    LastStartsBy(merged, prefix, r);
    CoverLast(merged, r);
    CoverLast(prefix, r);
    forall i | 0 <= i < |merged| ensures merged[i].end < r.start {
      if i + 1 < |merged| { assert merged[|merged| - 1] in merged; }
    }
  }

  /** Sorting puts every merged range's start at or before the next range's start. */
  lemma LastStartsBy(merged: seq<Range>, prefix: seq<Range>, r: Range)
    requires Merged(merged, prefix) && SortedByStart(prefix + [r])
    ensures forall m | m in merged :: m.start <= r.start
  {
    if prefix != [] {
      var last := prefix[|prefix| - 1];
      assert (prefix + [r])[|prefix| - 1] == last && (prefix + [r])[|prefix|] == r;
      assert last in prefix;
    }
  }

  /** Merging keeps exactly the covered positions, in strictly separated ranges. */
  method MergeRanges(ranges: seq<Range>) returns (merged: seq<Range>)
    requires forall r | r in ranges :: r.start < r.end
    ensures SameCover(merged, ranges)
    ensures Separated(merged)
    ensures forall r | r in merged :: r.start < r.end
  {
    var sorted := Sort(ranges);
    SortSorts(ranges);
    SortKeepsMembers(ranges);
    merged := [];
    for i := 0 to |sorted|
      invariant Merged(merged, sorted[..i])
    {
      var r := sorted[i];
      PrefixSorted(sorted, i);
      if merged != [] && r.start <= merged[|merged| - 1].end {
        var front, last := merged[..|merged| - 1], merged[|merged| - 1];
        assert merged == front + [last];
        MergeInto(front, last, sorted[..i], r);
        merged := front + [Join(last, r)];
      } else {
        MergeApart(merged, sorted[..i], r);
        merged := merged + [r];
      }
    }
    assert sorted[..|sorted|] == sorted;
    forall p: int ensures Covers(merged, p) <==> Covers(ranges, p) {
      assert Covers(merged, p) <==> Covers(sorted, p);
    }
  }

  lemma PrefixSorted(sorted: seq<Range>, i: nat)
    requires SortedByStart(sorted) && i < |sorted|
    ensures sorted[..i + 1] == sorted[..i] + [sorted[i]]
    ensures SortedByStart(sorted[..i] + [sorted[i]])
    ensures sorted[i] in sorted
  {
  }

  // ----- replacing

  /** What one position contributes: itself, or at the first byte of a covered run the marker. */
  function Shown(input: seq<Byte>, ranges: seq<Range>, p: nat): seq<Byte>
    requires p < |input|
  {
    if !Covers(ranges, p) then [input[p]]
    else if Covers(ranges, p - 1) then []
    else REDACTED
  }

  /** The first `n` positions, shown one by one. */
  function Redacted(input: seq<Byte>, ranges: seq<Range>, n: nat): seq<Byte>
    requires n <= |input|
  {
    if n == 0 then [] else Redacted(input, ranges, n - 1) + Shown(input, ranges, n - 1)
  }

  lemma {:induction false} KeepsUncovered(input: seq<Byte>, ranges: seq<Range>, a: nat, b: nat)
    requires a <= b <= |input|
    requires forall p | a <= p < b :: !Covers(ranges, p)
    ensures Redacted(input, ranges, b) == Redacted(input, ranges, a) + input[a..b]
  {
    if a == b {
    } else {
      KeepsUncovered(input, ranges, a, b - 1);
      assert input[a..b] == input[a..b - 1] + [input[b - 1]];
    }
  }

  lemma {:induction false} MarksRun(input: seq<Byte>, ranges: seq<Range>, a: nat, b: nat)
    requires a < b <= |input|
    requires forall p | a <= p < b :: Covers(ranges, p)
    requires !Covers(ranges, a - 1)
    ensures Redacted(input, ranges, b) == Redacted(input, ranges, a) + REDACTED
  {
    if a + 1 == b {
      assert Covers(ranges, a);
    } else {
      MarksRun(input, ranges, a, b - 1);
      assert Covers(ranges, b - 1) && Covers(ranges, b - 2);
    }
  }

  /** Between two neighbours of a separated list nothing is covered. */
  lemma GapUncovered(ranges: seq<Range>, i: nat, p: int)
    requires Separated(ranges) && i <= |ranges|
    requires i > 0 ==> ranges[i - 1].end <= p
    requires i < |ranges| ==> p < ranges[i].start
    requires forall r | r in ranges :: r.start < r.end
    ensures !Covers(ranges, p)
  {
    forall r | r in ranges ensures !(r.start <= p < r.end) {
      var j :| 0 <= j < |ranges| && ranges[j] == r;
      if j + 1 < i { assert ranges[i - 1] in ranges && r.end < ranges[i - 1].start; }
      if i < j { assert ranges[i] in ranges && ranges[i].end < r.start; }
    }
  }

  method ReplaceRanges(input: seq<Byte>, ranges: seq<Range>) returns (output: seq<Byte>)
    requires Separated(ranges) && InBounds(ranges, |input|)
    ensures output == Redacted(input, ranges, |input|)
  {
    output := [];
    var cursor := 0;
    for i := 0 to |ranges|
      invariant cursor <= |input| && cursor == (if i == 0 then 0 else ranges[i - 1].end)
      invariant output == Redacted(input, ranges, cursor)
    {
      var r := ranges[i];
      assert r in ranges;
      forall p: int | (i > 0 ==> cursor <= p) && p < r.start ensures !Covers(ranges, p) {
        GapUncovered(ranges, i, p);
      }
      KeepsUncovered(input, ranges, cursor, r.start);
      MarksRun(input, ranges, r.start, r.end);
      output := output + input[cursor..r.start] + REDACTED;
      cursor := r.end;
    }
    forall p: int | cursor <= p ensures !Covers(ranges, p) {
      GapUncovered(ranges, |ranges|, p);
    }
    KeepsUncovered(input, ranges, cursor, |input|);
    output := output + input[cursor..];
  }

  /** Each maximal covered run of the ranges as found becomes one marker; every other byte stays, in order. */
  method MergeAndReplace(input: seq<Byte>, ranges: seq<Range>) returns (output: seq<Byte>)
    requires InBounds(ranges, |input|)
    ensures output == Redacted(input, ranges, |input|)
  {
    var merged := MergeRanges(ranges);
    forall r | r in merged ensures r.end <= |input| {
      assert Covers(merged, r.end - 1);
      assert Covers(ranges, r.end - 1);
    }
    output := ReplaceRanges(input, merged);
    OnlyTheCoverMatters(input, merged, ranges, |input|);
  }

  // ----- what redaction depends on

  /** Neither the order in which ranges were found nor how they overlap matters. */
  lemma {:induction false} OnlyTheCoverMatters(input: seq<Byte>, a: seq<Range>, b: seq<Range>, n: nat)
    requires n <= |input| && SameCover(a, b)
    ensures Redacted(input, a, n) == Redacted(input, b, n)
  {
    if n == 0 {
    } else {
      OnlyTheCoverMatters(input, a, b, n - 1);
      assert Covers(a, n - 1) <==> Covers(b, n - 1);
      assert Covers(a, n - 2) <==> Covers(b, n - 2);
    }
  }

  /** Nothing under a range reaches the output: texts that differ only there redact alike. */
  lemma {:induction false} CoveredBytesStayHidden(one: seq<Byte>, other: seq<Byte>, ranges: seq<Range>, n: nat)
    requires n <= |one| == |other|
    requires forall p | 0 <= p < |one| && !Covers(ranges, p) :: one[p] == other[p]
    ensures Redacted(one, ranges, n) == Redacted(other, ranges, n)
  {
    if n == 0 {
    } else {
      CoveredBytesStayHidden(one, other, ranges, n - 1);
    }
  }

  /** There is only one separated list for a set of positions, so merging is canonical. */
  lemma {:induction false} SeparatedIsCanonical(a: seq<Range>, b: seq<Range>)
    requires Separated(a) && Separated(b) && SameCover(a, b)
    requires forall r | r in a || r in b :: r.start < r.end
    ensures a == b
  {
    if a == [] || b == [] {
      NothingCovered(a);
      NothingCovered(b);
    } else {
      HeadWithin(a, b);
      HeadWithin(b, a);
      TailCover(a);
      TailCover(b);
      SeparatedIsCanonical(a[1..], b[1..]);
      assert a == [a[0]] + a[1..] && b == [b[0]] + b[1..];
    }
  }

  lemma NothingCovered(s: seq<Range>)
    requires forall r | r in s :: r.start < r.end
    ensures s == [] || Covers(s, s[0].start)
  {
    if s != [] { assert s[0] in s; }
  }

  lemma CoveredAt(s: seq<Range>, p: int)
    requires s != [] && Separated(s) && Covers(s, p)
    requires forall r | r in s :: r.start < r.end
    ensures s[0].start <= p && p != s[0].end
  {
    var r :| r in s && r.start <= p < r.end;
    var j :| 0 <= j < |s| && s[j] == r;
    assert s[0] in s;
    if j > 0 { assert s[0].end < s[j].start; }
  }

  lemma HeadWithin(a: seq<Range>, b: seq<Range>)
    requires a != [] && b != [] && Separated(a) && Separated(b) && SameCover(a, b)
    requires forall r | r in a || r in b :: r.start < r.end
    ensures b[0].start == a[0].start && a[0].end <= b[0].end
  {
    assert a[0] in a && b[0] in b;
    assert Covers(a, a[0].start) && Covers(b, b[0].start);
    CoveredAt(b, a[0].start);
    CoveredAt(a, b[0].start);
    if b[0].end < a[0].end {
      assert Covers(a, b[0].end);
      CoveredAt(b, b[0].end);
    }
  }

  lemma TailCover(a: seq<Range>)
    requires a != [] && Separated(a) && forall r | r in a :: r.start < r.end
    ensures forall p: int :: Covers(a[1..], p) <==> Covers(a, p) && a[0].end <= p
  {
    forall p: int ensures Covers(a[1..], p) <==> Covers(a, p) && a[0].end <= p {
      if Covers(a[1..], p) {
        var r :| r in a[1..] && r.start <= p < r.end;
        assert r in a;
      }
      if Covers(a, p) && a[0].end <= p {
        var r :| r in a && r.start <= p < r.end;
        assert a == [a[0]] + a[1..];
        assert r in a[1..];
      }
    }
  }
}
