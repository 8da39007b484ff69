/** The scan of a model answer for citation tokens. */
module CitationScan {
  import opened Results

  const MAX_CITATIONS: nat := 256
  const U32_MAX: nat := 0xFFFF_FFFF

  predicate IsDigit(c: char) {
    '0' <= c <= '9'
  }

  predicate IsIdentifier(c: char) {
    IsDigit(c) || 'a' <= c <= 'z' || 'A' <= c <= 'Z' || c == '_'
  }

  function DecimalValue(digits: string): nat
    requires forall i | 0 <= i < |digits| :: IsDigit(digits[i])
  {
    if digits == [] then 0
    else
      assert IsDigit(digits[|digits| - 1]);
      10 * DecimalValue(digits[..|digits| - 1]) + (digits[|digits| - 1] as int - '0' as int)
  }

  /** Where the run of digits from i ends. */
  function DigitsEnd(s: string, i: nat): (e: nat)
    requires i <= |s|
    ensures i <= e <= |s|
    ensures forall k | i <= k < e :: IsDigit(s[k])
    ensures e < |s| ==> !IsDigit(s[e])
    decreases |s| - i
  {
    if i < |s| && IsDigit(s[i]) then DigitsEnd(s, i + 1) else i
  }

  /** The four characters TL-C. */
  predicate TagAt(s: string, p: nat) {
    p + 4 <= |s| && s[p] == 'T' && s[p + 1] == 'L' && s[p + 2] == '-' && s[p + 3] == 'C'
  }

  /** The tag followed by at least one digit. */
  predicate TokenAt(s: string, p: nat) {
    TagAt(s, p) && p + 4 < |s| && IsDigit(s[p + 4])
  }

  function TokenEnd(s: string, p: nat): nat
    requires TokenAt(s, p)
  {
    DigitsEnd(s, p + 4)
  }

  function TokenText(s: string, p: nat): string
    requires TokenAt(s, p)
  {
    s[p..TokenEnd(s, p)]
  }

  /** A token glued to an identifier, written with a leading zero, or too large for 32 bits. */
  predicate BadToken(s: string, p: nat)
    requires TokenAt(s, p)
  {
    var e := TokenEnd(s, p);
    || (p > 0 && IsIdentifier(s[p - 1]))
    || (e < |s| && IsIdentifier(s[e]))
    || s[p + 4] == '0'
    || DecimalValue(s[p + 4..e]) > U32_MAX
  }

  /** The texts of all tokens that start before i, left to right. */
  function TokensBefore(s: string, i: nat): seq<string>
    requires i <= |s|
  {
    if i == 0 then []
    else if TokenAt(s, i - 1) then TokensBefore(s, i - 1) + [TokenText(s, i - 1)]
    else TokensBefore(s, i - 1)
  }

  /** Each text once, in the order of first occurrence. */
  function Distinct(texts: seq<string>): seq<string> {
    if texts == [] then []
    else
      var init := Distinct(texts[..|texts| - 1]);
      var last := texts[|texts| - 1];
      if last in init then init else init + [last]
  }

  predicate AnyBad(s: string) {
    exists p | 0 <= p < |s| :: TokenAt(s, p) && BadToken(s, p)
  }

  /** What the scan is for: every token of the answer, or a refusal. */
  function CitedIds(s: string): Result<seq<string>> {
    var ids := Distinct(TokensBefore(s, |s|));
    if AnyBad(s) || |ids| > MAX_CITATIONS then Err(InvalidInput) else Ok(ids)
  }

  method SkipDigits(answer: string, start: nat) returns (index: nat)
    requires start <= |answer|
    ensures index == DigitsEnd(answer, start)
  {
    index := start;
    while index < |answer| && IsDigit(answer[index])
      invariant start <= index <= |answer| && DigitsEnd(answer, index) == DigitsEnd(answer, start)
    {
      index := index + 1;
    }
  }

  method TokenRefused(answer: string, start: nat, end: nat) returns (refused: bool)
    requires TokenAt(answer, start) && end == TokenEnd(answer, start)
    ensures refused == BadToken(answer, start)
  {
    var digits := answer[start + 4..end];
    var leftIsIdentifier := start > 0 && IsIdentifier(answer[start - 1]);
    var rightIsIdentifier := end < |answer| && IsIdentifier(answer[end]);
    refused := leftIsIdentifier || rightIsIdentifier || digits[0] == '0' || DecimalValue(digits) > U32_MAX;
  }

  method ExtractModelCitationIds(answer: string) returns (r: Result<seq<string>>)
    ensures r == CitedIds(answer)
  {
    var result: seq<string> := [];
    var index := 0;
    while index + 4 <= |answer|
      invariant index <= |answer|
      invariant result == Distinct(TokensBefore(answer, index)) && |result| <= MAX_CITATIONS
      invariant forall p | 0 <= p < index :: TokenAt(answer, p) ==> !BadToken(answer, p)
    {
      if !TagAt(answer, index) {
        index := index + 1;
        continue;
      }
      var start := index;
      index := SkipDigits(answer, start + 4);
      SkipMissesNothing(answer, start, index);
      if index == start + 4 { continue; }
      var refused := TokenRefused(answer, start, index);
      if refused { return Err(InvalidInput); }
      var id := answer[start..index];
      DistinctOfSnoc(TokensBefore(answer, start), id);
      if id !in result {
        if |result| == MAX_CITATIONS {
          DistinctGrows(answer, index, |answer|);
          return Err(InvalidInput);
        }
        result := result + [id];
      }
    }
    NoTokenAtEnd(answer, index);
    r := Ok(result);
  }

  /** Between a tag and the end of its digits no other token starts, so skipping there misses none. */
  lemma SkipMissesNothing(s: string, start: nat, end: nat)
    requires TagAt(s, start) && start + 4 <= end <= |s|
    requires forall k | start + 4 <= k < end :: IsDigit(s[k])
    requires end == DigitsEnd(s, start + 4)
    ensures forall p | start < p < end :: !TokenAt(s, p)
    ensures TokenAt(s, start) <==> end > start + 4
    ensures TokensBefore(s, end) == if TokenAt(s, start) then TokensBefore(s, start) + [TokenText(s, start)]
            else TokensBefore(s, start)
  {
    NoTokensBetween(s, start + 1, end);
  }

  lemma {:induction false} NoTokensBetween(s: string, i: nat, j: nat)
    requires i <= j <= |s| && forall p | i <= p < j :: !TokenAt(s, p)
    ensures TokensBefore(s, j) == TokensBefore(s, i)
  {
    if i < j { NoTokensBetween(s, i, j - 1); }
  }

  lemma NoTokenAtEnd(s: string, i: nat)
    requires i <= |s| < i + 4
    ensures TokensBefore(s, |s|) == TokensBefore(s, i)
  {
    NoTokensBetween(s, i, |s|);
  }

  lemma DistinctOfSnoc(texts: seq<string>, t: string)
    ensures Distinct(texts + [t]) == if t in Distinct(texts) then Distinct(texts) else Distinct(texts) + [t]
  {
    assert (texts + [t])[..|texts|] == texts;
  }

  lemma {:induction false} DistinctGrows(s: string, i: nat, j: nat)
    requires i <= j <= |s|
    ensures |Distinct(TokensBefore(s, i))| <= |Distinct(TokensBefore(s, j))|
  {
    if i < j {
      DistinctGrows(s, i, j - 1);
      if TokenAt(s, j - 1) { DistinctOfSnoc(TokensBefore(s, j - 1), TokenText(s, j - 1)); }
    }
  }

  /** Some occurrence of x comes before every occurrence of y. */
  predicate OccursFirst(texts: seq<string>, x: string, y: string) {
    exists k | 0 <= k < |texts| :: texts[k] == x && y !in texts[..k + 1]
  }

  lemma OccursFirstGrows(texts: seq<string>, t: string, x: string, y: string)
    ensures OccursFirst(texts, x, y) ==> OccursFirst(texts + [t], x, y)
    ensures x in texts && t !in texts ==> OccursFirst(texts + [t], x, t)
  {
    var all := texts + [t];
    if OccursFirst(texts, x, y) {
      var k :| 0 <= k < |texts| && texts[k] == x && y !in texts[..k + 1];
      assert all[..k + 1] == texts[..k + 1] && all[k] == x;
    }
    if x in texts && t !in texts {
      var k :| 0 <= k < |texts| && texts[k] == x;
      assert all[..k + 1] == texts[..k + 1] && all[k] == x;
      assert t !in texts[..k + 1];
    }
  }

  /** The list has no duplicates, the same members as the tokens, and lists them in the order they first occur. */
  lemma {:induction false} DistinctIsFirstOccurrence(texts: seq<string>)
    ensures var d := Distinct(texts);
            && (forall i, j | 0 <= i < j < |d| :: d[i] != d[j])
            && (forall t :: t in d <==> t in texts)
            && (forall i, j | 0 <= i < j < |d| :: OccursFirst(texts, d[i], d[j]))
  {
    if texts != [] {
      var n := |texts| - 1;
      var init, d, t := Distinct(texts[..n]), Distinct(texts), texts[n];
      assert texts == texts[..n] + [t];
      DistinctIsFirstOccurrence(texts[..n]);
      forall i, j | 0 <= i < j < |d| ensures OccursFirst(texts, d[i], d[j]) {
        OccursFirstGrows(texts[..n], t, d[i], d[j]);
        assert d[i] == init[i] && init[i] in texts[..n];
        assert j < |init| ==> d[j] == init[j];
      }
    }
  }

  // ----- tokens as they are written

  function Digit(d: nat): (c: char)
    requires d < 10
    ensures IsDigit(c) && c as int - '0' as int == d
  {
    '0' + d as char
  }

  function Decimal(n: nat): string {
    if n < 10 then [Digit(n)] else Decimal(n / 10) + [Digit(n % 10)]
  }

  predicate AllDigits(s: string) {
    forall i | 0 <= i < |s| :: IsDigit(s[i])
  }

  lemma ValueSnoc(digits: string, d: nat)
    requires AllDigits(digits) && d < 10
    ensures AllDigits(digits + [Digit(d)]) && DecimalValue(digits + [Digit(d)]) == 10 * DecimalValue(digits) + d
  {
    assert (digits + [Digit(d)])[..|digits|] == digits;
  }

  /** A numeral has digits only, the value it was written for, and a leading zero for 0 alone. */
  lemma {:induction false} DecimalReads(n: nat)
    ensures AllDigits(Decimal(n)) && Decimal(n) != "" && DecimalValue(Decimal(n)) == n
    ensures Decimal(n)[0] == '0' <==> n == 0
  {
    if n < 10 {
      ValueSnoc("", n);
      assert "" + [Digit(n)] == Decimal(n);
    } else {
      DecimalReads(n / 10);
      ValueSnoc(Decimal(n / 10), n % 10);
    }
  }

  /** Digits without a leading zero are the numeral of their value. */
  lemma {:induction false} DecimalWrites(digits: string)
    requires AllDigits(digits) && digits != "" && digits[0] != '0'
    ensures DecimalValue(digits) >= 1 && Decimal(DecimalValue(digits)) == digits
  {
    var front, last := digits[..|digits| - 1], digits[|digits| - 1];
    assert IsDigit(last);
    var d := last as int - '0' as int;
    assert last == Digit(d) && digits == front + [Digit(d)];
    ValueSnoc(front, d);
    if front != "" {
      DecimalWrites(front);
      DecimalSnoc(DecimalValue(front), d);
    }
  }

  lemma DecimalSnoc(n: nat, d: nat)
    requires n >= 1 && d < 10
    ensures Decimal(10 * n + d) == Decimal(n) + [Digit(d)]
  {
    assert (10 * n + d) / 10 == n && (10 * n + d) % 10 == d;
  }

  lemma {:induction false} DigitsEndHere(s: string, i: nat, e: nat)
    requires i <= e <= |s| && (forall k | i <= k < e :: IsDigit(s[k])) && (e < |s| ==> !IsDigit(s[e]))
    ensures DigitsEnd(s, i) == e
    decreases e - i
  {
    if i < e { DigitsEndHere(s, i + 1, e); }
  }

  /**
   * A citation as it is written: the tag and a numeral, wherever it stands. The scan refuses it exactly when the number
   * is not one of 1 to 4,294,967,295 or an identifier character touches it.
   */
  lemma WrittenToken(before: string, n: nat, behind: string)
    requires behind != "" ==> !IsDigit(behind[0])
    ensures var s, p := before + ("TL-C" + Decimal(n)) + behind, |before|;
            && TokenAt(s, p) && TokenText(s, p) == "TL-C" + Decimal(n)
            && (BadToken(s, p) <==>
                  || n < 1 || n > 4_294_967_295
                  || (before != "" && IsIdentifier(before[|before| - 1]))
                  || (behind != "" && IsIdentifier(behind[0])))
  {
    var s, p := before + ("TL-C" + Decimal(n)) + behind, |before|;
    DecimalReads(n);
    WrittenEnds(before, Decimal(n), behind);
    assert s[p + 4..TokenEnd(s, p)] == Decimal(n);
  }

  lemma WrittenEnds(before: string, digits: string, behind: string)
    requires AllDigits(digits) && digits != "" && (behind != "" ==> !IsDigit(behind[0]))
    ensures var s, p := before + ("TL-C" + digits) + behind, |before|;
            TokenAt(s, p) && TokenEnd(s, p) == p + 4 + |digits| && TokenText(s, p) == "TL-C" + digits
  {
    var token := "TL-C" + digits;
    var s, p := before + token + behind, |before|;
    assert forall k | 0 <= k < |token| :: s[p + k] == token[k];
    assert s[p] == token[0] && s[p + 1] == token[1] && s[p + 2] == token[2] && s[p + 3] == token[3];
    assert s[p + 4] == token[4];
    forall k | p + 4 <= k < p + |token| ensures IsDigit(s[k]) {
      assert s[k] == digits[k - p - 4];
    }
    DigitsEndHere(s, p + 4, p + |token|);
    assert s[p..p + |token|] == token;
  }

  lemma {:induction false} TokenBefore(s: string, i: nat, text: string)
    requires i <= |s|
    ensures text in TokensBefore(s, i) <==> exists p :: 0 <= p < i && TokenAt(s, p) && TokenText(s, p) == text
  {
    if i > 0 { TokenBefore(s, i - 1, text); }
  }

  lemma GoodTokenIsNumeral(s: string, p: nat)
    requires p < |s| && TokenAt(s, p) && !BadToken(s, p)
    ensures exists n :: 1 <= n <= 4_294_967_295 && TokenText(s, p) == "TL-C" + Decimal(n)
  {
    var digits := s[p + 4..TokenEnd(s, p)];
    DecimalWrites(digits);
    assert TokenText(s, p) == "TL-C" + digits;
  }

  /** Every id of an accepted answer is a tag with a numeral from 1 to 4,294,967,295, and stands in the answer. */
  lemma CitedAreNumerals(s: string, id: string)
    requires CitedIds(s).Ok? && id in CitedIds(s).value
    ensures exists n :: 1 <= n <= 4_294_967_295 && id == "TL-C" + Decimal(n)
    ensures exists p :: 0 <= p < |s| && TokenAt(s, p) && TokenText(s, p) == id
  {
    DistinctIsFirstOccurrence(TokensBefore(s, |s|));
    TokenBefore(s, |s|, id);
    var p :| 0 <= p < |s| && TokenAt(s, p) && TokenText(s, p) == id;
    GoodTokenIsNumeral(s, p);
  }

  /** An answer with such a citation is either refused as a whole or cites it. */
  lemma WrittenIsCited(before: string, n: nat, behind: string)
    requires behind != "" ==> !IsDigit(behind[0])
    ensures var r := CitedIds(before + ("TL-C" + Decimal(n)) + behind);
            && (r.Ok? ==> "TL-C" + Decimal(n) in r.value && 1 <= n <= 4_294_967_295)
            && (r.Ok? && before != "" ==> !IsIdentifier(before[|before| - 1]))
            && (r.Ok? && behind != "" ==> !IsIdentifier(behind[0]))
  {
    var s := before + ("TL-C" + Decimal(n)) + behind;
    WrittenToken(before, n, behind);
    DistinctIsFirstOccurrence(TokensBefore(s, |s|));
    TokenBefore(s, |s|, "TL-C" + Decimal(n));
  }
}
