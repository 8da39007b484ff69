/** Normalization of extracted text: one kind of line break, no trailing blanks, no runs of blank lines. */
module Normalizer {
  import opened Results
  import opened Text

  // ----- the standard library's string operations

  /** `replace("\r\n", "\n")`, then `replace('\r', "\n")`. */
  function JoinBreaks(s: string): string {
    if s == "" then ""
    else if |s| >= 2 && s[0] == '\r' && s[1] == '\n' then ['\n'] + JoinBreaks(s[2..])
    else [s[0]] + JoinBreaks(s[1..])
  }

  function BreakAtReturns(s: string): string {
    if s == "" then "" else [if s[0] == '\r' then '\n' else s[0]] + BreakAtReturns(s[1..])
  }

  /** Where the first line feed is, or the length. */
  function LineLength(s: string): (n: nat)
    ensures n <= |s| && (n < |s| ==> s[n] == '\n')
    ensures forall i | 0 <= i < n :: s[i] != '\n'
  {
    if s == "" || s[0] == '\n' then 0 else 1 + LineLength(s[1..])
  }

  /** `lines()` of a text without carriage returns: a final line feed starts no further line. */
  function Lines(s: string): seq<string> {
    if s == "" then []
    else
      var n := LineLength(s);
      if n == |s| then [s] else [s[..n]] + Lines(s[n + 1..])
  }

  // ----- what normalization keeps

  /** A blank line directly behind another blank line goes; every other line stays. */
  predicate Kept(lines: seq<string>, k: nat)
    requires k < |lines|
  {
    TrimEnd(lines[k]) != "" || k == 0 || TrimEnd(lines[k - 1]) != ""
  }

  /** The kept ones of the first `n` lines, trimmed at the end, each with its line feed. */
  function KeptLines(lines: seq<string>, n: nat): string
    requires n <= |lines|
  {
    if n == 0 then ""
    else if Kept(lines, n - 1) then KeptLines(lines, n - 1) + TrimEnd(lines[n - 1]) + "\n"
    else KeptLines(lines, n - 1)
  }

  function Normalized(raw: string): string {
    var lines := Lines(BreakAtReturns(JoinBreaks(raw)));
    Trim(KeptLines(lines, |lines|))
  }

  method Normalize(raw: string) returns (result: Result<string>)
    ensures result == if '\0' in raw then Err(ProviderUnavailable) else Ok(Normalized(raw))
  {
    if '\0' in raw {
      return Err(ProviderUnavailable);
    }
    var value := BreakAtReturns(JoinBreaks(raw));
    var lines := Lines(value);
    var out := "";
    var blanks := 0;
    for k := 0 to |lines|
      invariant blanks > 0 <==> k > 0 && TrimEnd(lines[k - 1]) == ""
      invariant out == KeptLines(lines, k)
    {
      var line := TrimEnd(lines[k]);
      if line == "" {
        blanks := blanks + 1;
        if blanks > 1 {
          continue;
        }
      } else {
        blanks := 0;
      }
      out := out + line;
      out := out + "\n";
    }
    result := Ok(Trim(out));
  }

  // ----- the normal form

  /** A line feed follows a line feed or a character that is not whitespace, and never two line feeds in a row. */
  predicate TidyAt(s: string, i: nat)
    requires i < |s|
  {
    && s[i] != '\r'
    && (s[i] == '\n' && i > 0 ==> s[i - 1] == '\n' || !IsWhitespace(s[i - 1]))
    && (s[i] == '\n' && i > 1 ==> s[i - 1] != '\n' || s[i - 2] != '\n')
  }

  predicate Tidy(s: string) {
    forall i | 0 <= i < |s| :: TidyAt(s, i)
  }

  predicate IsNormal(s: string) {
    Tidy(s) && Trimmed(s)
  }

  /** The characters that are not whitespace, in order. */
  function Solid(s: string): string {
    if s == "" then "" else Solid(s[..|s| - 1]) + if IsWhitespace(s[|s| - 1]) then "" else [s[|s| - 1]]
  }

  // ----- the result is normal

  predicate LineText(line: string) {
    forall i | 0 <= i < |line| :: line[i] != '\n' && line[i] != '\r'
  }

  predicate AllLineText(lines: seq<string>) {
    forall k | 0 <= k < |lines| :: LineText(lines[k])
  }

  lemma {:induction false} LinesHoldNoBreak(s: string)
    requires '\r' !in s
    ensures AllLineText(Lines(s))
  {
    if s != "" {
      var n := LineLength(s);
      if n < |s| { LinesHoldNoBreak(s[n + 1..]); }
    }
  }

  lemma {:induction false} NoReturnLeft(s: string)
    ensures '\r' !in BreakAtReturns(s)
  {
    if s != "" { NoReturnLeft(s[1..]); }
  }

  /** What the text so far ends in: a line feed, and behind a blank line nothing or another one. */
  predicate EndsLine(s: string, blank: bool) {
    && s != "" && s[|s| - 1] == '\n'
    && (|s| > 1 ==> (s[|s| - 2] == '\n' <==> blank))
    && (|s| == 1 ==> blank)
  }

  lemma AppendLine(s: string, line: string, blank: bool)
    requires Tidy(s) && (s != "" ==> EndsLine(s, blank))
    requires LineText(line) && TrimEnd(line) == line
    requires line == "" && s != "" ==> !blank
    ensures Tidy(s + line + "\n")
    ensures EndsLine(s + line + "\n", line == "")
  {
    var t := s + line + "\n";
    forall i | 0 <= i < |t| ensures TidyAt(t, i) {
      if i < |s| {
        assert TidyAt(s, i);
      } else if i < |s| + |line| {
        assert t[i] == line[i - |s|];
      }
    }
  }

  lemma {:induction false} KeptLinesTidy(lines: seq<string>, n: nat)
    requires n <= |lines| && AllLineText(lines)
    ensures Tidy(KeptLines(lines, n))
    ensures n > 0 ==> EndsLine(KeptLines(lines, n), TrimEnd(lines[n - 1]) == "")
  {
    if n > 0 {
      KeptLinesTidy(lines, n - 1);
      if Kept(lines, n - 1) {
        var line := TrimEnd(lines[n - 1]);
        assert LineText(lines[n - 1]);
        AppendLine(KeptLines(lines, n - 1), line, n > 1 && TrimEnd(lines[n - 2]) == "");
      }
    }
  }

  lemma TrimKeepsTidy(s: string)
    requires Tidy(s)
    ensures IsNormal(Trim(s))
  {
    var t := TrimStart(s);
    var d := |s| - |t|;
    forall i | 0 <= i < |t| ensures TidyAt(t, i) {
      assert TidyAt(s, d + i);
    }
    var u := TrimEnd(t);
    forall i | 0 <= i < |u| ensures TidyAt(u, i) {
      assert TidyAt(t, i);
    }
  }

  lemma NormalizedIsNormal(raw: string)
    ensures IsNormal(Normalized(raw))
  {
    var value := BreakAtReturns(JoinBreaks(raw));
    NoReturnLeft(JoinBreaks(raw));
    LinesHoldNoBreak(value);
    KeptLinesTidy(Lines(value), |Lines(value)|);
    TrimKeepsTidy(KeptLines(Lines(value), |Lines(value)|));
  }

  // ----- only whitespace changes

  lemma {:induction false} SolidAdds(a: string, b: string)
    ensures Solid(a + b) == Solid(a) + Solid(b)
  {
    if b == "" {
      assert a + b == a;
    } else {
      assert (a + b)[..|a + b| - 1] == a + b[..|b| - 1];
      SolidAdds(a, b[..|b| - 1]);
    }
  }

  lemma {:induction false} SolidBlank(s: string)
    requires Blank(s)
    ensures Solid(s) == ""
  {
    if s != "" { SolidBlank(s[..|s| - 1]); }
  }

  lemma SolidTrimEnd(s: string)
    ensures Solid(TrimEnd(s)) == Solid(s)
  {
    var t := TrimEnd(s);
    assert s == t + s[|t|..];
    SolidAdds(t, s[|t|..]);
    SolidBlank(s[|t|..]);
  }

  lemma SolidTrimStart(s: string)
    ensures Solid(TrimStart(s)) == Solid(s)
  {
    var t := TrimStart(s);
    var blank := s[..|s| - |t|];
    assert s == blank + t;
    SolidAdds(blank, t);
    SolidBlank(blank);
  }

  lemma SolidTrim(s: string)
    ensures Solid(Trim(s)) == Solid(s)
  {
    SolidTrimStart(s);
    SolidTrimEnd(TrimStart(s));
  }

  lemma SolidHead(c: char, s: string)
    ensures Solid([c] + s) == (if IsWhitespace(c) then "" else [c]) + Solid(s)
  {
    SolidAdds([c], s);
    assert [c][..0] == "";
  }

  lemma {:induction false} SolidJoinBreaks(s: string)
    ensures Solid(JoinBreaks(s)) == Solid(s)
  {
    if s == "" {
    } else if |s| >= 2 && s[0] == '\r' && s[1] == '\n' {
      SolidJoinBreaks(s[2..]);
      assert s == [s[0]] + ([s[1]] + s[2..]);
      SolidHead(s[0], [s[1]] + s[2..]);
      SolidHead(s[1], s[2..]);
      SolidHead('\n', JoinBreaks(s[2..]));
    } else {
      SolidJoinBreaks(s[1..]);
      assert s == [s[0]] + s[1..];
      SolidHead(s[0], s[1..]);
      SolidHead(s[0], JoinBreaks(s[1..]));
    }
  }

  lemma {:induction false} SolidBreakAtReturns(s: string)
    ensures Solid(BreakAtReturns(s)) == Solid(s)
  {
    if s != "" {
      SolidBreakAtReturns(s[1..]);
      assert s == [s[0]] + s[1..];
      SolidHead(s[0], s[1..]);
      SolidHead(if s[0] == '\r' then '\n' else s[0], BreakAtReturns(s[1..]));
    }
  }

  /** All lines behind one another, each with its line feed. */
  function Flat(lines: seq<string>, n: nat): string
    requires n <= |lines|
  {
    if n == 0 then "" else Flat(lines, n - 1) + lines[n - 1] + "\n"
  }

  lemma {:induction false} FlatAhead(line: string, rest: seq<string>, n: nat)
    requires n <= |rest|
    ensures Flat([line] + rest, n + 1) == line + "\n" + Flat(rest, n)
  {
    if n > 0 {
      FlatAhead(line, rest, n - 1);
      assert ([line] + rest)[n] == rest[n - 1];
      assert line + "\n" + Flat(rest, n - 1) + rest[n - 1] + "\n"
             == line + "\n" + (Flat(rest, n - 1) + rest[n - 1] + "\n");
    }
  }

  lemma FlatAlone(line: string)
    ensures Flat([line], 1) == line + "\n"
  {
    assert Flat([line], 0) + [line][0] == line;
  }

  /** The text with a final line feed, unless it has one or is empty. */
  function Ended(s: string): string {
    if s == "" || s[|s| - 1] == '\n' then s else s + "\n"
  }

  lemma EndedAhead(line: string, rest: string)
    ensures Ended(line + "\n" + rest) == line + "\n" + Ended(rest)
  {
    var s := line + "\n" + rest;
    if rest == "" {
      assert s == line + "\n";
    } else {
      assert s[|s| - 1] == rest[|rest| - 1];
      assert s + "\n" == line + "\n" + (rest + "\n");
    }
  }

  lemma OneLineSpells(s: string)
    requires s != "" && LineLength(s) == |s|
    ensures Flat(Lines(s), |Lines(s)|) == Ended(s)
  {
    FlatAlone(s);
  }

  lemma LineFeedApart(s: string, n: nat)
    requires n < |s| && s[n] == '\n'
    ensures s == s[..n] + "\n" + s[n + 1..]
  {
    assert s == s[..n] + [s[n]] + s[n + 1..];
    assert [s[n]] == "\n";
  }

  lemma FirstLineSpells(s: string, line: string, rest: string, tail: seq<string>)
    requires s == line + "\n" + rest && Flat(tail, |tail|) == Ended(rest)
    ensures Flat([line] + tail, |tail| + 1) == Ended(s)
  {
    FlatAhead(line, tail, |tail|);
    EndedAhead(line, rest);
  }

  /** Behind one another, the lines spell the text, up to a final line feed. */
  lemma {:induction false} LinesSpell(s: string)
    ensures Flat(Lines(s), |Lines(s)|) == Ended(s)
  {
    var n := LineLength(s);
    if s == "" {
    } else if n == |s| {
      OneLineSpells(s);
    } else {
      var line, rest := s[..n], s[n + 1..];
      LinesSpell(rest);
      LineFeedApart(s, n);
      FirstLineSpells(s, line, rest, Lines(rest));
    }
  }

  lemma SolidLine(before: string, line: string)
    ensures Solid(before + line + "\n") == Solid(before) + Solid(line)
  {
    SolidBlank("\n");
    SolidAdds(before + line, "\n");
    SolidAdds(before, line);
  }

  lemma {:induction false} SolidKeptLines(lines: seq<string>, n: nat)
    requires n <= |lines|
    ensures Solid(KeptLines(lines, n)) == Solid(Flat(lines, n))
  {
    if n > 0 {
      var line := lines[n - 1];
      SolidKeptLines(lines, n - 1);
      SolidTrimEnd(line);
      SolidLine(Flat(lines, n - 1), line);
      SolidLine(KeptLines(lines, n - 1), TrimEnd(line));
    }
  }

  /** Normalization changes whitespace only. */
  lemma SolidSurvives(raw: string)
    ensures Solid(Normalized(raw)) == Solid(raw)
  {
    var value := BreakAtReturns(JoinBreaks(raw));
    var lines := Lines(value);
    SolidJoinBreaks(raw);
    SolidBreakAtReturns(JoinBreaks(raw));
    SolidTrim(KeptLines(lines, |lines|));
    SolidKeptLines(lines, |lines|);
    LinesSpell(value);
    SolidAdds(value, "\n");
    SolidBlank("\n");
  }

  // ----- the normal form is exactly what normalization leaves alone

  lemma {:induction false} NothingToBreak(s: string)
    requires '\r' !in s
    ensures BreakAtReturns(s) == s && JoinBreaks(s) == s
  {
    if s != "" {
      NothingToBreak(s[1..]);
      assert s == [s[0]] + s[1..];
    }
  }

  predicate StartsBlank(s: string) {
    |s| >= 2 && s[0] == '\n' && s[1] == '\n'
  }

  lemma TidyRest(s: string)
    requires Tidy(s) && LineLength(s) < |s|
    ensures Tidy(s[LineLength(s) + 1..]) && !StartsBlank(s[LineLength(s) + 1..])
    ensures TrimEnd(s[..LineLength(s)]) == s[..LineLength(s)]
  {
    var n := LineLength(s);
    var rest := s[n + 1..];
    assert TidyAt(s, n);
    forall i | 0 <= i < |rest| ensures TidyAt(rest, i) {
      assert TidyAt(s, n + 1 + i);
    }
    if |rest| >= 2 {
      assert TidyAt(s, n + 2);
    }
  }

  /** Trimmed lines, no two blank ones in a row. */
  predicate KeptWhole(lines: seq<string>) {
    forall k | 0 <= k < |lines| :: TrimEnd(lines[k]) == lines[k] && Kept(lines, k)
  }

  lemma KeptAhead(line: string, tail: seq<string>)
    requires KeptWhole(tail) && TrimEnd(line) == line
    requires tail != [] && tail[0] == "" ==> line != ""
    ensures KeptWhole([line] + tail)
  {
    var lines := [line] + tail;
    forall k | 0 <= k < |lines| ensures TrimEnd(lines[k]) == lines[k] && Kept(lines, k) {
      if k > 0 { assert lines[k] == tail[k - 1] && Kept(tail, k - 1); }
      if k > 1 { assert lines[k - 1] == tail[k - 2]; }
    }
  }

  lemma KeptAlone(line: string)
    requires line != "" && TrimEnd(line) == line
    ensures KeptWhole([line])
  {
  }

  lemma {:induction false} TidyLines(s: string)
    requires Tidy(s) && (s != "" ==> !IsWhitespace(s[|s| - 1])) && !StartsBlank(s)
    ensures KeptWhole(Lines(s))
    ensures Lines(s) != [] && Lines(s)[0] == "" ==> s[0] == '\n'
  {
    var n := LineLength(s);
    if s == "" {
    } else if n == |s| {
      KeptAlone(s);
    } else {
      TidyRest(s);
      TidyLines(s[n + 1..]);
      KeptAhead(s[..n], Lines(s[n + 1..]));
    }
  }

  lemma {:induction false} KeepsAll(lines: seq<string>, n: nat)
    requires n <= |lines|
    requires KeptWhole(lines)
    ensures KeptLines(lines, n) == Flat(lines, n)
  {
    if n > 0 { KeepsAll(lines, n - 1); }
  }

  lemma NormalIsKept(s: string)
    requires IsNormal(s)
    ensures Normalized(s) == s
  {
    forall i | 0 <= i < |s| ensures s[i] != '\r' {
      assert TidyAt(s, i);
    }
    NothingToBreak(s);
    if s != "" {
      var lines := Lines(s);
      TidyLines(s);
      KeepsAll(lines, |lines|);
      LinesSpell(s);
      assert (s + "\n")[..|s + "\n"| - 1] == s;
      assert TrimEnd(s + "\n") == TrimEnd(s);
    }
  }

  /** The texts normalization leaves alone are exactly the normal ones. */
  lemma FixedExactlyWhenNormal(s: string)
    ensures Normalized(s) == s <==> IsNormal(s)
  {
    NormalizedIsNormal(s);
    if IsNormal(s) { NormalIsKept(s); }
  }

  /** Normalizing twice is normalizing once. */
  lemma Idempotent(raw: string)
    ensures Normalized(Normalized(raw)) == Normalized(raw)
  {
    NormalizedIsNormal(raw);
    NormalIsKept(Normalized(raw));
  }

  /** The normal form of a text is blank, hence empty, exactly when the text is. */
  lemma EmptyExactlyWhenBlank(raw: string)
    ensures Normalized(raw) == "" <==> Blank(raw)
  {
    SolidSurvives(raw);
    NormalizedIsNormal(raw);
    if Blank(raw) {
      SolidBlank(raw);
      SolidLast(Normalized(raw));
    } else {
      SolidLast(TrimEnd(raw));
      SolidTrimEnd(raw);
    }
  }

  lemma SolidLast(s: string)
    requires s != "" ==> !IsWhitespace(s[|s| - 1])
    ensures Solid(s) == "" <==> s == ""
  {
  }

  // ----- line breaks

  /** The text with each line feed written as a carriage return and a line feed, where it is not already. */
  function WithCrlf(s: string): string {
    if s == "" then ""
    else if |s| >= 2 && s[0] == '\r' && s[1] == '\n' then "\r\n" + WithCrlf(s[2..])
    else if s[0] == '\n' then "\r\n" + WithCrlf(s[1..])
    else [s[0]] + WithCrlf(s[1..])
  }

  /** The text with each line feed written as a carriage return. */
  function WithReturns(s: string): (t: string)
    ensures |t| == |s| && forall i | 0 <= i < |s| :: t[i] == if s[i] == '\n' then '\r' else s[i]
  {
    seq(|s|, i requires 0 <= i < |s| => if s[i] == '\n' then '\r' else s[i])
  }

  lemma {:induction false} CrlfJoins(s: string)
    ensures JoinBreaks(WithCrlf(s)) == JoinBreaks(s)
  {
    if s == "" {
    } else if |s| >= 2 && s[0] == '\r' && s[1] == '\n' {
      CrlfJoins(s[2..]);
      assert WithCrlf(s)[2..] == WithCrlf(s[2..]);
    } else if s[0] == '\n' {
      CrlfJoins(s[1..]);
      assert WithCrlf(s)[2..] == WithCrlf(s[1..]);
    } else {
      CrlfJoins(s[1..]);
      assert WithCrlf(s)[1..] == WithCrlf(s[1..]);
      assert s[0] == '\r' && |s| > 1 ==> s[1] != '\n' && WithCrlf(s)[1] == s[1];
    }
  }

  lemma {:induction false} BreaksPointwise(s: string)
    ensures |BreakAtReturns(s)| == |s|
    ensures forall i | 0 <= i < |s| :: BreakAtReturns(s)[i] == if s[i] == '\r' then '\n' else s[i]
  {
    if s != "" { BreaksPointwise(s[1..]); }
  }

  lemma {:induction false} NothingToJoin(s: string)
    requires '\n' !in s || '\r' !in s
    ensures JoinBreaks(s) == s
  {
    if s != "" { NothingToJoin(s[1..]); }
  }

  lemma ReturnsBreak(s: string)
    requires '\r' !in s
    ensures BreakAtReturns(JoinBreaks(WithReturns(s))) == s
  {
    var t := WithReturns(s);
    NothingToJoin(t);
    BreaksPointwise(t);
    assert forall i | 0 <= i < |s| :: BreakAtReturns(t)[i] == s[i];
  }

  /** However its line breaks are written, a text is normalized alike. */
  lemma BreaksAlike(s: string)
    ensures Normalized(WithCrlf(s)) == Normalized(s)
    ensures '\r' !in s ==> Normalized(WithReturns(s)) == Normalized(s)
  {
    CrlfJoins(s);
    if '\r' !in s {
      ReturnsBreak(s);
      NothingToBreak(s);
    }
  }
}
