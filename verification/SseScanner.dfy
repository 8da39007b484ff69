/** The byte scanner that bounds an event stream before it is framed. */
module SseScanner {
  import opened Bytes

  const LF: Byte := 10
  const CR: Byte := 13
  const SPACE: Byte := 32
  const DATA: seq<Byte> := [100, 97, 116, 97]
  const DATA_COLON: seq<Byte> := [100, 97, 116, 97, 58]

  // ----- what a stream means: the line splitting of section 9.2.6 of the WHATWG HTML standard

  function FirstBreak(b: seq<Byte>): (k: nat)
    ensures k <= |b|
    ensures forall i | 0 <= i < k :: b[i] != CR && b[i] != LF
    ensures k < |b| ==> b[k] == CR || b[k] == LF
  {
    if b == [] || b[0] == CR || b[0] == LF then 0 else 1 + FirstBreak(b[1..])
  }

  /** Where the line after the first break begins: CR LF is one break. */
  function NextLine(b: seq<Byte>): (next: nat)
    requires FirstBreak(b) < |b|
    ensures FirstBreak(b) < next <= |b|
  {
    var k := FirstBreak(b);
    if b[k] == CR && k + 1 < |b| && b[k + 1] == LF then k + 2 else k + 1
  }

  datatype Split = Split(lines: seq<seq<Byte>>, rest: seq<Byte>)

  /** Finished lines, ended by CR LF, CR or LF, and the unfinished one. */
  function SplitLines(b: seq<Byte>): Split
    decreases |b|
  {
    var k := FirstBreak(b);
    if k == |b| then Split([], b)
    else
      var tail := SplitLines(b[NextLine(b)..]);
      Split([b[..k]] + tail.lines, tail.rest)
  }

  /** The lines since the last blank one. */
  function OpenEvent(lines: seq<seq<Byte>>): seq<seq<Byte>> {
    if lines == [] || lines[|lines| - 1] == [] then []
    else OpenEvent(lines[..|lines| - 1]) + [lines[|lines| - 1]]
  }

  predicate IsDataLine(line: seq<Byte>) {
    line == DATA || DATA_COLON <= line
  }

  function DataValue(line: seq<Byte>): seq<Byte>
    requires IsDataLine(line)
  {
    if line == DATA then []
    else if |line| > 5 && line[5] == SPACE then line[6..]
    else line[5..]
  }

  function DataValues(lines: seq<seq<Byte>>): seq<seq<Byte>> {
    if lines == [] then []
    else
      var last := lines[|lines| - 1];
      DataValues(lines[..|lines| - 1]) + if IsDataLine(last) then [DataValue(last)] else []
  }

  function JoinLf(values: seq<seq<Byte>>): seq<Byte> {
    if values == [] then []
    else if |values| == 1 then values[0]
    else JoinLf(values[..|values| - 1]) + [LF] + values[|values| - 1]
  }

  /** The data values of the event that is still open. */
  function OpenValues(b: seq<Byte>): seq<seq<Byte>> {
    DataValues(OpenEvent(SplitLines(b).lines))
  }

  predicate EndsInCr(b: seq<Byte>) {
    b != [] && b[|b| - 1] == CR
  }

  /** A stream that must not be buffered further: its unfinished line or its open event is too long. */
  predicate TooLong(b: seq<Byte>, max: nat) {
    |SplitLines(b).rest| > max + 6 || |JoinLf(OpenValues(b))| > max
  }

  // ----- the scanner, byte by byte

  datatype Scan =
    | Open(line: seq<Byte>, dataBytes: nat, sawData: bool, skipLf: bool)
    | Rejected

  const START := Open([], 0, false, false)

  function FinishLine(s: Scan, skip: bool, max: nat): Scan
    requires s.Open?
  {
    if s.line == [] then Open([], 0, false, skip)
    else if IsDataLine(s.line) then
      var total := s.dataBytes + (if s.sawData then 1 else 0) + |DataValue(s.line)|;
      if total > max then Rejected else Open([], total, true, skip)
    else Open([], s.dataBytes, s.sawData, skip)
  }

  function ScanByte(s: Scan, x: Byte, max: nat): Scan {
    if s.Rejected? then Rejected
    else if s.skipLf && x == LF then s.(skipLf := false)
    else if x == CR then FinishLine(s, true, max)
    else if x == LF then FinishLine(s, false, max)
    else if |s.line| + 1 > max + 6 then Rejected
    else s.(line := s.line + [x], skipLf := false)
  }

  function ScanAll(s: Scan, b: seq<Byte>, max: nat): Scan {
    if b == [] then s else ScanByte(ScanAll(s, b[..|b| - 1], max), b[|b| - 1], max)
  }

  class BoundedSseSource {
    const max: nat
    var line: seq<Byte>
    var eventDataBytes: nat
    var sawDataField: bool
    var skipLfAfterCr: bool

    function State(): Scan
      reads this
    {
      Open(line, eventDataBytes, sawDataField, skipLfAfterCr)
    }

    constructor (max: nat)
      ensures this.max == max && State() == START
    {
      this.max, line, eventDataBytes, sawDataField, skipLfAfterCr := max, [], 0, false, false;
    }

    method FinishLineNow() returns (ok: bool)
      modifies this
      ensures (if ok then State() else Rejected) == FinishLine(old(State()), old(skipLfAfterCr), max)
    {
      if line == [] {
        eventDataBytes, sawDataField := 0, false;
        return true;
      }
      var isData := line == DATA || DATA_COLON <= line;
      if isData {
        var value := if line == DATA then [] else line[5..];
        if line != DATA && |value| > 0 && value[0] == SPACE { value := value[1..]; }
        eventDataBytes := eventDataBytes + (if sawDataField then 1 else 0) + |value|;
        if eventDataBytes > max { return false; }
        sawDataField := true;
      }
      line := [];
      ok := true;
    }

    method ScanChunk(chunk: seq<Byte>) returns (ok: bool)
      modifies this
      ensures (if ok then State() else Rejected) == ScanAll(old(State()), chunk, max)
    {
      ghost var s := State();
      for i := 0 to |chunk|
        invariant State() == ScanAll(s, chunk[..i], max)
      {
        PrefixScan(s, chunk, i, max);
        var x := chunk[i];
        var skipped := skipLfAfterCr && x == LF;
        skipLfAfterCr := false;
        if !skipped {
          if x == CR {
            ok := FinishLineNow();
            if !ok { RejectedStays(s, chunk, i + 1, max); return; }
            skipLfAfterCr := true;
          } else if x == LF {
            ok := FinishLineNow();
            if !ok { RejectedStays(s, chunk, i + 1, max); return; }
          } else {
            line := line + [x];
            if |line| > max + 6 { RejectedStays(s, chunk, i + 1, max); return false; }
          }
        }
      }
      assert chunk[..|chunk|] == chunk;
      ok := true;
    }

    /** Chunks as they arrive, until the first one that is refused. */
    method Feed(chunks: seq<seq<Byte>>) returns (ok: bool)
      modifies this
      ensures (if ok then State() else Rejected) == ScanAll(old(State()), Concat(chunks), max)
    {
      ghost var s := State();
      for i := 0 to |chunks|
        invariant State() == ScanAll(s, Concat(chunks[..i]), max)
      {
        ConcatSplit(chunks, i);
        ChunkingIrrelevant(s, Concat(chunks[..i]), chunks[i], max);
        ok := ScanChunk(chunks[i]);
        if !ok {
          ChunkingIrrelevant(s, Concat(chunks[..i]) + chunks[i], Concat(chunks[i + 1..]), max);
          RejectedForGood(Concat(chunks[i + 1..]), max);
          return;
        }
      }
      assert chunks[..|chunks|] == chunks;
      ok := true;
    }
  }

  function Concat(chunks: seq<seq<Byte>>): seq<Byte> {
    if chunks == [] then [] else chunks[0] + Concat(chunks[1..])
  }

  lemma PrefixScan(s: Scan, b: seq<Byte>, i: nat, max: nat)
    requires i < |b|
    ensures ScanAll(s, b[..i + 1], max) == ScanByte(ScanAll(s, b[..i], max), b[i], max)
  {
    assert b[..i + 1][..i] == b[..i];
  }

  lemma {:induction false} RejectedStays(s: Scan, b: seq<Byte>, i: nat, max: nat)
    requires i <= |b| && ScanAll(s, b[..i], max).Rejected?
    ensures ScanAll(s, b, max).Rejected?
    decreases |b| - i
  {
    if i == |b| {
      assert b[..i] == b;
    } else {
      PrefixScan(s, b, i, max);
      RejectedStays(s, b, i + 1, max);
    }
  }

  lemma {:induction false} RejectedForGood(b: seq<Byte>, max: nat)
    ensures ScanAll(Rejected, b, max) == Rejected
  {
    if b != [] { RejectedForGood(b[..|b| - 1], max); }
  }

  /** Scanning a stream in two pieces gives the state and the verdict of scanning it whole. */
  lemma {:induction false} ChunkingIrrelevant(s: Scan, a: seq<Byte>, b: seq<Byte>, max: nat)
    ensures ScanAll(s, a + b, max) == ScanAll(ScanAll(s, a, max), b, max)
  {
    if b == [] {
      assert a + b == a;
    } else {
      var n := |b| - 1;
      ChunkingIrrelevant(s, a, b[..n], max);
      assert (a + b)[..|a + b| - 1] == a + b[..n];
    }
  }

  lemma {:induction false} ConcatSplit(chunks: seq<seq<Byte>>, i: nat)
    requires i < |chunks|
    ensures Concat(chunks[..i + 1]) == Concat(chunks[..i]) + chunks[i]
    ensures Concat(chunks) == Concat(chunks[..i]) + chunks[i] + Concat(chunks[i + 1..])
  {
    if i == 0 {
      assert chunks[..1] == [chunks[0]];
    } else {
      ConcatSplit(chunks[1..], i - 1);
      assert chunks[..i + 1][1..] == chunks[1..][..i];
      assert chunks[..i][1..] == chunks[1..][..i - 1];
      assert chunks[1..][i..] == chunks[i + 1..];
    }
  }

  // ----- the scanner computes the meaning

  lemma {:induction false} BreakOfSnoc(b: seq<Byte>, x: Byte)
    ensures FirstBreak(b) < |b| ==> FirstBreak(b + [x]) == FirstBreak(b)
    ensures FirstBreak(b) == |b| ==> FirstBreak(b + [x]) == if x == CR || x == LF then |b| else |b| + 1
  {
    if b == [] {
      assert [x][1..] == [];
    } else {
      assert (b + [x])[1..] == b[1..] + [x];
      BreakOfSnoc(b[1..], x);
    }
  }

  lemma SplitFirst(b: seq<Byte>)
    requires FirstBreak(b) < |b|
    ensures var tail := SplitLines(b[NextLine(b)..]);
            SplitLines(b) == Split([b[..FirstBreak(b)]] + tail.lines, tail.rest)
  {
  }

  lemma NextOfSnoc(b: seq<Byte>, x: Byte)
    requires FirstBreak(b) < |b|
    ensures FirstBreak(b + [x]) == FirstBreak(b)
    ensures NextLine(b + [x]) == if x == LF && EndsInCr(b) && NextLine(b) == |b| then |b| + 1 else NextLine(b)
  {
    BreakOfSnoc(b, x);
    var c, k := b + [x], FirstBreak(b);
    assert c[k] == b[k];
    if k + 1 < |b| { assert c[k + 1] == b[k + 1]; } else { assert c[k + 1] == x; }
  }

  lemma TailEndsAlike(b: seq<Byte>, i: nat)
    requires i < |b|
    ensures EndsInCr(b[i..]) == EndsInCr(b)
  {
    assert b[i..][|b[i..]| - 1] == b[|b| - 1];
  }

  lemma SnocSlices(b: seq<Byte>, x: Byte, i: nat)
    requires i <= |b|
    ensures (b + [x])[..i] == b[..i] && (b + [x])[i..] == b[i..] + [x]
  {
  }

  /** How one more byte changes the lines of a stream. */
  lemma {:induction false} SplitOfSnoc(b: seq<Byte>, x: Byte)
    ensures EndsInCr(b) ==> SplitLines(b).rest == []
    ensures SplitLines(b + [x]) == GrownSplit(SplitLines(b), EndsInCr(b), x)
    decreases |b|
  {
    BreakOfSnoc(b, x);
    if FirstBreak(b) == |b| {
      SplitOfLine(b, x);
    } else {
      var next := NextLine(b);
      NextOfSnoc(b, x);
      if next < |b| { TailEndsAlike(b, next); }
      SnocSlices(b, x, FirstBreak(b));
      SnocSlices(b, x, next);
      SplitFirst(b);
      SplitFirst(b + [x]);
      SplitOfSnoc(b[next..], x);
      if next == |b| {
        assert b[next..] == [] && (b + [x])[|b| + 1..] == [];
        assert SplitLines([]) == Split([], []);
      }
      GrownUnderFirst(b[..FirstBreak(b)], SplitLines(b[next..]), EndsInCr(b[next..]), x);
    }
  }

  function GrownSplit(s: Split, endsInCr: bool, x: Byte): Split {
    if x == LF && endsInCr then s
    else if x == CR || x == LF then Split(s.lines + [s.rest], [])
    else s.(rest := s.rest + [x])
  }

  lemma GrownUnderFirst(line: seq<Byte>, s: Split, endsInCr: bool, x: Byte)
    ensures GrownSplit(Split([line] + s.lines, s.rest), endsInCr, x)
            == (var g := GrownSplit(s, endsInCr, x); Split([line] + g.lines, g.rest))
  {
    assert [line] + (s.lines + [s.rest]) == ([line] + s.lines) + [s.rest];
  }

  lemma SplitOfLine(b: seq<Byte>, x: Byte)
    requires FirstBreak(b) == |b|
    ensures !EndsInCr(b) && SplitLines(b + [x]) == GrownSplit(SplitLines(b), false, x)
  {
    BreakOfSnoc(b, x);
    if x == CR || x == LF {
      var c := b + [x];
      assert c[..|b|] == b && c[|b| + 1..] == [];
      SplitFirst(c);
      assert SplitLines([]) == Split([], []);
    }
  }

  lemma OpenEventOfSnoc(lines: seq<seq<Byte>>, line: seq<Byte>)
    ensures OpenEvent(lines + [line]) == if line == [] then [] else OpenEvent(lines) + [line]
    ensures DataValues(lines + [line]) == DataValues(lines) + if IsDataLine(line) then [DataValue(line)] else []
  {
    assert (lines + [line])[..|lines|] == lines;
  }

  lemma JoinOfSnoc(values: seq<seq<Byte>>, value: seq<Byte>)
    ensures |JoinLf(values + [value])| == |JoinLf(values)| + (if values == [] then 0 else 1) + |value|
  {
    assert (values + [value])[..|values|] == values;
  }

  /** The state a stream means. */
  function Meaning(b: seq<Byte>): Scan {
    Open(SplitLines(b).rest, |JoinLf(OpenValues(b))|, OpenValues(b) != [], EndsInCr(b))
  }

  /** The open values once the unfinished line is finished. */
  lemma FinishedValues(b: seq<Byte>, c: seq<Byte>)
    requires SplitLines(c) == Split(SplitLines(b).lines + [SplitLines(b).rest], [])
    ensures var rest := SplitLines(b).rest;
            OpenValues(c) ==
            if rest == [] then []
            else OpenValues(b) + if IsDataLine(rest) then [DataValue(rest)] else []
  {
    var lines, rest := SplitLines(b).lines, SplitLines(b).rest;
    OpenEventOfSnoc(lines, rest);
    if rest != [] { OpenEventOfSnoc(OpenEvent(lines), rest); }
  }

  /** The values of the open event once a line is finished. */
  function ValuesAfter(values: seq<seq<Byte>>, line: seq<Byte>): seq<seq<Byte>> {
    if line == [] then [] else if IsDataLine(line) then values + [DataValue(line)] else values
  }

  /** Finishing a line adds it to the open event, or closes the event. */
  lemma FinishOf(line: seq<Byte>, values: seq<seq<Byte>>, skipLf: bool, skip: bool, max: nat)
    requires |JoinLf(values)| <= max
    ensures var after := ValuesAfter(values, line);
            FinishLine(Open(line, |JoinLf(values)|, values != [], skipLf), skip, max)
            == if |JoinLf(after)| > max then Rejected else Open([], |JoinLf(after)|, after != [], skip)
  {
    if line != [] && IsDataLine(line) {
      JoinOfSnoc(values, DataValue(line));
    }
  }

  lemma FinishMeans(b: seq<Byte>, c: seq<Byte>, max: nat)
    requires SplitLines(c) == Split(SplitLines(b).lines + [SplitLines(b).rest], [])
    requires |JoinLf(OpenValues(b))| <= max
    ensures FinishLine(Meaning(b), EndsInCr(c), max) == if TooLong(c, max) then Rejected else Meaning(c)
  {
    var rest, values := SplitLines(b).rest, OpenValues(b);
    FinishedValues(b, c);
    assert OpenValues(c) == ValuesAfter(values, rest);
    FinishOf(rest, values, EndsInCr(b), EndsInCr(c), max);
  }

  predicate NeverTooLong(b: seq<Byte>, max: nat) {
    forall k | 0 <= k <= |b| :: !TooLong(b[..k], max)
  }

  lemma ScanByteMeans(b: seq<Byte>, x: Byte, max: nat)
    requires !TooLong(b, max)
    ensures ScanByte(Meaning(b), x, max) == if TooLong(b + [x], max) then Rejected else Meaning(b + [x])
  {
    var c := b + [x];
    SplitOfSnoc(b, x);
    if (x == CR || x == LF) && !(x == LF && EndsInCr(b)) {
      FinishMeans(b, c, max);
    }
  }

  lemma NeverTooLongSnoc(b: seq<Byte>, max: nat)
    requires b != []
    ensures NeverTooLong(b, max) <==> NeverTooLong(b[..|b| - 1], max) && !TooLong(b, max)
  {
    var n := |b| - 1;
    assert b[..|b|] == b;
    assert forall k | 0 <= k <= n :: b[..n][..k] == b[..k];
  }

  /** The scanner rejects exactly the streams of which some prefix is too long, and otherwise knows the unfinished line,
      the length of the open event's joined data, whether there is any, and whether a line feed is to be skipped. */
  lemma {:induction false} ScanMeans(b: seq<Byte>, max: nat)
    ensures ScanAll(START, b, max) == if NeverTooLong(b, max) then Meaning(b) else Rejected
  {
    if b == [] {
      assert SplitLines(b) == Split([], []);
      assert NeverTooLong(b, max) by { assert !TooLong(b[..0], max); }
    } else {
      var n := |b| - 1;
      ScanMeans(b[..n], max);
      NeverTooLongSnoc(b, max);
      assert b[..n] + [b[n]] == b;
      if NeverTooLong(b[..n], max) {
        assert b[..n][..n] == b[..n];
        ScanByteMeans(b[..n], b[n], max);
      }
    }
  }

  /** The line bound never refuses a data line whose value is within the limit. */
  lemma DataLineFits(line: seq<Byte>, max: nat)
    requires IsDataLine(line) && |DataValue(line)| <= max
    ensures |line| <= max + 6
  {
  }

  // ----- streams as they are written

  predicate NoBreak(line: seq<Byte>) {
    forall i | 0 <= i < |line| :: line[i] != 10 && line[i] != 13
  }

  lemma BreakAfter(line: seq<Byte>, b: seq<Byte>)
    requires NoBreak(line) && line < b && (b[|line|] == 10 || b[|line|] == 13)
    ensures FirstBreak(b) == |line| && b[..|line|] == line
  {
    assert forall i | 0 <= i < |line| :: b[i] == line[i];
  }

  /** A line followed by a line feed, by a carriage return or by both is one line; what follows is split on its own. */
  lemma LineEnds(line: seq<Byte>, tail: seq<Byte>)
    requires NoBreak(line)
    ensures SplitLines(line) == Split([], line)
    ensures var split := Split([line] + SplitLines(tail).lines, SplitLines(tail).rest);
            && SplitLines(line + [10] + tail) == split && SplitLines(line + [13, 10] + tail) == split
            && (tail == [] || tail[0] != 10 ==> SplitLines(line + [13] + tail) == split)
  {
    var n := |line|;
    var lf, crlf, cr := line + [10] + tail, line + [13, 10] + tail, line + [13] + tail;
    BreakAfter(line, lf);
    BreakAfter(line, crlf);
    BreakAfter(line, cr);
    assert lf[n + 1..] == tail && crlf[n + 2..] == tail && cr[n + 1..] == tail;
    assert crlf[n + 1] == 10 && (tail != [] ==> cr[n + 1] == tail[0]);
  }

  /** The data field alone, or with a colon and its value, one space before which does not count. */
  lemma DataLineReads(v: seq<Byte>)
    ensures IsDataLine([100, 97, 116, 97]) && DataValue([100, 97, 116, 97]) == []
    ensures IsDataLine([100, 97, 116, 97, 58, 32] + v) && DataValue([100, 97, 116, 97, 58, 32] + v) == v
    ensures IsDataLine([100, 97, 116, 97, 58] + v)
            && (v == [] || v[0] != 32 ==> DataValue([100, 97, 116, 97, 58] + v) == v)
  {
    assert [100, 97, 116, 97, 58] <= [100, 97, 116, 97, 58, 32] + v;
  }

  /** No other line is one. */
  lemma DataLineExactly(line: seq<Byte>)
    ensures IsDataLine(line) <==>
              line == [100, 97, 116, 97] || (|line| >= 5 && line[..5] == [100, 97, 116, 97, 58])
  {
  }

  /** A line of any kind is accepted up to the limit and the six bytes of a data field. */
  lemma {:induction false} LineLimit(line: seq<Byte>, max: nat)
    requires NoBreak(line)
    ensures ScanAll(START, line, max) == if |line| > max + 6 then Rejected else Open(line, 0, false, false)
  {
    if line != [] {
      var n := |line| - 1;
      LineLimit(line[..n], max);
      assert line[..n] + [line[n]] == line;
    }
  }

  lemma {:induction false} SkipsOnlyBetweenLines(b: seq<Byte>, max: nat)
    ensures ScanAll(START, b, max).Open? && ScanAll(START, b, max).skipLf ==> ScanAll(START, b, max).line == []
  {
    if b != [] { SkipsOnlyBetweenLines(b[..|b| - 1], max); }
  }

  /** A blank line starts the count of the next event at nothing. */
  lemma BlankLineStartsOver(b: seq<Byte>, max: nat)
    ensures ScanAll(START, b + [10] + [10], max) == if ScanAll(START, b + [10], max).Rejected? then Rejected else START
  {
    SkipsOnlyBetweenLines(b, max);
    assert (b + [10] + [10])[..|b| + 1] == b + [10] && (b + [10])[..|b|] == b;
  }

  /** Between two blank lines, an event of two data lines is accepted when both values and a line feed fit the limit. */
  lemma EventLimit(v: seq<Byte>, w: seq<Byte>, max: nat)
    requires NoBreak(v) && NoBreak(w) && |v| <= max && |w| <= max
    ensures var event := [100, 97, 116, 97, 58, 32] + v + [10] + ([100, 97, 116, 97, 58, 32] + w + [10]);
            ScanAll(START, event, max)
            == if |v| + 1 + |w| > max then Rejected else Open([], |v| + 1 + |w|, true, false)
  {
    var one, two := [100, 97, 116, 97, 58, 32] + v, [100, 97, 116, 97, 58, 32] + w;
    DataLineReads(v);
    DataLineReads(w);
    DataLineFits(one, max);
    LineLimit(one, max);
    assert (one + [10])[..|one|] == one;
    ChunkingIrrelevant(START, one + [10], two + [10], max);
    LineFrom(Open([], |v|, true, false), two, max);
    assert (two + [10])[..|two|] == two;
  }

  /** A line that fits is collected from wherever the event stands. */
  lemma {:induction false} LineFrom(s: Scan, line: seq<Byte>, max: nat)
    requires s.Open? && s.line == [] && !s.skipLf && NoBreak(line) && |line| <= max + 6
    ensures ScanAll(s, line, max) == s.(line := line)
  {
    if line != [] {
      var n := |line| - 1;
      LineFrom(s, line[..n], max);
      assert line[..n] + [line[n]] == line;
    }
  }
}
