/** The JPEG header walk: from the start of the image to its first frame header. */
module Jpeg {
  import opened Bytes
  import opened Results

  const FILL: Byte := 0xFF

  /** Start-of-frame markers, table B.1 of ITU-T T.81. */
  predicate IsStartOfFrame(m: Byte) {
    m in [0xC0, 0xC1, 0xC2, 0xC3, 0xC5, 0xC6, 0xC7, 0xC9, 0xCA, 0xCB, 0xCD, 0xCE, 0xCF]
  }

  /** Markers without a parameter segment: TEM, RST0 to RST7, and SOI again. */
  predicate IsStandalone(m: Byte) {
    m == 0x01 || 0xD0 <= m <= 0xD8
  }

  /** End of image, or start of scan: no frame header can follow. */
  predicate IsStop(m: Byte) {
    m == 0xD9 || m == 0xDA
  }

  // ----- the header as a list of segments

  /**
   * A marker after at least one fill byte (section B.1.1.2), with its parameters, if it has any, behind their length
   * (B.1.1.4).
   */
  datatype Segment =
    | Standalone(fill: nat, marker: Byte)
    | Parameters(fill: nat, marker: Byte, payload: seq<Byte>)

  datatype Frame = Frame(fill: nat, marker: Byte, precision: Byte, height: nat, width: nat, rest: seq<Byte>)

  predicate ValidSegment(s: Segment) {
    && s.fill >= 1
    && match s
       case Standalone(_, m) => IsStandalone(m)
       case Parameters(_, m, payload) =>
         m != FILL && !IsStandalone(m) && !IsStop(m) && !IsStartOfFrame(m) && |payload| + 2 < 0x1_0000
  }

  predicate ValidFrame(f: Frame) {
    f.fill >= 1 && IsStartOfFrame(f.marker) && f.height < 0x1_0000 && f.width < 0x1_0000 && |f.rest| + 7 < 0x1_0000
  }

  function Fills(n: nat): (b: seq<Byte>)
    ensures |b| == n && forall i | 0 <= i < n :: b[i] == FILL
  {
    if n == 0 then [] else [FILL] + Fills(n - 1)
  }

  function Big16(n: nat): seq<Byte>
    requires n < 0x1_0000
  {
    [n / 256, n % 256]
  }

  function PrintSegment(s: Segment): seq<Byte>
    requires ValidSegment(s)
  {
    match s
    case Standalone(fill, m) => Fills(fill) + [m]
    case Parameters(fill, m, payload) => Fills(fill) + [m] + Big16(|payload| + 2) + payload
  }

  function PrintSegments(segments: seq<Segment>): seq<Byte>
    requires forall i | 0 <= i < |segments| :: ValidSegment(segments[i])
  {
    if segments == [] then [] else PrintSegment(segments[0]) + PrintSegments(segments[1..])
  }

  function PrintFrame(f: Frame): seq<Byte>
    requires ValidFrame(f)
  {
    Fills(f.fill) + [f.marker] + Big16(|f.rest| + 7) + [f.precision] + Big16(f.height) + Big16(f.width) + f.rest
  }

  predicate ValidHeader(segments: seq<Segment>, f: Frame) {
    ValidFrame(f) && forall i | 0 <= i < |segments| :: ValidSegment(segments[i])
  }

  // ----- the walk

  datatype Dimensions = Dimensions(width: nat, height: nat)

  /** Where the run of fill bytes from i ends. */
  function FillEnd(b: seq<Byte>, i: nat): (e: nat)
    requires i <= |b|
    ensures i <= e <= |b| && (forall k | i <= k < e :: b[k] == FILL) && (e < |b| ==> b[e] != FILL)
    decreases |b| - i
  {
    if i < |b| && b[i] == FILL then FillEnd(b, i + 1) else i
  }

  function At16(b: seq<Byte>, i: nat): nat
    requires i + 1 < |b|
  {
    256 * (b[i] as int) + b[i + 1] as int
  }

  /** The walk from a cursor. */
  function WalkFrom(b: seq<Byte>, cursor: nat): Option<Dimensions>
    requires cursor <= |b|
    decreases |b| - cursor
  {
    if cursor == |b| || b[cursor] != FILL then None
    else
      var m := FillEnd(b, cursor);
      if m == |b| || IsStop(b[m]) then None
      else if IsStandalone(b[m]) then WalkFrom(b, m + 1)
      else if m + 2 >= |b| then None
      else
        var length := At16(b, m + 1);
        if length < 2 || m + 1 + length > |b| then None
        else if IsStartOfFrame(b[m]) then
          if length < 7 then None else Some(Dimensions(At16(b, m + 6), At16(b, m + 4)))
        else WalkFrom(b, m + 1 + length)
  }

  function Detect(b: seq<Byte>): Option<Dimensions> {
    if |b| < 4 || b[..2] != [0xFF, 0xD8] then None else WalkFrom(b, 2)
  }

  method SkipFill(bytes: seq<Byte>, start: nat) returns (cursor: nat)
    requires start <= |bytes|
    ensures cursor == FillEnd(bytes, start)
  {
    cursor := start;
    while cursor < |bytes| && bytes[cursor] == FILL
      invariant start <= cursor <= |bytes| && FillEnd(bytes, cursor) == FillEnd(bytes, start)
    {
      cursor := cursor + 1;
    }
  }

  /** One turn of the walk: its verdict, or where the next marker is to be. */
  method ReadMarker(bytes: seq<Byte>, start: nat) returns (verdict: Option<Option<Dimensions>>, cursor: nat)
    requires start < |bytes|
    ensures verdict.Some? ==> verdict.value == WalkFrom(bytes, start)
    ensures verdict.None? ==> start < cursor <= |bytes| && WalkFrom(bytes, start) == WalkFrom(bytes, cursor)
  {
    cursor := start;
    if bytes[cursor] != FILL { return Some(None), cursor; }
    cursor := SkipFill(bytes, cursor);
    if cursor >= |bytes| { return Some(None), cursor; }
    var marker := bytes[cursor];
    cursor := cursor + 1;
    if marker == 0xD9 || marker == 0xDA { return Some(None), cursor; }
    if marker == 0x01 || 0xD0 <= marker <= 0xD8 { return None, cursor; }
    if cursor + 1 >= |bytes| { return Some(None), cursor; }
    var segmentLength := At16(bytes, cursor);
    if segmentLength < 2 || cursor + segmentLength > |bytes| { return Some(None), cursor; }
    if IsStartOfFrame(marker) {
      if segmentLength < 7 { return Some(None), cursor; }
      var height := At16(bytes, cursor + 3);
      var width := At16(bytes, cursor + 5);
      return Some(Some(Dimensions(width, height))), cursor;
    }
    verdict, cursor := None, cursor + segmentLength;
  }

  method DetectJpeg(bytes: seq<Byte>) returns (r: Option<Dimensions>)
    ensures r == Detect(bytes)
  {
    if |bytes| < 4 || bytes[..2] != [0xFF, 0xD8] { return None; }
    var cursor := 2;
    while cursor < |bytes|
      invariant 2 <= cursor <= |bytes| && Detect(bytes) == WalkFrom(bytes, cursor)
    {
      var verdict, next := ReadMarker(bytes, cursor);
      if verdict.Some? { return verdict.value; }
      cursor := next;
    }
    r := None;
  }

  // ----- printing and detecting

  lemma {:induction false} FillEndOfFills(b: seq<Byte>, i: nat, n: nat)
    requires i + n < |b| && b[i..i + n] == Fills(n) && b[i + n] != FILL
    ensures FillEnd(b, i) == i + n
    decreases n
  {
    if n > 0 {
      assert b[i..i + n][0] == FILL;
      assert b[i + 1..i + n] == b[i..i + n][1..];
      FillEndOfFills(b, i + 1, n - 1);
    }
  }

  lemma PrefixBytes(b: seq<Byte>, i: nat, p: seq<Byte>)
    requires i <= |b| && p <= b[i..]
    ensures i + |p| <= |b| && forall k | 0 <= k < |p| :: b[i + k] == p[k]
  {
    assert forall k | 0 <= k < |p| :: b[i..][k] == p[k];
  }

  /** The walk steps over one printed segment. */
  lemma WalkOverSegment(b: seq<Byte>, i: nat, s: Segment)
    requires ValidSegment(s) && i <= |b| && PrintSegment(s) <= b[i..]
    ensures i + |PrintSegment(s)| <= |b| && WalkFrom(b, i) == WalkFrom(b, i + |PrintSegment(s)|)
  {
    var p, m := PrintSegment(s), i + s.fill;
    PrefixBytes(b, i, p);
    assert b[i..m] == Fills(s.fill);
    assert b[m] == s.marker;
    FillEndOfFills(b, i, s.fill);
    assert b[i] == FILL;
    if s.Parameters? {
      assert b[m + 1] == p[s.fill + 1] && b[m + 2] == p[s.fill + 2];
      assert At16(b, m + 1) == |s.payload| + 2;
    }
  }

  /** The walk ends at a printed frame header, with its dimensions. */
  lemma WalkAtFrame(b: seq<Byte>, i: nat, f: Frame)
    requires ValidFrame(f) && i <= |b| && PrintFrame(f) <= b[i..]
    ensures WalkFrom(b, i) == Some(Dimensions(f.width, f.height))
  {
    var p, m := PrintFrame(f), i + f.fill;
    PrefixBytes(b, i, p);
    assert b[i..m] == Fills(f.fill);
    assert b[m] == f.marker == p[f.fill];
    FillEndOfFills(b, i, f.fill);
    assert b[i] == FILL;
    assert b[m + 1] == p[f.fill + 1] && b[m + 2] == p[f.fill + 2];
    assert b[m + 4] == p[f.fill + 4] && b[m + 5] == p[f.fill + 5] && b[m + 6] == p[f.fill + 6]
           && b[m + 7] == p[f.fill + 7];
    assert At16(b, m + 1) == |f.rest| + 7;
    assert At16(b, m + 4) == f.height && At16(b, m + 6) == f.width;
  }

  lemma PrefixParts(b: seq<Byte>, i: nat, first: seq<Byte>, others: seq<Byte>)
    requires i <= |b| && first + others <= b[i..]
    ensures i + |first| <= |b| && first <= b[i..] && others <= b[i + |first|..]
  {
    assert b[i + |first|..] == b[i..][|first|..];
    assert others == (first + others)[|first|..];
  }

  lemma {:induction false} WalkFindsFrame(b: seq<Byte>, i: nat, segments: seq<Segment>, f: Frame)
    requires ValidHeader(segments, f) && i <= |b|
    requires PrintHeader(segments, f) <= b[i..]
    ensures WalkFrom(b, i) == Some(Dimensions(f.width, f.height))
    decreases |segments|
  {
    if segments == [] {
      assert PrintSegments([]) + PrintFrame(f) == PrintFrame(f);
      WalkAtFrame(b, i, f);
    } else {
      var first, others := PrintSegment(segments[0]), PrintHeader(segments[1..], f);
      PrintedParts(segments, f);
      PrefixParts(b, i, first, others);
      WalkOverSegment(b, i, segments[0]);
      WalkFindsFrame(b, i + |first|, segments[1..], f);
    }
  }

  function PrintHeader(segments: seq<Segment>, f: Frame): seq<Byte>
    requires ValidHeader(segments, f)
  {
    PrintSegments(segments) + PrintFrame(f)
  }

  lemma PrintedParts(segments: seq<Segment>, f: Frame)
    requires ValidHeader(segments, f) && segments != []
    ensures PrintHeader(segments, f) == PrintSegment(segments[0]) + PrintHeader(segments[1..], f)
  {
  }

  /** A walk that finds dimensions reads them here or has one more segment to step over. */
  lemma WalkStep(b: seq<Byte>, i: nat)
    requires i <= |b| && WalkFrom(b, i).Some?
    ensures var m := FillEnd(b, i);
            && i < m < |b| && !IsStop(b[m])
            && (!IsStandalone(b[m]) ==> m + 2 < |b| && 2 <= At16(b, m + 1) && m + 1 + At16(b, m + 1) <= |b|)
            && if IsStandalone(b[m]) then WalkFrom(b, i) == WalkFrom(b, m + 1)
               else if IsStartOfFrame(b[m]) then 7 <= At16(b, m + 1)
                 && WalkFrom(b, i) == Some(Dimensions(At16(b, m + 6), At16(b, m + 4)))
               else WalkFrom(b, i) == WalkFrom(b, m + 1 + At16(b, m + 1))
  {
  }

  /** Conversely, wherever the walk finds dimensions, the bytes from there are printed segments and a frame header. */
  lemma {:induction false} WalkMeansFrame(b: seq<Byte>, i: nat) returns (segments: seq<Segment>, f: Frame)
    requires i <= |b| && WalkFrom(b, i).Some?
    ensures ValidHeader(segments, f) && PrintHeader(segments, f) <= b[i..]
    ensures WalkFrom(b, i) == Some(Dimensions(f.width, f.height))
    decreases |b| - i
  {
    WalkStep(b, i);
    var m := FillEnd(b, i);
    if IsStartOfFrame(b[m]) {
      FillsAre(b, i, m);
      f := FrameAt(b, i, m);
      segments := [];
      assert PrintSegments([]) + PrintFrame(f) == PrintFrame(f);
    } else {
      var s, next := SegmentAt(b, i, m);
      segments, f := WalkMeansFrame(b, next);
      PrependSegment(b, i, next, s, segments, f);
      segments := [s] + segments;
    }
  }

  lemma SegmentAt(b: seq<Byte>, i: nat, m: nat) returns (s: Segment, next: nat)
    requires i < m < |b| && m == FillEnd(b, i) && !IsStartOfFrame(b[m]) && !IsStop(b[m])
    requires !IsStandalone(b[m]) ==> m + 2 < |b| && 2 <= At16(b, m + 1) && m + 1 + At16(b, m + 1) <= |b|
    ensures next == (if IsStandalone(b[m]) then m + 1 else m + 1 + At16(b, m + 1))
    ensures ValidSegment(s) && PrintSegment(s) == b[i..next]
  {
    FillsAre(b, i, m);
    if IsStandalone(b[m]) {
      s, next := Standalone(m - i, b[m]), m + 1;
    } else {
      var length := At16(b, m + 1);
      next := m + 1 + length;
      s := Parameters(m - i, b[m], b[m + 3..next]);
      assert Big16(length) == b[m + 1..m + 3];
      assert b[i..next] == b[i..m] + [b[m]] + b[m + 1..m + 3] + b[m + 3..next];
    }
  }

  lemma {:induction false} FillsAre(b: seq<Byte>, i: nat, m: nat)
    requires i <= m <= |b| && forall k | i <= k < m :: b[k] == FILL
    ensures b[i..m] == Fills(m - i)
  {
  }

  lemma Big16At(b: seq<Byte>, k: nat)
    requires k + 1 < |b|
    ensures Big16(At16(b, k)) == b[k..k + 2]
  {
  }

  lemma SlicePrefix(b: seq<Byte>, i: nat, e: nat)
    requires i <= e <= |b|
    ensures b[i..e] <= b[i..]
  {
    assert b[i..e] == b[i..][..e - i];
  }

  lemma FrameBytes(b: seq<Byte>, i: nat, m: nat, e: nat)
    requires i <= m && m + 8 <= e <= |b|
    ensures b[i..e] == b[i..m] + [b[m]] + b[m + 1..m + 3] + [b[m + 3]] + b[m + 4..m + 6] + b[m + 6..m + 8] + b[m + 8..e]
  {
  }

  lemma FrameAt(b: seq<Byte>, i: nat, m: nat) returns (f: Frame)
    requires i < m && m + 2 < |b| && b[i..m] == Fills(m - i) && IsStartOfFrame(b[m])
    requires 7 <= At16(b, m + 1) && m + 1 + At16(b, m + 1) <= |b|
    ensures ValidFrame(f) && PrintFrame(f) <= b[i..]
    ensures f.width == At16(b, m + 6) && f.height == At16(b, m + 4)
  {
    var length := At16(b, m + 1);
    f := Frame(m - i, b[m], b[m + 3], At16(b, m + 4), At16(b, m + 6), b[m + 8..m + 1 + length]);
    Big16At(b, m + 1);
    Big16At(b, m + 4);
    Big16At(b, m + 6);
    FrameBytes(b, i, m, m + 1 + length);
    SlicePrefix(b, i, m + 1 + length);
  }

  lemma PrependSegment(b: seq<Byte>, i: nat, j: nat, s: Segment, segments: seq<Segment>, f: Frame)
    requires i <= j <= |b| && ValidSegment(s) && ValidHeader(segments, f)
    requires PrintSegment(s) == b[i..j] && PrintHeader(segments, f) <= b[j..]
    ensures ValidHeader([s] + segments, f) && PrintHeader([s] + segments, f) <= b[i..]
  {
    var tail := PrintHeader(segments, f);
    assert ([s] + segments)[1..] == segments;
    PrintedParts([s] + segments, f);
    assert b[i..] == b[i..j] + b[j..];
    assert b[i..j] + tail == b[i..][..j - i + |tail|];
  }

  ghost predicate HasFrame(b: seq<Byte>, d: Dimensions) {
    exists segments: seq<Segment>, f: Frame ::
      && ValidHeader(segments, f) && d == Dimensions(f.width, f.height)
      && [0xFF, 0xD8] + PrintHeader(segments, f) <= b
  }

  /**
   * Dimensions are detected exactly when the image starts with printed segments, none of them a frame, and then a frame
   * with those dimensions.
   */
  lemma DetectsExactly(b: seq<Byte>, d: Dimensions)
    ensures Detect(b) == Some(d) <==> HasFrame(b, d)
  {
    if Detect(b) == Some(d) {
      var segments, f := WalkMeansFrame(b, 2);
      assert b == b[..2] + b[2..];
      assert [0xFF, 0xD8] + PrintHeader(segments, f) <= b;
    }
    if HasFrame(b, d) {
      var segments: seq<Segment>, f: Frame :|
        && ValidHeader(segments, f) && d == Dimensions(f.width, f.height)
        && [0xFF, 0xD8] + PrintHeader(segments, f) <= b;
      var printed := PrintHeader(segments, f);
      assert b[..2] == [0xFF, 0xD8] by { assert b[..2] == ([0xFF, 0xD8] + printed)[..2]; }
      assert printed <= b[2..] by { assert printed == ([0xFF, 0xD8] + printed)[2..]; }
      WalkFindsFrame(b, 2, segments, f);
    }
  }
}
