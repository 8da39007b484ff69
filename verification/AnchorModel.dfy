/**
 * Two resolvers of one anchor: the write path asks the database, the marker list asks a snapshot of the book
 * loaded once. SHA-256 and the comparison of two EPUB spine paths, which both share, are parameters.
 * A block's locator is stored as text; only the write path compares that text without parsing it.
 */
module AnchorModel {
  import opened Results
  import opened Text

  type Id = nat
  type SameSpine = (string, string) -> bool

  const MAX_U32 := 0xFFFF_FFFF
  const MAX_CONTEXT := 64

  datatype Rect = Rect(x: real, y: real, width: real, height: real)

  datatype Locator =
    | Pdf(startPage: nat, endPage: nat, rects: Option<map<nat, seq<Rect>>>)
    | Epub(cfi: string, owner: Id)
    | Docx(startBlock: Id, startOffset: nat, endBlock: Id, endOffset: nat)
    | ExtractedText(charStart: nat, charEnd: nat)

  datatype RegionLocator = PdfPage(page: nat) | EpubElement(owner: Id, cfi: string) | DocxBlock(block: Id)

  datatype Quote = Quote(exact: string, prefix: string, suffix: string)

  datatype Anchor =
    | Selection(locator: Locator, quote: Quote, section: Option<Id>)
    | Region(region: RegionLocator, contentSha: string, textFallback: Option<Quote>)

  /** How well an anchor still points into the book. */
  datatype Status = Primary | Fallback | Unresolved

  // ----- the tables; a locator that does not parse is `None`

  /** A block's locator text: the fields a JSON query extracts from it, and the locator it parses to. */
  datatype LocatorText =
    | NotJson
    | Json(format: string, owner: Option<Id>, cfi: Option<string>, parsed: Option<Locator>)

  datatype Section = Section(book: Id, locator: Option<Locator>)
  datatype Block = Block(id: Id, book: Id, section: Id, ordinal: int, text: string, stored: LocatorText)

  function LocatorOf(b: Block): Option<Locator> {
    if b.stored.Json? then b.stored.parsed else None
  }

  /** The text the writers store for a locator. */
  function Printed(locator: Locator): LocatorText {
    match locator
    case Pdf(_, _, _) => Json("pdf", None, None, Some(locator))
    case Epub(cfi, owner) => Json("epub", Some(owner), Some(cfi), Some(locator))
    case Docx(_, _, _, _) => Json("docx", None, None, Some(locator))
    case ExtractedText(_, _) => Json("extracted_text", None, None, Some(locator))
  }

  predicate IsPrinted(text: LocatorText) {
    text.Json? && text.parsed.Some? && text == Printed(text.parsed.value)
  }
  datatype Book = Book(format: string, ready: bool)
  datatype Db = Db(books: map<Id, Book>, sections: map<Id, Section>, blocks: map<Id, Block>)

  /** The primary key of a block is its id. */
  predicate Keyed(db: Db) {
    forall id | id in db.blocks :: db.blocks[id].id == id
  }

  /** The blocks of `book`, at least those of `section`, each once. */
  predicate Lists(rows: seq<Block>, db: Db, book: Id, section: Id) {
    && (forall i, j | 0 <= i < j < |rows| :: rows[i].id != rows[j].id)
    && (forall b | b in rows :: b.id in db.blocks && db.blocks[b.id] == b && b.book == book)
    && (forall id | id in db.blocks ::
          db.blocks[id].book == book && db.blocks[id].section == section ==> db.blocks[id] in rows)
  }

  /** Rows come in an order the resolvers must not depend on. */
  method SelectSectionBlocks(db: Db, book: Id, section: Id) returns (rows: seq<Block>)
    requires Keyed(db)
    ensures Lists(rows, db, book, section)
    ensures forall b | b in rows :: b.section == section
  {
    rows := [];
    var rest := db.blocks.Keys;
    while rest != {}
      invariant rest <= db.blocks.Keys
      invariant forall i, j | 0 <= i < j < |rows| :: rows[i].id != rows[j].id
      invariant forall b | b in rows ::
                  b.id in db.blocks.Keys - rest && db.blocks[b.id] == b && b.book == book && b.section == section
      invariant forall id | id in db.blocks.Keys - rest ::
                  db.blocks[id].book == book && db.blocks[id].section == section ==> db.blocks[id] in rows
      decreases |rest|
    {
      var id :| id in rest;
      rest := rest - {id};
      if db.blocks[id].book == book && db.blocks[id].section == section {
        rows := rows + [db.blocks[id]];
      }
    }
  }

  // ----- text matches

  /** `match_indices(exact).count()`: occurrences from the left that do not overlap. */
  function MatchCount(text: string, exact: string): nat {
    if exact == "" then |text| + 1
    else if |text| < |exact| then 0
    else if text[..|exact|] == exact then 1 + MatchCount(text[|exact|..], exact)
    else MatchCount(text[1..], exact)
  }

  /** Occurrences of the text, from the left, that do not overlap. */
  predicate Apart(text: string, exact: string, at: seq<nat>) {
    && (forall k | 0 <= k < |at| :: at[k] + |exact| <= |text| && text[at[k]..at[k] + |exact|] == exact)
    && forall k | 0 <= k < |at| - 1 :: at[k] + |exact| <= at[k + 1]
  }

  /** The positions in the text without its first `n` characters. */
  function Shifted(at: seq<nat>, n: nat): (shifted: seq<nat>)
    requires forall k | 0 <= k < |at| :: n <= at[k]
    ensures |shifted| == |at| && forall k | 0 <= k < |at| :: shifted[k] == at[k] - n
  {
    seq(|at|, k requires 0 <= k < |at| => at[k] - n)
  }

  lemma ShiftedApart(text: string, exact: string, at: seq<nat>, n: nat)
    requires Apart(text, exact, at) && n <= |text| && forall k | 0 <= k < |at| :: n <= at[k]
    ensures Apart(text[n..], exact, Shifted(at, n))
  {
    var rest := Shifted(at, n);
    forall k | 0 <= k < |rest|
      ensures rest[k] + |exact| <= |text[n..]| && text[n..][rest[k]..rest[k] + |exact|] == exact
    {
      assert text[n..][rest[k]..rest[k] + |exact|] == text[at[k]..at[k] + |exact|];
    }
  }

  lemma {:induction false} ApartRises(text: string, exact: string, at: seq<nat>, k: nat)
    requires Apart(text, exact, at) && 0 < k < |at|
    ensures at[0] + |exact| <= at[k]
  {
    if k > 1 { ApartRises(text, exact, at, k - 1); }
  }

  /** No choice of occurrences that do not overlap has more than the count. */
  lemma {:induction false} MatchesAtMost(text: string, exact: string, at: seq<nat>)
    requires exact != "" && Apart(text, exact, at)
    ensures |at| <= MatchCount(text, exact)
    decreases |text|
  {
    if at != [] {
      assert at[0] + |exact| <= |text|;
      if text[..|exact|] == exact {
        var rest := at[1..];
        forall k | 0 <= k < |rest| ensures |exact| <= rest[k] { ApartRises(text, exact, at, k + 1); }
        assert Apart(text, exact, rest);
        ShiftedApart(text, exact, rest, |exact|);
        MatchesAtMost(text[|exact|..], exact, Shifted(rest, |exact|));
      } else {
        assert at[0] != 0;
        forall k | 0 <= k < |at| ensures 1 <= at[k] { if k > 0 { ApartRises(text, exact, at, k); } }
        ShiftedApart(text, exact, at, 1);
        MatchesAtMost(text[1..], exact, Shifted(at, 1));
      }
    }
  }

  /** Some choice has that many. */
  lemma {:induction false} MatchesReached(text: string, exact: string) returns (at: seq<nat>)
    requires exact != ""
    ensures Apart(text, exact, at) && |at| == MatchCount(text, exact)
    decreases |text|
  {
    if |text| < |exact| {
      at := [];
    } else if text[..|exact|] == exact {
      var rest := MatchesReached(text[|exact|..], exact);
      at := [0] + Later(rest, |exact|);
      LaterApart(text, exact, rest, |exact|);
      assert text[0..0 + |exact|] == exact;
    } else {
      var rest := MatchesReached(text[1..], exact);
      at := Later(rest, 1);
      LaterApart(text, exact, rest, 1);
    }
  }

  function Later(at: seq<nat>, n: nat): (later: seq<nat>)
    ensures |later| == |at| && forall k | 0 <= k < |at| :: later[k] == at[k] + n
  {
    seq(|at|, k requires 0 <= k < |at| => at[k] + n)
  }

  lemma LaterApart(text: string, exact: string, at: seq<nat>, n: nat)
    requires n <= |text| && Apart(text[n..], exact, at)
    ensures Apart(text, exact, Later(at, n))
  {
    forall k | 0 <= k < |at|
      ensures at[k] + n + |exact| <= |text| && text[at[k] + n..at[k] + n + |exact|] == exact
    {
      assert text[n..][at[k]..at[k] + |exact|] == text[at[k] + n..at[k] + n + |exact|];
    }
  }

  /** The count is the most occurrences that can be chosen without overlap. */
  lemma MatchesExactly(text: string, exact: string, n: nat)
    requires exact != ""
    ensures n <= MatchCount(text, exact) <==> exists at :: Apart(text, exact, at) && |at| == n
  {
    if n <= MatchCount(text, exact) {
      var at := MatchesReached(text, exact);
      assert Apart(text, exact, at[..n]) && |at[..n]| == n;
    }
    forall at | Apart(text, exact, at) ensures |at| <= MatchCount(text, exact) { MatchesAtMost(text, exact, at); }
  }

  /** Whether text of the block may stand in for the region. */
  predicate InContainer(block: Block, section: Id, region: RegionLocator) {
    match region
    case PdfPage(page) =>
      var locator := LocatorOf(block);
      locator.Some? && locator.value.Pdf? && locator.value.startPage <= page <= locator.value.endPage
    case EpubElement(owner, _) => owner == section
    case DocxBlock(id) => id == block.id
  }

  function Weight(block: Block, section: Id, region: RegionLocator, exact: string): nat {
    if block.section == section && InContainer(block, section, region) then MatchCount(block.text, exact) else 0
  }

  predicate SomeMatch(db: Db, book: Id, section: Id, region: RegionLocator, exact: string) {
    exists id | id in db.blocks :: db.blocks[id].book == book && Weight(db.blocks[id], section, region, exact) > 0
  }

  /** The quoted text occurs once in the whole container. */
  predicate OneMatch(db: Db, book: Id, section: Id, region: RegionLocator, exact: string) {
    exists id | id in db.blocks :: OnlyMatch(db, book, section, region, exact, id)
  }

  predicate OnlyMatch(db: Db, book: Id, section: Id, region: RegionLocator, exact: string, id: Id)
    requires id in db.blocks
  {
    && db.blocks[id].book == book
    && Weight(db.blocks[id], section, region, exact) == 1
    && forall other | other in db.blocks && other != id && db.blocks[other].book == book ::
         Weight(db.blocks[other], section, region, exact) == 0
  }

  function Total(rows: seq<Block>, n: nat, section: Id, region: RegionLocator, exact: string): nat
    requires n <= |rows|
  {
    if n == 0 then 0 else Total(rows, n - 1, section, region, exact) + Weight(rows[n - 1], section, region, exact)
  }

  lemma {:induction false} TotalMonotone(rows: seq<Block>, n: nat, m: nat, section: Id, region: RegionLocator,
                                         exact: string)
    requires n <= m <= |rows|
    ensures Total(rows, n, section, region, exact) <= Total(rows, m, section, region, exact)
  {
    if n < m { TotalMonotone(rows, n, m - 1, section, region, exact); }
  }

  lemma {:induction false} TotalZero(rows: seq<Block>, n: nat, section: Id, region: RegionLocator, exact: string)
    requires n <= |rows|
    ensures Total(rows, n, section, region, exact) == 0 <==>
              forall i | 0 <= i < n :: Weight(rows[i], section, region, exact) == 0
  {
    if n > 0 { TotalZero(rows, n - 1, section, region, exact); }
  }

  predicate OnlyAt(rows: seq<Block>, n: nat, section: Id, region: RegionLocator, exact: string, k: nat)
    requires k < n <= |rows|
  {
    && Weight(rows[k], section, region, exact) == 1
    && forall i | 0 <= i < n && i != k :: Weight(rows[i], section, region, exact) == 0
  }

  lemma {:induction false} TotalOne(rows: seq<Block>, n: nat, section: Id, region: RegionLocator, exact: string)
    requires n <= |rows|
    ensures Total(rows, n, section, region, exact) == 1 <==>
              exists k: nat | k < n :: OnlyAt(rows, n, section, region, exact, k)
  {
    if n > 0 {
      TotalOne(rows, n - 1, section, region, exact);
      TotalZero(rows, n - 1, section, region, exact);
      if Total(rows, n, section, region, exact) == 1 {
        if Weight(rows[n - 1], section, region, exact) == 1 {
          assert OnlyAt(rows, n, section, region, exact, n - 1);
        } else {
          var k: nat :| k < n - 1 && OnlyAt(rows, n - 1, section, region, exact, k);
          assert OnlyAt(rows, n, section, region, exact, k);
        }
      }
      if k: nat :| k < n && OnlyAt(rows, n, section, region, exact, k) {
        if k < n - 1 { assert OnlyAt(rows, n - 1, section, region, exact, k); }
      }
    }
  }

  /** Any listing of the section's blocks, in any order, counts what the table holds. */
  lemma TotalIsTable(rows: seq<Block>, db: Db, book: Id, section: Id, region: RegionLocator, exact: string)
    requires Keyed(db) && Lists(rows, db, book, section)
    ensures Total(rows, |rows|, section, region, exact) > 0 <==> SomeMatch(db, book, section, region, exact)
    ensures Total(rows, |rows|, section, region, exact) == 1 <==> OneMatch(db, book, section, region, exact)
  {
    var n := |rows|;
    TotalZero(rows, n, section, region, exact);
    TotalOne(rows, n, section, region, exact);
    forall i | 0 <= i < n ensures rows[i] in rows && db.blocks[rows[i].id] == rows[i] {}
    if k: nat :| k < n && OnlyAt(rows, n, section, region, exact, k) {
      var id := rows[k].id;
      forall other | other in db.blocks && other != id && db.blocks[other].book == book
        ensures Weight(db.blocks[other], section, region, exact) == 0
      {
        if db.blocks[other].section == section {
          var i :| 0 <= i < n && rows[i] == db.blocks[other];
        }
      }
      assert OnlyMatch(db, book, section, region, exact, id);
    }
    if id :| id in db.blocks && OnlyMatch(db, book, section, region, exact, id) {
      var k: nat :| k < n && rows[k] == db.blocks[id];
      assert OnlyAt(rows, n, section, region, exact, k);
    }
  }

  /** Counting stops at two; nothing asked of the count can tell. */
  ghost predicate Counts(count: nat, db: Db, book: Id, section: Id, region: RegionLocator, exact: string) {
    && (count > 0 <==> SomeMatch(db, book, section, region, exact))
    && (count == 1 <==> OneMatch(db, book, section, region, exact))
  }

  // ----- what both resolvers are to decide

  predicate ValidRect(r: Rect) {
    && 0.0 <= r.x <= 1.0 && 0.0 <= r.y <= 1.0 && 0.0 <= r.width <= 1.0 && 0.0 <= r.height <= 1.0
    && r.x + r.width <= 1.0 && r.y + r.height <= 1.0
  }

  predicate ValidPages(startPage: nat, endPage: nat, rects: Option<map<nat, seq<Rect>>>) {
    && 0 < startPage <= endPage
    && (rects.Some? ==> forall page | page in rects.value ::
          startPage <= page <= endPage && forall r | r in rects.value[page] :: ValidRect(r))
  }

  predicate ValidOffsets(start: Option<(int, nat)>, end: Option<(int, nat)>, startOffset: nat, endOffset: nat) {
    && start.Some? && end.Some?
    && start.value.0 <= end.value.0 && startOffset <= start.value.1 && endOffset <= end.value.1
    && (start.value.0 != end.value.0 || startOffset <= endOffset)
  }

  predicate PlausibleSelection(a: Anchor, section: Option<Id>)
    requires a.Selection?
  {
    && a.quote.exact != "" && |a.quote.prefix| <= MAX_CONTEXT && |a.quote.suffix| <= MAX_CONTEXT
    && a.section == section && section.Some?
  }

  predicate HasSection(db: Db, book: Id, section: Option<Id>) {
    section.Some? && section.value in db.sections && db.sections[section.value].book == book
  }

  predicate BlockIn(db: Db, book: Id, section: Id, id: Id) {
    id in db.blocks && db.blocks[id].book == book && db.blocks[id].section == section
  }

  /** Ordinal and length of a block of the section, if the length has 32 bits. */
  function Extent(db: Db, book: Id, section: Id, id: Id): Option<(int, nat)> {
    if BlockIn(db, book, section, id) && |db.blocks[id].text| <= MAX_U32
    then Some((db.blocks[id].ordinal, |db.blocks[id].text|)) else None
  }

  predicate SelectionHolds(db: Db, book: Id, format: string, section: Option<Id>, a: Anchor)
    requires a.Selection?
  {
    && PlausibleSelection(a, section)
    && HasSection(db, book, section)
    && match a.locator
       case Pdf(first, last, rects) => format == "pdf" && ValidPages(first, last, rects)
       case Epub(cfi, owner) => format == "epub" && !Blank(cfi) && owner == section.value
       case Docx(first, from, last, to) =>
         format == "docx"
           && ValidOffsets(Extent(db, book, section.value, first), Extent(db, book, section.value, last), from, to)
       case ExtractedText(_, _) => false
  }

  /** A block of the section whose locator parses to this place. */
  predicate ParsedAtCfi(db: Db, book: Id, section: Id, cfi: string) {
    exists id | id in db.blocks ::
      BlockIn(db, book, section, id) && LocatorOf(db.blocks[id]) == Some(Epub(cfi, section))
  }

  predicate TextMatches(text: LocatorText, section: Id, cfi: string) {
    text.Json? && text.format == "epub" && text.owner == Some(section) && text.cfi == Some(cfi)
  }

  /** A block of the section whose locator text has these fields. */
  predicate TextAtCfi(db: Db, book: Id, section: Id, cfi: string) {
    exists id | id in db.blocks :: BlockIn(db, book, section, id) && TextMatches(db.blocks[id].stored, section, cfi)
  }

  predicate HasNotJson(db: Db, book: Id, section: Id) {
    exists id | id in db.blocks :: BlockIn(db, book, section, id) && db.blocks[id].stored.NotJson?
  }

  /** Region, book and section speak of the same kind of place. */
  predicate SameKind(region: RegionLocator, format: string, locator: Option<Locator>) {
    match region
    case PdfPage(_) => format == "pdf" && locator.Some? && locator.value.Pdf?
    case EpubElement(_, _) => format == "epub" && locator.Some? && locator.value.Epub?
    case DocxBlock(_) => format == "docx"
  }

  /** The region lies in the section; `known` says whether some block of it is at an EPUB region's place. */
  predicate RegionInSection(db: Db, book: Id, section: Id, spine: SameSpine, region: RegionLocator,
                            locator: Option<Locator>, known: bool)
  {
    match region
    case PdfPage(page) => locator.Some? && locator.value.Pdf?
      && locator.value.startPage <= page <= locator.value.endPage
    case EpubElement(owner, cfi) =>
      && locator.Some? && locator.value.Epub? && owner == section && locator.value.owner == section
      && (cfi == locator.value.cfi || spine(cfi, locator.value.cfi) || known)
    case DocxBlock(block) => Extent(db, book, section, block).Some?
  }

  /** The fallback text is what the region's hash covers. */
  predicate TextHashed(sha: Hasher, a: Anchor)
    requires a.Region?
  {
    a.textFallback.Some? && sha(a.textFallback.value.exact) == a.contentSha
  }

  /** Text that the hash covers is still there. */
  predicate HashHolds(db: Db, book: Id, section: Id, sha: Hasher, a: Anchor)
    requires a.Region?
  {
    TextHashed(sha, a) ==> SomeMatch(db, book, section, a.region, a.textFallback.value.exact)
  }

  predicate RegionHolds(db: Db, book: Id, format: string, section: Id, sha: Hasher, spine: SameSpine, a: Anchor,
                        known: bool)
    requires a.Region? && section in db.sections
  {
    && SameKind(a.region, format, db.sections[section].locator)
    && RegionInSection(db, book, section, spine, a.region, db.sections[section].locator, known)
    && HashHolds(db, book, section, sha, a)
  }

  /** The quoted text, which the hash vouches for, names one place only. */
  predicate TextHolds(db: Db, book: Id, section: Id, sha: Hasher, a: Anchor)
    requires a.Region?
  {
    TextHashed(sha, a) && OneMatch(db, book, section, a.region, a.textFallback.value.exact)
  }

  function StandingIf(db: Db, book: Id, format: string, section: Option<Id>, sha: Hasher, spine: SameSpine, a: Anchor,
                      known: bool): Option<Status>
  {
    match a
    case Selection(_, _, _) => if SelectionHolds(db, book, format, section, a) then Some(Primary) else None
    case Region(_, _, _) =>
      if !HasSection(db, book, section) then None
      else if RegionHolds(db, book, format, section.value, sha, spine, a, known) then Some(Primary)
      else if TextHolds(db, book, section.value, sha, a) then Some(Fallback)
      else None
  }

  /** The place of an EPUB region. */
  function CfiOf(a: Anchor): string {
    if a.Region? && a.region.EpubElement? then a.region.cfi else ""
  }

  /** What the marker list shows. */
  function Standing(db: Db, book: Id, format: string, section: Option<Id>, sha: Hasher, spine: SameSpine,
                    a: Anchor): Option<Status>
  {
    StandingIf(db, book, format, section, sha, spine, a,
               section.Some? && ParsedAtCfi(db, book, section.value, CfiOf(a)))
  }

  /** A region of another kind than its book or section: the write path does not look for its text. */
  predicate Foreign(db: Db, book: Id, format: string, section: Option<Id>, a: Anchor) {
    a.Region? && HasSection(db, book, section) && !SameKind(a.region, format, db.sections[section.value].locator)
  }

  predicate TooLong(db: Db, book: Id, section: Id, id: Id) {
    BlockIn(db, book, section, id) && |db.blocks[id].text| > MAX_U32
  }

  /** The write path fails on a block whose length has more than 32 bits. */
  predicate HitsLongBlock(db: Db, book: Id, format: string, section: Option<Id>, a: Anchor) {
    && HasSection(db, book, section) && format == "docx"
    && match a
       case Selection(locator, _, _) =>
         && PlausibleSelection(a, section) && locator.Docx?
         && (TooLong(db, book, section.value, locator.startBlock) || TooLong(db, book, section.value, locator.endBlock))
       case Region(region, _, _) => region.DocxBlock? && TooLong(db, book, section.value, region.block)
  }

  /** The place of an EPUB region is neither its section's nor on its section's spine, so its blocks are asked. */
  predicate AsksBlocks(db: Db, book: Id, format: string, section: Option<Id>, spine: SameSpine, a: Anchor) {
    && a.Region? && a.region.EpubElement? && HasSection(db, book, section)
    && var locator := db.sections[section.value].locator;
    && SameKind(a.region, format, locator) && a.region.owner == section.value && locator.value.owner == section.value
    && a.region.cfi != locator.value.cfi && !spine(a.region.cfi, locator.value.cfi)
  }

  function FoundIf(db: Db, book: Id, format: string, section: Option<Id>, sha: Hasher, spine: SameSpine, a: Anchor,
                   known: bool)
    : Result<Option<Status>>
  {
    if HitsLongBlock(db, book, format, section, a) then Err(DatabaseError)
    else if Foreign(db, book, format, section, a) then Ok(None)
    else Ok(StandingIf(db, book, format, section, sha, spine, a, known))
  }

  /** What the write path may find. A text that is no JSON fails the query, unless a match is seen before it. */
  predicate MayFind(db: Db, book: Id, format: string, section: Option<Id>, sha: Hasher, spine: SameSpine, a: Anchor,
                    r: Result<Option<Status>>)
  {
    if AsksBlocks(db, book, format, section, spine, a) && HasNotJson(db, book, section.value)
    then
      || r == Err(DatabaseError)
      || (TextAtCfi(db, book, section.value, CfiOf(a)) && r == FoundIf(db, book, format, section, sha, spine, a, true))
    else r == FoundIf(db, book, format, section, sha, spine, a,
                      section.Some? && TextAtCfi(db, book, section.value, CfiOf(a)))
  }
}
