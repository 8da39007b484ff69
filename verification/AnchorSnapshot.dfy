/** The marker list's resolver: a snapshot of the book, loaded once, answers for every anchor. */
module AnchorSnapshot {
  import opened Results
  import opened Text
  import opened AnchorModel

  datatype MarkerContext = MarkerContext(sections: map<Id, Locator>, blocks: seq<Block>)

  /** The snapshot holds the book's sections, their locators parsed, and its blocks, each once. */
  ghost predicate SnapshotOf(context: MarkerContext, db: Db, book: Id) {
    && (forall id :: id in context.sections <==> id in db.sections && db.sections[id].book == book)
    && (forall id | id in context.sections :: db.sections[id].locator == Some(context.sections[id]))
    && (forall section: Id :: Lists(context.blocks, db, book, section))
  }

  predicate SectionsParse(db: Db, book: Id) {
    forall id | id in db.sections && db.sections[id].book == book :: db.sections[id].locator.Some?
  }

  method LoadBlocks(db: Db, book: Id) returns (rows: seq<Block>)
    requires Keyed(db)
    ensures forall section: Id :: Lists(rows, db, book, section)
  {
    rows := [];
    var rest := db.blocks.Keys;
    while rest != {}
      invariant rest <= db.blocks.Keys
      invariant forall i, j | 0 <= i < j < |rows| :: rows[i].id != rows[j].id
      invariant forall b | b in rows :: b.id in db.blocks.Keys - rest && db.blocks[b.id] == b && b.book == book
      invariant forall id | id in db.blocks.Keys - rest :: db.blocks[id].book == book ==> db.blocks[id] in rows
      decreases |rest|
    {
      var id :| id in rest;
      rest := rest - {id};
      if db.blocks[id].book == book {
        rows := rows + [db.blocks[id]];
      }
    }
  }

  /** One section that does not parse fails the whole marker list. */
  method Load(db: Db, book: Id) returns (r: Result<MarkerContext>)
    requires Keyed(db)
    ensures r == Err(DatabaseError) || r.Ok?
    ensures r.Ok? <==> SectionsParse(db, book)
    ensures r.Ok? ==> SnapshotOf(r.value, db, book)
  {
    var sections: map<Id, Locator> := map[];
    var rest := db.sections.Keys;
    while rest != {}
      invariant rest <= db.sections.Keys
      invariant forall id :: id in sections <==> id in db.sections.Keys - rest && db.sections[id].book == book
      invariant forall id | id in sections :: db.sections[id].locator == Some(sections[id])
      decreases |rest|
    {
      var id :| id in rest;
      rest := rest - {id};
      if db.sections[id].book == book {
        if db.sections[id].locator == None {
          return Err(DatabaseError);
        }
        sections := sections[id := db.sections[id].locator.value];
      }
    }
    var blocks := LoadBlocks(db, book);
    r := Ok(MarkerContext(sections, blocks));
  }

  /** The first block of the section with this id. */
  function FindBlock(blocks: seq<Block>, section: Id, id: Id): Option<(int, nat)> {
    if blocks == [] then None
    else if blocks[0].section == section && blocks[0].id == id
    then if |blocks[0].text| <= MAX_U32 then Some((blocks[0].ordinal, |blocks[0].text|)) else None
    else FindBlock(blocks[1..], section, id)
  }

  lemma {:induction false} FindsExtent(blocks: seq<Block>, section: Id, id: Id)
    requires forall i, j | 0 <= i < j < |blocks| :: blocks[i].id != blocks[j].id
    ensures forall b | b in blocks && b.id == id && b.section == section ::
              FindBlock(blocks, section, id) == if |b.text| <= MAX_U32 then Some((b.ordinal, |b.text|)) else None
    ensures (forall b | b in blocks :: b.id != id || b.section != section) ==> FindBlock(blocks, section, id) == None
  {
    if blocks != [] {
      FindsExtent(blocks[1..], section, id);
      assert blocks[0] in blocks && forall b | b in blocks[1..] :: b in blocks;
    }
  }

  lemma SnapshotExtent(context: MarkerContext, db: Db, book: Id, section: Id, id: Id)
    requires Keyed(db) && SnapshotOf(context, db, book)
    ensures FindBlock(context.blocks, section, id) == Extent(db, book, section, id)
  {
    assert Lists(context.blocks, db, book, section);
    FindsExtent(context.blocks, section, id);
    if BlockIn(db, book, section, id) {
      assert db.blocks[id] in context.blocks;
    }
  }

  method ValidSelection(context: MarkerContext, ghost db: Db, ghost book: Id, format: string, section: Option<Id>,
                        a: Anchor)
    returns (valid: bool)
    requires Keyed(db) && SnapshotOf(context, db, book) && a.Selection?
    ensures valid == SelectionHolds(db, book, format, section, a)
  {
    if a.quote.exact == "" || |a.quote.prefix| > MAX_CONTEXT || |a.quote.suffix| > MAX_CONTEXT || a.section != section {
      return false;
    }
    if a.section == None {
      return false;
    }
    var id := a.section.value;
    if id !in context.sections {
      return false;
    }
    match a.locator {
      case Pdf(first, last, rects) =>
        valid := format == "pdf" && ValidPages(first, last, rects);
      case Epub(cfi, owner) =>
        valid := format == "epub" && !Blank(cfi) && owner == id;
      case Docx(first, from, last, to) =>
        SnapshotExtent(context, db, book, id, first);
        SnapshotExtent(context, db, book, id, last);
        valid := format == "docx"
          && ValidOffsets(FindBlock(context.blocks, id, first), FindBlock(context.blocks, id, last), from, to);
      case ExtractedText(_, _) =>
        valid := false;
    }
  }

  method SnapshotMatchCount(context: MarkerContext, ghost db: Db, ghost book: Id, section: Id, region: RegionLocator,
                            exact: string)
    returns (count: nat)
    requires Keyed(db) && SnapshotOf(context, db, book)
    ensures Counts(count, db, book, section, region, exact)
  {
    var rows := context.blocks;
    assert Lists(rows, db, book, section);
    TotalIsTable(rows, db, book, section, region, exact);
    count := 0;
    for i := 0 to |rows|
      invariant count == Total(rows, i, section, region, exact) <= 1
    {
      if rows[i].section == section && InContainer(rows[i], section, region) {
        count := count + MatchCount(rows[i].text, exact);
        if count > 1 {
          TotalMonotone(rows, i + 1, |rows|, section, region, exact);
          break;
        }
      }
    }
  }

  method SnapshotHashHolds(context: MarkerContext, ghost db: Db, ghost book: Id, section: Id, sha: Hasher, a: Anchor)
    returns (holds: bool)
    requires Keyed(db) && SnapshotOf(context, db, book) && a.Region?
    ensures holds <==> HashHolds(db, book, section, sha, a)
  {
    if a.textFallback == None || sha(a.textFallback.value.exact) != a.contentSha {
      return true;
    }
    var count := SnapshotMatchCount(context, db, book, section, a.region, a.textFallback.value.exact);
    holds := count > 0;
  }

  predicate SnapshotBlockAtCfi(blocks: seq<Block>, section: Id, cfi: string) {
    exists b | b in blocks :: b.section == section && LocatorOf(b) == Some(Epub(cfi, section))
  }

  lemma SnapshotCfi(context: MarkerContext, db: Db, book: Id, section: Id, cfi: string)
    requires Keyed(db) && SnapshotOf(context, db, book)
    ensures SnapshotBlockAtCfi(context.blocks, section, cfi) == ParsedAtCfi(db, book, section, cfi)
  {
    assert Lists(context.blocks, db, book, section);
    if b :| b in context.blocks && b.section == section && LocatorOf(b) == Some(Epub(cfi, section)) {
      assert BlockIn(db, book, section, b.id);
    }
  }

  method ResolveRegion(context: MarkerContext, ghost db: Db, ghost book: Id, format: string, section: Option<Id>,
                       sha: Hasher, spine: SameSpine, a: Anchor) returns (r: Option<Status>)
    requires Keyed(db) && SnapshotOf(context, db, book) && a.Region?
    ensures r == Standing(db, book, format, section, sha, spine, a)
  {
    if section == None || section.value !in context.sections {
      return None;
    }
    var id := section.value;
    var locator := context.sections[id];
    var primary;
    match a.region {
      case PdfPage(page) =>
        primary := format == "pdf" && locator.Pdf? && locator.startPage <= page <= locator.endPage;
      case EpubElement(owner, cfi) =>
        SnapshotCfi(context, db, book, id, cfi);
        primary := format == "epub" && locator.Epub? && owner == id && locator.owner == id
                   && (cfi == locator.cfi || spine(cfi, locator.cfi) || SnapshotBlockAtCfi(context.blocks, id, cfi));
      case DocxBlock(block) =>
        SnapshotExtent(context, db, book, id, block);
        primary := format == "docx" && FindBlock(context.blocks, id, block).Some?;
    }
    assert primary <==> SameKind(a.region, format, db.sections[id].locator)
                        && RegionInSection(db, book, id, spine, a.region, db.sections[id].locator,
                                           ParsedAtCfi(db, book, id, CfiOf(a)));
    if primary {
      var holds := SnapshotHashHolds(context, db, book, id, sha, a);
      if holds {
        return Some(Primary);
      }
    }
    if a.textFallback == None || sha(a.textFallback.value.exact) != a.contentSha {
      return None;
    }
    var count := SnapshotMatchCount(context, db, book, id, a.region, a.textFallback.value.exact);
    r := if count == 1 then Some(Fallback) else None;
  }

  method Resolve(context: MarkerContext, ghost db: Db, ghost book: Id, format: string, section: Option<Id>,
                 sha: Hasher, spine: SameSpine, a: Anchor) returns (r: Option<Status>)
    requires Keyed(db) && SnapshotOf(context, db, book)
    ensures r == Standing(db, book, format, section, sha, spine, a)
  {
    match a {
      case Selection(_, _, _) =>
        var valid := ValidSelection(context, db, book, format, section, a);
        r := if valid then Some(Primary) else None;
      case Region(_, _, _) =>
        r := ResolveRegion(context, db, book, format, section, sha, spine, a);
    }
  }
}
