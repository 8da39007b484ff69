/** The write path's resolver: every question it asks goes to the database. */
module AnchorQueries {
  import opened Results
  import opened Text
  import opened AnchorModel

  function BlockInfo(db: Db, book: Id, section: Id, id: Id): Result<Option<(int, nat)>> {
    if !BlockIn(db, book, section, id) then Ok(None)
    else if |db.blocks[id].text| > MAX_U32 then Err(DatabaseError)
    else Ok(Some((db.blocks[id].ordinal, |db.blocks[id].text|)))
  }

  method ValidSelectionAnchor(db: Db, book: Id, format: string, section: Option<Id>, a: Anchor)
    returns (r: Result<bool>)
    requires a.Selection?
    ensures r == if HitsLongBlock(db, book, format, section, a) then Err(DatabaseError)
            else Ok(SelectionHolds(db, book, format, section, a))
  {
    if a.quote.exact == "" || |a.quote.prefix| > MAX_CONTEXT || |a.quote.suffix| > MAX_CONTEXT || a.section != section {
      return Ok(false);
    }
    if a.section == None {
      return Ok(false);
    }
    var id := a.section.value;
    if !(id in db.sections && db.sections[id].book == book) {
      return Ok(false);
    }
    match a.locator {
      case Pdf(first, last, rects) =>
        if format != "pdf" || first == 0 || first > last {
          return Ok(false);
        }
        return Ok(rects.Some? ==> forall page | page in rects.value ::
                    first <= page <= last && forall r | r in rects.value[page] :: ValidRect(r));
      case Epub(cfi, owner) =>
        return Ok(format == "epub" && !Blank(cfi) && owner == id);
      case Docx(first, from, last, to) =>
        if format != "docx" {
          return Ok(false);
        }
        var start := BlockInfo(db, book, id, first);
        if start.Err? {
          return Err(start.error);
        }
        var end := BlockInfo(db, book, id, last);
        if end.Err? {
          return Err(end.error);
        }
        return Ok(ValidOffsets(start.value, end.value, from, to));
      case ExtractedText(_, _) =>
        return Ok(false);
    }
  }

  method FallbackMatchCount(db: Db, book: Id, section: Id, region: RegionLocator, exact: string) returns (count: nat)
    requires Keyed(db)
    ensures Counts(count, db, book, section, region, exact)
  {
    var rows := SelectSectionBlocks(db, book, section);
    TotalIsTable(rows, db, book, section, region, exact);
    count := 0;
    for i := 0 to |rows|
      invariant count == Total(rows, i, section, region, exact) <= 1
    {
      if InContainer(rows[i], section, region) {
        count := count + MatchCount(rows[i].text, exact);
        assert rows[i] in rows;
        if count > 1 {
          TotalMonotone(rows, i + 1, |rows|, section, region, exact);
          return;
        }
      }
    }
  }

  method PrimaryHashHolds(db: Db, book: Id, section: Id, sha: Hasher, a: Anchor) returns (holds: bool)
    requires Keyed(db) && a.Region?
    ensures holds <==> HashHolds(db, book, section, sha, a)
  {
    if a.textFallback == None || sha(a.textFallback.value.exact) != a.contentSha {
      return true;
    }
    var count := FallbackMatchCount(db, book, section, a.region, a.textFallback.value.exact);
    holds := count > 0;
  }

  /** Asks the locator texts of the section's blocks, row by row, until one matches. */
  method EpubBlockLocatorExists(db: Db, book: Id, section: Id, cfi: string) returns (r: Result<bool>)
    requires Keyed(db)
    ensures r.Ok? ==> r.value == TextAtCfi(db, book, section, cfi)
    ensures r.Err? ==> r.error == DatabaseError && HasNotJson(db, book, section)
    ensures HasNotJson(db, book, section) && !TextAtCfi(db, book, section, cfi) ==> r.Err?
  {
    var rows := SelectSectionBlocks(db, book, section);
    for i := 0 to |rows|
      invariant forall k | 0 <= k < i :: rows[k].stored.Json? && !TextMatches(rows[k].stored, section, cfi)
    {
      assert rows[i] in rows && BlockIn(db, book, section, rows[i].id);
      if rows[i].stored.NotJson? {
        return Err(DatabaseError);
      }
      if TextMatches(rows[i].stored, section, cfi) {
        return Ok(true);
      }
    }
    r := Ok(false);
  }

  method ResolveRegionAnchor(db: Db, book: Id, format: string, section: Option<Id>, sha: Hasher, spine: SameSpine,
                             a: Anchor)
    returns (r: Result<Option<Status>>)
    requires Keyed(db) && a.Region?
    ensures MayFind(db, book, format, section, sha, spine, a, r)
  {
    if section == None {
      return Ok(None);
    }
    var id := section.value;
    if !(id in db.sections && db.sections[id].book == book) {
      return Ok(None);
    }
    var locator := db.sections[id].locator;
    var primary;
    match a.region {
      case PdfPage(page) =>
        if !(format == "pdf" && locator.Some? && locator.value.Pdf?) {
          return Ok(None);
        }
        primary := locator.value.startPage <= page <= locator.value.endPage;
      case EpubElement(owner, cfi) =>
        if !(format == "epub" && locator.Some? && locator.value.Epub?) {
          return Ok(None);
        }
        primary := owner == id && locator.value.owner == id
          && (cfi == locator.value.cfi || spine(cfi, locator.value.cfi));
        if owner == id && locator.value.owner == id && !primary {
          var asked := EpubBlockLocatorExists(db, book, id, cfi);
          if asked.Err? {
            return Err(asked.error);
          }
          primary := asked.value;
        }
      case DocxBlock(block) =>
        if format != "docx" {
          return Ok(None);
        }
        var info := BlockInfo(db, book, id, block);
        if info.Err? {
          return Err(info.error);
        }
        primary := info.value.Some?;
    }
    r := Decide(db, book, id, sha, a, primary);
  }

  /** From the verdict on the place to the status. */
  method Decide(db: Db, book: Id, section: Id, sha: Hasher, a: Anchor, primary: bool)
    returns (r: Result<Option<Status>>)
    requires Keyed(db) && a.Region?
    ensures r == Ok(if primary && HashHolds(db, book, section, sha, a) then Some(Primary)
                    else if TextHolds(db, book, section, sha, a) then Some(Fallback) else None)
  {
    if primary {
      var holds := PrimaryHashHolds(db, book, section, sha, a);
      if holds {
        return Ok(Some(Primary));
      }
    }
    if a.textFallback == None || sha(a.textFallback.value.exact) != a.contentSha {
      return Ok(None);
    }
    var matches := FallbackMatchCount(db, book, section, a.region, a.textFallback.value.exact);
    r := Ok(if matches == 1 then Some(Fallback) else None);
  }

  method ResolveAnchor(db: Db, book: Id, format: string, section: Option<Id>, sha: Hasher, spine: SameSpine, a: Anchor)
    returns (r: Result<Option<Status>>)
    requires Keyed(db)
    ensures MayFind(db, book, format, section, sha, spine, a, r)
  {
    match a {
      case Selection(_, _, _) =>
        var valid := ValidSelectionAnchor(db, book, format, section, a);
        if valid.Err? {
          return Err(valid.error);
        }
        r := Ok(if valid.value then Some(Primary) else None);
      case Region(_, _, _) =>
        r := ResolveRegionAnchor(db, book, format, section, sha, spine, a);
    }
  }

  /** An anchor may be written only where it resolves without a fallback. */
  method ValidateAnchorForWrite(db: Db, book: Id, section: Id, sha: Hasher, spine: SameSpine, a: Anchor)
    returns (r: Result<()>)
    requires Keyed(db)
    ensures book !in db.books ==> r == Err(NotFound)
    ensures book in db.books && !db.books[book].ready ==> r == Err(BookNotReady)
    ensures r.Ok? ==> book in db.books && db.books[book].ready
                      && MayFind(db, book, db.books[book].format, Some(section), sha, spine, a, Ok(Some(Primary)))
    ensures r.Err? && book in db.books && db.books[book].ready ==>
              exists found ::
                found != Ok(Some(Primary))
                && MayFind(db, book, db.books[book].format, Some(section), sha, spine, a, found)
  {
    if book !in db.books {
      return Err(NotFound);
    }
    if !db.books[book].ready {
      return Err(BookNotReady);
    }
    var found := ResolveAnchor(db, book, db.books[book].format, Some(section), sha, spine, a);
    if found.Err? {
      return Err(found.error);
    }
    r := if found.value == Some(Primary) then Ok(()) else Err(AnchorNotFound);
  }
}
