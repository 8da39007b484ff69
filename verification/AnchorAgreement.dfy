/** How far the two resolvers agree, and the states in which they do not. */
module AnchorAgreement {
  import opened Results
  import opened Text
  import opened AnchorModel
  import opened AnchorQueries
  import opened AnchorSnapshot

  /** The two resolvers, asked of one database state: what the list shows and what the write path finds. */
  method ResolveBoth(db: Db, book: Id, format: string, section: Option<Id>, sha: Hasher, spine: SameSpine, a: Anchor)
    returns (listed: Option<Status>, found: Result<Option<Status>>)
    requires Keyed(db) && SectionsParse(db, book)
    ensures found == Ok(listed) || Differ(db, book, format, section, sha, spine, a)
    ensures found.Ok? && found.value.Some? ==>
              (found.value == listed <==> !CfiDisputed(db, book, format, section, sha, spine, a))
    ensures AllPrinted(db, book, section) ==>
              (found == Ok(Some(Primary)) <==> listed == Some(Primary))
                && (found.Ok? && found.value.Some? ==> found.value == listed)
  {
    var context := Load(db, book);
    listed := Resolve(context.value, db, book, format, section, sha, spine, a);
    found := ResolveAnchor(db, book, format, section, sha, spine, a);
    FoundListed(db, book, format, section, sha, spine, a, found);
    if section.Some? && AllPrinted(db, book, section) { PrintedAgrees(db, book, section, CfiOf(a)); }
  }

  /** The blocks are asked, their parsed locators and their texts say different things, and the answer matters. */
  predicate CfiDisputed(db: Db, book: Id, format: string, section: Option<Id>, sha: Hasher, spine: SameSpine,
                        a: Anchor)
  {
    && AsksBlocks(db, book, format, section, spine, a) && HashHolds(db, book, section.value, sha, a)
    && ParsedAtCfi(db, book, section.value, a.region.cfi) != TextAtCfi(db, book, section.value, a.region.cfi)
  }

  /** Where the two may differ. */
  predicate Differ(db: Db, book: Id, format: string, section: Option<Id>, sha: Hasher, spine: SameSpine, a: Anchor) {
    || HitsLongBlock(db, book, format, section, a)
    || (Foreign(db, book, format, section, a) && TextHolds(db, book, section.value, sha, a))
    || (AsksBlocks(db, book, format, section, spine, a) && HasNotJson(db, book, section.value))
    || CfiDisputed(db, book, format, section, sha, spine, a)
  }

  /** Every block of the section has the locator text a writer stores. */
  predicate AllPrinted(db: Db, book: Id, section: Option<Id>) {
    section.Some? ==>
      forall id | id in db.blocks && BlockIn(db, book, section.value, id) :: IsPrinted(db.blocks[id].stored)
  }

  lemma PrintedAgrees(db: Db, book: Id, section: Option<Id>, cfi: string)
    requires AllPrinted(db, book, section) && section.Some?
    ensures !HasNotJson(db, book, section.value)
    ensures ParsedAtCfi(db, book, section.value, cfi) == TextAtCfi(db, book, section.value, cfi)
  {
    forall id | id in db.blocks && BlockIn(db, book, section.value, id)
      ensures TextMatches(db.blocks[id].stored, section.value, cfi) <==>
                LocatorOf(db.blocks[id]) == Some(Epub(cfi, section.value))
    {
      assert IsPrinted(db.blocks[id].stored);
    }
  }

  /** A status the write path finds is the list's, but where texts and parsed locators disagree. */
  lemma FoundListed(db: Db, book: Id, format: string, section: Option<Id>, sha: Hasher, spine: SameSpine, a: Anchor,
                    r: Result<Option<Status>>)
    ensures MayFind(db, book, format, section, sha, spine, a, r) && r.Ok? && r.value.Some? ==>
              (r.value == Standing(db, book, format, section, sha, spine, a) <==>
                 !CfiDisputed(db, book, format, section, sha, spine, a))
    ensures MayFind(db, book, format, section, sha, spine, a, r) ==>
              r == Ok(Standing(db, book, format, section, sha, spine, a))
              || Differ(db, book, format, section, sha, spine, a)
  {
  }

  /**
   * In whatever order the database lists its rows, the write path finds what the list shows if and only if none of the
   * four cases holds.
   */
  lemma DifferExactly(db: Db, book: Id, format: string, section: Option<Id>, sha: Hasher, spine: SameSpine, a: Anchor)
    ensures (forall r | MayFind(db, book, format, section, sha, spine, a, r) ::
               r == Ok(Standing(db, book, format, section, sha, spine, a)))
            <==> !Differ(db, book, format, section, sha, spine, a)
  {
    var standing := Standing(db, book, format, section, sha, spine, a);
    if Differ(db, book, format, section, sha, spine, a) {
      var r := if AsksBlocks(db, book, format, section, spine, a)
        && HasNotJson(db, book, section.value) then Err(DatabaseError)
               else FoundIf(db, book, format, section, sha, spine, a,
                            section.Some? && TextAtCfi(db, book, section.value, CfiOf(a)));
      assert MayFind(db, book, format, section, sha, spine, a, r) && r != Ok(standing);
    }
  }

  // ----- states in which they differ

  const PDF_BLOCK := Block(3, 1, 2, 0, "law", Printed(Pdf(1, 1, None)))

  /** A PDF book of one page, its section and block as the writers store them. */
  const PDF_BOOK := Db(map[1 := Book("pdf", true)], map[2 := Section(1, Some(Pdf(1, 1, None)))], map[3 := PDF_BLOCK])

  /** A block region in a PDF book, its text in that block: listed as a fallback, unknown to the write path. */
  lemma ForeignExample(sha: Hasher, spine: SameSpine)
    ensures var a := Region(DocxBlock(3), sha("law"), Some(Quote("law", "", "")));
            && Keyed(PDF_BOOK) && SectionsParse(PDF_BOOK, 1) && AllPrinted(PDF_BOOK, 1, Some(2))
            && Standing(PDF_BOOK, 1, "pdf", Some(2), sha, spine, a) == Some(Fallback)
            && forall r | MayFind(PDF_BOOK, 1, "pdf", Some(2), sha, spine, a, r) :: r == Ok(None)
  {
    var a := Region(DocxBlock(3), sha("law"), Some(Quote("law", "", "")));
    assert "law"[..3] == "law" && "law"[3..] == "";
    assert MatchCount("law", "law") == 1;
    assert OnlyMatch(PDF_BOOK, 1, 2, a.region, "law", 3);
  }

  /** An EPUB book whose one block has this locator text. */
  function EpubBook(stored: LocatorText): Db {
    Db(map[1 := Book("epub", true)], map[2 := Section(1, Some(Epub("/6/2", 2)))],
       map[3 := Block(3, 1, 2, 0, "law", stored)])
  }

  /** A locator text that is no JSON: the list resolves nothing, the write path fails. */
  lemma NotJsonExample(sha: Hasher)
    ensures var spine: SameSpine, db, a :=
              (x: string, y: string) => false, EpubBook(NotJson), Region(EpubElement(2, "/6/4"), "", None);
            && Keyed(db) && SectionsParse(db, 1)
            && Standing(db, 1, "epub", Some(2), sha, spine, a) == None
            && forall r | MayFind(db, 1, "epub", Some(2), sha, spine, a, r) :: r == Err(DatabaseError)
  {
    var db := EpubBook(NotJson);
    assert BlockIn(db, 1, 2, 3) && db.blocks[3].stored.NotJson?;
    assert HasNotJson(db, 1, 2);
  }

  /** A locator text with the right fields that does not parse: primary to the write path, nothing to the list. */
  lemma UnparsedExample(sha: Hasher)
    ensures var spine: SameSpine, db :=
              (x: string, y: string) => false, EpubBook(Json("epub", Some(2), Some("/6/4"), None));
            var a := Region(EpubElement(2, "/6/4"), "", None);
            && Keyed(db) && SectionsParse(db, 1)
            && Standing(db, 1, "epub", Some(2), sha, spine, a) == None
            && forall r | MayFind(db, 1, "epub", Some(2), sha, spine, a, r) :: r == Ok(Some(Primary))
  {
    var db := EpubBook(Json("epub", Some(2), Some("/6/4"), None));
    assert BlockIn(db, 1, 2, 3) && TextMatches(db.blocks[3].stored, 2, "/6/4");
    assert TextAtCfi(db, 1, 2, "/6/4");
  }
}
