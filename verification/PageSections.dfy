/** Backfilling a PDF's sections: one single-page section for each page no section covers. */
module PageSections {
  import opened Results

  const MAX_U32 := 0xFFFF_FFFF
  const MAX_PAGES := 100_000

  datatype Locator = Pdf(startPage: nat, endPage: nat) | OtherFormat

  /** The id of a backfilled section is derived from the book and the ordinal. */
  datatype SectionId = Parsed(n: nat) | Stable(ordinal: nat)

  datatype Section = Section(id: SectionId, ordinal: int, locator: Locator)

  predicate OnPage(s: Section, page: nat) {
    s.locator.Pdf? && s.locator.startPage <= page <= s.locator.endPage
  }

  predicate Covered(sections: seq<Section>, page: nat) {
    exists s | s in sections :: OnPage(s, page)
  }

  predicate Readable(s: Section) {
    0 <= s.ordinal < MAX_U32 && s.locator.Pdf?
  }

  /** One more than the highest ordinal, or 0. */
  function NextOrdinal(sections: seq<Section>): (next: nat)
    requires forall s | s in sections :: Readable(s)
    ensures forall s | s in sections :: s.ordinal < next
    ensures next > 0 ==> exists s | s in sections :: s.ordinal == next - 1
    ensures next <= MAX_U32
  {
    if sections == [] then 0
    else
      var last := sections[|sections| - 1];
      assert last in sections && Readable(last);
      assert sections == sections[..|sections| - 1] + [last];
      var next := NextOrdinal(sections[..|sections| - 1]);
      if next < last.ordinal + 1 then last.ordinal + 1 else next
  }

  /** The uncovered ones of the first `n` pages, ascending. */
  function Uncovered(sections: seq<Section>, n: nat): seq<nat> {
    if n == 0 then []
    else if Covered(sections, n) then Uncovered(sections, n - 1)
    else Uncovered(sections, n - 1) + [n]
  }

  /** One section per page, on consecutive ordinals. */
  function PageSectionsFrom(pages: seq<nat>, next: nat): (added: seq<Section>)
    ensures |added| == |pages|
    ensures forall k | 0 <= k < |pages| :: added[k] == Section(Stable(next + k), next + k, Pdf(pages[k], pages[k]))
  {
    seq(|pages|, k requires 0 <= k < |pages| => Section(Stable(next + k), next + k, Pdf(pages[k], pages[k])))
  }

  lemma {:induction false} UncoveredIs(sections: seq<Section>, n: nat, page: nat)
    ensures page in Uncovered(sections, n) <==> 1 <= page <= n && !Covered(sections, page)
    ensures |Uncovered(sections, n)| <= n
  {
    if n > 0 { UncoveredIs(sections, n - 1, page); }
  }

  lemma {:induction false} UncoveredAscend(sections: seq<Section>, n: nat)
    ensures forall i, j | 0 <= i < j < |Uncovered(sections, n)| :: Uncovered(sections, n)[i] < Uncovered(sections, n)[j]
    ensures forall i | 0 <= i < |Uncovered(sections, n)| :: Uncovered(sections, n)[i] <= n
  {
    if n > 0 { UncoveredAscend(sections, n - 1); }
  }

  ghost predicate Backfilled(before: seq<Section>, after: seq<Section>, pageCount: nat)
    requires forall s | s in before :: Readable(s)
  {
    after == before + PageSectionsFrom(Uncovered(before, pageCount), NextOrdinal(before))
  }

  /** The stored sections can be read, and the ordinals suffice. */
  predicate Backfillable(sections: seq<Section>, pageCount: nat) {
    && (forall s | s in sections :: Readable(s))
    && NextOrdinal(sections) + |Uncovered(sections, pageCount)| <= MAX_U32
  }

  class BookSections {
    const ready: bool
    const pdf: bool
    var sections: seq<Section>

    constructor (ready: bool, pdf: bool, sections: seq<Section>)
      ensures this.ready == ready && this.pdf == pdf && this.sections == sections
    {
      this.ready, this.pdf, this.sections := ready, pdf, sections;
    }

    method EnsurePdfPageSections(pageCount: nat) returns (r: Result<()>)
      modifies this
      ensures r.Err? ==> sections == old(sections)
      ensures r.Ok? <==> 1 <= pageCount <= MAX_PAGES && ready && pdf && Backfillable(old(sections), pageCount)
      ensures r.Ok? ==> Backfilled(old(sections), sections, pageCount)
    {
      if pageCount == 0 || pageCount > MAX_PAGES {
        return Err(InvalidInput);
      }
      if !ready {
        return Err(BookNotReady);
      }
      if !pdf {
        return Err(InvalidInput);
      }
      var next := ReadSections(sections);
      if next.Err? {
        return Err(next.error);
      }
      var tx := InsertPages(sections, next.value, pageCount);
      if tx.Err? {
        return Err(tx.error);
      }
      sections := tx.value;
      r := Ok(());
    }
  }

  /** Reads the stored sections; the result is the next free ordinal. */
  method ReadSections(rows: seq<Section>) returns (r: Result<nat>)
    ensures r.Ok? <==> forall s | s in rows :: Readable(s)
    ensures r.Ok? ==> r.value == NextOrdinal(rows)
  {
    var next := 0;
    for i := 0 to |rows|
      invariant forall s | s in rows[..i] :: Readable(s)
      invariant next == NextOrdinal(rows[..i])
    {
      var row := rows[i];
      assert rows[..i + 1] == rows[..i] + [row] && row in rows;
      if row.ordinal < 0 || row.ordinal > MAX_U32 {
        return Err(DatabaseError);
      }
      if row.ordinal + 1 > MAX_U32 {
        return Err(DatabaseError);
      }
      next := if next < row.ordinal + 1 then row.ordinal + 1 else next;
      if !row.locator.Pdf? {
        return Err(DatabaseError);
      }
      assert rows[..i + 1][..i] == rows[..i];
    }
    assert rows[..|rows|] == rows;
    r := Ok(next);
  }

  /** Fails when the ordinals run out. */
  method InsertPages(rows: seq<Section>, first: nat, pageCount: nat) returns (r: Result<seq<Section>>)
    requires first <= MAX_U32
    ensures r.Ok? <==> first + |Uncovered(rows, pageCount)| <= MAX_U32
    ensures r.Ok? ==> r.value == rows + PageSectionsFrom(Uncovered(rows, pageCount), first)
  {
    var tx := rows;
    var next := first;
    for page := 1 to pageCount + 1
      invariant next == first + |Uncovered(rows, page - 1)| <= MAX_U32
      invariant tx == rows + PageSectionsFrom(Uncovered(rows, page - 1), first)
    {
      UncoveredGrows(rows, page, pageCount);
      if Covered(rows, page) {
        continue;
      }
      PageAppended(Uncovered(rows, page - 1), first, page);
      tx := tx + [Section(Stable(next), next, Pdf(page, page))];
      if next + 1 > MAX_U32 {
        return Err(DatabaseError);
      }
      next := next + 1;
    }
    r := Ok(tx);
  }

  lemma PageAppended(pages: seq<nat>, next: nat, page: nat)
    ensures PageSectionsFrom(pages + [page], next)
         == PageSectionsFrom(pages, next) + [Section(Stable(next + |pages|), next + |pages|, Pdf(page, page))]
  {
  }

  lemma {:induction false} UncoveredGrows(sections: seq<Section>, n: nat, m: nat)
    requires n <= m
    ensures |Uncovered(sections, n)| <= |Uncovered(sections, m)|
  {
    if n < m { UncoveredGrows(sections, n, m - 1); }
  }

  /** Afterwards every page is covered, each one that was not before by exactly one section. */
  lemma BackfillCovers(before: seq<Section>, after: seq<Section>, pageCount: nat, page: nat)
    requires (forall s | s in before :: Readable(s)) && Backfilled(before, after, pageCount) && 1 <= page <= pageCount
    ensures Covered(after, page)
    ensures !Covered(before, page) ==> exists k | 0 <= k < |after| ::
              OnPage(after[k], page) && forall i | 0 <= i < |after| && i != k :: !OnPage(after[i], page)
  {
    var pages := Uncovered(before, pageCount);
    UncoveredIs(before, pageCount, page);
    UncoveredAscend(before, pageCount);
    if Covered(before, page) {
      var s :| s in before && OnPage(s, page);
      assert s in after;
    } else {
      var j :| 0 <= j < |pages| && pages[j] == page;
      var k := |before| + j;
      assert OnPage(after[k], page) && after[k] in after;
      forall i | 0 <= i < |after| && i != k ensures !OnPage(after[i], page) {
        if i < |before| {
          assert after[i] in before;
        } else {
          assert after[i].locator == Pdf(pages[i - |before|], pages[i - |before|]);
        }
      }
    }
  }

  /** New ordinals lie above every old one and are distinct. */
  lemma BackfillOrdinalsFresh(before: seq<Section>, after: seq<Section>, pageCount: nat, i: nat, k: nat)
    requires (forall s | s in before :: Readable(s)) && Backfilled(before, after, pageCount)
    requires i < k < |after| && |before| <= k
    ensures after[i].ordinal < after[k].ordinal
  {
    if i < |before| { assert after[i] in before; }
  }

  /**
   * The old sections stay; each new one has one page, an id derived from its ordinal, and the ordinal after the one
   * before, the first the one after the highest.
   */
  lemma BackfillAdds(before: seq<Section>, after: seq<Section>, pageCount: nat, k: nat)
    requires (forall s | s in before :: Readable(s)) && Backfilled(before, after, pageCount)
    requires |before| <= k < |after|
    ensures after[..|before|] == before
    ensures after[k].locator.Pdf? && after[k].locator.startPage == after[k].locator.endPage
    ensures after[k].ordinal >= 0 && after[k].id == Stable(after[k].ordinal)
    ensures k > |before| ==> after[k].ordinal == after[k - 1].ordinal + 1
    ensures before == [] && k == 0 ==> after[k].ordinal == 0
    ensures before != [] && k == |before| ==> (exists s :: s in before && after[k].ordinal == s.ordinal + 1)
  {
    var pages, first := Uncovered(before, pageCount), NextOrdinal(before);
    var added := PageSectionsFrom(pages, first);
    assert after[k] == added[k - |before|];
    if k > |before| { assert after[k - 1] == added[k - 1 - |before|]; }
    if before != [] {
      assert before[0] in before && Readable(before[0]);
    }
  }

  lemma {:induction false} NothingUncovered(sections: seq<Section>, n: nat)
    requires forall page | 1 <= page <= n :: Covered(sections, page)
    ensures Uncovered(sections, n) == []
  {
    if n > 0 { NothingUncovered(sections, n - 1); }
  }

  /** Run again with the same or fewer pages, it succeeds and inserts nothing. */
  lemma BackfillTwice(before: seq<Section>, after: seq<Section>, again: seq<Section>, pageCount: nat, fewer: nat)
    requires Backfillable(before, pageCount) && Backfilled(before, after, pageCount) && fewer <= pageCount
    ensures Backfillable(after, fewer)
    ensures Backfilled(after, again, fewer) <==> again == after
  {
    forall s | s in after ensures Readable(s) {
      var k :| 0 <= k < |after| && after[k] == s;
      if k < |before| { assert after[k] in before; }
    }
    forall page | 1 <= page <= fewer ensures Covered(after, page) {
      BackfillCovers(before, after, pageCount, page);
    }
    NothingUncovered(after, fewer);
    assert after + PageSectionsFrom([], NextOrdinal(after)) == after;
  }
}
