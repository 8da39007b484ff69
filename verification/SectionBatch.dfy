/** Appending a batch of parsed sections to a book: what is refused, and what is stored. */
module SectionBatch {
  import opened Results
  import opened Text
  import opened SectionTree

  const MAX_BATCH_SECTIONS := 25
  const MAX_BATCH_BLOCKS := 500

  datatype StoredBlock = StoredBlock(section: Id, block: Block)

  function BlockCount(sections: seq<Section>): nat {
    if sections == [] then 0 else BlockCount(sections[..|sections| - 1]) + |sections[|sections| - 1].blocks|
  }

  // ----- validating a batch

  predicate BlockOk(s: Section, b: Block) {
    !Blank(b.text) && b.id == BlockId(s.ordinal, b.ordinal)
  }

  predicate BlocksOk(s: Section) {
    && (forall i | 0 <= i < |s.blocks| :: BlockOk(s, s.blocks[i]))
    && forall i, j | 0 <= i < j < |s.blocks| :: s.blocks[i].id != s.blocks[j].id
  }

  /** One section by itself; `locatorsFit` stands for the tests of its own and its blocks' locators. */
  predicate SectionOk(s: Section, pdf: bool, locatorsFit: Section -> bool) {
    && !Blank(s.title) && s.id == SectionId(s.ordinal) && s.parent != Some(s.id)
    && (s.blocks == [] ==> pdf) && BlocksOk(s) && locatorsFit(s)
  }

  predicate ValidBatch(sections: seq<Section>, pdf: bool, locatorsFit: Section -> bool) {
    && 1 <= |sections| <= MAX_BATCH_SECTIONS
    && BlockCount(sections) <= MAX_BATCH_BLOCKS && (BlockCount(sections) == 0 ==> pdf)
    && DistinctIds(sections)
    && forall i | 0 <= i < |sections| :: SectionOk(sections[i], pdf, locatorsFit)
  }

  method ValidateBlocks(s: Section) returns (ok: bool)
    ensures ok <==> BlocksOk(s)
  {
    var ids: set<BlockId>, ordinals: set<nat> := {}, {};
    for i := 0 to |s.blocks|
      invariant forall k | 0 <= k < i :: BlockOk(s, s.blocks[k])
      invariant forall k, j | 0 <= k < j < i :: s.blocks[k].id != s.blocks[j].id
      invariant forall x :: x in ids <==> exists k | 0 <= k < i :: s.blocks[k].id == x
      invariant forall x :: x in ordinals <==> exists k | 0 <= k < i :: s.blocks[k].ordinal == x
    {
      var b := s.blocks[i];
      if Blank(b.text) || b.id != BlockId(s.ordinal, b.ordinal) || b.id in ids || b.ordinal in ordinals {
        return false;
      }
      ids, ordinals := ids + {b.id}, ordinals + {b.ordinal};
    }
    ok := true;
  }

  /** What is asked of one section by itself. */
  method ValidateSection(s: Section, pdf: bool, locatorsFit: Section -> bool) returns (ok: bool)
    ensures ok <==> SectionOk(s, pdf, locatorsFit)
  {
    if Blank(s.title) || s.id != SectionId(s.ordinal) || s.parent == Some(s.id) || (s.blocks == [] && !pdf)
       || !locatorsFit(s)
    {
      return false;
    }
    ok := ValidateBlocks(s);
  }

  method ValidateBatch(sections: seq<Section>, pdf: bool, locatorsFit: Section -> bool) returns (ok: bool)
    ensures ok <==> ValidBatch(sections, pdf, locatorsFit)
  {
    var blockCount := BlockCount(sections);
    if sections == [] || |sections| > MAX_BATCH_SECTIONS || (blockCount == 0 && !pdf) || blockCount > MAX_BATCH_BLOCKS {
      return false;
    }
    var ids: set<Id>, ordinals: set<nat> := {}, {};
    for i := 0 to |sections|
      invariant forall k | 0 <= k < i :: SectionOk(sections[k], pdf, locatorsFit)
      invariant forall k, j | 0 <= k < j < i :: sections[k].id != sections[j].id
      invariant forall x :: x in ids <==> exists k | 0 <= k < i :: sections[k].id == x
      invariant forall x :: x in ordinals <==> exists k | 0 <= k < i :: sections[k].ordinal == x
    {
      var s := sections[i];
      if s.id in ids || s.ordinal in ordinals {
        return false;
      }
      var sectionOk := ValidateSection(s, pdf, locatorsFit);
      if !sectionOk {
        return false;
      }
      ids, ordinals := ids + {s.id}, ordinals + {s.ordinal};
    }
    ok := true;
  }

  // ----- what is stored

  /** The row of a section: its title trimmed, its blocks kept elsewhere. */
  function RowOf(s: Section): Section {
    s.(title := Trim(s.title), blocks := [])
  }

  function RowsOf(sections: seq<Section>): (rows: seq<Section>)
    ensures |rows| == |sections| && forall i | 0 <= i < |rows| :: rows[i] == RowOf(sections[i])
  {
    seq(|sections|, i requires 0 <= i < |sections| => RowOf(sections[i]))
  }

  function BlocksOfSection(s: Section): (blocks: seq<StoredBlock>)
    ensures |blocks| == |s.blocks| && forall i | 0 <= i < |blocks| :: blocks[i] == StoredBlock(s.id, s.blocks[i])
  {
    seq(|s.blocks|, i requires 0 <= i < |s.blocks| => StoredBlock(s.id, s.blocks[i]))
  }

  /** The blocks of a batch, in its order. */
  function BlocksOf(sections: seq<Section>): seq<StoredBlock> {
    if sections == [] then [] else BlocksOf(sections[..|sections| - 1]) + BlocksOfSection(sections[|sections| - 1])
  }

  predicate BlockStored(blocks: seq<StoredBlock>, id: BlockId) {
    exists i | 0 <= i < |blocks| :: blocks[i].block.id == id
  }

  predicate NewBlocks(s: Section, blocks: seq<StoredBlock>) {
    forall i | 0 <= i < |s.blocks| :: !BlockStored(blocks, s.blocks[i].id)
  }

  /** A valid batch whose links fit the stored sections, none of its blocks stored yet. */
  ghost predicate Appendable(sections: seq<Section>, pdf: bool, locatorsFit: Section -> bool, rows: seq<Section>,
                             blocks: seq<StoredBlock>)
  {
    && ValidBatch(sections, pdf, locatorsFit) && Grafts(rows, sections)
    && forall i | 0 <= i < |sections| :: NewBlocks(sections[i], blocks)
  }

  /** Ids are derived from ordinals and unlike; each parent link leads to an earlier row. */
  ghost predicate ValidRows(rows: seq<Section>) {
    && DistinctIds(rows) && (forall i | 0 <= i < |rows| :: rows[i].id == SectionId(rows[i].ordinal))
    && forall j | 0 <= j < |rows| && rows[j].parent.Some? :: rows[j].parent.value in Ids(rows[..j])
  }

  /** Block ids are derived and unlike; each block's section is stored. */
  ghost predicate ValidBlocks(blocks: seq<StoredBlock>, rows: seq<Section>) {
    && (forall i | 0 <= i < |blocks| ::
          var b := blocks[i];
          b.section in Ids(rows) && b.section.SectionId? && b.block.id == BlockId(b.section.ordinal, b.block.ordinal))
    && forall i, j | 0 <= i < j < |blocks| :: blocks[i].block.id != blocks[j].block.id
  }

  /**
   * After the rows there were come the sections of the batch, each once, parents first: each row has its section's id,
   * parent and ordinal and its title without the whitespace around it.
   */
  ghost predicate SectionsAppended(was: seq<Section>, sections: seq<Section>, order: seq<Section>, rows: seq<Section>) {
    && |rows| == |was| + |order| && rows[..|was|] == was && multiset(order) == multiset(sections)
    && (forall i {:trigger order[i]} | 0 <= i < |order| ::
          var row := rows[|was| + i];
          && row == Section(order[i].id, order[i].parent, order[i].ordinal, row.title, [])
          && Strips(order[i].title, row.title))
    && forall j | 0 <= j < |order| && order[j].parent.Some? && order[j].parent.value in Ids(sections) ::
         exists i :: 0 <= i < j && order[i].id == order[j].parent.value
  }

  /** After the blocks there were come those of the batch, section by section, each under its section. */
  predicate BlocksAppended(was: seq<StoredBlock>, sections: seq<Section>, blocks: seq<StoredBlock>) {
    && |blocks| == |was| + BlockCount(sections) && blocks[..|was|] == was
    && forall i, k | 0 <= i < |sections| && 0 <= k < |sections[i].blocks| ::
         var at := |was| + BlockCount(sections[..i]) + k;
         at < |blocks| && blocks[at] == StoredBlock(sections[i].id, sections[i].blocks[k])
  }

  lemma RowsAreAppended(was: seq<Section>, sections: seq<Section>, order: seq<Section>)
    requires multiset(order) == multiset(sections) && ParentFirst(order, Ids(sections))
    ensures SectionsAppended(was, sections, order, was + RowsOf(order))
  {
    forall i | 0 <= i < |order| ensures Strips(order[i].title, RowsOf(order)[i].title) {
      TrimStrips(order[i].title);
    }
    forall j | 0 <= j < |order| && order[j].parent.Some? && order[j].parent.value in Ids(sections)
      ensures exists i :: 0 <= i < j && order[i].id == order[j].parent.value
    {
      assert Ready(order[j], Ids(sections), Ids(order[..j]));
      var i :| 0 <= i < |order[..j]| && order[..j][i].id == order[j].parent.value;
      assert order[i].id == order[j].parent.value;
    }
  }

  lemma {:induction false} BlockAt(sections: seq<Section>, i: nat, k: nat)
    requires i < |sections| && k < |sections[i].blocks|
    ensures |BlocksOf(sections)| == BlockCount(sections)
    ensures BlockCount(sections[..i]) + k < BlockCount(sections)
    ensures BlocksOf(sections)[BlockCount(sections[..i]) + k] == StoredBlock(sections[i].id, sections[i].blocks[k])
  {
    var front := sections[..|sections| - 1];
    BlocksCounted(sections);
    BlocksCounted(front);
    if i < |front| {
      assert front[..i] == sections[..i];
      BlockAt(front, i, k);
    }
  }

  lemma {:induction false} BlocksCounted(sections: seq<Section>)
    ensures |BlocksOf(sections)| == BlockCount(sections)
  {
    if sections != [] { BlocksCounted(sections[..|sections| - 1]); }
  }

  lemma BlocksAreAppended(was: seq<StoredBlock>, sections: seq<Section>)
    ensures BlocksAppended(was, sections, was + BlocksOf(sections))
  {
    BlocksCounted(sections);
    forall i, k | 0 <= i < |sections| && 0 <= k < |sections[i].blocks|
      ensures BlockCount(sections[..i]) + k < BlockCount(sections)
      ensures BlocksOf(sections)[BlockCount(sections[..i]) + k] == StoredBlock(sections[i].id, sections[i].blocks[k])
    {
      BlockAt(sections, i, k);
    }
  }

  class SectionStore {
    const pdf: bool
    const locatorsFit: Section -> bool
    var parsing: bool
    var rows: seq<Section>
    var blocks: seq<StoredBlock>

    ghost predicate Valid()
      reads this
    {
      ValidRows(rows) && ValidBlocks(blocks, rows)
    }

    constructor (pdf: bool, locatorsFit: Section -> bool)
      ensures Valid() && parsing && rows == [] && blocks == []
    {
      this.pdf, this.locatorsFit, parsing, rows, blocks := pdf, locatorsFit, true, [], [];
    }

    /** Cycles, collisions with what is stored, and parents that are nowhere. */
    method RejectExistingCollisions(sections: seq<Section>) returns (rejected: bool)
      requires Valid() && ValidBatch(sections, pdf, locatorsFit)
      ensures rejected <==> !Appendable(sections, pdf, locatorsFit, rows, blocks)
    {
      rejected := RejectCycles(sections);
      if rejected { return; }
      var batch := Ids(sections);
      for i := 0 to |sections|
        invariant forall k | 0 <= k < i :: sections[k].id !in Ids(rows) && OutsideParentExists(sections[k], batch, rows)
        invariant forall k | 0 <= k < i :: NewBlocks(sections[k], blocks)
      {
        var s := sections[i];
        assert SectionOk(s, pdf, locatorsFit);
        if s.id in Ids(rows) || (exists k | 0 <= k < |rows| :: rows[k].ordinal == s.ordinal) { return true; }
        if !OutsideParentExists(s, batch, rows) { return true; }
        if !NewBlocks(s, blocks) { return true; }
      }
      rejected := false;
    }

    /** The blocks of a batch, in the order of its sections. */
    method InsertBlocks(sections: seq<Section>) returns (after: seq<StoredBlock>)
      ensures after == blocks + BlocksOf(sections)
    {
      after := blocks;
      for i := 0 to |sections|
        invariant after == blocks + BlocksOf(sections[..i])
      {
        var s := sections[i];
        assert sections[..i + 1][..i] == sections[..i];
        for k := 0 to |s.blocks|
          invariant after == blocks + BlocksOf(sections[..i]) + BlocksOfSection(s)[..k]
        {
          after := after + [StoredBlock(s.id, s.blocks[k])];
        }
        assert BlocksOfSection(s)[..|s.blocks|] == BlocksOfSection(s);
        assert after == blocks + (BlocksOf(sections[..i]) + BlocksOfSection(s));
      }
      assert sections[..|sections|] == sections;
    }

    /** Appends a batch: all of it, parents first and blocks in order, or nothing. */
    method AppendParsedSections(sections: seq<Section>) returns (error: Option<ErrorCode>)
      requires Valid()
      modifies this
      ensures Valid() && parsing == old(parsing)
      ensures error.None? <==> parsing && Appendable(sections, pdf, locatorsFit, old(rows), old(blocks))
      ensures error.Some? ==> error == Some(if parsing then InvalidInput else BookNotReady)
      ensures error.Some? ==> rows == old(rows) && blocks == old(blocks)
      ensures error.None? ==> BlocksAppended(old(blocks), sections, blocks)
      ensures error.None? ==> exists order :: SectionsAppended(old(rows), sections, order, rows)
    {
      if !parsing { return Some(BookNotReady); }
      var valid := ValidateBatch(sections, pdf, locatorsFit);
      if !valid { return Some(InvalidInput); }
      var rejected := RejectExistingCollisions(sections);
      if rejected { return Some(InvalidInput); }
      var inserted, passes := InsertParentFirst(sections);
      assert inserted.Ok?;
      var after := InsertBlocks(sections);
      RowsAreAppended(rows, sections, inserted.value);
      BlocksAreAppended(blocks, sections);
      RowsStayValid(rows, sections, inserted.value, pdf, locatorsFit);
      BlocksStayValid(rows, blocks, sections, inserted.value, pdf, locatorsFit);
      rows, blocks := rows + RowsOf(inserted.value), after;
      error := None;
    }
  }

  // ----- the store stays valid

  lemma IdsAlike(a: seq<Section>, b: seq<Section>)
    requires |a| == |b| && forall i | 0 <= i < |a| :: a[i].id == b[i].id
    ensures Ids(a) == Ids(b)
  {
    forall x ensures x in Ids(a) <==> x in Ids(b) {
      if x in Ids(b) {
        var k :| 0 <= k < |b| && b[k].id == x;
        assert a[k].id == x;
      }
      if x in Ids(a) {
        var k :| 0 <= k < |a| && a[k].id == x;
        assert b[k].id == x;
      }
    }
  }

  lemma SameIds(order: seq<Section>, i: nat)
    requires i <= |order|
    ensures Ids(RowsOf(order)[..i]) == Ids(order[..i])
  {
    IdsAlike(RowsOf(order)[..i], order[..i]);
  }

  lemma SameIdsAhead(rows: seq<Section>, order: seq<Section>, j: nat)
    requires j <= |rows| + |order|
    ensures Ids((rows + RowsOf(order))[..j]) == Ids((rows + order)[..j])
  {
    var all, stored := rows + order, rows + RowsOf(order);
    if j <= |rows| {
      assert stored[..j] == all[..j];
    } else {
      var i := j - |rows|;
      assert stored[..j] == rows + RowsOf(order)[..i] && all[..j] == rows + order[..i];
      SameIds(order, i);
      IdsOfConcat(rows, RowsOf(order)[..i]);
      IdsOfConcat(rows, order[..i]);
    }
  }

  lemma OrderDerived(sections: seq<Section>, order: seq<Section>, pdf: bool, locatorsFit: Section -> bool)
    requires ValidBatch(sections, pdf, locatorsFit) && multiset(order) == multiset(sections)
    ensures forall i | 0 <= i < |order| :: order[i].id == SectionId(order[i].ordinal)
  {
    forall i | 0 <= i < |order| ensures order[i].id == SectionId(order[i].ordinal) {
      assert order[i] in multiset(sections);
      var k :| 0 <= k < |sections| && sections[k] == order[i];
      assert SectionOk(sections[k], pdf, locatorsFit);
    }
  }

  lemma RowsStayValid(rows: seq<Section>, sections: seq<Section>, order: seq<Section>, pdf: bool,
                      locatorsFit: Section -> bool)
    requires ValidRows(rows) && ValidBatch(sections, pdf, locatorsFit) && Grafts(rows, sections)
    requires multiset(order) == multiset(sections) && ParentFirst(order, Ids(sections))
    ensures ValidRows(rows + RowsOf(order))
  {
    AppendedIsValid(rows, sections, order);
    OrderDerived(sections, order, pdf, locatorsFit);
    var all, stored := rows + order, rows + RowsOf(order);
    forall i | 0 <= i < |all|
      ensures stored[i].id == all[i].id && stored[i].parent == all[i].parent && stored[i].ordinal == all[i].ordinal
    {
    }
    forall j | 0 <= j < |stored| && stored[j].parent.Some? ensures stored[j].parent.value in Ids(stored[..j]) {
      assert all[j].parent.value in Ids(all[..j]);
      SameIdsAhead(rows, order, j);
    }
  }

  lemma {:induction false} BatchBlock(sections: seq<Section>, i: nat) returns (n: nat, k: nat)
    requires i < |BlocksOf(sections)|
    ensures n < |sections| && k < |sections[n].blocks|
            && BlocksOf(sections)[i] == StoredBlock(sections[n].id, sections[n].blocks[k])
  {
    var last := |sections| - 1;
    var front := BlocksOf(sections[..last]);
    if i < |front| {
      n, k := BatchBlock(sections[..last], i);
    } else {
      n, k := last, i - |front|;
    }
  }

  /** Blocks of valid sections with unlike ids have unlike ids. */
  lemma {:induction false} BatchBlocksDistinct(sections: seq<Section>, pdf: bool, locatorsFit: Section -> bool)
    requires DistinctIds(sections) && forall i | 0 <= i < |sections| :: SectionOk(sections[i], pdf, locatorsFit)
    ensures forall i, j | 0 <= i < j < |BlocksOf(sections)| ::
              BlocksOf(sections)[i].block.id != BlocksOf(sections)[j].block.id
  {
    if sections != [] {
      var last := |sections| - 1;
      var front, own := BlocksOf(sections[..last]), BlocksOfSection(sections[last]);
      BatchBlocksDistinct(sections[..last], pdf, locatorsFit);
      assert SectionOk(sections[last], pdf, locatorsFit);
      forall i, j | 0 <= i < |front| && 0 <= j < |own| ensures front[i].block.id != own[j].block.id {
        var n, k := BatchBlock(sections[..last], i);
        assert SectionOk(sections[n], pdf, locatorsFit) && BlockOk(sections[n], sections[n].blocks[k]);
        assert BlockOk(sections[last], sections[last].blocks[j]);
      }
    }
  }

  lemma AddedBlockFits(blocks: seq<StoredBlock>, sections: seq<Section>, order: seq<Section>, pdf: bool,
                       locatorsFit: Section -> bool, i: nat)
    requires ValidBatch(sections, pdf, locatorsFit) && multiset(order) == multiset(sections)
    requires forall k | 0 <= k < |sections| :: NewBlocks(sections[k], blocks)
    requires i < |BlocksOf(sections)|
    ensures FitsBehind(BlocksOf(sections)[i], blocks, Ids(order))
  {
    var n, k := BatchBlock(sections, i);
    assert SectionOk(sections[n], pdf, locatorsFit) && BlockOk(sections[n], sections[n].blocks[k]);
    assert NewBlocks(sections[n], blocks);
    assert sections[n] in multiset(order);
    var m :| 0 <= m < |order| && order[m] == sections[n];
    assert order[m].id in Ids(order);
  }

  lemma BlocksStayValid(rows: seq<Section>, blocks: seq<StoredBlock>, sections: seq<Section>, order: seq<Section>,
                        pdf: bool, locatorsFit: Section -> bool)
    requires ValidBlocks(blocks, rows) && Appendable(sections, pdf, locatorsFit, rows, blocks)
    requires multiset(order) == multiset(sections)
    ensures ValidBlocks(blocks + BlocksOf(sections), rows + RowsOf(order))
  {
    var added := BlocksOf(sections);
    BatchBlocksDistinct(sections, pdf, locatorsFit);
    IdsOfConcat(rows, RowsOf(order));
    SameIds(order, |order|);
    assert RowsOf(order)[..|order|] == RowsOf(order) && order[..|order|] == order;
    forall i | 0 <= i < |added| ensures FitsBehind(added[i], blocks, Ids(order)) {
      AddedBlockFits(blocks, sections, order, pdf, locatorsFit, i);
    }
    BlocksJoin(rows, blocks, added, rows + RowsOf(order), Ids(order));
  }

  /** A block of one of these sections, under its derived id, not stored yet. */
  predicate FitsBehind(b: StoredBlock, blocks: seq<StoredBlock>, ids: set<Id>) {
    && b.section in ids && b.section.SectionId?
    && b.block.id == BlockId(b.section.ordinal, b.block.ordinal) && !BlockStored(blocks, b.block.id)
  }

  lemma BlocksJoin(rows: seq<Section>, blocks: seq<StoredBlock>, added: seq<StoredBlock>, all: seq<Section>,
                   ids: set<Id>)
    requires ValidBlocks(blocks, rows) && Ids(rows) <= Ids(all) && ids <= Ids(all)
    requires forall i | 0 <= i < |added| :: FitsBehind(added[i], blocks, ids)
    requires forall i, j | 0 <= i < j < |added| :: added[i].block.id != added[j].block.id
    ensures ValidBlocks(blocks + added, all)
  {
  }
}
