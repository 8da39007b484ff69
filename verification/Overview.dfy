/**
 * The read-only checker of the page index: what it counts as visible, and the provenance it demands of every corrected
 * row.
 */
module Overview {
  import opened Results
  import opened Text
  import opened IndexModel
  import opened IndexTransitions
  import opened IndexInvariant
  import opened IndexRebuild
  import opened IndexService

  const MAX_OVERVIEW_CORRECTIONS: nat := 100_000

  predicate ShownPage(t: Tables, c: Chunk) {
    && c.pageId in t.pages
    && var page := t.pages[c.pageId];
    && page.bookId == c.bookId && page.contentVersion == c.contentVersion
    && (page.life.status == Indexed || page.life.status == NeedsReview)
  }

  predicate OnBlock(row: Correction, c: Chunk) {
    row.bookId == c.bookId && row.pageId == c.pageId && row.targetBlockId == c.blockId
  }

  predicate ConflictOnBlock(t: Tables, c: Chunk) {
    exists id | id in t.corrections :: OnBlock(t.corrections[id], c) && t.corrections[id].state == Conflict
  }

  predicate ActiveTextOnBlock(t: Tables, c: Chunk) {
    exists id | id in t.corrections ::
      var row := t.corrections[id];
      OnBlock(row, c) && row.targetVersion == c.contentVersion && row.kind == TextValue && row.state == Active
  }

  /** The rows `load_indexed_content` counts. */
  predicate Visible(t: Tables, c: Chunk, bookId: Uuid) {
    && c.bookId == bookId
    && ShownPage(t, c)
    && (c.source == UserCorrected ==>
          && c.correctionId.Some? && c.correctionId.value in t.corrections
          && var row := t.corrections[c.correctionId.value];
          && row.pageId == c.pageId && row.bookId == c.bookId
          && row.state == Active && row.targetVersion == c.contentVersion)
    && !(c.source == AiTranscribed && ActiveTextOnBlock(t, c))
    && !((c.source == AiTranscribed || c.source == UserCorrected) && ConflictOnBlock(t, c))
  }

  /** The rows `verify_active_correction_provenance` fetches. */
  predicate ProvenanceRow(t: Tables, c: Chunk, bookId: Uuid) {
    && c.bookId == bookId && c.source == UserCorrected
    && ShownPage(t, c)
    && c.blockId in t.blocks
    && (var block := t.blocks[c.blockId];
        block.pageId == c.pageId && block.bookId == c.bookId && block.contentVersion == c.contentVersion)
    && c.correctionId.Some? && c.correctionId.value in t.corrections
    && (var row := t.corrections[c.correctionId.value];
        OnBlock(row, c) && row.targetVersion == c.contentVersion && row.state == Active)
    && !ConflictOnBlock(t, c)
  }

  /** Checks one fetched row. */
  method ValidateCorrectionProvenance(t: Tables, c: Chunk, sha: Hasher) returns (ok: bool)
    requires exists bookId :: ProvenanceRow(t, c, bookId)
    ensures ok <==> ProvenanceHolds(t, c, sha)
  {
    var id := c.correctionId.value;
    var row := t.corrections[id];
    var block := t.blocks[c.blockId];
    var offset := if row.kind == TextValue then 0 else 1;
    var expected := block.content.ordinal * 4 + offset;
    if expected > MAX_CHUNK_ORDINAL { return false; }
    if c.ordinal != expected
       || StableChunkId(c) != Named(c.blockId, ChunkName(UserCorrected, expected))
       || id != StableCorrectionId(c.pageId, c.blockId, row.kind) {
      return false;
    }
    var provider := ProviderValue(block.content, row.kind);
    if provider.None? { return false; }
    ok := sha(row.originalValue) == row.originalHash && provider.value == row.originalValue
      && row.correctedValue == c.text;
  }

  /** The corrected row says where it comes from, and its block still has the value that was corrected. */
  predicate ProvenanceHolds(t: Tables, c: Chunk, sha: Hasher)
    requires exists bookId :: ProvenanceRow(t, c, bookId)
  {
    var row := t.corrections[c.correctionId.value];
    var block := t.blocks[c.blockId];
    && c.ordinal == ChunkOrdinal(block.content.ordinal, KindSlot(row.kind)) <= MAX_CHUNK_ORDINAL
    && c.correctionId == Some(StableCorrectionId(c.pageId, c.blockId, row.kind))
    && ProviderValue(block.content, row.kind) == Some(row.originalValue)
    && sha(row.originalValue) == row.originalHash
    && row.correctedValue == c.text
  }

  method VerifyActiveCorrectionProvenance(t: Tables, chunks: set<Chunk>, bookId: Uuid, expectedCount: nat, sha: Hasher)
    returns (ok: bool)
    ensures ok <==>
            var rows := set c | c in chunks && ProvenanceRow(t, c, bookId);
            && |rows| <= MAX_OVERVIEW_CORRECTIONS && |rows| == expectedCount
            && forall c | c in rows :: ProvenanceHolds(t, c, sha)
  {
    var rows := set c | c in chunks && ProvenanceRow(t, c, bookId);
    if |rows| > MAX_OVERVIEW_CORRECTIONS || |rows| != expectedCount { return false; }
    var todo := rows;
    while todo != {}
      invariant todo <= rows
      invariant forall c | c in rows - todo :: ProvenanceHolds(t, c, sha)
      decreases todo
    {
      var c :| c in todo;
      todo := todo - {c};
      var holds := ValidateCorrectionProvenance(t, c, sha);
      if !holds { return false; }
    }
    ok := true;
  }

  /** One group of `load_indexed_content`: its rows and the pages they come from. */
  datatype SourceSummary = SourceSummary(items: nat, coveredPages: nat)

  function Summarize(t: Tables, chunks: set<Chunk>, bookId: Uuid, source: ContentSource): SourceSummary {
    var shown := set c | c in chunks && c.source == source && Visible(t, c, bookId);
    SourceSummary(|shown|, |set c | c in shown :: c.pageId|)
  }

  // ----- the checker accepts what the index produces

  /** What the index knows of a corrected chunk. */
  lemma CorrectedChunk(t: Tables, sha: Hasher, c: Chunk)
    requires Inv(t, sha) && c in Rebuild(t) && c.source == UserCorrected
    ensures Current(t, c.blockId) && t.blocks[c.blockId].pageId == c.pageId && t.blocks[c.blockId].bookId == c.bookId
    ensures t.blocks[c.blockId].contentVersion == c.contentVersion
    ensures c.correctionId.Some? && c.correctionId.value in t.corrections
    ensures var row := t.corrections[c.correctionId.value];
            var content := t.blocks[c.blockId].content;
            && OnBlock(row, c) && row.state == Active && row.targetVersion == c.contentVersion
            && c.ordinal == ChunkOrdinal(content.ordinal, KindSlot(row.kind)) <= MAX_CHUNK_ORDINAL
            && c.correctionId == Some(StableCorrectionId(c.pageId, c.blockId, row.kind))
            && ProviderValue(content, row.kind).Some? && sha(ProviderValue(content, row.kind).value) == row.originalHash
            && sha(row.originalValue) == row.originalHash && row.correctedValue == c.text
  {
    RebuildMember(t, c);
    var slot :| ExpectedChunk(t, c.blockId, slot) == Some(c);
    assert BlockOk(t, c.blockId);
    assert CorrectionOk(t, c.correctionId.value, sha);
    var content := t.blocks[c.blockId].content;
    assert OrdinalsFit(content) && HasSlotValue(content, slot);
  }

  /** Both queries select the same corrected rows, so the two counts agree. */
  lemma QueriesAgree(t: Tables, sha: Hasher, bookId: Uuid)
    requires Inv(t, sha)
    ensures (set c | c in Rebuild(t) && c.source == UserCorrected && Visible(t, c, bookId))
            == (set c | c in Rebuild(t) && ProvenanceRow(t, c, bookId))
  {
    forall c | c in Rebuild(t) && c.source == UserCorrected ensures Visible(t, c, bookId) <==>
      ProvenanceRow(t, c, bookId) {
      CorrectedChunk(t, sha, c);
    }
  }

  predicate Collides(sha: Hasher, a: string, b: string) {
    a != b && sha(a) == sha(b)
  }

  /** The block's present value is another one with the hash of the value that was corrected. */
  predicate HidesNewValue(t: Tables, c: Chunk, sha: Hasher, bookId: Uuid)
    requires ProvenanceRow(t, c, bookId)
  {
    var row := t.corrections[c.correctionId.value];
    var value := ProviderValue(t.blocks[c.blockId].content, row.kind);
    value.Some? && Collides(sha, value.value, row.originalValue)
  }

  /**
   * The check of one row succeeds exactly when the corrected block still has the original value: only a hash collision
   * prevents it.
   */
  lemma ProvenanceExactly(t: Tables, sha: Hasher, bookId: Uuid, c: Chunk)
    requires Inv(t, sha) && c in Rebuild(t) && ProvenanceRow(t, c, bookId)
    ensures var row := t.corrections[c.correctionId.value];
            ProvenanceHolds(t, c, sha) <==>
              ProviderValue(t.blocks[c.blockId].content, row.kind) == Some(row.originalValue)
    ensures ProvenanceHolds(t, c, sha) <==> !HidesNewValue(t, c, sha, bookId)
  {
    CorrectedChunk(t, sha, c);
  }

  /** The row a rebuild has, but for the two columns the check does not look at. */
  predicate Genuine(t: Tables, c: Chunk, d: Chunk) {
    c == d.(locator := c.locator, tokenEstimate := c.tokenEstimate)
  }

  /**
   * Whatever rows the chunk table may hold, a corrected row that passes is one the rebuild has, but for its locator and
   * its token estimate.
   */
  lemma AcceptedIsGenuine(t: Tables, sha: Hasher, bookId: Uuid, c: Chunk)
    requires Inv(t, sha) && ProvenanceRow(t, c, bookId) && ProvenanceHolds(t, c, sha)
    ensures exists d :: d in Rebuild(t) && Genuine(t, c, d)
  {
    var row := t.corrections[c.correctionId.value];
    var slot := KindSlot(row.kind);
    var d := ExpectedChunk(t, c.blockId, slot).value;
    RebuildMember(t, d);
    assert d in Rebuild(t) && Genuine(t, c, d);
  }

  /** In every valid state the checker accepts the index it is shown, but for the row cap and hash collisions. */
  method CheckOverview(index: PageIndex, bookId: Uuid) returns (ok: bool)
    requires index.Valid()
    ensures var rows := set c | c in index.chunks && ProvenanceRow(index.Sources(), c, bookId);
            ok <==> |rows| <= MAX_OVERVIEW_CORRECTIONS && forall c | c in rows ::
              !HidesNewValue(index.Sources(), c, index.sha, bookId)
  {
    var t := Tables(index.runs, index.pages, index.blocks, index.corrections);
    var corrected := Summarize(t, index.chunks, bookId, UserCorrected);
    QueriesAgree(t, index.sha, bookId);
    forall c | c in index.chunks && ProvenanceRow(t, c, bookId)
      ensures ProvenanceHolds(t, c, index.sha) <==> !HidesNewValue(t, c, index.sha, bookId)
    {
      ProvenanceExactly(t, index.sha, bookId, c);
    }
    ok := VerifyActiveCorrectionProvenance(t, index.chunks, bookId, corrected.items, index.sha);
  }

  // ----- ownership

  predicate ChunkOwned(t: Tables, c: Chunk) {
    && c.pageId in t.pages && t.pages[c.pageId].bookId == c.bookId
    && c.blockId in t.blocks && t.blocks[c.blockId].bookId == c.bookId && t.blocks[c.blockId].pageId == c.pageId
    && (c.correctionId.Some? ==>
          c.correctionId.value in t.corrections && OnBlock(t.corrections[c.correctionId.value], c))
  }

  predicate BlockOwned(t: Tables, b: Block) {
    b.pageId in t.pages && t.pages[b.pageId].bookId == b.bookId && t.pages[b.pageId].runId == b.runId
  }

  predicate CorrectionOwned(t: Tables, row: Correction) {
    && row.pageId in t.pages && t.pages[row.pageId].bookId == row.bookId
    && row.targetBlockId in t.blocks && t.blocks[row.targetBlockId].bookId == row.bookId
    && t.blocks[row.targetBlockId].pageId == row.pageId
  }

  /** The ownership query finds nothing to object to among pages, blocks, corrections and chunks. */
  lemma OwnershipHolds(t: Tables, sha: Hasher)
    requires Inv(t, sha)
    ensures forall p | p in t.pages :: OwnedByRun(t, p)
    ensures forall b | b in t.blocks :: BlockOwned(t, t.blocks[b])
    ensures forall id | id in t.corrections :: CorrectionOwned(t, t.corrections[id])
    ensures forall c | c in Rebuild(t) :: ChunkOwned(t, c)
  {
    forall p | p in t.pages ensures OwnedByRun(t, p) { assert PageOk(t, p); }
    forall b | b in t.blocks ensures BlockOwned(t, t.blocks[b]) { assert BlockOk(t, b); }
    forall id | id in t.corrections ensures CorrectionOwned(t, t.corrections[id]) {
      assert CorrectionOk(t, id, sha);
      assert BlockOk(t, t.corrections[id].targetBlockId);
    }
    forall c | c in Rebuild(t) ensures ChunkOwned(t, c) {
      if c.source == UserCorrected {
        CorrectedChunk(t, sha, c);
        assert BlockOk(t, c.blockId);
      } else {
        RebuildMember(t, c);
        assert BlockOk(t, c.blockId);
      }
    }
  }
}
