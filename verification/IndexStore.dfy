/**
 * The page index as the program runs it: a transaction that edits rows step by step, and a store that keeps its chunks
 * in step.
 */
module IndexStore {
  import opened Results
  import opened Text
  import opened IndexModel
  import opened IndexTransitions
  import opened IndexInvariant
  import opened IndexRebuild

  /** An open transaction: a private copy of the tables, published only by a commit. */
  class Transaction {
    const runs: map<Uuid, Run>
    const sha: Hasher
    var pages: map<Uuid, Page>
    var blocks: map<Uuid, Block>
    var corrections: map<Uuid, Correction>
    var chunks: set<Chunk>

    constructor (t: Tables, chunks: set<Chunk>, sha: Hasher)
      ensures this.runs == t.runs && this.pages == t.pages && this.blocks == t.blocks
              && this.corrections == t.corrections
      ensures this.chunks == chunks && this.sha == sha
    {
      this.runs, this.pages, this.blocks, this.corrections := t.runs, t.pages, t.blocks, t.corrections;
      this.chunks, this.sha := chunks, sha;
    }

    // ----- commit.rs

    /** INSERT .. ON CONFLICT(id) DO UPDATE .. WHERE the stored row has the same owner. */
    method UpsertBlock(o: Owner, id: Uuid, block: ValidatedBlock, version: nat) returns (changed: bool)
      modifies this`blocks
      ensures changed <==> !ForeignRow(old(blocks), o, id)
      ensures blocks == if changed then old(blocks)[id := OwnedBlock(o, block, version)] else old(blocks)
    {
      if id in blocks
        && (blocks[id].pageId != o.pageId || blocks[id].runId != o.runId || blocks[id].bookId != o.bookId) {
        return false;
      }
      blocks := blocks[id := Block(o.pageId, o.runId, o.bookId, block, version)];
      changed := true;
    }

    method ReconcileExistingCorrections(o: Owner, blockId: Uuid, block: ValidatedBlock, version: nat) returns (ok: bool)
      modifies this`corrections
      ensures ok <==>
                forall c | c in old(corrections) && Targets(old(corrections)[c], o, blockId) ::
                  old(corrections)[c].revision < REVISION_CAP
      ensures ok ==> corrections.Keys == old(corrections).Keys
      ensures ok ==> forall c | c in corrections ::
                  corrections[c]
                    == if Targets(old(corrections)[c], o, blockId) then Reconciled(old(corrections)[c], block, version,
                    sha)
                                    else old(corrections)[c]
    {
      var rows := set c | c in corrections && Targets(corrections[c], o, blockId);
      var todo := rows;
      while todo != {}
        invariant todo <= rows
        invariant corrections.Keys == old(corrections).Keys
        invariant forall c | c in rows - todo :: old(corrections)[c].revision < REVISION_CAP
        invariant forall c | c in corrections ::
            corrections[c] == if c in rows - todo then Reconciled(old(corrections)[c], block, version, sha)
              else old(corrections)[c]
        decreases todo
      {
        var id :| id in todo;
        todo := todo - {id};
        var c := corrections[id];
        var value := ProviderValue(block, c.kind);
        var currentHash := if value.Some? then Some(sha(value.value)) else None;
        var next := if c.state == Active && currentHash == Some(c.originalHash) then Active else Conflict;
        if c.revision >= REVISION_CAP {
          return false;
        }
        corrections := corrections[id := c.(targetVersion := version, state := next, revision := c.revision + 1)];
      }
      ok := true;
    }

    /** A block the commit did not emit goes, unless a correction still needs it. */
    method DropOrOrphanBlock(pageId: Uuid, id: Uuid)
      modifies this`blocks, this`corrections
      ensures blocks == if HasCorrection(old(corrections), pageId, id) then old(blocks) else old(blocks) - {id}
      ensures corrections.Keys == old(corrections).Keys
      ensures forall c | c in corrections ::
                  corrections[c] == if old(corrections)[c].pageId == pageId && old(corrections)[c].targetBlockId == id
                                    then Orphaned(old(corrections)[c]) else old(corrections)[c]
    {
      var count := |set c | c in corrections && corrections[c].pageId == pageId && corrections[c].targetBlockId == id|;
      CountIsExists(corrections, pageId, id);
      if count == 0 {
        blocks := blocks - {id};
      } else {
        corrections := map c | c in corrections ::
          var row := corrections[c];
          if row.pageId == pageId && row.targetBlockId == id && row.revision < REVISION_CAP
          then row.(state := Conflict, revision := row.revision + 1) else row;
      }
    }

    /** What is left of the page's blocks and corrections once the blocks no longer emitted are dropped or orphaned. */
    method RetainOnlyCurrentOrCorrectedBlocks(pageId: Uuid, currentIds: set<Uuid>)
      modifies this`blocks, this`corrections
      ensures BlocksRetained(old(blocks), blocks, old(corrections), pageId, currentIds)
      ensures CorrectionsRetained(old(blocks), old(corrections), corrections, pageId, currentIds)
    {
      var rows := set id | id in blocks && blocks[id].pageId == pageId && id !in currentIds;
      var todo := rows;
      while todo != {}
        invariant todo <= rows
        invariant BlocksWithout(old(blocks), blocks, old(corrections), pageId, rows - todo)
        invariant OrphanedIn(old(corrections), corrections, pageId, rows - todo)
        decreases todo
      {
        var id :| id in todo;
        ghost var blocksWere, correctionsWere := blocks, corrections;
        SameRowsHave(corrections, old(corrections), pageId, id);
        DropOrOrphanBlock(pageId, id);
        DropOne(old(blocks), blocksWere, blocks, old(corrections), pageId, rows - todo, id);
        OrphanOne(old(corrections), correctionsWere, corrections, pageId, rows - todo, id);
        assert rows - (todo - {id}) == rows - todo + {id};
        todo := todo - {id};
      }
    }

    method InsertSearchChunk(row: Chunk) returns (error: Option<ErrorCode>)
      modifies this`chunks
      ensures error.None? <==> !Blank(row.text) && forall c | c in old(chunks) :: StableChunkId(c) != StableChunkId(row)
      ensures Blank(row.text) ==> error == Some(InvalidInput)
      ensures chunks == if error.None? then old(chunks) + {row} else old(chunks)
    {
      if Blank(row.text) {
        return Some(InvalidInput);
      }
      if exists c | c in chunks :: StableChunkId(c) == StableChunkId(row) {
        return Some(DatabaseError);
      }
      chunks := chunks + {row};
      error := None;
    }

    /** The corrections of one block, by the kind of value they correct. */
    method CorrectionsByKind(o: Owner, blockId: Uuid) returns (byKind: map<ValueKind, Uuid>)
      requires KeyedRows(corrections) && RowsOfBook(corrections, o)
      ensures forall kind ::
                var id := StableCorrectionId(o.pageId, blockId, kind);
                && (kind in byKind <==>
                      id in corrections && Targets(corrections[id], o, blockId) && corrections[id].kind == kind)
                && (kind in byKind ==> byKind[kind] == id)
    {
      var rows := set c | c in corrections && Targets(corrections[c], o, blockId);
      var todo := rows;
      byKind := map[];
      while todo != {}
        invariant todo <= rows
        invariant forall kind :: kind in byKind <==> StableCorrectionId(o.pageId, blockId, kind) in rows - todo
        invariant forall kind | kind in byKind :: byKind[kind] == StableCorrectionId(o.pageId, blockId, kind)
        decreases todo
      {
        var id :| id in todo;
        todo := todo - {id};
        byKind := byKind[corrections[id].kind := id];
      }
    }

    /** One correctable value: skipped in conflict, overlaid when corrected, the provider's own otherwise. */
    method InsertCorrectableSearchValue(pageNumber: nat, blockId: Uuid, block: Block, kind: ValueKind,
                                        byKind: map<ValueKind, Uuid>)
      returns (error: Option<ErrorCode>)
      requires ProviderValue(block.content, kind).Some? && !Blank(ProviderValue(block.content, kind).value)
      requires kind in byKind <==> StableCorrectionId(block.pageId, blockId, kind) in corrections
      requires kind in byKind ==> byKind[kind] == StableCorrectionId(block.pageId, blockId, kind)
      requires kind in byKind ==> !Blank(corrections[byKind[kind]].correctedValue)
      requires forall c | c in chunks && c.blockId == blockId ::
                 c.ordinal != ChunkOrdinal(block.content.ordinal, KindSlot(kind))
      modifies this`chunks
      ensures error.None? <==> ChunkOrdinal(block.content.ordinal, KindSlot(kind)) <= MAX_CHUNK_ORDINAL
      ensures error.Some? ==> error == Some(InvalidInput)
      ensures error.None? ==>
                var row := SlotChunk(corrections, pageNumber, blockId, block, KindSlot(kind));
                chunks == old(chunks) + if row.Some? then {row.value} else {}
    {
      var slot := KindSlot(kind);
      var ordinal := ChunkOrdinal(block.content.ordinal, slot);
      if ordinal > MAX_CHUNK_ORDINAL {
        return Some(InvalidInput);
      }
      var value;
      if kind in byKind {
        var c := corrections[byKind[kind]];
        if c.state == Conflict {
          return None;
        }
        value := SearchValue(UserCorrected, Some(byKind[kind]), c.correctedValue);
      } else {
        value := SearchValue(AiTranscribed, None, ProviderValue(block.content, kind).value);
      }
      error := InsertSearchChunk(MakeChunk(pageNumber, blockId, block, slot, value));
    }

    /** The text and LaTeX rows of a block. */
    method InsertCorrectableRows(o: Owner, blockId: Uuid, block: Block) returns (error: Option<ErrorCode>)
      requires ValidBlock(block.content) && block.pageId == o.pageId
      requires KeyedRows(corrections) && RowsOfBook(corrections, o)
      requires forall c | c in chunks :: c.blockId != blockId
      modifies this`chunks
      ensures error.None? <==> CorrectableRowsFit(block.content)
      ensures error.Some? ==> error == Some(InvalidInput)
      ensures error.None? ==>
                chunks == old(chunks) + SetOf(SlotChunk(corrections, o.pageNumber, blockId, block, TextSlot))
                          + SetOf(SlotChunk(corrections, o.pageNumber, blockId, block, LatexSlot))
      ensures error.None? ==>
                forall c | c in chunks && c.blockId == blockId ::
                  c.ordinal == ChunkOrdinal(block.content.ordinal, TextSlot)
                    || c.ordinal == ChunkOrdinal(block.content.ordinal, LatexSlot)
    {
      var byKind := CorrectionsByKind(o, blockId);
      error := None;
      if block.content.plainText.Some? {
        error := InsertCorrectableSearchValue(o.pageNumber, blockId, block, TextValue, byKind);
        if error.Some? { return; }
      }
      assert chunks == old(chunks) + SetOf(SlotChunk(corrections, o.pageNumber, blockId, block, TextSlot));
      if block.content.latex.Some? {
        error := InsertCorrectableSearchValue(o.pageNumber, blockId, block, LatexValue, byKind);
      }
    }

    /** The table and description rows of a block, which no correction overlays. */
    method InsertDerivedRows(o: Owner, blockId: Uuid, block: Block) returns (error: Option<ErrorCode>)
      requires ValidBlock(block.content)
      requires forall c | c in chunks && c.blockId == blockId ::
                 c.ordinal == ChunkOrdinal(block.content.ordinal, TextSlot)
                   || c.ordinal == ChunkOrdinal(block.content.ordinal, LatexSlot)
      modifies this`chunks
      ensures error.None? <==> DerivedRowsFit(block.content)
      ensures error.Some? ==> error == Some(InvalidInput)
      ensures error.None? ==>
                chunks == old(chunks) + SetOf(SlotChunk(corrections, o.pageNumber, blockId, block, TableSlot))
                          + SetOf(SlotChunk(corrections, o.pageNumber, blockId, block, DescriptionSlot))
    {
      error := None;
      if block.content.tableCells.Some? {
        if ChunkOrdinal(block.content.ordinal, TableSlot) > MAX_CHUNK_ORDINAL { return Some(InvalidInput); }
        JoinedCellsNotBlank(block.content.tableCells.value);
        var text := JoinLines(block.content.tableCells.value);
        error := InsertSearchChunk(MakeChunk(o.pageNumber, blockId, block, TableSlot,
                                             SearchValue(AiTranscribed, None, text)));
      }
      assert chunks == old(chunks) + SetOf(SlotChunk(corrections, o.pageNumber, blockId, block, TableSlot));
      if block.content.description.Some? {
        if ChunkOrdinal(block.content.ordinal, DescriptionSlot) > MAX_CHUNK_ORDINAL { return Some(InvalidInput); }
        error := InsertSearchChunk(
          MakeChunk(o.pageNumber, blockId, block, DescriptionSlot,
                    SearchValue(AiDescription, None, block.content.description.value)));
      }
    }

    method InsertBlockSearchRows(o: Owner, blockId: Uuid, content: ValidatedBlock, version: nat)
      returns (error: Option<ErrorCode>)
      requires ValidBlock(content)
      requires KeyedRows(corrections) && RowsOfBook(corrections, o)
      requires forall c | c in chunks :: c.blockId != blockId
      modifies this`chunks
      ensures error.None? <==> OrdinalsFit(content)
      ensures error.Some? ==> error == Some(InvalidInput)
      ensures error.None? ==>
                chunks == old(chunks) + BlockRows(corrections, o.pageNumber, blockId, OwnedBlock(o, content, version))
    {
      var block := Block(o.pageId, o.runId, o.bookId, content, version);
      OrdinalsFitBySlot(content);
      error := InsertCorrectableRows(o, blockId, block);
      if error.Some? { return; }
      error := InsertDerivedRows(o, blockId, block);
      BlockRowsBySlot(corrections, o.pageNumber, blockId, block);
    }

    /** One block is written, then meets the corrections that target it. */
    method WriteBlock(o: Owner, id: Uuid, block: ValidatedBlock, version: nat) returns (ok: bool)
      modifies this`blocks, this`corrections
      ensures ok <==> !BlockRefused(old(blocks), old(corrections), o, id)
      ensures ok ==> blocks == old(blocks)[id := OwnedBlock(o, block, version)]
      ensures ok ==> CorrectionsMet(old(corrections), corrections, o, map[id := block], version, sha)
    {
      ok := UpsertBlock(o, id, block, version);
      if ok {
        ok := ReconcileExistingCorrections(o, id, block, version);
      }
    }

    /** The block loop of a commit. */
    method WriteBlocks(o: Owner, content: seq<ValidatedBlock>, version: nat) returns (ok: bool)
      requires DistinctOrdinals(content)
      modifies this`blocks, this`corrections
      ensures ok <==> forall id | id in Emitted(o, content) :: !BlockRefused(old(blocks), old(corrections), o, id)
      ensures ok ==> BlocksWritten(old(blocks), blocks, o, Emitted(o, content), version)
      ensures ok ==> CorrectionsMet(old(corrections), corrections, o, Emitted(o, content), version, sha)
    {
      ghost var blocks0, corrections0 := blocks, corrections;
      for i := 0 to |content|
        invariant Written(blocks0, blocks, corrections0, corrections, o, Emitted(o, content[..i]), version, sha)
      {
        var id := BlockIdOf(o, content[i].ordinal);
        ghost var blocks1, corrections1 := blocks, corrections;
        ok := WriteBlock(o, id, content[i], version);
        EmittedGrows(o, content, i);
        EmittedHas(o, content, i);
        WrittenGrows(blocks0, blocks1, corrections0, corrections1, o, Emitted(o, content[..i]), id, content[i], version,
                     sha,
                     blocks, corrections, ok);
        if !ok { return; }
      }
      assert content[..|content|] == content;
      ok := true;
    }

    /** The last loop of a commit: every block inserts its search rows. */
    method InsertPageRows(o: Owner, content: seq<ValidatedBlock>, version: nat) returns (error: Option<ErrorCode>)
      requires forall b | b in content :: ValidBlock(b)
      requires DistinctOrdinals(content)
      requires KeyedRows(corrections) && RowsOfBook(corrections, o)
      requires forall c | c in chunks :: c.blockId !in Emitted(o, content)
      modifies this`chunks
      ensures error.None? <==> !SearchRowsFail(Emitted(o, content))
      ensures error.Some? ==> error == Some(InvalidInput)
      ensures error.None? ==> chunks == old(chunks) + PageRows(corrections, o, version, content)
    {
      for i := 0 to |content|
        invariant Inserted(old(chunks), chunks, corrections, o, version, content[..i])
      {
        var block := content[i];
        var id := BlockIdOf(o, block.ordinal);
        ghost var chunks1 := chunks;
        NotYetInserted(corrections, o, version, content, i, old(chunks), chunks);
        error := InsertBlockSearchRows(o, id, block, version);
        InsertedGrows(old(chunks), chunks1, chunks, corrections, o, version, content, i, error);
        if error.Some? { return; }
      }
      assert content[..|content|] == content;
      error := None;
    }

    /** The first half of a commit: the blocks are written, and what they replace is dropped or orphaned. */
    method CommitBlocks(o: Owner, content: seq<ValidatedBlock>, version: nat, ctl: CommitControl)
      returns (error: Option<ErrorCode>)
      requires DistinctOrdinals(content)
      modifies this`blocks, this`corrections
      ensures error == BlocksOutcome(Tables(runs, pages, old(blocks), old(corrections)), o, Emitted(o, content), ctl)
      ensures error.None? ==>
                RowsCommitted(Tables(runs, pages, old(blocks), old(corrections)), blocks, corrections, o,
                              Emitted(o, content), version, sha)
    {
      ghost var t := Tables(runs, pages, blocks, corrections);
      ghost var em := Emitted(o, content);
      RefusalsOfCommit(t, o, em);
      var written := WriteBlocks(o, content, version);
      if !written { return Some(RequestConflict); }
      if ctl.fault == Some(BlockInsert) { return Some(DatabaseError); }
      ghost var blocks1, corrections1 := blocks, corrections;
      RetainOnlyCurrentOrCorrectedBlocks(o.pageId, Emitted(o, content).Keys);
      RetainedBlocks(t, blocks1, blocks, corrections1, o, em, version, sha);
      RetainedCorrections(t, blocks1, corrections1, corrections, o, em, version, sha);
      error := None;
    }

    /** Everything a commit writes before it sets the page's status. */
    method CommitRows(o: Owner, content: seq<ValidatedBlock>, version: nat, ctl: CommitControl)
      returns (error: Option<ErrorCode>)
      requires forall b | b in content :: ValidBlock(b)
      requires DistinctOrdinals(content)
      requires KeyedRows(corrections) && RowsOfBook(corrections, o)
      requires forall c | c in chunks && c.pageId != o.pageId :: c.blockId !in Emitted(o, content)
      modifies this`blocks, this`corrections, this`chunks
      ensures error == RowsOutcome(Tables(runs, pages, old(blocks), old(corrections)), o, Emitted(o, content), ctl)
      ensures error.None? ==>
                RowsCommitted(Tables(runs, pages, old(blocks), old(corrections)), blocks, corrections, o,
                              Emitted(o, content), version, sha)
      ensures error.None? ==>
                chunks == OtherPages(old(chunks), o.pageId) + PageRows(corrections, o, version, content)
    {
      ghost var t := Tables(runs, pages, blocks, corrections);
      chunks := OtherPages(chunks, o.pageId);
      error := CommitBlocks(o, content, version, ctl);
      if error.Some? { return; }
      CommittedRowsStay(t, o, Emitted(o, content), version, sha);
      error := InsertPageRows(o, content, version);
      if error.None? && ctl.fault == Some(SearchInsert) { return Some(DatabaseError); }
    }

    /** The final update of a commit. */
    method SetPageStatus(req: CommitRequest, version: nat)
      requires req.pageId in pages && version == pages[req.pageId].contentVersion + 1
      modifies this`pages
      ensures pages == old(pages)[req.pageId := CommittedPage(old(pages)[req.pageId], req)]
    {
      var page := pages[req.pageId];
      var status := if req.page.reviewReason.Some? then NeedsReview else Indexed;
      var life := page.life.(status := status, reviewReason := req.page.reviewReason, failure := None,
                             retryable := false, updatedAt := req.now);
      var row := page.(contentVersion := version, life := life);
      assert row == CommittedPage(page, req);
      pages := pages[req.pageId := row];
    }

    /** Every write of a commit. */
    method StagePage(req: CommitRequest, o: Owner, version: nat, ctl: CommitControl) returns (failed: Option<ErrorCode>)
      requires ValidPage(req.page) && OwnedByRun(Tables(runs, pages, blocks, corrections), req.pageId)
      requires o == OwnerOf(Tables(runs, pages, blocks, corrections), req.pageId)
               && version == pages[req.pageId].contentVersion + 1
      requires Prepared(Tables(runs, pages, blocks, corrections), chunks, req)
      modifies this
      ensures failed
              == StageOutcome(Tables(runs, old(pages), old(blocks), old(corrections)), o, Emitted(o, req.page.blocks),
                              ctl)
      ensures failed.None? ==>
                Staged(Tables(runs, old(pages), old(blocks), old(corrections)), old(chunks), req, sha, runs, pages,
                       blocks, corrections, chunks)
    {
      failed := CommitRows(o, req.page.blocks, version, ctl);
      if failed.None? {
        if ctl.cancelledBeforeStatus {
          failed := Some(ImportCancelled);
        } else {
          SetPageStatus(req, version);
          failed := if ctl.fault == Some(StatusUpdate) then Some(DatabaseError) else None;
        }
      }
    }

    // ----- corrections.rs

    method RefreshSearchValue(target: Target, overlay: SearchValue) returns (error: Option<ErrorCode>)
      requires target.blockId in blocks && target.pageId in pages
      requires forall c | c in chunks && c.blockId == target.blockId
                          && c.ordinal == ChunkOrdinal(blocks[target.blockId].content.ordinal, KindSlot(target.kind)) ::
                 Refreshed(c, target.pageId, target.blockId, blocks[target.blockId].contentVersion,
                           ChunkOrdinal(blocks[target.blockId].content.ordinal, KindSlot(target.kind)))
      modifies this`chunks
      ensures error.None? <==> RefreshFits(Tables(runs, pages, blocks, corrections), target.blockId, target.kind)
      ensures error.Some? ==> error == Some(InvalidInput)
      ensures error.None? ==>
                var block := blocks[target.blockId];
                var ordinal := ChunkOrdinal(block.content.ordinal, KindSlot(target.kind));
                chunks == (set c | c in old(chunks)
                           && !Refreshed(c, target.pageId, target.blockId, block.contentVersion, ordinal))
                          + {MakeChunk(pages[target.pageId].pageNumber, target.blockId, block, KindSlot(target.kind),
                                       overlay)}
    {
      var block := blocks[target.blockId];
      var ordinal := ChunkOrdinal(block.content.ordinal, KindSlot(target.kind));
      if ordinal > MAX_CHUNK_ORDINAL {
        return Some(InvalidInput);
      }
      var row := MakeChunk(pages[target.pageId].pageNumber, target.blockId, block, KindSlot(target.kind), overlay);
      chunks := set c | c in chunks && !Refreshed(c, target.pageId, target.blockId, block.contentVersion, ordinal);
      if exists c | c in chunks :: StableChunkId(c) == StableChunkId(row) {
        return Some(DatabaseError);
      }
      chunks := chunks + {row};
      error := None;
    }

    method RemoveUnreferencedStaleBlock(pageId: Uuid, blockId: Uuid, version: nat)
      modifies this`blocks
      ensures blocks == if !HasCorrection(corrections, pageId, blockId) && blockId in old(blocks)
                           && old(blocks)[blockId].pageId == pageId && old(blocks)[blockId].contentVersion != version
                        then old(blocks) - {blockId} else old(blocks)
    {
      var remaining :=
        |set c | c in corrections && corrections[c].pageId == pageId && corrections[c].targetBlockId == blockId|;
      CountIsExists(corrections, pageId, blockId);
      if remaining == 0 && blockId in blocks && blocks[blockId].pageId == pageId
        && blocks[blockId].contentVersion != version {
        blocks := blocks - {blockId};
      }
    }
  }

  /** The block table after the blocks of `em` were written. */
  ghost predicate BlocksWritten(before: map<Uuid, Block>, now: map<Uuid, Block>, o: Owner, em: map<Uuid,
                                ValidatedBlock>, version: nat)
  {
    && now.Keys == before.Keys + em.Keys
    && forall id | id in now :: now[id] == if id in em then OwnedBlock(o, em[id], version) else before[id]
  }

  /** The correction table after every correction of a block in `em` met that block. */
  ghost predicate CorrectionsMet(before: map<Uuid, Correction>, now: map<Uuid, Correction>, o: Owner,
                                 em: map<Uuid, ValidatedBlock>, version: nat, sha: Hasher)
  {
    && now.Keys == before.Keys
    && forall c | c in now ::
        now[c] == if before[c].targetBlockId in em && Targets(before[c], o, before[c].targetBlockId)
                  then Reconciled(before[c], em[before[c].targetBlockId], version, sha) else before[c]
  }

  lemma EmittedGrows(o: Owner, content: seq<ValidatedBlock>, i: nat)
    requires i < |content|
    requires DistinctOrdinals(content)
    ensures Emitted(o, content[..i + 1]) == Emitted(o, content[..i])[BlockIdOf(o, content[i].ordinal) := content[i]]
    ensures BlockIdOf(o, content[i].ordinal) !in Emitted(o, content[..i])
  {
    assert content[..i + 1][..i] == content[..i];
  }

  lemma {:induction false} EmittedHas(o: Owner, content: seq<ValidatedBlock>, i: nat)
    requires i < |content|
    requires DistinctOrdinals(content)
    ensures var id := BlockIdOf(o, content[i].ordinal);
            id in Emitted(o, content) && Emitted(o, content)[id] == content[i]
  {
    var id := BlockIdOf(o, content[i].ordinal);
    assert content[i] in content;
    assert id in Emitted(o, content);
    assert id == BlockIdOf(o, Emitted(o, content)[id].ordinal);
    var j :| 0 <= j < |content| && content[j] == Emitted(o, content)[id];
    assert content[j].ordinal == content[i].ordinal;
  }

  /** A block whose id somebody else holds, or one of whose corrections is at the revision cap. */
  ghost predicate BlockRefused(blocks: map<Uuid, Block>, corrections: map<Uuid, Correction>, o: Owner, id: Uuid) {
    ForeignRow(blocks, o, id)
    || exists c | c in corrections :: Targets(corrections[c], o, id) && corrections[c].revision >= REVISION_CAP
  }

  /** Writing other blocks does not change whether this one is refused. */
  lemma SameRefusal(blocks: map<Uuid, Block>, blocks': map<Uuid, Block>, corrections: map<Uuid, Correction>,
                    corrections': map<Uuid, Correction>, o: Owner, done: map<Uuid, ValidatedBlock>, id: Uuid,
                      version: nat, sha: Hasher)
    requires BlocksWritten(blocks, blocks', o, done, version)
    requires CorrectionsMet(corrections, corrections', o, done, version, sha)
    requires id !in done
    ensures BlockRefused(blocks', corrections', o, id) == BlockRefused(blocks, corrections, o, id)
  {
    forall c | c in corrections
      ensures Targets(corrections[c], o, id) == Targets(corrections'[c], o, id)
      ensures Targets(corrections[c], o, id) ==> corrections'[c] == corrections[c]
    {
    }
  }

  /** One more block: the corrections that target it had not been met before. */
  lemma MetGrows(before: map<Uuid, Correction>, mid: map<Uuid, Correction>, now: map<Uuid, Correction>, o: Owner,
                 done: map<Uuid, ValidatedBlock>, id: Uuid, block: ValidatedBlock, version: nat, sha: Hasher)
    requires CorrectionsMet(before, mid, o, done, version, sha)
    requires CorrectionsMet(mid, now, o, map[id := block], version, sha)
    requires id !in done
    ensures CorrectionsMet(before, now, o, done[id := block], version, sha)
  {
  }

  /** The blocks left once those of `gone` are dropped unless a correction needs them. */
  ghost predicate BlocksWithout(before: map<Uuid, Block>, now: map<Uuid, Block>, corrections: map<Uuid, Correction>,
                                pageId: Uuid, gone: set<Uuid>)
  {
    && (forall id :: id in now <==> id in before && (id !in gone || HasCorrection(corrections, pageId, id)))
    && forall id | id in now :: now[id] == before[id]
  }

  ghost predicate OrphanedIn(before: map<Uuid, Correction>, now: map<Uuid, Correction>, pageId: Uuid, gone: set<Uuid>) {
    && now.Keys == before.Keys
    && forall c | c in now ::
        now[c] == if before[c].pageId == pageId && before[c].targetBlockId in gone then Orphaned(before[c])
          else before[c]
  }

  lemma DropOne(before: map<Uuid, Block>, was: map<Uuid, Block>, now: map<Uuid, Block>, corrections: map<Uuid,
                Correction>,
                pageId: Uuid, gone: set<Uuid>, id: Uuid)
    requires BlocksWithout(before, was, corrections, pageId, gone)
    requires now == if HasCorrection(corrections, pageId, id) then was else was - {id}
    ensures BlocksWithout(before, now, corrections, pageId, gone + {id})
  {
  }

  lemma OrphanOne(before: map<Uuid, Correction>, was: map<Uuid, Correction>, now: map<Uuid, Correction>, pageId: Uuid,
                  gone: set<Uuid>, id: Uuid)
    requires OrphanedIn(before, was, pageId, gone) && id !in gone && now.Keys == was.Keys
    requires forall c | c in now ::
               now[c] == if was[c].pageId == pageId && was[c].targetBlockId == id then Orphaned(was[c]) else was[c]
    ensures OrphanedIn(before, now, pageId, gone + {id})
  {
  }

  ghost predicate BlocksRetained(before: map<Uuid, Block>, now: map<Uuid, Block>, corrections: map<Uuid, Correction>,
                                 pageId: Uuid, currentIds: set<Uuid>)
  {
    && (forall id :: id in now <==>
          id in before && (id in currentIds || before[id].pageId != pageId || HasCorrection(corrections, pageId, id)))
    && forall id | id in now :: now[id] == before[id]
  }

  ghost predicate CorrectionsRetained(blocks: map<Uuid, Block>, before: map<Uuid, Correction>, now: map<Uuid,
                                      Correction>,
                                      pageId: Uuid, currentIds: set<Uuid>)
  {
    && now.Keys == before.Keys
    && forall c | c in now ::
        now[c] ==
        var row := before[c];
        if row.pageId == pageId && row.targetBlockId !in currentIds
           && row.targetBlockId in blocks && blocks[row.targetBlockId].pageId == pageId
        then Orphaned(row) else row
  }

  ghost predicate RowsCommitted(t: Tables, blocks: map<Uuid, Block>, corrections: map<Uuid, Correction>, o: Owner,
                                em: map<Uuid, ValidatedBlock>, version: nat, sha: Hasher)
  {
    blocks == CommittedBlocks(t, o, em, version) && corrections == CommittedCorrections(t, o, em, version, sha)
  }

  /** The first error of a commit whose page passed its checks. */
  ghost function StageOutcome(t: Tables, o: Owner, em: map<Uuid, ValidatedBlock>,
                              ctl: CommitControl): Option<ErrorCode>
  {
    if RowsOutcome(t, o, em, ctl).Some? then RowsOutcome(t, o, em, ctl)
    else if ctl.cancelledBeforeStatus then Some(ImportCancelled)
    else if ctl.fault == Some(StatusUpdate) then Some(DatabaseError)
    else None
  }

  ghost predicate Prepared(t: Tables, chunks: set<Chunk>, req: CommitRequest)
    requires OwnedByRun(t, req.pageId)
  {
    var o := OwnerOf(t, req.pageId);
    && KeyedRows(t.corrections) && RowsOfBook(t.corrections, o)
    && forall c | c in chunks && c.pageId != o.pageId :: c.blockId !in Emitted(o, req.page.blocks)
  }

  ghost predicate Staged(t: Tables, before: set<Chunk>, req: CommitRequest, sha: Hasher, runs: map<Uuid, Run>,
                         pages: map<Uuid, Page>,
                         blocks: map<Uuid, Block>, corrections: map<Uuid, Correction>, chunks: set<Chunk>)
    requires OwnedByRun(t, req.pageId)
  {
    var o := OwnerOf(t, req.pageId);
    var version := t.pages[req.pageId].contentVersion + 1;
    && runs == t.runs
    && pages == t.pages[req.pageId := CommittedPage(t.pages[req.pageId], req)]
    && RowsCommitted(t, blocks, corrections, o, Emitted(o, req.page.blocks), version, sha)
    && chunks == OtherPages(before, o.pageId) + PageRows(corrections, o, version, req.page.blocks)
  }

  /** How far the block loop has come. */
  ghost predicate Written(blocks: map<Uuid, Block>, blocks': map<Uuid, Block>, corrections: map<Uuid, Correction>,
                          corrections': map<Uuid, Correction>, o: Owner, done: map<Uuid, ValidatedBlock>, version: nat,
                            sha: Hasher)
  {
    && BlocksWritten(blocks, blocks', o, done, version)
    && CorrectionsMet(corrections, corrections', o, done, version, sha)
    && forall id {:trigger BlockRefused(blocks, corrections, o, id)} | id in done ::
         !BlockRefused(blocks, corrections, o, id)
  }

  lemma WrittenGrows(blocks: map<Uuid, Block>, blocks1: map<Uuid, Block>, corrections: map<Uuid, Correction>,
                     corrections1: map<Uuid, Correction>, o: Owner, done: map<Uuid, ValidatedBlock>, id: Uuid,
                     block: ValidatedBlock, version: nat, sha: Hasher,
                     blocks2: map<Uuid, Block>, corrections2: map<Uuid, Correction>, ok: bool)
    requires Written(blocks, blocks1, corrections, corrections1, o, done, version, sha)
    requires id !in done
    requires ok <==> !BlockRefused(blocks1, corrections1, o, id)
    requires ok ==> blocks2 == blocks1[id := OwnedBlock(o, block, version)]
    requires ok ==> CorrectionsMet(corrections1, corrections2, o, map[id := block], version, sha)
    ensures ok ==> Written(blocks, blocks2, corrections, corrections2, o, done[id := block], version, sha)
    ensures !ok ==> BlockRefused(blocks, corrections, o, id)
  {
    SameRefusal(blocks, blocks1, corrections, corrections1, o, done, id, version, sha);
    if ok { MetGrows(corrections, corrections1, corrections2, o, done, id, block, version, sha); }
  }

  /** The refusals of the single blocks are the refusals of the commit. */
  lemma RefusalsOfCommit(t: Tables, o: Owner, em: map<Uuid, ValidatedBlock>)
    ensures (forall id {:trigger BlockRefused(t.blocks, t.corrections, o, id)} | id in em ::
               !BlockRefused(t.blocks, t.corrections, o, id))
            <==> !UpsertFails(t, o, em) && !ReconcileFails(t, o, em)
  {
    if UpsertFails(t, o, em) {
      var id :| id in em && ForeignRow(t.blocks, o, id);
      assert BlockRefused(t.blocks, t.corrections, o, id);
    }
    if ReconcileFails(t, o, em) {
      var c :| c in t.corrections && t.corrections[c].targetBlockId in em
               && Targets(t.corrections[c], o, t.corrections[c].targetBlockId)
               && t.corrections[c].revision >= REVISION_CAP;
      assert BlockRefused(t.blocks, t.corrections, o, t.corrections[c].targetBlockId);
    }
    forall id | id in em && BlockRefused(t.blocks, t.corrections, o, id)
      ensures UpsertFails(t, o, em) || ReconcileFails(t, o, em) {
    }
  }

  /** Corrections sit under their stable ids and hold a value that can be searched. */
  ghost predicate KeyedRows(corrections: map<Uuid, Correction>) {
    forall c | c in corrections ::
      c == StableCorrectionId(corrections[c].pageId, corrections[c].targetBlockId, corrections[c].kind)
      && !Blank(corrections[c].correctedValue)
  }

  ghost predicate RowsOfBook(corrections: map<Uuid, Correction>, o: Owner) {
    forall c | c in corrections && corrections[c].pageId == o.pageId :: corrections[c].bookId == o.bookId
  }

  /** The blocks kept after the emitted ones were written are the ones the transition keeps. */
  lemma RetainedBlocks(t: Tables, blocks1: map<Uuid, Block>, blocks2: map<Uuid, Block>, corrections1: map<Uuid,
                       Correction>,
                       o: Owner, em: map<Uuid, ValidatedBlock>, version: nat, sha: Hasher)
    requires BlocksWritten(t.blocks, blocks1, o, em, version)
    requires CorrectionsMet(t.corrections, corrections1, o, em, version, sha)
    requires BlocksRetained(blocks1, blocks2, corrections1, o.pageId, em.Keys)
    ensures blocks2 == CommittedBlocks(t, o, em, version)
  {
    forall id ensures HasCorrection(corrections1, o.pageId, id) == HasCorrection(t.corrections, o.pageId, id) {
      SameRowsHave(corrections1, t.corrections, o.pageId, id);
    }
  }

  /** A correction is reconciled or orphaned, never both. */
  lemma RetainedCorrection(t: Tables, blocks1: map<Uuid, Block>, corrections1: map<Uuid, Correction>,
                           corrections2: map<Uuid, Correction>,
                           o: Owner, em: map<Uuid, ValidatedBlock>, version: nat, sha: Hasher, c: Uuid)
    requires BlocksWritten(t.blocks, blocks1, o, em, version)
    requires CorrectionsMet(t.corrections, corrections1, o, em, version, sha)
    requires CorrectionsRetained(blocks1, corrections1, corrections2, o.pageId, em.Keys)
    requires c in t.corrections
    ensures c in corrections2 && corrections2[c] == CommittedCorrection(t, o, em, version, sha, t.corrections[c])
  {
    var target := t.corrections[c].targetBlockId;
    if target in em {
      assert corrections2[c] == corrections1[c];
    } else {
      assert corrections1[c] == t.corrections[c];
      assert target in blocks1 <==> target in t.blocks;
      assert target in t.blocks ==> blocks1[target] == t.blocks[target];
    }
  }

  lemma RetainedCorrections(t: Tables, blocks1: map<Uuid, Block>, corrections1: map<Uuid, Correction>,
                            corrections2: map<Uuid, Correction>,
                            o: Owner, em: map<Uuid, ValidatedBlock>, version: nat, sha: Hasher)
    requires BlocksWritten(t.blocks, blocks1, o, em, version)
    requires CorrectionsMet(t.corrections, corrections1, o, em, version, sha)
    requires CorrectionsRetained(blocks1, corrections1, corrections2, o.pageId, em.Keys)
    ensures corrections2 == CommittedCorrections(t, o, em, version, sha)
  {
    forall c | c in t.corrections
      ensures c in corrections2 && corrections2[c] == CommittedCorrection(t, o, em, version, sha, t.corrections[c])
    {
      RetainedCorrection(t, blocks1, corrections1, corrections2, o, em, version, sha, c);
    }
  }

  /** A commit keeps ids, books and corrected values. */
  lemma CommittedRowsStay(t: Tables, o: Owner, em: map<Uuid, ValidatedBlock>, version: nat, sha: Hasher)
    requires KeyedRows(t.corrections) && RowsOfBook(t.corrections, o)
    ensures var now := CommittedCorrections(t, o, em, version, sha); KeyedRows(now) && RowsOfBook(now, o)
  {
    var now := CommittedCorrections(t, o, em, version, sha);
    forall c | c in now
      ensures now[c].pageId == t.corrections[c].pageId && now[c].targetBlockId == t.corrections[c].targetBlockId
      ensures now[c].kind == t.corrections[c].kind && now[c].correctedValue == t.corrections[c].correctedValue
      ensures now[c].bookId == t.corrections[c].bookId
    {
    }
  }

  /** What a valid index gives a commit to start from. */
  lemma CommitPrepared(t: Tables, req: CommitRequest, o: Owner, sha: Hasher)
    requires Inv(t, sha) && OwnedByRun(t, req.pageId) && o == OwnerOf(t, req.pageId)
    ensures KeyedRows(t.corrections) && RowsOfBook(t.corrections, o)
    ensures forall c | c in Rebuild(t) && c.pageId != o.pageId :: c.blockId !in Emitted(o, req.page.blocks)
  {
    forall c | c in t.corrections
      ensures c == StableCorrectionId(t.corrections[c].pageId, t.corrections[c].targetBlockId, t.corrections[c].kind)
      ensures !Blank(t.corrections[c].correctedValue)
      ensures t.corrections[c].pageId == o.pageId ==> t.corrections[c].bookId == o.bookId
    {
      assert CorrectionOk(t, c, sha);
      assert BlockOk(t, t.corrections[c].targetBlockId);
    }
    forall c | c in Rebuild(t) && c.pageId != o.pageId ensures c.blockId !in Emitted(o, req.page.blocks) {
      RebuildMember(t, c);
      assert BlockOk(t, c.blockId);
      assert PageOk(t, c.pageId) && PageOk(t, o.pageId);
      var em := Emitted(o, req.page.blocks);
      assert c.blockId in em ==> c.blockId == BlockIdOf(o, em[c.blockId].ordinal);
    }
  }

  /** How far the search rows have come. */
  ghost predicate Inserted(others: set<Chunk>, chunks: set<Chunk>, corrections: map<Uuid, Correction>, o: Owner,
                           version: nat,
                           content: seq<ValidatedBlock>)
  {
    chunks == others + PageRows(corrections, o, version, content) && !SearchRowsFail(Emitted(o, content))
  }

  lemma InsertedGrows(others: set<Chunk>, chunks1: set<Chunk>, chunks2: set<Chunk>, corrections: map<Uuid, Correction>,
                      o: Owner,
                      version: nat, content: seq<ValidatedBlock>, i: nat, error: Option<ErrorCode>)
    requires i < |content| && DistinctOrdinals(content)
    requires Inserted(others, chunks1, corrections, o, version, content[..i])
    requires error.None? <==> OrdinalsFit(content[i])
    requires error.None? ==>
               chunks2 == chunks1
                 + BlockRows(corrections, o.pageNumber, BlockIdOf(o, content[i].ordinal),
                             OwnedBlock(o, content[i], version))
    ensures error.None? ==> Inserted(others, chunks2, corrections, o, version, content[..i + 1])
    ensures error.Some? ==> SearchRowsFail(Emitted(o, content))
  {
    EmittedGrows(o, content, i);
    EmittedHas(o, content, i);
    PageRowsGrow(corrections, o, version, content, i);
    if error.None? {
      SearchFailureGrows(Emitted(o, content[..i]), BlockIdOf(o, content[i].ordinal), content[i]);
    } else {
      SearchFailureOf(Emitted(o, content), BlockIdOf(o, content[i].ordinal));
    }
  }

  lemma SearchFailureGrows(em: map<Uuid, ValidatedBlock>, id: Uuid, block: ValidatedBlock)
    requires !SearchRowsFail(em) && OrdinalsFit(block)
    ensures !SearchRowsFail(em[id := block])
  {
  }

  lemma SearchFailureOf(em: map<Uuid, ValidatedBlock>, id: Uuid)
    requires id in em && !OrdinalsFit(em[id])
    ensures SearchRowsFail(em)
  {
  }

  /** The next block has no row yet. */
  lemma NotYetInserted(corrections: map<Uuid, Correction>, o: Owner, version: nat, content: seq<ValidatedBlock>, i: nat,
                       others: set<Chunk>, chunks: set<Chunk>)
    requires i < |content|
    requires DistinctOrdinals(content)
    requires forall c | c in others :: c.blockId !in Emitted(o, content)
    ensures Inserted(others, chunks, corrections, o, version, content[..i]) ==>
              forall c | c in chunks :: c.blockId != BlockIdOf(o, content[i].ordinal)
  {
    EmittedGrows(o, content, i);
    EmittedHas(o, content, i);
    forall c | c in chunks && Inserted(others, chunks, corrections, o, version, content[..i])
      ensures c.blockId != BlockIdOf(o, content[i].ordinal)
    {
      if c !in others { PageRowsBlock(corrections, o, version, content[..i], c); }
    }
  }

  lemma CountIsExists(corrections: map<Uuid, Correction>, pageId: Uuid, blockId: Uuid)
    ensures |set c | c in corrections && corrections[c].pageId == pageId
            && corrections[c].targetBlockId == blockId| != 0 <==>
            HasCorrection(corrections, pageId, blockId)
  {
    var rows := set c | c in corrections && corrections[c].pageId == pageId && corrections[c].targetBlockId == blockId;
    if HasCorrection(corrections, pageId, blockId) {
      var c :| c in corrections && corrections[c].pageId == pageId && corrections[c].targetBlockId == blockId;
      assert c in rows;
    }
  }

  /** Whether a block has corrections depends on the columns that name their target. */
  lemma SameRowsHave(now: map<Uuid, Correction>, before: map<Uuid, Correction>, pageId: Uuid, blockId: Uuid)
    requires now.Keys == before.Keys
    requires forall c | c in now :: now[c].pageId == before[c].pageId && now[c].targetBlockId == before[c].targetBlockId
    ensures HasCorrection(now, pageId, blockId) == HasCorrection(before, pageId, blockId)
  {
    if HasCorrection(before, pageId, blockId) {
      var c :| c in before && before[c].pageId == pageId && before[c].targetBlockId == blockId;
      assert c in now && now[c].pageId == pageId && now[c].targetBlockId == blockId;
    }
  }

  lemma {:induction false} JoinedCellsNotBlank(cells: seq<string>)
    requires cells != [] && forall cell | cell in cells :: !Blank(cell)
    ensures !Blank(JoinLines(cells))
  {
    assert !Blank(cells[0]);
    var i :| 0 <= i < |cells[0]| && !IsWhitespace(cells[0][i]);
    assert JoinLines(cells)[i] == cells[0][i];
  }

  predicate CorrectableRowsFit(b: ValidatedBlock) {
    && (b.plainText.Some? ==> ChunkOrdinal(b.ordinal, TextSlot) <= MAX_CHUNK_ORDINAL)
    && (b.latex.Some? ==> ChunkOrdinal(b.ordinal, LatexSlot) <= MAX_CHUNK_ORDINAL)
  }

  predicate DerivedRowsFit(b: ValidatedBlock) {
    && (b.tableCells.Some? ==> ChunkOrdinal(b.ordinal, TableSlot) <= MAX_CHUNK_ORDINAL)
    && (b.description.Some? ==> ChunkOrdinal(b.ordinal, DescriptionSlot) <= MAX_CHUNK_ORDINAL)
  }

  lemma OrdinalsFitBySlot(b: ValidatedBlock)
    ensures OrdinalsFit(b) <==> CorrectableRowsFit(b) && DerivedRowsFit(b)
  {
    assert HasSlotValue(b, TextSlot) == b.plainText.Some?;
    assert HasSlotValue(b, LatexSlot) == b.latex.Some?;
    assert HasSlotValue(b, TableSlot) == b.tableCells.Some?;
    assert HasSlotValue(b, DescriptionSlot) == b.description.Some?;
  }

  ghost function SetOf(row: Option<Chunk>): set<Chunk> {
    if row.Some? then {row.value} else {}
  }

  lemma BlockRowsBySlot(corrections: map<Uuid, Correction>, pageNumber: nat, blockId: Uuid, block: Block)
    ensures BlockRows(corrections, pageNumber, blockId, block)
            == SetOf(SlotChunk(corrections, pageNumber, blockId, block, TextSlot))
               + SetOf(SlotChunk(corrections, pageNumber, blockId, block, LatexSlot))
               + SetOf(SlotChunk(corrections, pageNumber, blockId, block, TableSlot))
               + SetOf(SlotChunk(corrections, pageNumber, blockId, block, DescriptionSlot))
  {
    forall c
      ensures c in BlockRows(corrections, pageNumber, blockId, block) <==>
              c in SetOf(SlotChunk(corrections, pageNumber, blockId, block, TextSlot))
                   + SetOf(SlotChunk(corrections, pageNumber, blockId, block, LatexSlot))
                   + SetOf(SlotChunk(corrections, pageNumber, blockId, block, TableSlot))
                   + SetOf(SlotChunk(corrections, pageNumber, blockId, block, DescriptionSlot))
    {
      BlockRowsMember(corrections, pageNumber, blockId, block, c);
    }
  }
}
