/** How each transaction changes the from-scratch chunk table. */
module IndexRebuild {
  import opened Results
  import opened Text
  import opened IndexModel
  import opened IndexTransitions
  import opened IndexInvariant

  /** The rows that stay when one page's rows are deleted. */
  function OtherPages(chunks: set<Chunk>, pageId: Uuid): set<Chunk> {
    set c | c in chunks && c.pageId != pageId
  }

  /** The rows one block contributes. */
  ghost function BlockRows(corrections: map<Uuid, Correction>, pageNumber: nat, blockId: Uuid,
                           block: Block): set<Chunk>
  {
    set slot: Slot | SlotChunk(corrections, pageNumber, blockId, block, slot).Some?
      :: SlotChunk(corrections, pageNumber, blockId, block, slot).value
  }

  /** The rows a commit inserts, block by block. */
  ghost function PageRows(corrections: map<Uuid, Correction>, o: Owner, version: nat,
                          blocks: seq<ValidatedBlock>): set<Chunk>
  {
    if blocks == [] then {}
    else
      var last := blocks[|blocks| - 1];
      PageRows(corrections, o, version, blocks[..|blocks| - 1])
      + BlockRows(corrections, o.pageNumber, BlockIdOf(o, last.ordinal), OwnedBlock(o, last, version))
  }

  lemma RebuildMember(t: Tables, c: Chunk)
    ensures c in Rebuild(t) <==>
            Current(t, c.blockId) && exists slot :: ExpectedChunk(t, c.blockId, slot) == Some(c)
  {
    if Current(t, c.blockId) && exists slot :: ExpectedChunk(t, c.blockId, slot) == Some(c) {
      var slot :| ExpectedChunk(t, c.blockId, slot) == Some(c);
      assert ExpectedChunk(t, c.blockId, slot).value in Rebuild(t);
    }
  }

  lemma BlockRowsMember(corrections: map<Uuid, Correction>, pageNumber: nat, blockId: Uuid, block: Block, c: Chunk)
    ensures c in BlockRows(corrections, pageNumber, blockId, block) <==>
            exists slot :: SlotChunk(corrections, pageNumber, blockId, block, slot) == Some(c)
  {
    if exists slot :: SlotChunk(corrections, pageNumber, blockId, block, slot) == Some(c) {
      var slot :| SlotChunk(corrections, pageNumber, blockId, block, slot) == Some(c);
      assert SlotChunk(corrections, pageNumber, blockId, block, slot).value in BlockRows(corrections, pageNumber,
             blockId, block);
    }
  }

  lemma PageRowsGrow(corrections: map<Uuid, Correction>, o: Owner, version: nat, blocks: seq<ValidatedBlock>, i: nat)
    requires i < |blocks|
    ensures PageRows(corrections, o, version, blocks[..i + 1])
            == PageRows(corrections, o, version, blocks[..i])
               + BlockRows(corrections, o.pageNumber, BlockIdOf(o, blocks[i].ordinal),
                           OwnedBlock(o, blocks[i], version))
  {
    assert blocks[..i + 1][..i] == blocks[..i];
  }

  lemma {:induction false} PageRowsBlock(corrections: map<Uuid, Correction>, o: Owner, version: nat,
                                         blocks: seq<ValidatedBlock>, c: Chunk)
    requires c in PageRows(corrections, o, version, blocks)
    ensures c.blockId in Emitted(o, blocks)
  {
    var n := |blocks| - 1;
    if c in PageRows(corrections, o, version, blocks[..n]) {
      PageRowsBlock(corrections, o, version, blocks[..n], c);
    }
  }

  /** For blocks with distinct ordinals the inserted rows are exactly the slots of the emitted blocks. */
  lemma {:induction false} PageRowsMember(corrections: map<Uuid, Correction>, o: Owner, version: nat,
                                          blocks: seq<ValidatedBlock>, c: Chunk)
    requires DistinctOrdinals(blocks)
    ensures var em := Emitted(o, blocks);
            c in PageRows(corrections, o, version, blocks) <==>
            c.blockId in em
            && c in BlockRows(corrections, o.pageNumber, c.blockId, OwnedBlock(o, em[c.blockId], version))
  {
    if blocks != [] {
      var n := |blocks| - 1;
      var id := BlockIdOf(o, blocks[n].ordinal);
      PageRowsMember(corrections, o, version, blocks[..n], c);
      BlockRowsMember(corrections, o.pageNumber, id, OwnedBlock(o, blocks[n], version), c);
      assert id !in Emitted(o, blocks[..n]);
    }
  }

  /** After a commit, a block of the page is current exactly when the commit emitted it. */
  lemma CurrentAfterCommit(t: Tables, req: CommitRequest, sha: Hasher, b: Uuid)
    requires Inv(t, sha) && OwnedByRun(t, req.pageId)
    requires var o := OwnerOf(t, req.pageId); !UpsertFails(t, o, Emitted(o, req.page.blocks))
    ensures var t' := CommittedTables(t, req, sha);
            var em := Emitted(OwnerOf(t, req.pageId), req.page.blocks);
            && (b in t'.blocks && t'.blocks[b].pageId == req.pageId ==> (Current(t', b) <==> b in em))
            && (b in em ==> Current(t', b) && t'.blocks[b].pageId == req.pageId)
            && ((Current(t', b) && t'.blocks[b].pageId != req.pageId) <==>
                  (Current(t, b) && t.blocks[b].pageId != req.pageId))
            && (Current(t, b) && t.blocks[b].pageId != req.pageId ==> t'.blocks[b] == t.blocks[b])
  {
    if b in t.blocks { assert BlockOk(t, b); }
    var em := Emitted(OwnerOf(t, req.pageId), req.page.blocks);
    if b in em { assert !ForeignRow(t.blocks, OwnerOf(t, req.pageId), b); }
  }

  /** A commit does not touch what other pages' slots are searched by. */
  lemma OtherSlotUnchanged(t: Tables, req: CommitRequest, sha: Hasher, b: Uuid, slot: Slot)
    requires Inv(t, sha) && OwnedByRun(t, req.pageId)
    requires b in t.blocks && t.blocks[b].pageId != req.pageId
    ensures var t' := CommittedTables(t, req, sha);
            SlotValue(t'.corrections, b, t.blocks[b], slot) == SlotValue(t.corrections, b, t.blocks[b], slot)
  {
    var p := t.blocks[b].pageId;
    var text, latex := StableCorrectionId(p, b, TextValue), StableCorrectionId(p, b, LatexValue);
    if text in t.corrections { assert CorrectionOk(t, text, sha); }
    if latex in t.corrections { assert CorrectionOk(t, latex, sha); }
  }

  lemma CommitRebuildsMember(t: Tables, req: CommitRequest, sha: Hasher, c: Chunk)
    requires Inv(t, sha) && OwnedByRun(t, req.pageId) && ValidPage(req.page)
    requires var o := OwnerOf(t, req.pageId); !UpsertFails(t, o, Emitted(o, req.page.blocks))
    ensures var t' := CommittedTables(t, req, sha);
            c in Rebuild(t') <==>
            (c in Rebuild(t) && c.pageId != req.pageId)
            || c in PageRows(t'.corrections, OwnerOf(t, req.pageId), t.pages[req.pageId].contentVersion + 1,
                             req.page.blocks)
  {
    var o := OwnerOf(t, req.pageId);
    var version := t.pages[req.pageId].contentVersion + 1;
    var em := Emitted(o, req.page.blocks);
    var t' := CommittedTables(t, req, sha);
    RebuildMember(t, c);
    RebuildMember(t', c);
    PageRowsMember(t'.corrections, o, version, req.page.blocks, c);
    CurrentAfterCommit(t, req, sha, c.blockId);
    if c.blockId in em {
      BlockRowsMember(t'.corrections, o.pageNumber, c.blockId, OwnedBlock(o, em[c.blockId], version), c);
      assert forall slot :: ExpectedChunk(t', c.blockId, slot)
                            == SlotChunk(t'.corrections, o.pageNumber, c.blockId, OwnedBlock(o, em[c.blockId], version),
                                         slot);
      if c.blockId in t.blocks {
        assert !ForeignRow(t.blocks, o, c.blockId);
      }
    } else if Current(t, c.blockId) && t.blocks[c.blockId].pageId != req.pageId {
      forall slot ensures ExpectedChunk(t', c.blockId, slot) == ExpectedChunk(t, c.blockId, slot) {
        OtherSlotUnchanged(t, req, sha, c.blockId, slot);
      }
    }
  }

  /** Clearing the page's rows and inserting the rows of its blocks rebuilds the whole table. */
  lemma CommitRebuilds(t: Tables, req: CommitRequest, sha: Hasher)
    requires Inv(t, sha) && OwnedByRun(t, req.pageId) && ValidPage(req.page)
    requires var o := OwnerOf(t, req.pageId); !UpsertFails(t, o, Emitted(o, req.page.blocks))
    ensures var t' := CommittedTables(t, req, sha);
            Rebuild(t') == OtherPages(Rebuild(t), req.pageId)
                           + PageRows(t'.corrections, OwnerOf(t, req.pageId), t.pages[req.pageId].contentVersion + 1,
                                      req.page.blocks)
  {
    forall c ensures var t' := CommittedTables(t, req, sha);
                     c in Rebuild(t') <==>
                     c in OtherPages(Rebuild(t), req.pageId)
                          + PageRows(t'.corrections, OwnerOf(t, req.pageId), t.pages[req.pageId].contentVersion + 1,
                                     req.page.blocks)
    {
      CommitRebuildsMember(t, req, sha, c);
    }
  }

  // ----- the incremental patch

  /** The rows a refresh deletes. */
  predicate Refreshed(c: Chunk, pageId: Uuid, blockId: Uuid, version: nat, ordinal: nat) {
    && c.pageId == pageId && c.blockId == blockId && c.contentVersion == version && c.ordinal == ordinal
    && (c.source == AiTranscribed || c.source == UserCorrected)
  }

  /** A table whose corrections differ at most in the ones of one value of one block. */
  ghost predicate SameElsewhere(t: Tables, t': Tables, blockId: Uuid, kind: ValueKind)
    requires blockId in t.blocks
  {
    && t'.runs == t.runs && t'.pages == t.pages && t'.blocks == t.blocks
    && var id := StableCorrectionId(t.blocks[blockId].pageId, blockId, kind);
    t'.corrections - {id} == t.corrections - {id}
  }

  lemma SlotElsewhere(t: Tables, t': Tables, blockId: Uuid, kind: ValueKind, b: Uuid, slot: Slot)
    requires blockId in t.blocks && b in t.blocks
    requires SameElsewhere(t, t', blockId, kind)
    requires b != blockId || slot != KindSlot(kind)
    ensures SlotValue(t'.corrections, b, t.blocks[b], slot) == SlotValue(t.corrections, b, t.blocks[b], slot)
  {
    var id := StableCorrectionId(t.blocks[blockId].pageId, blockId, kind);
    var p := t.blocks[b].pageId;
    forall k: ValueKind | StableCorrectionId(p, b, k) != id
      ensures StableCorrectionId(p, b, k) in t.corrections <==> StableCorrectionId(p, b, k) in t'.corrections
      ensures StableCorrectionId(p, b, k) in t.corrections ==>
                t.corrections[StableCorrectionId(p, b, k)] == t'.corrections[StableCorrectionId(p, b, k)]
    {
      var x := StableCorrectionId(p, b, k);
      assert x in t.corrections <==> x in t.corrections - {id};
      assert x in t'.corrections <==> x in t'.corrections - {id};
      if x in t.corrections { assert (t.corrections - {id})[x] == (t'.corrections - {id})[x]; }
    }
  }

  lemma RefreshMember(t: Tables, t': Tables, blockId: Uuid, kind: ValueKind, c: Chunk)
    requires Current(t, blockId)
    requires SameElsewhere(t, t', blockId, kind)
    requires ProviderValue(t.blocks[blockId].content, kind).Some?
    ensures var b := t.blocks[blockId];
            var ordinal := ChunkOrdinal(b.content.ordinal, KindSlot(kind));
            c in Rebuild(t') <==>
            (c in Rebuild(t) && !Refreshed(c, b.pageId, blockId, b.contentVersion, ordinal))
            || ExpectedChunk(t', blockId, KindSlot(kind)) == Some(c)
  {
    var block := t.blocks[blockId];
    var ordinal := ChunkOrdinal(block.content.ordinal, KindSlot(kind));
    RebuildMember(t, c);
    RebuildMember(t', c);
    if Current(t, c.blockId) {
      forall slot | c.blockId != blockId || slot != KindSlot(kind)
        ensures ExpectedChunk(t', c.blockId, slot) == ExpectedChunk(t, c.blockId, slot)
      {
        SlotElsewhere(t, t', blockId, kind, c.blockId, slot);
      }
      if c.blockId == blockId {
        assert ExpectedChunk(t, blockId, KindSlot(kind)) == Some(c) ==>
                 Refreshed(c, block.pageId, blockId, block.contentVersion, ordinal);
        assert forall slot ::
                 ExpectedChunk(t, blockId, slot) == Some(c) ==> c.ordinal == ChunkOrdinal(block.content.ordinal, slot);
      }
    }
  }

  /** Deleting one value's rows and inserting its new row equals rebuilding the whole table. */
  lemma RefreshRebuilds(t: Tables, t': Tables, blockId: Uuid, kind: ValueKind, row: Chunk)
    requires Current(t, blockId)
    requires SameElsewhere(t, t', blockId, kind)
    requires ProviderValue(t.blocks[blockId].content, kind).Some?
    requires ExpectedChunk(t', blockId, KindSlot(kind)) == Some(row)
    ensures var b := t.blocks[blockId];
            var ordinal := ChunkOrdinal(b.content.ordinal, KindSlot(kind));
            Rebuild(t') == (set c | c in Rebuild(t) && !Refreshed(c, b.pageId, blockId, b.contentVersion, ordinal))
              + {row}
  {
    var b := t.blocks[blockId];
    var ordinal := ChunkOrdinal(b.content.ordinal, KindSlot(kind));
    forall c ensures c in Rebuild(t') <==>
                     c in (set c | c in Rebuild(t) && !Refreshed(c, b.pageId, blockId, b.contentVersion, ordinal))
                       + {row}
    {
      RefreshMember(t, t', blockId, kind, c);
    }
  }

  /** In the rebuilt table the rows of one correctable value are exactly the rows a refresh deletes. */
  lemma RefreshReady(t: Tables, blockId: Uuid, kind: ValueKind)
    requires Current(t, blockId)
    ensures var b := t.blocks[blockId];
            var ordinal := ChunkOrdinal(b.content.ordinal, KindSlot(kind));
            forall c | c in Rebuild(t) && c.blockId == blockId && c.ordinal == ordinal ::
              Refreshed(c, b.pageId, blockId, b.contentVersion, ordinal)
  {
    var b := t.blocks[blockId];
    var ordinal := ChunkOrdinal(b.content.ordinal, KindSlot(kind));
    forall c | c in Rebuild(t) && c.blockId == blockId && c.ordinal == ordinal
      ensures Refreshed(c, b.pageId, blockId, b.contentVersion, ordinal)
    {
      RebuildMember(t, c);
      var slot :| ExpectedChunk(t, blockId, slot) == Some(c);
      assert Offset(slot) == Offset(KindSlot(kind));
    }
  }

  /** An active correction is what its value is searched by. */
  lemma WrittenOverlay(t: Tables, id: Uuid, c: Correction)
    requires Current(t, c.targetBlockId) && t.blocks[c.targetBlockId].pageId == c.pageId
    requires id == StableCorrectionId(c.pageId, c.targetBlockId, c.kind) && c.state == Active
    requires ProviderValue(t.blocks[c.targetBlockId].content, c.kind).Some?
    ensures var t' := t.(corrections := t.corrections[id := c]);
            var block := t.blocks[c.targetBlockId];
            && SameElsewhere(t, t', c.targetBlockId, c.kind)
            && ExpectedChunk(t', c.targetBlockId, KindSlot(c.kind))
               == Some(MakeChunk(t.pages[c.pageId].pageNumber, c.targetBlockId, block, KindSlot(c.kind),
                                 SearchValue(UserCorrected, Some(id), c.correctedValue)))
  {
    assert t.corrections[id := c] - {id} == t.corrections - {id};
  }

  /** Without a correction a value is searched by what the provider said. */
  lemma RemovedOverlay(t: Tables, id: Uuid, blockId: Uuid, kind: ValueKind, provider: string)
    requires Current(t, blockId)
    requires id == StableCorrectionId(t.blocks[blockId].pageId, blockId, kind)
    requires ProviderValue(t.blocks[blockId].content, kind) == Some(provider)
    ensures var t' := t.(corrections := t.corrections - {id});
            var block := t.blocks[blockId];
            && SameElsewhere(t, t', blockId, kind)
            && ExpectedChunk(t', blockId, KindSlot(kind))
               == Some(MakeChunk(t.pages[block.pageId].pageNumber, blockId, block, KindSlot(kind),
                                 SearchValue(AiTranscribed, None, provider)))
  {
    assert t.corrections - {id} - {id} == t.corrections - {id};
  }

  /** Two chunks of the rebuilt table never share an id: the primary key is never violated. */
  lemma ChunkIdsDistinct(t: Tables, c: Chunk, d: Chunk)
    requires c in Rebuild(t) && d in Rebuild(t) && StableChunkId(c) == StableChunkId(d)
    ensures c == d
  {
    RebuildMember(t, c);
    RebuildMember(t, d);
    var i :| ExpectedChunk(t, c.blockId, i) == Some(c);
    var j :| ExpectedChunk(t, c.blockId, j) == Some(d);
    assert Offset(i) == Offset(j);
  }

  /** Removing a block left behind, or a correction of one, changes no chunk. */
  lemma StaleRemovalKeepsRebuild(t: Tables, t': Tables, blockId: Uuid, id: Uuid)
    requires t'.runs == t.runs && t'.pages == t.pages
    requires !Current(t, blockId)
    requires t'.blocks == t.blocks || t'.blocks == t.blocks - {blockId}
    requires t'.corrections == t.corrections - {id}
    requires exists p, kind :: id == StableCorrectionId(p, blockId, kind)
    ensures Rebuild(t') == Rebuild(t)
  {
    forall c ensures c in Rebuild(t') <==> c in Rebuild(t) {
      RebuildMember(t, c);
      RebuildMember(t', c);
      if c.blockId != blockId && Current(t, c.blockId) {
        assert forall slot :: SlotValue(t'.corrections, c.blockId, t.blocks[c.blockId], slot)
                              == SlotValue(t.corrections, c.blockId, t.blocks[c.blockId], slot);
        assert forall slot :: ExpectedChunk(t', c.blockId, slot) == ExpectedChunk(t, c.blockId, slot);
      }
    }
  }

  /** Scheduling leaves the chunk table alone. */
  lemma EnvironmentKeepsRebuild(t: Tables, a: Action, sha: Hasher)
    requires Inv(t, sha)
    requires a.DoCreatePage? || a.DoSetRunStatus? || a.DoReschedule?
    ensures Rebuild(Step(t, a, sha)) == Rebuild(t)
  {
    var t' := Step(t, a, sha);
    forall c ensures c in Rebuild(t') <==> c in Rebuild(t) {
      RebuildMember(t, c);
      RebuildMember(t', c);
      if c.blockId in t.blocks {
        assert BlockOk(t, c.blockId);
        assert Current(t', c.blockId) == Current(t, c.blockId);
        if Current(t, c.blockId) {
          assert forall slot :: ExpectedChunk(t', c.blockId, slot) == ExpectedChunk(t, c.blockId, slot);
        }
      }
    }
  }
}
