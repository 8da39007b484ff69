/**
 * What an accepted request means to the reader: what is searched afterwards, what it undoes, and which requests it
 * outdates.
 */
module IndexEffects {
  import opened Results
  import opened Text
  import opened IndexModel
  import opened IndexTransitions
  import opened IndexInvariant
  import opened IndexRebuild
  import opened IndexClaims

  function OrdinalOf(t: Tables, blockId: Uuid, kind: ValueKind): nat
    requires blockId in t.blocks
  {
    ChunkOrdinal(t.blocks[blockId].content.ordinal, KindSlot(kind))
  }

  /** The value is searched by exactly one chunk, with this source, correction and text. */
  ghost predicate Shows(t: Tables, blockId: Uuid, kind: ValueKind, v: SearchValue)
    requires Current(t, blockId)
  {
    var block := t.blocks[blockId];
    forall c ::
      (c in Rebuild(t) && c.blockId == blockId && c.ordinal == OrdinalOf(t, blockId, kind))
      <==> c == MakeChunk(t.pages[block.pageId].pageNumber, blockId, block, KindSlot(kind), v)
  }

  /** Every chunk of another value is as it was. */
  ghost predicate ElsewhereSearchedAlike(t: Tables, t': Tables, blockId: Uuid, kind: ValueKind)
    requires blockId in t.blocks
  {
    forall c: Chunk | c.blockId != blockId || c.ordinal != OrdinalOf(t, blockId, kind) ::
      c in Rebuild(t) <==> c in Rebuild(t')
  }

  ghost predicate OnlyCorrectionChanged(t: Tables, t': Tables, id: Uuid) {
    t'.runs == t.runs && t'.pages == t.pages && t'.blocks == t.blocks && t'.corrections - {id} == t.corrections - {id}
  }

  lemma RefreshShows(t: Tables, t': Tables, blockId: Uuid, kind: ValueKind, v: SearchValue)
    requires Current(t, blockId) && SameElsewhere(t, t', blockId, kind)
             && ProviderValue(t.blocks[blockId].content, kind).Some?
    requires ExpectedChunk(t', blockId, KindSlot(kind))
          == Some(MakeChunk(t.pages[t.blocks[blockId].pageId].pageNumber, blockId, t.blocks[blockId], KindSlot(kind),
                            v))
    ensures Shows(t', blockId, kind, v) && ElsewhereSearchedAlike(t, t', blockId, kind)
  {
    RefreshReady(t, blockId, kind);
    forall c ensures c in Rebuild(t') <==>
                     (c in Rebuild(t) && (c.blockId != blockId || c.ordinal != OrdinalOf(t, blockId, kind)))
                     || ExpectedChunk(t', blockId, KindSlot(kind)) == Some(c)
    {
      RefreshMember(t, t', blockId, kind, c);
    }
  }

  // ----- what is searched

  /**
   * A correctable value is searched by its active correction; by the provider's text if it has no correction at all.
   */
  predicate SearchedAs(t: Tables, c: Chunk, kind: ValueKind, provider: string) {
    match c.correctionId
    case Some(id) =>
      && c.source == UserCorrected && id in t.corrections && SameTarget(t.corrections[id], c.pageId, c.blockId, kind)
      && t.corrections[id].state == Active && c.text == t.corrections[id].correctedValue
    case None =>
      c.source == AiTranscribed && c.text == provider && !CorrectionExists(t.corrections, c.pageId, c.blockId, kind)
  }

  /** The chunk stands for one of the four values of this content, each with an ordinal of its own. */
  predicate StandsFor(t: Tables, c: Chunk, content: ValidatedBlock) {
    var first := 4 * content.ordinal;
    || (c.ordinal == first && content.plainText.Some? && SearchedAs(t, c, TextValue, content.plainText.value))
    || (c.ordinal == first + 1 && content.latex.Some? && SearchedAs(t, c, LatexValue, content.latex.value))
    || (c.ordinal == first + 2 && c.source == AiTranscribed && c.correctionId == None && content.tableCells.Some?
        && c.text == JoinLines(content.tableCells.value))
    || (c.ordinal == first + 3 && c.source == AiDescription && c.correctionId == None
        && content.description == Some(c.text))
  }

  /** Four characters make a token, and there is at least one. */
  predicate EstimatesTokens(text: string, estimate: nat) {
    estimate >= 1 && |text| <= 4 * estimate && (estimate > 1 ==> 4 * (estimate - 1) < |text|)
  }

  predicate Searchable(t: Tables, c: Chunk) {
    && Current(t, c.blockId)
    && var b := t.blocks[c.blockId];
    && c.bookId == b.bookId && c.pageId == b.pageId && c.contentVersion == b.contentVersion
    && c.locator == PdfLocator(t.pages[b.pageId].pageNumber, b.content.bounds)
    && EstimatesTokens(c.text, c.tokenEstimate)
    && StandsFor(t, c, b.content)
  }

  lemma OverlaidExactly(t: Tables, sha: Hasher, c: Chunk, kind: ValueKind, provider: string)
    requires Inv(t, sha)
    ensures Overlay(t.corrections, c.pageId, c.blockId, kind, Some(provider))
              == Some(SearchValue(c.source, c.correctionId, c.text))
            <==> SearchedAs(t, c, kind, provider)
  {
    var id := StableCorrectionId(c.pageId, c.blockId, kind);
    if id in t.corrections {
      assert CorrectionOk(t, id, sha) && SameTarget(t.corrections[id], c.pageId, c.blockId, kind);
    }
    forall x | x in t.corrections && SameTarget(t.corrections[x], c.pageId, c.blockId, kind) ensures x == id {
      assert CorrectionOk(t, x, sha);
    }
  }

  /** The slot has this chunk's value and ordinal. */
  predicate SlotGives(t: Tables, c: Chunk, slot: Slot)
    requires c.blockId in t.blocks
  {
    var b := t.blocks[c.blockId];
    SlotValue(t.corrections, c.blockId, b, slot) == Some(SearchValue(c.source, c.correctionId, c.text))
    && c.ordinal == ChunkOrdinal(b.content.ordinal, slot)
  }

  lemma SlotStandsFor(t: Tables, sha: Hasher, c: Chunk)
    requires Inv(t, sha) && Current(t, c.blockId) && c.pageId == t.blocks[c.blockId].pageId
    ensures (exists slot :: SlotGives(t, c, slot)) <==> StandsFor(t, c, t.blocks[c.blockId].content)
  {
    var b := t.blocks[c.blockId];
    if b.content.plainText.Some? { OverlaidExactly(t, sha, c, TextValue, b.content.plainText.value); }
    if b.content.latex.Some? { OverlaidExactly(t, sha, c, LatexValue, b.content.latex.value); }
    assert SlotGives(t, c, TextSlot) || SlotGives(t, c, LatexSlot) || SlotGives(t, c, TableSlot)
           || SlotGives(t, c, DescriptionSlot) || !StandsFor(t, c, b.content);
  }

  /** The chunks of a valid state, read off its rows. */
  lemma SearchableExactly(t: Tables, sha: Hasher, c: Chunk)
    requires Inv(t, sha)
    ensures c in Rebuild(t) <==> Searchable(t, c)
  {
    RebuildMember(t, c);
    if Current(t, c.blockId) && c.pageId == t.blocks[c.blockId].pageId {
      SlotStandsFor(t, sha, c);
      EstimateExact(c.text, c.tokenEstimate);
      if Searchable(t, c) {
        var slot :| SlotGives(t, c, slot);
        assert ExpectedChunk(t, c.blockId, slot) == Some(c);
      }
      if c in Rebuild(t) {
        var slot :| ExpectedChunk(t, c.blockId, slot) == Some(c);
        assert SlotGives(t, c, slot);
      }
    }
  }

  lemma EstimateExact(text: string, estimate: nat)
    ensures estimate == TokenEstimate(text) <==> EstimatesTokens(text, estimate)
  {
  }

  lemma {:induction false} JoinedSnoc(cells: seq<string>, last: string)
    ensures JoinLines([last]) == last
    ensures cells != [] ==> JoinLines(cells + [last]) == JoinLines(cells) + "\n" + last
  {
    if |cells| > 1 {
      JoinedSnoc(cells[1..], last);
      assert (cells + [last])[1..] == cells[1..] + [last];
    }
  }

  // ----- a commit

  /** A value with a search value shows it, and one without shows nothing. */
  lemma SlotDecidesShown(t: Tables, blockId: Uuid, kind: ValueKind)
    requires Current(t, blockId)
    ensures var v := SlotValue(t.corrections, blockId, t.blocks[blockId], KindSlot(kind));
            if v.Some? then Shows(t, blockId, kind, v.value) else ShowsNothing(t, blockId, kind)
  {
    var slot := KindSlot(kind);
    forall c
      ensures (c in Rebuild(t) && c.blockId == blockId && c.ordinal == OrdinalOf(t, blockId, kind))
              <==> ExpectedChunk(t, blockId, slot) == Some(c)
    {
      RebuildMember(t, c);
      assert forall s ::
               ExpectedChunk(t, blockId, s) == Some(c) && c.ordinal == OrdinalOf(t, blockId, kind) ==> s == slot;
    }
  }

  /** No chunk stands for the value. */
  ghost predicate ShowsNothing(t: Tables, blockId: Uuid, kind: ValueKind)
    requires blockId in t.blocks
  {
    forall c | c in Rebuild(t) && c.blockId == blockId :: c.ordinal != OrdinalOf(t, blockId, kind)
  }

  /** A correction of a current block decides by its state what the value is searched by. */
  lemma StateDecidesShown(t: Tables, id: Uuid)
    requires id in t.corrections && Current(t, t.corrections[id].targetBlockId)
    requires var c := t.corrections[id];
             id == StableCorrectionId(t.blocks[c.targetBlockId].pageId, c.targetBlockId, c.kind)
    ensures var c := t.corrections[id];
            && (c.state == Active && ProviderValue(t.blocks[c.targetBlockId].content, c.kind).Some? ==>
                  Shows(t, c.targetBlockId, c.kind, SearchValue(UserCorrected, Some(id), c.correctedValue)))
            && (c.state == Conflict ==> ShowsNothing(t, c.targetBlockId, c.kind))
  {
    SlotDecidesShown(t, t.corrections[id].targetBlockId, t.corrections[id].kind);
  }

  /** The row of a correction that meets its block again: only its version, its state and its revision moved. */
  predicate Met(c: Correction, c': Correction, version: nat) {
    c' == Correction(c.bookId, c.pageId, c.targetBlockId, version, c.region, c.kind, c.originalHash, c.originalValue,
                     c.correctedValue, c'.state, c.revision + 1)
  }

  /**
   * A correction whose block the commit emits is active afterwards exactly when it was active and the block still has
   * the value it was made against. Both its values are kept. An active one is what its value is searched by; one in
   * conflict leaves the value out of the search.
   */
  lemma CommitReconciles(t: Tables, req: CommitRequest, ctl: CommitControl, sha: Hasher, id: Uuid, i: nat)
    requires Inv(t, sha) && ValidPage(req.page) && CommitPage(t, req, ctl, sha).Ok?
    requires id in t.corrections && i < |req.page.blocks|
    requires t.corrections[id].targetBlockId == BlockIdOf(OwnerOf(t, req.pageId), req.page.blocks[i].ordinal)
    ensures var t', c, block := CommitPage(t, req, ctl, sha).value, t.corrections[id], req.page.blocks[i];
            var value, b := ProviderValue(block, c.kind), c.targetBlockId;
            && id in t'.corrections && Current(t', b)
            && Met(c, t'.corrections[id], t.pages[req.pageId].contentVersion + 1)
            && (t'.corrections[id].state == Active <==>
                  c.state == Active && value.Some? && sha(value.value) == c.originalHash)
            && (t'.corrections[id].state == Active ==>
                  Shows(t', b, c.kind, SearchValue(UserCorrected, Some(id), c.correctedValue)))
            && (t'.corrections[id].state == Conflict ==> ShowsNothing(t', b, c.kind))
  {
    var t', c := CommitPage(t, req, ctl, sha).value, t.corrections[id];
    ReconciledRow(t, req, sha, id, i);
    StateDecidesShown(t', id);
  }

  lemma ReconciledRow(t: Tables, req: CommitRequest, sha: Hasher, id: Uuid, i: nat)
    requires Inv(t, sha) && ValidPage(req.page) && OwnedByRun(t, req.pageId)
    requires var o := OwnerOf(t, req.pageId);
             var em := Emitted(o, req.page.blocks);
             !UpsertFails(t, o, em) && !ReconcileFails(t, o, em)
    requires id in t.corrections && i < |req.page.blocks|
    requires t.corrections[id].targetBlockId == BlockIdOf(OwnerOf(t, req.pageId), req.page.blocks[i].ordinal)
    ensures var t', c, block := CommittedTables(t, req, sha), t.corrections[id], req.page.blocks[i];
            var value := ProviderValue(block, c.kind);
            && id in t'.corrections && Current(t', c.targetBlockId)
            && Met(c, t'.corrections[id], t.pages[req.pageId].contentVersion + 1)
            && (t'.corrections[id].state == Active <==>
                  c.state == Active && value.Some? && sha(value.value) == c.originalHash)
            && id == StableCorrectionId(t'.blocks[c.targetBlockId].pageId, c.targetBlockId, c.kind)
            && ProviderValue(t'.blocks[c.targetBlockId].content, c.kind) == value
  {
    EmittedAt(OwnerOf(t, req.pageId), req.page.blocks, i);
    assert CorrectionOk(t, id, sha);
    CommittedRow(t, req, sha, id);
    CurrentAfterCommit(t, req, sha, t.corrections[id].targetBlockId);
  }

  /** An emitted block and the corrections that target it are the page's own. */
  lemma CommittedRow(t: Tables, req: CommitRequest, sha: Hasher, id: Uuid)
    requires Inv(t, sha) && id in t.corrections && OwnedByRun(t, req.pageId)
    requires var o := OwnerOf(t, req.pageId); !UpsertFails(t, o, Emitted(o, req.page.blocks))
    ensures t.corrections[id].targetBlockId in Emitted(OwnerOf(t, req.pageId), req.page.blocks) ==>
              Targets(t.corrections[id], OwnerOf(t, req.pageId), t.corrections[id].targetBlockId)
  {
    assert CorrectionOk(t, id, sha);
    var b := t.corrections[id].targetBlockId;
    if b in Emitted(OwnerOf(t, req.pageId), req.page.blocks) {
      assert !ForeignRow(t.blocks, OwnerOf(t, req.pageId), b);
    }
  }

  /**
   * A correction of the page whose block the commit drops keeps its values and its block, which is no longer current:
   * below the cap it is in conflict, at the cap the row is as it was.
   */
  lemma CommitOrphans(t: Tables, req: CommitRequest, ctl: CommitControl, sha: Hasher, id: Uuid)
    requires Inv(t, sha) && ValidPage(req.page) && CommitPage(t, req, ctl, sha).Ok?
    requires id in t.corrections && t.corrections[id].pageId == req.pageId
    requires forall i | 0 <= i < |req.page.blocks| ::
               t.corrections[id].targetBlockId != BlockIdOf(OwnerOf(t, req.pageId), req.page.blocks[i].ordinal)
    ensures var t', c := CommitPage(t, req, ctl, sha).value, t.corrections[id];
            && id in t'.corrections && c.targetBlockId in t'.blocks && !Current(t', c.targetBlockId)
            && t'.blocks[c.targetBlockId] == t.blocks[c.targetBlockId]
            && (c.revision == REVISION_CAP ==> t'.corrections[id] == c)
            && (c.revision < REVISION_CAP ==>
                  Met(c, t'.corrections[id], c.targetVersion) && t'.corrections[id].state == Conflict)
  {
    var c := t.corrections[id];
    assert CorrectionOk(t, id, sha);
    EmittedExactly(OwnerOf(t, req.pageId), req.page.blocks, c.targetBlockId);
    assert HasCorrection(t.corrections, req.pageId, c.targetBlockId);
    CurrentAfterCommit(t, req, sha, c.targetBlockId);
  }

  /** What is left of a block of the page that the commit does not emit: its row, if a correction needs it. */
  lemma CommitDropsBlocks(t: Tables, req: CommitRequest, ctl: CommitControl, sha: Hasher, b: Uuid)
    requires Inv(t, sha) && ValidPage(req.page) && CommitPage(t, req, ctl, sha).Ok?
    requires b in t.blocks && t.blocks[b].pageId == req.pageId
    requires forall i | 0 <= i < |req.page.blocks| ::
               b != BlockIdOf(OwnerOf(t, req.pageId), req.page.blocks[i].ordinal)
    ensures var t' := CommitPage(t, req, ctl, sha).value;
            && (b in t'.blocks <==> exists c :: c in t.corrections && t.corrections[c].targetBlockId == b)
            && (b in t'.blocks ==> t'.blocks[b] == t.blocks[b] && !Current(t', b))
  {
    EmittedExactly(OwnerOf(t, req.pageId), req.page.blocks, b);
    forall c | c in t.corrections && t.corrections[c].targetBlockId == b ensures t.corrections[c].pageId == req.pageId {
      assert CorrectionOk(t, c, sha);
    }
    CurrentAfterCommit(t, req, sha, b);
  }

  /** A committed page: one version on, indexed or up for review, and with no failure left; its claim stays. */
  lemma CommitTakesEffect(t: Tables, req: CommitRequest, ctl: CommitControl, sha: Hasher)
    requires CommitPage(t, req, ctl, sha).Ok?
    ensures var t', was := CommitPage(t, req, ctl, sha).value, t.pages[req.pageId];
            && t'.runs == t.runs && t'.corrections.Keys == t.corrections.Keys
            && t'.pages == t.pages[req.pageId := Page(
                 was.runId, was.bookId, was.pageNumber, was.contentVersion + 1,
                 PageLife(if req.page.reviewReason == None then Indexed else NeedsReview,
                          was.life.attemptId, was.life.attemptCount, was.life.renderHash, was.life.responseHash,
                          req.page.reviewReason, None, false, req.now))]
  {
    assert CommittedCorrections(t, OwnerOf(t, req.pageId), Emitted(OwnerOf(t, req.pageId), req.page.blocks),
                                t.pages[req.pageId].contentVersion + 1, sha).Keys == t.corrections.Keys;
  }

  /** Every block of the committed page is stored as it came, at the page's new version. */
  lemma CommitStoresBlocks(t: Tables, req: CommitRequest, ctl: CommitControl, sha: Hasher, i: nat)
    requires ValidPage(req.page) && CommitPage(t, req, ctl, sha).Ok? && i < |req.page.blocks|
    ensures var t', was := CommitPage(t, req, ctl, sha).value, t.pages[req.pageId];
            var id := BlockIdOf(OwnerOf(t, req.pageId), req.page.blocks[i].ordinal);
            id in t'.blocks
            && t'.blocks[id] == Block(req.pageId, was.runId, was.bookId, req.page.blocks[i], was.contentVersion + 1)
  {
    EmittedAt(OwnerOf(t, req.pageId), req.page.blocks, i);
  }

  // ----- a correction saved, resolved or deleted

  /** A row just saved: active, with what the reader entered, against this original value of the block. */
  predicate SavedRow(t: Tables, c: Correction, input: SaveInput, hash: string, original: string) {
    && input.targetBlockId in t.blocks
    && c == Correction(input.bookId, input.pageId, input.targetBlockId, input.targetVersion, c.region, input.kind, hash,
                       original, input.correctedValue, Active, input.expectedRevision + 1)
    && (input.expectedRevision == 0 ==> c.region == t.blocks[input.targetBlockId].content.bounds)
  }

  /** After a save the value is searched by what the reader entered; nothing else changed. */
  lemma SaveTakesEffect(t: Tables, input: SaveInput, sha: Hasher)
    requires Inv(t, sha) && SaveCorrection(t, input, sha).Ok?
    ensures var id, t', b :=
              StableCorrectionId(input.pageId, input.targetBlockId, input.kind), SaveCorrection(t, input, sha).value,
              input.targetBlockId;
            && OnlyCorrectionChanged(t, t', id) && id in t'.corrections
            && (id in t.corrections <==> input.expectedRevision > 0)
            && Current(t, b) && ProviderValue(t.blocks[b].content, input.kind).Some?
            && var value := ProviderValue(t.blocks[b].content, input.kind).value;
            && SavedRow(t, t'.corrections[id], input, sha(value), if id in t.corrections then
                          t.corrections[id].originalValue else value)
            && Shows(t', b, input.kind, SearchValue(UserCorrected, Some(id), input.correctedValue))
            && ElsewhereSearchedAlike(t, t', b, input.kind)
  {
    var id := StableCorrectionId(input.pageId, input.targetBlockId, input.kind);
    var t' := SaveCorrection(t, input, sha).value;
    if id in t.corrections {
      assert CorrectionOk(t, id, sha);
      assert SameTarget(t.corrections[id], input.pageId, input.targetBlockId, input.kind);
    }
    assert t'.corrections == t.corrections[id := t'.corrections[id]];
    WrittenOverlay(t, id, t'.corrections[id]);
    RefreshShows(t, t', input.targetBlockId, input.kind, SearchValue(UserCorrected, Some(id), input.correctedValue));
  }

  /**
   * After Keep or Compare the correction is active against the block's present value, and is what the value is searched
   * by.
   */
  lemma KeepTakesEffect(t: Tables, input: ResolveInput, sha: Hasher)
    requires Inv(t, sha) && input.decision != Accept && ResolveConflict(t, input, sha).Ok?
    ensures var id, t' := input.correctionId, ResolveConflict(t, input, sha).value;
            && OnlyCorrectionChanged(t, t', id) && id in t.corrections && id in t'.corrections
            && var c, c' := t.corrections[id], t'.corrections[id];
            && c.state == Conflict && Current(t, c.targetBlockId) && c.pageId in t.pages
            && var value := ProviderValue(t.blocks[c.targetBlockId].content, c.kind);
            && value.Some?
            && c' == Correction(c.bookId, c.pageId, c.targetBlockId, t.pages[c.pageId].contentVersion, c.region, c.kind,
                                sha(value.value), value.value,
                                if input.decision == Compare then input.comparedValue.value else c.correctedValue,
                                Active, c.revision + 1)
            && Shows(t', c.targetBlockId, c.kind, SearchValue(UserCorrected, Some(id), c'.correctedValue))
            && ElsewhereSearchedAlike(t, t', c.targetBlockId, c.kind)
  {
    var id, t' := input.correctionId, ResolveConflict(t, input, sha).value;
    assert CorrectionOk(t, id, sha);
    var c' := t'.corrections[id];
    assert t'.corrections == t.corrections[id := c'];
    WrittenOverlay(t, id, c');
    RefreshShows(t, t', c'.targetBlockId, c'.kind, SearchValue(UserCorrected, Some(id), c'.correctedValue));
  }

  /** The value of a current block is searched by what the provider said. */
  ghost predicate ShowsProvider(t: Tables, t': Tables, c: Correction)
    requires Current(t, c.targetBlockId) && Current(t', c.targetBlockId)
  {
    var provider := ProviderValue(t.blocks[c.targetBlockId].content, c.kind);
    && provider.Some? && ElsewhereSearchedAlike(t, t', c.targetBlockId, c.kind)
    && Shows(t', c.targetBlockId, c.kind, SearchValue(AiTranscribed, None, provider.value))
  }

  /**
   * What removing a correction leaves: the provider's value, or no trace of a block left behind but for other
   * corrections.
   */
  ghost predicate RemovalEffect(t: Tables, t': Tables, id: Uuid) {
    && id in t.corrections && t'.corrections == t.corrections - {id} && t'.runs == t.runs && t'.pages == t.pages
    && var c := t.corrections[id];
    if Current(t, c.targetBlockId) then t'.blocks == t.blocks && ShowsProvider(t, t', c)
    else
      && Rebuild(t') == Rebuild(t)
      && t'.blocks == if HasCorrection(t'.corrections, c.pageId, c.targetBlockId) then t.blocks
         else t.blocks - {c.targetBlockId}
  }

  lemma RemoveTakesEffect(t: Tables, id: Uuid, target: Option<Target>, version: nat, sha: Hasher)
    requires Inv(t, sha) && id in t.corrections
    requires TargetForCorrection(t, t.corrections[id], version) == Ok(target)
             && RemoveCorrection(t, id, target, version).Ok?
    ensures RemovalEffect(t, RemoveCorrection(t, id, target, version).value, id)
  {
    var c, t' := t.corrections[id], RemoveCorrection(t, id, target, version).value;
    assert CorrectionOk(t, id, sha) && BlockOk(t, c.targetBlockId);
    if target.Some? {
      RemovedOverlay(t, id, c.targetBlockId, c.kind, target.value.provider);
      RefreshShows(t, t', c.targetBlockId, c.kind, SearchValue(AiTranscribed, None, target.value.provider));
    } else {
      StaleRemovalKeepsRebuild(t, t', c.targetBlockId, id);
    }
  }

  lemma DeleteTakesEffect(t: Tables, input: DeleteInput, sha: Hasher)
    requires Inv(t, sha) && DeleteCorrection(t, input, sha).Ok?
    ensures RemovalEffect(t, DeleteCorrection(t, input, sha).value, input.correctionId)
  {
    var target := TargetForCorrection(t, t.corrections[input.correctionId], input.targetVersion);
    RemoveTakesEffect(t, input.correctionId, target.value, input.targetVersion, sha);
  }

  lemma AcceptTakesEffect(t: Tables, input: ResolveInput, sha: Hasher)
    requires Inv(t, sha) && input.decision == Accept && ResolveConflict(t, input, sha).Ok?
    ensures RemovalEffect(t, ResolveConflict(t, input, sha).value, input.correctionId)
  {
    var target := TargetForCorrection(t, t.corrections[input.correctionId], input.targetVersion);
    RemoveTakesEffect(t, input.correctionId, target.value, input.targetVersion, sha);
  }

  /** The request that deletes the correction a first save has just made. */
  function Undo(input: SaveInput): DeleteInput {
    DeleteInput(input.bookId, input.pageId, StableCorrectionId(input.pageId, input.targetBlockId, input.kind),
                input.targetVersion, Some(input.originalHash), 1)
  }

  /** Deleting a correction just made restores every table. */
  lemma DeleteUndoesSave(t: Tables, input: SaveInput, sha: Hasher)
    requires Inv(t, sha) && SaveCorrection(t, input, sha).Ok? && input.expectedRevision == 0
    ensures DeleteCorrection(SaveCorrection(t, input, sha).value, Undo(input), sha) == Ok(t)
  {
    SaveTakesEffect(t, input, sha);
    var id, t' :=
      StableCorrectionId(input.pageId, input.targetBlockId, input.kind), SaveCorrection(t, input, sha).value;
    assert t'.corrections - {id} == t.corrections;
  }

  // ----- revisions: when a request made against an outdated row is accepted

  predicate Removes(a: Action, id: Uuid) {
    (a.DoDelete? && a.delete.correctionId == id)
      || (a.DoResolve? && a.resolve.correctionId == id && a.resolve.decision == Accept)
  }

  /** The row is as it was, or its revision has grown. */
  predicate Advanced(t: Tables, t': Tables, id: Uuid) {
    && id in t.corrections && id in t'.corrections
    && (t'.corrections[id] == t.corrections[id] || t'.corrections[id].revision > t.corrections[id].revision)
  }

  /** A stored correction goes only on request, and otherwise changes only with its revision. */
  lemma StepAdvances(t: Tables, a: Action, sha: Hasher, id: Uuid)
    requires Inv(t, sha) && id in t.corrections
    ensures id in Step(t, a, sha).corrections ==> Advanced(t, Step(t, a, sha), id)
    ensures id !in Step(t, a, sha).corrections ==> Removes(a, id)
  {
    assert CorrectionOk(t, id, sha);
    if a.DoSave? && StableCorrectionId(a.save.pageId, a.save.targetBlockId, a.save.kind) == id {
      assert SameTarget(t.corrections[id], a.save.pageId, a.save.targetBlockId, a.save.kind);
    }
  }

  /** At some point of the run, its start and end included, the correction is not stored. */
  ghost predicate AbsentAlong(t: Tables, actions: seq<Action>, sha: Hasher, id: Uuid)
    decreases |actions|
  {
    id !in t.corrections || (actions != [] && AbsentAlong(Step(t, actions[0], sha), actions[1..], sha, id))
  }

  /** Over any run that never leaves it out, a correction that changed at all has a higher revision. */
  lemma {:induction false} RunAdvances(t: Tables, actions: seq<Action>, sha: Hasher, id: Uuid)
    requires Inv(t, sha)
    requires forall a | a in actions :: WellFormed(a)
    requires !AbsentAlong(t, actions, sha, id)
    ensures Advanced(t, RunAll(t, actions, sha), id)
    decreases |actions|
  {
    if actions != [] {
      StepAdvances(t, actions[0], sha, id);
      StepKeepsInv(t, actions[0], sha);
      RunAdvances(Step(t, actions[0], sha), actions[1..], sha, id);
    }
  }

  /** The request names the correction at this revision. */
  predicate MadeAgainst(a: Action, id: Uuid, revision: nat) {
    match a
    case DoSave(input) => StableCorrectionId(input.pageId, input.targetBlockId, input.kind) == id
      && input.expectedRevision == revision
    case DoResolve(input) => input.correctionId == id && input.expectedRevision == revision
    case DoDelete(input) => input.correctionId == id && input.expectedRevision == revision
    case _ => false
  }

  /**
   * The run left the correction out and ended with one of the same id at this revision: a save made it anew, counting
   * from 1.
   */
  ghost predicate Recreated(t: Tables, actions: seq<Action>, sha: Hasher, id: Uuid, revision: nat) {
    && AbsentAlong(t, actions, sha, id)
    && var t' := RunAll(t, actions, sha);
    id in t'.corrections && t'.corrections[id].revision == revision
  }

  /** The row a request was made against has changed since, or is gone. */
  ghost predicate Outdated(t: Tables, actions: seq<Action>, sha: Hasher, id: Uuid) {
    var t' := RunAll(t, actions, sha);
    id in t.corrections && (id in t'.corrections ==> t'.corrections[id] != t.corrections[id])
  }

  lemma AcceptedMeansRevision(t: Tables, a: Action, sha: Hasher, id: Uuid, revision: nat)
    requires MadeAgainst(a, id, revision) && revision > 0 && Apply(t, a, sha).Ok? && Inv(t, sha)
    ensures id in t.corrections && t.corrections[id].revision == revision && !ValueGone(t, id)
  {
    if id in t.corrections { assert CorrectionOk(t, id, sha); }
  }

  /** An outdated request is accepted only where the run recreated the correction at the revision the request names. */
  lemma OutdatedAcceptedOnlyIfRecreated(t: Tables, actions: seq<Action>, sha: Hasher, id: Uuid, a: Action)
    requires Inv(t, sha) && Outdated(t, actions, sha, id) && forall x | x in actions :: WellFormed(x)
    requires MadeAgainst(a, id, t.corrections[id].revision) && Apply(RunAll(t, actions, sha), a, sha).Ok?
    ensures Recreated(t, actions, sha, id, t.corrections[id].revision) && !ValueGone(RunAll(t, actions, sha), id)
  {
    var t' := RunAll(t, actions, sha);
    assert CorrectionOk(t, id, sha);
    RunKeepsInv(t, actions, sha);
    AcceptedMeansRevision(t', a, sha, id, t.corrections[id].revision);
    if !AbsentAlong(t, actions, sha, id) { RunAdvances(t, actions, sha, id); }
  }

  lemma RecreatedAccepts(t: Tables, actions: seq<Action>, sha: Hasher, id: Uuid, revision: nat) returns (a: Action)
    requires Inv(t, sha) && (forall x | x in actions :: WellFormed(x)) && forall v: string :: ValidHash(sha(v))
    requires Recreated(t, actions, sha, id, revision) && !ValueGone(RunAll(t, actions, sha), id)
    ensures MadeAgainst(a, id, revision) && Apply(RunAll(t, actions, sha), a, sha).Ok?
  {
    var t' := RunAll(t, actions, sha);
    RunKeepsInv(t, actions, sha);
    DeletableExactly(t', sha, id);
    var input: DeleteInput :| input.correctionId == id && DeleteCorrection(t', input, sha).Ok?;
    a := DoDelete(input);
  }

  /**
   * Some outdated request is accepted if and only if the correction was recreated at that revision and its value is not
   * gone.
   */
  lemma OutdatedAcceptedExactly(t: Tables, actions: seq<Action>, sha: Hasher, id: Uuid)
    requires Inv(t, sha) && Outdated(t, actions, sha, id) && forall x | x in actions :: WellFormed(x)
    requires forall v: string :: ValidHash(sha(v))
    ensures (exists a :: MadeAgainst(a, id, t.corrections[id].revision) && Apply(RunAll(t, actions, sha), a, sha).Ok?)
            <==> Recreated(t, actions, sha, id, t.corrections[id].revision) && !ValueGone(RunAll(t, actions, sha), id)
  {
    if a :| MadeAgainst(a, id, t.corrections[id].revision) && Apply(RunAll(t, actions, sha), a, sha).Ok? {
      OutdatedAcceptedOnlyIfRecreated(t, actions, sha, id, a);
    }
    if Recreated(t, actions, sha, id, t.corrections[id].revision) && !ValueGone(RunAll(t, actions, sha), id) {
      var a := RecreatedAccepts(t, actions, sha, id, t.corrections[id].revision);
    }
  }

  /**
   * Saved, deleted and saved again with another value: requests made against the first correction are accepted against
   * the second.
   */
  lemma RecreationRevivesRequests(t: Tables, first: SaveInput, second: string, third: string, sha: Hasher)
    requires Inv(t, sha) && first.expectedRevision == 0 && SaveCorrection(t, first, sha).Ok?
    requires ValidCorrectedValue(first.kind, second) && ValidCorrectedValue(first.kind, third)
             && second != first.correctedValue
    ensures var id := Undo(first).correctionId;
            var t1 := SaveCorrection(t, first, sha).value;
            var actions := [DoDelete(Undo(first)), DoSave(first.(correctedValue := second))];
            var t2 := RunAll(t1, actions, sha);
            && Outdated(t1, actions, sha, id) && t1.corrections[id].revision == 1
            && id in t2.corrections && t2.corrections[id].correctedValue == second
            && SaveCorrection(t2, first.(correctedValue := third, expectedRevision := 1), sha).Ok?
            && DeleteCorrection(t2, Undo(first), sha).Ok?
  {
    var again := first.(correctedValue := second);
    DeleteUndoesSave(t, first, sha);
    var actions := [DoDelete(Undo(first)), DoSave(again)];
    var t1 := SaveCorrection(t, first, sha).value;
    var t2 := SaveCorrection(t, again, sha).value;
    assert Step(t1, actions[0], sha) == t;
    assert actions[1..] == [DoSave(again)] && actions[1..][1..] == [];
    assert RunAll(t1, actions, sha) == RunAll(t, actions[1..], sha) == RunAll(t2, actions[1..][1..], sha) == t2;
    SaveTakesEffect(t, first, sha);
    SaveTakesEffect(t, again, sha);
    DeleteUndoesSave(t, again, sha);
  }
}
