/** The operations of the page index. Each one is a single transaction; the chunk table is kept equal to a rebuild. */
module IndexService {
  import opened Results
  import opened Text
  import opened IndexModel
  import opened IndexTransitions
  import opened IndexInvariant
  import opened IndexRebuild
  import opened IndexStore

  datatype CommitOutcome = CommitOutcome(status: PageStatus, contentVersion: nat)

  /** The staged rows are the tables the transition gives, and their chunks are a rebuild. */
  lemma CommitSucceeds(t: Tables, req: CommitRequest, ctl: CommitControl, sha: Hasher, runs: map<Uuid, Run>,
                       pages: map<Uuid, Page>,
                       blocks: map<Uuid, Block>, corrections: map<Uuid, Correction>, chunks: set<Chunk>)
    requires Inv(t, sha) && ValidPage(req.page)
    requires CommitGuard(t, req, ctl).None?
    requires StageOutcome(t, OwnerOf(t, req.pageId), Emitted(OwnerOf(t, req.pageId), req.page.blocks), ctl).None?
    requires Staged(t, Rebuild(t), req, sha, runs, pages, blocks, corrections, chunks)
    ensures CommitPage(t, req, ctl, sha) == Ok(Tables(runs, pages, blocks, corrections))
    ensures Inv(Tables(runs, pages, blocks, corrections), sha)
    ensures chunks == Rebuild(Tables(runs, pages, blocks, corrections))
  {
    CommitKeepsInv(t, req, ctl, sha);
    CommitRebuilds(t, req, sha);
  }

  lemma CorrectionKey(t: Tables, id: Uuid, sha: Hasher)
    requires Inv(t, sha) && id in t.corrections
    ensures var c := t.corrections[id];
            id == StableCorrectionId(c.pageId, c.targetBlockId, c.kind)
            && c.targetBlockId in t.blocks && t.blocks[c.targetBlockId].pageId == c.pageId
  {
    assert CorrectionOk(t, id, sha);
  }

  class PageIndex {
    const sha: Hasher
    var runs: map<Uuid, Run>
    var pages: map<Uuid, Page>
    var blocks: map<Uuid, Block>
    var corrections: map<Uuid, Correction>
    var chunks: set<Chunk>

    ghost function Sources(): Tables
      reads this
    {
      Tables(runs, pages, blocks, corrections)
    }

    /** The source tables are well formed, and the chunk table is what a rebuild from nothing would give. */
    ghost predicate Valid()
      reads this
    {
      Inv(Sources(), sha) && chunks == Rebuild(Sources())
    }

    constructor (runs: map<Uuid, Run>, sha: Hasher)
      ensures Valid() && Sources() == Tables(runs, map[], map[], map[]) && this.sha == sha
    {
      this.sha := sha;
      this.runs, this.pages, this.blocks, this.corrections, this.chunks := runs, map[], map[], map[], {};
    }

    method Publish(tx: Transaction)
      modifies this
      ensures Sources() == Tables(tx.runs, tx.pages, tx.blocks, tx.corrections) && chunks == tx.chunks
    {
      runs, pages, blocks, corrections, chunks := tx.runs, tx.pages, tx.blocks, tx.corrections, tx.chunks;
    }

    method CommitValidatedPage(req: CommitRequest, ctl: CommitControl) returns (r: Result<CommitOutcome>)
      requires Valid() && ValidPage(req.page)
      modifies this
      ensures Valid()
      ensures r.Err? ==> Sources() == old(Sources()) && CommitPage(old(Sources()), req, ctl, sha) == Err(r.error)
      ensures r.Ok? ==> CommitPage(old(Sources()), req, ctl, sha) == Ok(Sources())
                        && r.value == CommitOutcome(pages[req.pageId].life.status, pages[req.pageId].contentVersion)
    {
      var refused := CheckCommit(req, ctl);
      if refused.Some? { return Err(refused.value); }
      r := CommitChecked(req, ctl);
    }

    /** The transaction proper, once the page is known to be this attempt's. */
    method CommitChecked(req: CommitRequest, ctl: CommitControl) returns (r: Result<CommitOutcome>)
      requires Valid() && ValidPage(req.page) && CommitGuard(Sources(), req, ctl).None?
      modifies this
      ensures Valid()
      ensures r.Err? ==> Sources() == old(Sources()) && CommitPage(old(Sources()), req, ctl, sha) == Err(r.error)
      ensures r.Ok? ==> CommitPage(old(Sources()), req, ctl, sha) == Ok(Sources())
                        && r.value == CommitOutcome(pages[req.pageId].life.status, pages[req.pageId].contentVersion)
    {
      ghost var t := Sources();
      CommitPrepared(t, req, OwnerOf(t, req.pageId), sha);
      var tx := new Transaction(Tables(runs, pages, blocks, corrections), chunks, sha);
      var page := pages[req.pageId];
      var o := Owner(req.pageId, page.runId, page.bookId, page.pageNumber, runs[page.runId].schema);
      var failed := tx.StagePage(req, o, page.contentVersion + 1, ctl);
      if failed.Some? { return Err(failed.value); }
      CommitSucceeds(t, req, ctl, sha, tx.runs, tx.pages, tx.blocks, tx.corrections, tx.chunks);
      Publish(tx);
      r := Ok(CommitOutcome(pages[req.pageId].life.status, pages[req.pageId].contentVersion));
    }

    method CheckCommit(req: CommitRequest, ctl: CommitControl) returns (refused: Option<ErrorCode>)
      ensures refused == CommitGuard(Sources(), req, ctl)
    {
      if ctl.cancelledBefore { return Some(ImportCancelled); }
      if req.pageId !in pages || pages[req.pageId].runId !in runs
         || runs[pages[req.pageId].runId].bookId != pages[req.pageId].bookId {
        return Some(NotFound);
      }
      var page := pages[req.pageId];
      var run := runs[page.runId];
      if page.pageNumber != req.page.pageNumber || page.life.status != Parsing
        || page.life.attemptId != Some(req.attemptId)
         || !(run.status == Running || run.status == Paused) {
        return Some(RequestConflict);
      }
      refused := if page.contentVersion + 1 > VERSION_CAP then Some(DatabaseError) else None;
    }

    // ----- corrections

    method SaveIndexCorrection(input: SaveInput) returns (r: Result<Correction>)
      requires Valid()
      modifies this
      ensures Valid()
      ensures r.Err? ==> Sources() == old(Sources()) && SaveCorrection(old(Sources()), input, sha) == Err(r.error)
      ensures r.Ok? ==> SaveCorrection(old(Sources()), input, sha) == Ok(Sources())
                        && r.value == corrections[StableCorrectionId(input.pageId, input.targetBlockId, input.kind)]
    {
      if !ValidHash(input.originalHash) || !ValidCorrectedValue(input.kind, input.correctedValue) {
        return Err(InvalidInput);
      }
      var t := Tables(runs, pages, blocks, corrections);
      var found := CurrentTarget(t, input.bookId, input.pageId, input.targetBlockId, input.targetVersion, input.kind);
      if found.Err? { return Err(found.error); }
      var target := found.value;
      if sha(target.provider) != input.originalHash { return Err(RequestConflict); }
      var id := StableCorrectionId(input.pageId, input.targetBlockId, input.kind);
      var row;
      if input.expectedRevision == 0 {
        if CorrectionExists(corrections, input.pageId, input.targetBlockId, input.kind) { return Err(RequestConflict); }
        row := Correction(input.bookId, input.pageId, input.targetBlockId, input.targetVersion,
                          blocks[input.targetBlockId].content.bounds, input.kind, sha(target.provider), target.provider,
                          input.correctedValue, Active, 1);
      } else {
        if !Updatable(corrections, id, input, sha(target.provider)) { return Err(RequestConflict); }
        var stored := corrections[id];
        row := stored.(correctedValue := input.correctedValue, targetVersion := input.targetVersion,
                       revision := stored.revision + 1);
      }
      var failed := WriteAndRefresh(id, row, target);
      if failed.Some? { return Err(failed.value); }
      SaveKeepsInv(t, input, sha);
      r := Ok(row);
    }

    /** Writes one active correction and refreshes the value it corrects, in one transaction. */
    method WriteAndRefresh(id: Uuid, row: Correction, target: Target) returns (failed: Option<ErrorCode>)
      requires chunks == Rebuild(Sources())
      requires Current(Sources(), row.targetBlockId) && blocks[row.targetBlockId].pageId == row.pageId
      requires id == StableCorrectionId(row.pageId, row.targetBlockId, row.kind) && row.state == Active
      requires ProviderValue(blocks[row.targetBlockId].content, row.kind).Some?
      requires target.pageId == row.pageId && target.blockId == row.targetBlockId && target.kind == row.kind
      modifies this
      ensures failed.None? <==> RefreshFits(old(Sources()), row.targetBlockId, row.kind)
      ensures failed.Some? ==> failed == Some(InvalidInput) && Sources() == old(Sources())
      ensures failed.None? ==> Sources() == old(Sources()).(corrections := old(corrections)[id := row])
      ensures chunks == Rebuild(Sources())
    {
      ghost var t := Sources();
      var tx := new Transaction(Tables(runs, pages, blocks, corrections), chunks, sha);
      tx.corrections := tx.corrections[id := row];
      RefreshReady(t, row.targetBlockId, row.kind);
      failed := tx.RefreshSearchValue(target, SearchValue(UserCorrected, Some(id), row.correctedValue));
      if failed.None? {
        WrittenOverlay(t, id, row);
        RefreshRebuilds(t, t.(corrections := t.corrections[id := row]), row.targetBlockId, row.kind,
                        MakeChunk(pages[row.pageId].pageNumber, row.targetBlockId, blocks[row.targetBlockId],
                                  KindSlot(row.kind),
                                  SearchValue(UserCorrected, Some(id), row.correctedValue)));
        Publish(tx);
      }
    }

    /** Deletes one correction; its value goes back to the provider's, or its left-behind block goes too. */
    method RemoveAndRefresh(id: Uuid, target: Option<Target>, version: nat) returns (failed: Option<ErrorCode>)
      requires Valid() && id in corrections
      requires TargetForCorrection(Sources(), corrections[id], version) == Ok(target)
      modifies this
      ensures Valid()
      ensures failed.Some? ==>
                Sources() == old(Sources())
                && RemoveCorrection(old(Sources()), id, target, version) == Err(failed.value)
      ensures failed.None? ==> RemoveCorrection(old(Sources()), id, target, version) == Ok(Sources())
    {
      ghost var t := Sources();
      var row := corrections[id];
      var tx := new Transaction(Tables(runs, pages, blocks, corrections), chunks, sha);
      tx.corrections := tx.corrections - {id};
      CorrectionKey(t, id, sha);
      if target.Some? {
        RefreshReady(t, row.targetBlockId, row.kind);
        failed := tx.RefreshSearchValue(target.value, SearchValue(AiTranscribed, None, target.value.provider));
        if failed.Some? { return; }
        RemovedOverlay(t, id, row.targetBlockId, row.kind, target.value.provider);
        RefreshRebuilds(t, t.(corrections := t.corrections - {id}), row.targetBlockId, row.kind,
                        MakeChunk(pages[row.pageId].pageNumber, row.targetBlockId, blocks[row.targetBlockId],
                                  KindSlot(row.kind),
                                  SearchValue(AiTranscribed, None, target.value.provider)));
      } else {
        tx.RemoveUnreferencedStaleBlock(row.pageId, row.targetBlockId, version);
        StaleRemovalKeepsRebuild(t, Tables(t.runs, t.pages, tx.blocks, tx.corrections), row.targetBlockId, id);
        failed := None;
      }
      RemoveKeepsInv(t, id, target, version, sha);
      Publish(tx);
    }

    method ResolveIndexCorrectionConflict(input: ResolveInput) returns (r: Result<Option<Correction>>)
      requires Valid()
      modifies this
      ensures Valid()
      ensures r.Err? ==> Sources() == old(Sources()) && ResolveConflict(old(Sources()), input, sha) == Err(r.error)
      ensures r.Ok? ==> ResolveConflict(old(Sources()), input, sha) == Ok(Sources())
                        && r.value == if input.decision == Accept then None else Some(corrections[input.correctionId])
    {
      if input.expectedRevision == 0
         || (input.currentHash.Some? && !ValidHash(input.currentHash.value))
         || (input.decision == Compare) != input.comparedValue.Some? {
        return Err(InvalidInput);
      }
      var t := Tables(runs, pages, blocks, corrections);
      var owned := OwnedCorrection(t, input.bookId, input.pageId, input.correctionId, input.expectedRevision);
      if owned.Err? { return Err(owned.error); }
      var stored := owned.value;
      if stored.state != Conflict { return Err(RequestConflict); }
      if input.comparedValue.Some?
        && !ValidCorrectedValue(stored.kind, input.comparedValue.value) { return Err(InvalidInput); }
      var target := TargetForCorrection(t, stored, input.targetVersion);
      if target.Err? { return Err(target.error); }
      if !HashMatches(target.value, input.currentHash, sha) { return Err(RequestConflict); }
      if input.decision == Accept {
        var failed := RemoveAndRefresh(input.correctionId, target.value, input.targetVersion);
        return if failed.Some? then Err(failed.value) else Ok(None);
      }
      r := KeepAgainstCurrentValue(input, target.value);
    }

    /** Keep and Compare: the correction becomes active again, against the value the block has now. */
    method KeepAgainstCurrentValue(input: ResolveInput, target: Option<Target>) returns (r: Result<Option<Correction>>)
      requires Valid() && input.correctionId in corrections
      requires TargetForCorrection(Sources(), corrections[input.correctionId], input.targetVersion) == Ok(target)
      requires input.comparedValue.Some? ==>
                 ValidCorrectedValue(corrections[input.correctionId].kind, input.comparedValue.value)
      modifies this
      ensures Valid()
      ensures r.Err? ==>
                Sources() == old(Sources())
                && KeepCorrection(old(Sources()), input.correctionId, target, input, sha) == Err(r.error)
      ensures r.Ok? ==> KeepCorrection(old(Sources()), input.correctionId, target, input, sha) == Ok(Sources())
                        && r.value == Some(corrections[input.correctionId])
    {
      ghost var t := Sources();
      if target.None? { return Err(RequestConflict); }
      var stored := corrections[input.correctionId];
      if stored.revision >= REVISION_CAP { return Err(RequestConflict); }
      var provider := target.value.provider;
      var row := stored.(
        targetVersion := input.targetVersion,
        originalHash := sha(provider),
        originalValue := provider,
        correctedValue := if input.comparedValue.Some? then input.comparedValue.value else stored.correctedValue,
        state := Active,
        revision := stored.revision + 1);
      CorrectionKey(t, input.correctionId, sha);
      var failed := WriteAndRefresh(input.correctionId, row, target.value);
      if failed.Some? { return Err(failed.value); }
      KeepKeepsInv(t, input.correctionId, target, input, sha);
      r := Ok(Some(row));
    }

    method DeleteIndexCorrection(input: DeleteInput) returns (error: Option<ErrorCode>)
      requires Valid()
      modifies this
      ensures Valid()
      ensures error.Some? ==>
                Sources() == old(Sources()) && DeleteCorrection(old(Sources()), input, sha) == Err(error.value)
      ensures error.None? ==> DeleteCorrection(old(Sources()), input, sha) == Ok(Sources())
    {
      if input.expectedRevision == 0 || (input.currentHash.Some? && !ValidHash(input.currentHash.value)) {
        return Some(InvalidInput);
      }
      var t := Tables(runs, pages, blocks, corrections);
      var owned := OwnedCorrection(t, input.bookId, input.pageId, input.correctionId, input.expectedRevision);
      if owned.Err? { return Some(owned.error); }
      var target := TargetForCorrection(t, owned.value, input.targetVersion);
      if target.Err? { return Some(target.error); }
      if !HashMatches(target.value, input.currentHash, sha) { return Some(RequestConflict); }
      error := RemoveAndRefresh(input.correctionId, target.value, input.targetVersion);
    }

    // ----- scheduling, and whole runs

    /**
     * Creating pages, run status changes and page scheduling: none of them touches a block, a correction or a chunk.
     */
    method Environment(a: Action)
      requires Valid()
      requires a.DoCreatePage? || a.DoSetRunStatus? || a.DoReschedule?
      modifies this
      ensures Valid() && Sources() == Step(old(Sources()), a, sha)
    {
      ghost var t := Sources();
      EnvironmentKeepsRebuild(t, a, sha);
      StepKeepsInv(t, a, sha);
      var now := Tables(runs, pages, blocks, corrections);
      match a
      case DoCreatePage(runId, pageNumber, life) =>
        var r := CreatePage(now, runId, pageNumber, life);
        if r.Ok? { pages := r.value.pages; }
      case DoSetRunStatus(runId, status) =>
        if runId in runs { runs := runs[runId := runs[runId].(status := status)]; }
      case DoReschedule(lives) =>
        pages := Reschedule(now, lives).pages;
    }

    /** Any interleaving of requests: the index follows the transitions, and its chunks stay a rebuild throughout. */
    method Serve(actions: seq<Action>)
      requires Valid() && forall a | a in actions :: WellFormed(a)
      modifies this
      ensures Valid() && Sources() == RunAll(old(Sources()), actions, sha)
    {
      ghost var t := Sources();
      for i := 0 to |actions|
        invariant Valid() && RunAll(Sources(), actions[i..], sha) == RunAll(t, actions, sha)
      {
        assert actions[i] in actions && WellFormed(actions[i]);
        assert actions[i..][0] == actions[i] && actions[i..][1..] == actions[i + 1..];
        match actions[i]
        case DoCommit(req, ctl) => var _ := CommitValidatedPage(req, ctl);
        case DoSave(input) => var _ := SaveIndexCorrection(input);
        case DoResolve(input) => var _ := ResolveIndexCorrectionConflict(input);
        case DoDelete(input) => var _ := DeleteIndexCorrection(input);
        case _ => Environment(actions[i]);
      }
    }
  }
}
