/** What the page index promises over whole runs. */
module IndexClaims {
  import opened Results
  import opened Text
  import opened IndexModel
  import opened IndexTransitions
  import opened IndexInvariant
  import opened IndexRebuild

  // ----- one commit's loop and the patched table agree

  /** However a page's chunks came about, they are the rows the commit loop would insert for its current blocks. */
  lemma PageChunksAreCommitRows(t: Tables, p: Uuid, blocks: seq<ValidatedBlock>, sha: Hasher)
    requires Inv(t, sha) && p in t.pages && OwnedByRun(t, p) && DistinctOrdinals(blocks)
    requires forall id :: id in Emitted(OwnerOf(t, p), blocks) <==> Current(t, id) && t.blocks[id].pageId == p
    requires forall id | id in Emitted(OwnerOf(t, p), blocks) && id in t.blocks ::
               t.blocks[id].content == Emitted(OwnerOf(t, p), blocks)[id]
    ensures (set c | c in Rebuild(t) && c.pageId == p)
            == PageRows(t.corrections, OwnerOf(t, p), t.pages[p].contentVersion, blocks)
  {
    var o := OwnerOf(t, p);
    var em := Emitted(o, blocks);
    var version := t.pages[p].contentVersion;
    forall c ensures (c in Rebuild(t) && c.pageId == p) <==> c in PageRows(t.corrections, o, version, blocks) {
      RebuildMember(t, c);
      PageRowsMember(t.corrections, o, version, blocks, c);
      if c.blockId in em {
        assert BlockOk(t, c.blockId);
        assert t.blocks[c.blockId] == OwnedBlock(o, em[c.blockId], version);
        BlockRowsMember(t.corrections, o.pageNumber, c.blockId, t.blocks[c.blockId], c);
        assert forall slot ::
                 ExpectedChunk(t, c.blockId, slot)
                 == SlotChunk(t.corrections, o.pageNumber, c.blockId, t.blocks[c.blockId], slot);
      }
    }
  }

  // ----- conflicts stick

  /** The requests that may end a conflict. */
  predicate Settles(a: Action, id: Uuid) {
    (a.DoResolve? && a.resolve.correctionId == id) || (a.DoDelete? && a.delete.correctionId == id)
  }

  predicate InConflict(t: Tables, id: Uuid, original: string, corrected: string) {
    && id in t.corrections && t.corrections[id].state == Conflict
    && t.corrections[id].originalValue == original && t.corrections[id].correctedValue == corrected
  }

  lemma ConflictSticksOnce(t: Tables, a: Action, sha: Hasher, id: Uuid, original: string, corrected: string)
    requires Inv(t, sha) && InConflict(t, id, original, corrected) && !Settles(a, id)
    ensures InConflict(Step(t, a, sha), id, original, corrected)
  {
    assert CorrectionOk(t, id, sha);
    var c := t.corrections[id];
    if a.DoSave? && StableCorrectionId(a.save.pageId, a.save.targetBlockId, a.save.kind) == id {
      assert SameTarget(c, a.save.pageId, a.save.targetBlockId, a.save.kind);
      assert CorrectionExists(t.corrections, a.save.pageId, a.save.targetBlockId, a.save.kind);
    }
  }

  /**
   * A conflict, and both values it is about, survive any run that does not settle it: even one that brings the original
   * value back.
   */
  lemma {:induction false} ConflictSticks(t: Tables, actions: seq<Action>, sha: Hasher, id: Uuid, original: string,
                                          corrected: string)
    requires Inv(t, sha) && InConflict(t, id, original, corrected)
    requires forall a | a in actions :: WellFormed(a) && !Settles(a, id)
    ensures InConflict(RunAll(t, actions, sha), id, original, corrected)
    decreases |actions|
  {
    if actions != [] {
      ConflictSticksOnce(t, actions[0], sha, id, original, corrected);
      StepKeepsInv(t, actions[0], sha);
      ConflictSticks(Step(t, actions[0], sha), actions[1..], sha, id, original, corrected);
    }
  }

  // ----- active corrections are about the current content, below the revision cap

  /**
   * With nothing at the cap, every active correction is about a current block and was made against the value it has.
   */
  lemma ActiveMeansCurrent(t: Tables, sha: Hasher, id: Uuid)
    requires Inv(t, sha) && id in t.corrections
    requires t.corrections[id].state == Active && t.corrections[id].revision < REVISION_CAP
    ensures var c := t.corrections[id];
            && Current(t, c.targetBlockId) && t.blocks[c.targetBlockId].pageId == c.pageId
            && c.targetVersion == t.pages[c.pageId].contentVersion
            && ProviderValue(t.blocks[c.targetBlockId].content, c.kind).Some?
            && sha(ProviderValue(t.blocks[c.targetBlockId].content, c.kind).value) == c.originalHash
  {
    assert CorrectionOk(t, id, sha);
  }

  /** A block left behind by its page is kept only for corrections. */
  lemma StaleMeansCorrected(t: Tables, sha: Hasher, b: Uuid)
    requires Inv(t, sha) && b in t.blocks && !Current(t, b)
    ensures exists c | c in t.corrections :: t.corrections[c].targetBlockId == b
                                             && (t.corrections[c].state == Conflict
                                                 || t.corrections[c].revision == REVISION_CAP)
  {
    assert BlockOk(t, b);
    var c :| c in t.corrections && t.corrections[c].pageId == t.blocks[b].pageId && t.corrections[c].targetBlockId == b;
    assert CorrectionOk(t, c, sha);
  }

  predicate LeftBehindInConflict(t: Tables, p: Uuid) {
    forall c | c in t.corrections && t.corrections[c].pageId == p ::
      !Current(t, t.corrections[c].targetBlockId) ==> t.corrections[c].state == Conflict
  }

  /** An active correction at the cap, on a block of the page that the commit does not emit. */
  ghost predicate CappedOrphan(t: Tables, req: CommitRequest)
    requires OwnedByRun(t, req.pageId)
  {
    exists c | c in t.corrections ::
      var row := t.corrections[c];
      && row.pageId == req.pageId && row.state == Active && row.revision == REVISION_CAP
      && row.targetBlockId !in Emitted(OwnerOf(t, req.pageId), req.page.blocks)
  }

  /** A commit puts every correction of a dropped block into conflict exactly when none of them is active at the cap. */
  lemma CommitOrphansExactly(t: Tables, req: CommitRequest, ctl: CommitControl, sha: Hasher)
    requires Inv(t, sha) && ValidPage(req.page) && CommitPage(t, req, ctl, sha).Ok?
    ensures LeftBehindInConflict(CommitPage(t, req, ctl, sha).value, req.pageId) <==> !CappedOrphan(t, req)
  {
    var o := OwnerOf(t, req.pageId);
    var em := Emitted(o, req.page.blocks);
    var t' := CommitPage(t, req, ctl, sha).value;
    CommitKeepsInv(t, req, ctl, sha);
    forall c | c in t.corrections && t.corrections[c].pageId == req.pageId
      ensures Current(t', t.corrections[c].targetBlockId) <==> t.corrections[c].targetBlockId in em
      ensures t.corrections[c].targetBlockId !in em ==> t'.corrections[c] == Orphaned(t.corrections[c])
      ensures t.corrections[c].revision <= REVISION_CAP
    {
      assert CorrectionOk(t, c, sha) && CorrectionOk(t', c, sha);
      CurrentAfterCommit(t, req, sha, t.corrections[c].targetBlockId);
    }
    if CappedOrphan(t, req) {
      var c :| c in t.corrections && t.corrections[c].pageId == req.pageId && t.corrections[c].state == Active
               && t.corrections[c].revision == REVISION_CAP && t.corrections[c].targetBlockId !in em;
      assert t'.corrections[c] == t.corrections[c];
    }
    if !LeftBehindInConflict(t', req.pageId) {
      var c :| c in t'.corrections && t'.corrections[c].pageId == req.pageId
               && !Current(t', t'.corrections[c].targetBlockId) && t'.corrections[c].state != Conflict;
      assert t'.corrections[c] == Orphaned(t.corrections[c]);
    }
  }

  function Resave(c: Correction, version: nat): Action {
    DoSave(SaveInput(c.bookId, c.pageId, c.targetBlockId, version, c.kind, c.originalHash, c.correctedValue,
                     c.revision))
  }

  function AtRevision(t: Tables, id: Uuid, revision: nat): Tables
    requires id in t.corrections
  {
    t.(corrections := t.corrections[id := t.corrections[id].(revision := revision)])
  }

  ghost predicate Climbable(t: Tables, sha: Hasher, id: Uuid) {
    && Inv(t, sha) && id in t.corrections
    && var c := t.corrections[id];
    && c.state == Active && Current(t, c.targetBlockId) && c.pageId in t.pages
    && ValidHash(c.originalHash) && ValidCorrectedValue(c.kind, c.correctedValue)
  }

  /** Saving an active correction again raises its revision by one and changes nothing else, up to the cap. */
  lemma SavingClimbs(t: Tables, sha: Hasher, id: Uuid)
    requires Climbable(t, sha, id) && t.corrections[id].revision < REVISION_CAP
    ensures var c := t.corrections[id];
            && Step(t, Resave(c, t.pages[c.pageId].contentVersion), sha) == AtRevision(t, id, c.revision + 1)
            && Climbable(AtRevision(t, id, c.revision + 1), sha, id)
  {
    var c := t.corrections[id];
    assert CorrectionOk(t, id, sha);
    assert BlockOk(t, c.targetBlockId);
    StepKeepsInv(t, Resave(c, t.pages[c.pageId].contentVersion), sha);
    var content := t.blocks[c.targetBlockId].content;
    assert OrdinalsFit(content) && HasSlotValue(content, KindSlot(c.kind));
  }

  predicate OnlySaves(actions: seq<Action>) {
    forall a | a in actions :: a.DoSave?
  }

  /** Some run of saves leads from one state to the other. */
  ghost predicate SavesLead(t: Tables, t': Tables, sha: Hasher) {
    exists actions :: OnlySaves(actions) && RunAll(t, actions, sha) == t'
  }

  lemma NoSaveLeads(t: Tables, sha: Hasher)
    ensures SavesLead(t, t, sha)
  {
    assert OnlySaves([]) && RunAll(t, [], sha) == t;
  }

  lemma SaveLeads(t: Tables, a: Action, t': Tables, sha: Hasher)
    requires a.DoSave? && SavesLead(Step(t, a, sha), t', sha)
    ensures SavesLead(t, t', sha)
  {
    var rest :| OnlySaves(rest) && RunAll(Step(t, a, sha), rest, sha) == t';
    assert ([a] + rest)[1..] == rest;
    assert OnlySaves([a] + rest) && RunAll(t, [a] + rest, sha) == t';
  }

  lemma SaveLeadsOn(t: Tables, sha: Hasher, id: Uuid, t': Tables)
    requires Climbable(t, sha, id) && t.corrections[id].revision < REVISION_CAP
    requires SavesLead(AtRevision(t, id, t.corrections[id].revision + 1), t', sha)
    ensures SavesLead(t, t', sha)
  {
    SavingClimbs(t, sha, id);
    SaveLeads(t, Resave(t.corrections[id], t.pages[t.corrections[id].pageId].contentVersion), t', sha);
  }

  lemma NextClimbable(t: Tables, sha: Hasher, id: Uuid)
    requires Climbable(t, sha, id) && t.corrections[id].revision < REVISION_CAP
    ensures Climbable(AtRevision(t, id, t.corrections[id].revision + 1), sha, id)
  {
    SavingClimbs(t, sha, id);
  }

  lemma AtRevisionAgain(t: Tables, id: Uuid, revision: nat, next: nat)
    requires id in t.corrections
    ensures AtRevision(AtRevision(t, id, revision), id, next) == AtRevision(t, id, next)
    ensures AtRevision(t, id, t.corrections[id].revision) == t
  {
  }

  /** The cap is reachable: a run of saves takes any such correction to any higher revision, the cap included. */
  lemma {:induction false} SavesClimb(t: Tables, sha: Hasher, id: Uuid, revision: nat)
    requires Climbable(t, sha, id) && t.corrections[id].revision <= revision <= REVISION_CAP
    ensures SavesLead(t, AtRevision(t, id, revision), sha)
    decreases revision - t.corrections[id].revision
  {
    var at := t.corrections[id].revision;
    AtRevisionAgain(t, id, at + 1, revision);
    if at == revision {
      NoSaveLeads(t, sha);
    } else {
      NextClimbable(t, sha, id);
      SavesClimb(AtRevision(t, id, at + 1), sha, id, revision);
      SaveLeadsOn(t, sha, id, AtRevision(t, id, revision));
    }
  }

  // ----- when a correction can be removed at all

  /** The block is current but no longer has the kind of value that was corrected. */
  predicate ValueGone(t: Tables, id: Uuid)
    requires id in t.corrections
  {
    var c := t.corrections[id];
    Current(t, c.targetBlockId) && ProviderValue(t.blocks[c.targetBlockId].content, c.kind).None?
  }

  /** While the value is gone every resolution and deletion of the correction is refused, Accept included. */
  lemma GoneMeansRefused(t: Tables, sha: Hasher, id: Uuid)
    requires Inv(t, sha) && id in t.corrections && ValueGone(t, id)
    ensures forall input: DeleteInput :: input.correctionId == id ==> DeleteCorrection(t, input, sha).Err?
    ensures forall input: ResolveInput :: input.correctionId == id ==> ResolveConflict(t, input, sha).Err?
  {
    assert CorrectionOk(t, id, sha);
  }

  /** The next commit of the page decides it anew: the value is gone exactly when the block is emitted without it. */
  lemma CommitDecidesValueGone(t: Tables, req: CommitRequest, ctl: CommitControl, sha: Hasher, id: Uuid)
    requires Inv(t, sha) && id in t.corrections && t.corrections[id].pageId == req.pageId
    ensures ValidPage(req.page) && CommitPage(t, req, ctl, sha).Ok? ==>
              var c, em := t.corrections[id], Emitted(OwnerOf(t, req.pageId), req.page.blocks);
              id in CommitPage(t, req, ctl, sha).value.corrections
              && (ValueGone(CommitPage(t, req, ctl, sha).value, id) <==>
                    c.targetBlockId in em && ProviderValue(em[c.targetBlockId], c.kind).None?)
  {
    if ValidPage(req.page) && CommitPage(t, req, ctl, sha).Ok? {
      var c, t' := t.corrections[id], CommitPage(t, req, ctl, sha).value;
      CommitKeepsInv(t, req, ctl, sha);
      assert CorrectionOk(t, id, sha) && CorrectionOk(t', id, sha);
      CurrentAfterCommit(t, req, sha, c.targetBlockId);
    }
  }

  /** A correction can be deleted, by some request, exactly when its value is not gone from a current block. */
  lemma DeletableExactly(t: Tables, sha: Hasher, id: Uuid)
    requires Inv(t, sha) && id in t.corrections
    requires forall v: string :: ValidHash(sha(v))
    ensures (exists input: DeleteInput :: input.correctionId == id && DeleteCorrection(t, input, sha).Ok?) <==>
              !ValueGone(t, id)
  {
    assert CorrectionOk(t, id, sha);
    var c := t.corrections[id];
    assert BlockOk(t, c.targetBlockId);
    if !ValueGone(t, id) {
      var version := t.pages[c.pageId].contentVersion;
      var target := TargetForCorrection(t, c, version);
      var hash := if target.value.Some? then Some(sha(target.value.value.provider)) else None;
      var input := DeleteInput(c.bookId, c.pageId, id, version, hash, c.revision);
      assert target.value.Some? ==>
               OrdinalsFit(t.blocks[c.targetBlockId].content)
               && HasSlotValue(t.blocks[c.targetBlockId].content, KindSlot(c.kind));
      assert DeleteCorrection(t, input, sha).Ok?;
    }
  }

  /**
   * A conflict can be kept, by some request, exactly when its block is current, still has the value, and the cap is not
   * reached.
   */
  lemma KeepableExactly(t: Tables, sha: Hasher, id: Uuid)
    requires Inv(t, sha) && id in t.corrections && t.corrections[id].state == Conflict
    requires forall v: string :: ValidHash(sha(v))
    ensures (exists input: ResolveInput ::
               input.correctionId == id && input.decision == Keep && ResolveConflict(t, input, sha).Ok?)
            <==> (&& Current(t, t.corrections[id].targetBlockId) && !ValueGone(t, id)
                  && t.corrections[id].revision < REVISION_CAP)
  {
    assert CorrectionOk(t, id, sha);
    var c := t.corrections[id];
    assert BlockOk(t, c.targetBlockId);
    if Current(t, c.targetBlockId) && !ValueGone(t, id) && c.revision < REVISION_CAP {
      var provider := ProviderValue(t.blocks[c.targetBlockId].content, c.kind).value;
      var input :=
        ResolveInput(c.bookId, c.pageId, id, t.pages[c.pageId].contentVersion, Some(sha(provider)), c.revision, Keep,
                     None);
      assert OrdinalsFit(t.blocks[c.targetBlockId].content)
             && HasSlotValue(t.blocks[c.targetBlockId].content, KindSlot(c.kind));
      assert ResolveConflict(t, input, sha).Ok?;
    }
  }

  // ----- a replaced attempt never commits

  predicate NobodyHas(t: Tables, attempt: Uuid) {
    forall p | p in t.pages :: t.pages[p].life.attemptId != Some(attempt)
  }

  predicate Issues(a: Action, attempt: Uuid) {
    || (a.DoCreatePage? && a.life.attemptId == Some(attempt))
    || (a.DoReschedule? && exists p | p in a.lives :: a.lives[p].attemptId == Some(attempt))
  }

  lemma StepIssuesNothingElse(t: Tables, a: Action, sha: Hasher, attempt: Uuid)
    requires NobodyHas(t, attempt) && !Issues(a, attempt)
    ensures NobodyHas(Step(t, a, sha), attempt)
  {
  }

  /**
   * Once no page has an attempt, and none is issued again, no run of requests ends with that attempt able to commit.
   */
  lemma {:induction false} ReplacedAttemptNeverCommits(t: Tables, actions: seq<Action>, sha: Hasher, attempt: Uuid,
                                                       req: CommitRequest, ctl: CommitControl)
    requires NobodyHas(t, attempt) && req.attemptId == attempt
    requires forall a | a in actions :: !Issues(a, attempt)
    ensures NobodyHas(RunAll(t, actions, sha), attempt)
    ensures CommitPage(RunAll(t, actions, sha), req, ctl, sha).Err?
    decreases |actions|
  {
    if actions != [] {
      var t1 := Step(t, actions[0], sha);
      StepIssuesNothingElse(t, actions[0], sha, attempt);
      ReplacedAttemptNeverCommits(t1, actions[1..], sha, attempt, req, ctl);
    }
  }

  // ----- which commits are accepted

  /** A stored row under the id of an emitted block is always the page's own. */
  lemma NoForeignRows(t: Tables, p: Uuid, blocks: seq<ValidatedBlock>, sha: Hasher)
    requires Inv(t, sha) && OwnedByRun(t, p)
    ensures !UpsertFails(t, OwnerOf(t, p), Emitted(OwnerOf(t, p), blocks))
  {
    var o := OwnerOf(t, p);
    assert PageOk(t, p);
    forall id | id in Emitted(o, blocks) && id in t.blocks ensures !ForeignRow(t.blocks, o, id) {
      assert BlockOk(t, id) && PageOk(t, t.blocks[id].pageId);
    }
  }

  /** Every value of the block has a chunk ordinal within the limit. */
  predicate SearchFits(b: ValidatedBlock) {
    && (b.plainText.Some? ==> 4 * b.ordinal <= 100_000) && (b.latex.Some? ==> 4 * b.ordinal + 1 <= 100_000)
    && (b.tableCells.Some? ==> 4 * b.ordinal + 2 <= 100_000) && (b.description.Some? ==> 4 * b.ordinal + 3 <= 100_000)
  }

  /** The page is in the claim of this attempt, of a run that still takes results. */
  predicate Claimed(t: Tables, req: CommitRequest) {
    && req.pageId in t.pages && t.pages[req.pageId].runId in t.runs
    && var page := t.pages[req.pageId];
    && page.pageNumber == req.page.pageNumber && page.life.status == Parsing
    && page.life.attemptId == Some(req.attemptId)
    && (t.runs[page.runId].status == Running || t.runs[page.runId].status == Paused)
  }

  /** Some emitted block has a correction that cannot be revised any more. */
  predicate CappedTarget(t: Tables, req: CommitRequest)
    requires OwnedByRun(t, req.pageId)
  {
    exists c, i | c in t.corrections && 0 <= i < |req.page.blocks| ::
      && t.corrections[c].targetBlockId == BlockIdOf(OwnerOf(t, req.pageId), req.page.blocks[i].ordinal)
      && t.corrections[c].revision == 1_000_000
  }

  lemma CappedExactly(t: Tables, req: CommitRequest, sha: Hasher)
    requires Inv(t, sha) && OwnedByRun(t, req.pageId)
    ensures var o := OwnerOf(t, req.pageId);
            ReconcileFails(t, o, Emitted(o, req.page.blocks)) <==> CappedTarget(t, req)
  {
    var o := OwnerOf(t, req.pageId);
    var em := Emitted(o, req.page.blocks);
    NoForeignRows(t, req.pageId, req.page.blocks, sha);
    forall c | c in t.corrections
      ensures t.corrections[c].revision <= REVISION_CAP
      ensures t.corrections[c].targetBlockId in em ==> Targets(t.corrections[c], o, t.corrections[c].targetBlockId)
      ensures t.corrections[c].targetBlockId in em <==>
              exists i :: 0 <= i < |req.page.blocks|
                          && t.corrections[c].targetBlockId == BlockIdOf(o, req.page.blocks[i].ordinal)
    {
      assert CorrectionOk(t, c, sha);
      EmittedExactly(o, req.page.blocks, t.corrections[c].targetBlockId);
      assert t.corrections[c].targetBlockId in em ==> !ForeignRow(t.blocks, o, t.corrections[c].targetBlockId);
    }
  }

  lemma OrdinalsFitExactly(b: ValidatedBlock)
    ensures OrdinalsFit(b) <==> SearchFits(b)
  {
    assert SearchFits(b) <==>
             && (HasSlotValue(b, TextSlot) ==> ChunkOrdinal(b.ordinal, TextSlot) <= MAX_CHUNK_ORDINAL)
             && (HasSlotValue(b, LatexSlot) ==> ChunkOrdinal(b.ordinal, LatexSlot) <= MAX_CHUNK_ORDINAL)
             && (HasSlotValue(b, TableSlot) ==> ChunkOrdinal(b.ordinal, TableSlot) <= MAX_CHUNK_ORDINAL)
             && (HasSlotValue(b, DescriptionSlot) ==> ChunkOrdinal(b.ordinal, DescriptionSlot) <= MAX_CHUNK_ORDINAL);
  }

  lemma SearchFitsExactly(o: Owner, page: ValidatedPage)
    requires ValidPage(page)
    ensures SearchRowsFail(Emitted(o, page.blocks)) <==> exists b :: b in page.blocks && !SearchFits(b)
  {
    var em := Emitted(o, page.blocks);
    forall b: ValidatedBlock ensures OrdinalsFit(b) <==> SearchFits(b) {
      OrdinalsFitExactly(b);
    }
    forall i | 0 <= i < |page.blocks|
      ensures BlockIdOf(o, page.blocks[i].ordinal) in em
      ensures em[BlockIdOf(o, page.blocks[i].ordinal)] == page.blocks[i]
    {
      EmittedAt(o, page.blocks, i);
    }
  }

  lemma ClaimedExactly(t: Tables, req: CommitRequest, ctl: CommitControl, sha: Hasher)
    requires Inv(t, sha)
    ensures CommitGuard(t, req, ctl).None? <==>
            && !ctl.cancelledBefore && OwnedByRun(t, req.pageId)
            && Claimed(t, req) && t.pages[req.pageId].contentVersion < 1_000_000
  {
  }

  lemma CommitPasses(t: Tables, req: CommitRequest, ctl: CommitControl, sha: Hasher)
    requires CommitGuard(t, req, ctl).None?
    ensures var o := OwnerOf(t, req.pageId);
            var em := Emitted(o, req.page.blocks);
            CommitPage(t, req, ctl, sha).Ok? <==>
            && !UpsertFails(t, o, em) && !ReconcileFails(t, o, em) && !SearchRowsFail(em)
            && ctl.fault == None && !ctl.cancelledBeforeStatus
  {
    if ctl.fault.Some? {
      assert ctl.fault.value == BlockInsert || ctl.fault.value == SearchInsert || ctl.fault.value == StatusUpdate;
    }
  }

  /**
   * A commit is accepted exactly when nothing disturbs it, its attempt holds the page, the page has a version left, no
   * correction of an emitted block is at the cap and every ordinal fits.
   */
  lemma CommitAcceptedExactly(t: Tables, req: CommitRequest, ctl: CommitControl, sha: Hasher)
    requires Inv(t, sha) && ValidPage(req.page)
    ensures CommitPage(t, req, ctl, sha).Ok? <==>
            && !ctl.cancelledBefore && !ctl.cancelledBeforeStatus && ctl.fault == None && OwnedByRun(t, req.pageId)
            && Claimed(t, req) && t.pages[req.pageId].contentVersion < 1_000_000
            && !CappedTarget(t, req)
            && forall b | b in req.page.blocks :: SearchFits(b)
  {
    ClaimedExactly(t, req, ctl, sha);
    if CommitGuard(t, req, ctl).None? {
      CommitPasses(t, req, ctl, sha);
      NoForeignRows(t, req.pageId, req.page.blocks, sha);
      CappedExactly(t, req, sha);
      SearchFitsExactly(OwnerOf(t, req.pageId), req.page);
    }
  }

  // ----- which corrections are accepted

  /** The block shows this content version of this page of the book. */
  predicate ShownBlock(t: Tables, blockId: Uuid, bookId: Uuid, pageId: Uuid, version: nat) {
    && Current(t, blockId) && t.blocks[blockId].pageId == pageId
    && t.pages[pageId].bookId == bookId && t.pages[pageId].contentVersion == version
  }

  /**
   * A save is accepted exactly when it names a current block, the version it shows and the hash of the value it has,
   * and no correction of that value exists; or, naming a revision, the one that exists is active at it and below the
   * cap.
   */
  lemma SaveAcceptedExactly(t: Tables, input: SaveInput, sha: Hasher)
    requires Inv(t, sha)
    ensures SaveCorrection(t, input, sha).Ok? <==>
            && ValidHash(input.originalHash) && ValidCorrectedValue(input.kind, input.correctedValue)
            && ShownBlock(t, input.targetBlockId, input.bookId, input.pageId, input.targetVersion)
            && var value := ProviderValue(t.blocks[input.targetBlockId].content, input.kind);
            && value.Some? && sha(value.value) == input.originalHash
            && if input.expectedRevision == 0 then
                 forall c | c in t.corrections ::
                   !SameTarget(t.corrections[c], input.pageId, input.targetBlockId, input.kind)
               else
                 exists c | c in t.corrections ::
                   && SameTarget(t.corrections[c], input.pageId, input.targetBlockId, input.kind)
                   && t.corrections[c].state == Active && t.corrections[c].revision == input.expectedRevision
                   && input.expectedRevision < 1_000_000
  {
    var id := StableCorrectionId(input.pageId, input.targetBlockId, input.kind);
    forall c | c in t.corrections && SameTarget(t.corrections[c], input.pageId, input.targetBlockId, input.kind)
      ensures c == id && input.targetBlockId in t.blocks
      ensures t.corrections[c].bookId == t.blocks[input.targetBlockId].bookId
    {
      assert CorrectionOk(t, c, sha);
    }
    if input.targetBlockId in t.blocks {
      assert BlockOk(t, input.targetBlockId);
      var content := t.blocks[input.targetBlockId].content;
      assert HasSlotValue(content, KindSlot(input.kind)) <==> ProviderValue(content, input.kind).Some?;
    }
    if id in t.corrections { assert CorrectionOk(t, id, sha); }
  }

  /** The request names the stored correction at its revision, and the state its block is in. */
  predicate AsStored(t: Tables, id: Uuid, bookId: Uuid, pageId: Uuid, version: nat, hash: Option<string>, revision: nat,
                  sha: Hasher)
  {
    && id in t.corrections && t.corrections[id].revision == revision
    && t.corrections[id].bookId == bookId && t.corrections[id].pageId == pageId
    && pageId in t.pages && t.pages[pageId].contentVersion == version
    && var c := t.corrections[id];
    if Current(t, c.targetBlockId) then
      var value := ProviderValue(t.blocks[c.targetBlockId].content, c.kind);
      value.Some? && hash == Some(sha(value.value)) && ValidHash(hash.value)
    else hash == None
  }

  lemma TargetAsStored(t: Tables, id: Uuid, version: nat, hash: Option<string>, sha: Hasher)
    requires Inv(t, sha) && id in t.corrections && (hash.Some? ==> ValidHash(hash.value))
    ensures var c := t.corrections[id];
            var target := TargetForCorrection(t, c, version);
            (target.Ok? && HashMatches(target.value, hash, sha))
            <==> AsStored(t, id, c.bookId, c.pageId, version, hash, c.revision, sha)
    ensures var c := t.corrections[id];
            var target := TargetForCorrection(t, c, version);
            target.Ok? ==>
              && (target.value.Some? <==> Current(t, c.targetBlockId))
              && (target.value.Some? ==> RefreshFits(t, c.targetBlockId, c.kind))
  {
    assert CorrectionOk(t, id, sha);
    var c := t.corrections[id];
    assert BlockOk(t, c.targetBlockId);
    var content := t.blocks[c.targetBlockId].content;
    assert HasSlotValue(content, KindSlot(c.kind)) <==> ProviderValue(content, c.kind).Some?;
  }

  /** A resolution is accepted exactly when it names a conflict and its block as they are; keeping needs a block. */
  lemma ResolveAcceptedExactly(t: Tables, input: ResolveInput, sha: Hasher)
    requires Inv(t, sha)
    ensures ResolveConflict(t, input, sha).Ok? <==>
            && AsStored(t, input.correctionId, input.bookId, input.pageId, input.targetVersion, input.currentHash,
                     input.expectedRevision, sha)
            && var c := t.corrections[input.correctionId];
            && c.state == Conflict
            && (input.decision == Compare <==> input.comparedValue.Some?)
            && (input.comparedValue.Some? ==> ValidCorrectedValue(c.kind, input.comparedValue.value))
            && (input.decision != Accept ==> Current(t, c.targetBlockId) && c.revision < 1_000_000)
  {
    if input.correctionId in t.corrections {
      assert CorrectionOk(t, input.correctionId, sha);
      if input.currentHash.Some? ==> ValidHash(input.currentHash.value) {
        TargetAsStored(t, input.correctionId, input.targetVersion, input.currentHash, sha);
      }
    }
  }

  /** A deletion is accepted exactly when it names a correction and its block as they are. */
  lemma DeleteAcceptedExactly(t: Tables, input: DeleteInput, sha: Hasher)
    requires Inv(t, sha)
    ensures DeleteCorrection(t, input, sha).Ok? <==>
            AsStored(t, input.correctionId, input.bookId, input.pageId, input.targetVersion, input.currentHash,
                  input.expectedRevision, sha)
  {
    if input.correctionId in t.corrections {
      assert CorrectionOk(t, input.correctionId, sha);
      if input.currentHash.Some? ==> ValidHash(input.currentHash.value) {
        TargetAsStored(t, input.correctionId, input.targetVersion, input.currentHash, sha);
      }
    }
  }

  // ----- why a request is refused

  /** The reason a commit is refused for, first of all the ones there are. */
  lemma CommitRefusal(t: Tables, req: CommitRequest, ctl: CommitControl, sha: Hasher)
    requires Inv(t, sha) && ValidPage(req.page)
    ensures var r := CommitPage(t, req, ctl, sha);
            r.Ok? || r.error == (
              if ctl.cancelledBefore then ImportCancelled
              else if req.pageId !in t.pages then NotFound
              else if !Claimed(t, req) then RequestConflict
              else if t.pages[req.pageId].contentVersion >= 1_000_000 then DatabaseError
              else if OwnedByRun(t, req.pageId) && CappedTarget(t, req) then RequestConflict
              else if ctl.fault == Some(BlockInsert) then DatabaseError
              else if exists b :: b in req.page.blocks && !SearchFits(b) then InvalidInput
              else if ctl.fault == Some(SearchInsert) then DatabaseError
              else if ctl.cancelledBeforeStatus then ImportCancelled else DatabaseError)
  {
    if req.pageId in t.pages { assert PageOk(t, req.pageId); }
    ClaimedExactly(t, req, ctl, sha);
    if CommitGuard(t, req, ctl).None? {
      NoForeignRows(t, req.pageId, req.page.blocks, sha);
      CappedExactly(t, req, sha);
      SearchFitsExactly(OwnerOf(t, req.pageId), req.page);
      RowsRefusal(t, req, ctl, sha);
    }
  }

  lemma RowsRefusal(t: Tables, req: CommitRequest, ctl: CommitControl, sha: Hasher)
    requires CommitGuard(t, req, ctl).None?
    ensures var o := OwnerOf(t, req.pageId);
            var em := Emitted(o, req.page.blocks);
            var r := CommitPage(t, req, ctl, sha);
            r.Ok? || r.error == (
              if UpsertFails(t, o, em) || ReconcileFails(t, o, em) then RequestConflict
              else if ctl.fault == Some(BlockInsert) then DatabaseError
              else if SearchRowsFail(em) then InvalidInput
              else if ctl.fault == Some(SearchInsert) then DatabaseError
              else if ctl.cancelledBeforeStatus then ImportCancelled else DatabaseError)
  {
  }

  /** A save is refused for its value, for a page or block that is not there, or else for a conflict. */
  lemma SaveRefusal(t: Tables, input: SaveInput, sha: Hasher)
    requires Inv(t, sha)
    ensures var r := SaveCorrection(t, input, sha);
            r.Ok? || r.error == (
              if !ValidHash(input.originalHash) || !ValidCorrectedValue(input.kind, input.correctedValue)
              then InvalidInput
              else if input.pageId !in t.pages then NotFound
              else if t.pages[input.pageId].bookId != input.bookId || input.targetVersion == 0
                      || t.pages[input.pageId].contentVersion != input.targetVersion then RequestConflict
              else if input.targetBlockId !in t.blocks then NotFound
              else RequestConflict)
  {
    if input.targetBlockId in t.blocks {
      assert BlockOk(t, input.targetBlockId);
      var content := t.blocks[input.targetBlockId].content;
      assert HasSlotValue(content, KindSlot(input.kind)) <==> ProviderValue(content, input.kind).Some?;
    }
  }

  /** A resolution is refused for its form, for a correction that is not there, or else for a conflict. */
  lemma ResolveRefusal(t: Tables, input: ResolveInput, sha: Hasher)
    requires Inv(t, sha)
    ensures var r := ResolveConflict(t, input, sha);
            r.Ok? || r.error == (
              if input.expectedRevision == 0 || (input.currentHash.Some? && !ValidHash(input.currentHash.value))
                 || (input.decision == Compare) != (input.comparedValue != None) then InvalidInput
              else if input.correctionId !in t.corrections then NotFound
              else
                var c := t.corrections[input.correctionId];
                if c.bookId == input.bookId && c.pageId == input.pageId && c.revision == input.expectedRevision
                   && c.state == Conflict && input.comparedValue.Some?
                   && !ValidCorrectedValue(c.kind, input.comparedValue.value) then InvalidInput
                else RequestConflict)
  {
    if input.correctionId in t.corrections {
      assert CorrectionOk(t, input.correctionId, sha) && BlockOk(t, t.corrections[input.correctionId].targetBlockId);
      if input.currentHash.Some? ==> ValidHash(input.currentHash.value) {
        TargetAsStored(t, input.correctionId, input.targetVersion, input.currentHash, sha);
      }
    }
  }

  /** A deletion is refused for its form, for a correction that is not there, or else for a conflict. */
  lemma DeleteRefusal(t: Tables, input: DeleteInput, sha: Hasher)
    requires Inv(t, sha)
    ensures var r := DeleteCorrection(t, input, sha);
            r.Ok? || r.error == (
              if input.expectedRevision == 0 || (input.currentHash.Some? && !ValidHash(input.currentHash.value))
              then InvalidInput
              else if input.correctionId !in t.corrections then NotFound else RequestConflict)
  {
    if input.correctionId in t.corrections {
      assert CorrectionOk(t, input.correctionId, sha) && BlockOk(t, t.corrections[input.correctionId].targetBlockId);
      if input.currentHash.Some? ==> ValidHash(input.currentHash.value) {
        TargetAsStored(t, input.correctionId, input.targetVersion, input.currentHash, sha);
      }
    }
  }

  /** The page is waiting for no analysis. */
  predicate Closed(t: Tables, p: Uuid) {
    p in t.pages && t.pages[p].life.status != Parsing
  }

  lemma StepKeepsClosed(t: Tables, a: Action, sha: Hasher, p: Uuid)
    requires Closed(t, p) && (a.DoReschedule? ==> p !in a.lives)
    ensures Closed(Step(t, a, sha), p)
  {
  }

  /** A page is committed once: until it is rescheduled, no run of requests ends with another commit of it accepted. */
  lemma {:induction false} CommittedOnlyOnce(t: Tables, actions: seq<Action>, sha: Hasher, req: CommitRequest,
                                             ctl: CommitControl)
    requires Closed(t, req.pageId)
    requires forall a: Action | a in actions && a.DoReschedule? :: req.pageId !in a.lives
    ensures Closed(RunAll(t, actions, sha), req.pageId) && CommitPage(RunAll(t, actions, sha), req, ctl, sha).Err?
    decreases |actions|
  {
    if actions != [] {
      StepKeepsClosed(t, actions[0], sha, req.pageId);
      CommittedOnlyOnce(Step(t, actions[0], sha), actions[1..], sha, req, ctl);
    }
  }

  lemma CommitCloses(t: Tables, req: CommitRequest, ctl: CommitControl, sha: Hasher)
    requires CommitPage(t, req, ctl, sha).Ok?
    ensures Closed(CommitPage(t, req, ctl, sha).value, req.pageId)
  {
  }

  // ----- pages do not disturb each other

  /** A commit leaves every row of every other page as it was. */
  lemma CommitLeavesOtherPages(t: Tables, req: CommitRequest, ctl: CommitControl, sha: Hasher, p: Uuid)
    requires Inv(t, sha) && ValidPage(req.page) && CommitPage(t, req, ctl, sha).Ok? && p != req.pageId
    ensures var t' := CommitPage(t, req, ctl, sha).value;
            && (p in t.pages <==> p in t'.pages) && (p in t.pages ==> t'.pages[p] == t.pages[p])
            && (forall b ::
                  (b in t.blocks && t.blocks[b].pageId == p) <==> (b in t'.blocks && t'.blocks[b].pageId == p))
            && (forall b | b in t.blocks && t.blocks[b].pageId == p :: t'.blocks[b] == t.blocks[b])
            && (forall c | c in t.corrections && t.corrections[c].pageId == p :: t'.corrections[c] == t.corrections[c])
            && (set c | c in Rebuild(t') && c.pageId == p) == (set c | c in Rebuild(t) && c.pageId == p)
  {
    var o := OwnerOf(t, req.pageId);
    var em := Emitted(o, req.page.blocks);
    var t' := CommitPage(t, req, ctl, sha).value;
    forall b | b in t.blocks && t.blocks[b].pageId == p ensures b !in em {
      if b in em { assert ForeignRow(t.blocks, o, b); }
    }
    CommitRebuilds(t, req, sha);
    forall c | c in PageRows(t'.corrections, o, t.pages[req.pageId].contentVersion + 1, req.page.blocks)
      ensures c.pageId == req.pageId {
      PageRowsMember(t'.corrections, o, t.pages[req.pageId].contentVersion + 1, req.page.blocks, c);
      BlockRowsMember(t'.corrections, o.pageNumber, c.blockId,
                      OwnedBlock(o, em[c.blockId], t.pages[req.pageId].contentVersion + 1), c);
    }
  }
}
