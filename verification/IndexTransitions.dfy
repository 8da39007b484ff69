/** What one committed transaction of the page index does to the source tables, stated table by table. */
module IndexTransitions {
  import opened Results
  import opened Text
  import opened IndexModel

  // ----- page commit

  datatype CommitFault = BlockInsert | SearchInsert | StatusUpdate
  datatype CommitControl = CommitControl(
    fault: Option<CommitFault>, cancelledBefore: bool, cancelledBeforeStatus: bool)

  const UNDISTURBED := CommitControl(None, false, false)

  datatype CommitRequest = CommitRequest(pageId: Uuid, attemptId: Uuid, page: ValidatedPage, now: int)

  /** Who owns the rows a commit writes. */
  datatype Owner = Owner(pageId: Uuid, runId: Uuid, bookId: Uuid, pageNumber: nat, schema: string)

  function BlockIdOf(o: Owner, ordinal: nat): Uuid {
    StableBlockId(o.bookId, o.pageNumber, o.runId, o.schema, ordinal)
  }

  /** The blocks of a page under their stable ids. */
  function Emitted(o: Owner, blocks: seq<ValidatedBlock>): (m: map<Uuid, ValidatedBlock>)
    ensures forall id {:trigger m[id]} | id in m :: m[id] in blocks && id == BlockIdOf(o, m[id].ordinal)
    ensures forall b {:trigger BlockIdOf(o, b.ordinal)} | b in blocks :: BlockIdOf(o, b.ordinal) in m
  {
    if blocks == [] then map[]
    else
      var last := |blocks| - 1;
      Emitted(o, blocks[..last])[BlockIdOf(o, blocks[last].ordinal) := blocks[last]]
  }

  lemma EmittedAt(o: Owner, blocks: seq<ValidatedBlock>, i: nat)
    requires DistinctOrdinals(blocks) && i < |blocks|
    ensures BlockIdOf(o, blocks[i].ordinal) in Emitted(o, blocks)
    ensures Emitted(o, blocks)[BlockIdOf(o, blocks[i].ordinal)] == blocks[i]
  {
    var b := Emitted(o, blocks)[BlockIdOf(o, blocks[i].ordinal)];
    assert b.ordinal == blocks[i].ordinal;
    var j :| 0 <= j < |blocks| && blocks[j] == b;
    assert i == j;
  }

  lemma EmittedExactly(o: Owner, blocks: seq<ValidatedBlock>, b: Uuid)
    ensures b in Emitted(o, blocks) <==> exists i :: 0 <= i < |blocks| && b == BlockIdOf(o, blocks[i].ordinal)
  {
    if b in Emitted(o, blocks) {
      var i :| 0 <= i < |blocks| && blocks[i] == Emitted(o, blocks)[b];
    }
  }

  predicate Committable(status: RunStatus) {
    status == Running || status == Paused
  }

  predicate OwnedByRun(t: Tables, pageId: Uuid) {
    && pageId in t.pages
    && t.pages[pageId].runId in t.runs
    && t.runs[t.pages[pageId].runId].bookId == t.pages[pageId].bookId
  }

  function OwnerOf(t: Tables, pageId: Uuid): Owner
    requires OwnedByRun(t, pageId)
  {
    var page := t.pages[pageId];
    Owner(pageId, page.runId, page.bookId, page.pageNumber, t.runs[page.runId].schema)
  }

  /** The checks made before the transaction writes anything. */
  function CommitGuard(t: Tables, req: CommitRequest, ctl: CommitControl): (error: Option<ErrorCode>)
    ensures error.None? ==>
              OwnedByRun(t, req.pageId) && t.pages[req.pageId].contentVersion + 1 <= VERSION_CAP
  {
    if ctl.cancelledBefore then Some(ImportCancelled)
    else if !OwnedByRun(t, req.pageId) then Some(NotFound)
    else
      var page := t.pages[req.pageId];
      if page.pageNumber != req.page.pageNumber
         || page.life.status != Parsing
         || page.life.attemptId != Some(req.attemptId)
         || !Committable(t.runs[page.runId].status)
      then Some(RequestConflict)
      else if page.contentVersion + 1 > VERSION_CAP then Some(DatabaseError)
      else None
  }

  /** A stored block under the same id that belongs to somebody else. */
  predicate ForeignRow(blocks: map<Uuid, Block>, o: Owner, id: Uuid) {
    id in blocks && !(blocks[id].pageId == o.pageId && blocks[id].runId == o.runId && blocks[id].bookId == o.bookId)
  }

  predicate Targets(c: Correction, o: Owner, blockId: Uuid) {
    c.pageId == o.pageId && c.bookId == o.bookId && c.targetBlockId == blockId
  }

  ghost predicate UpsertFails(t: Tables, o: Owner, em: map<Uuid, ValidatedBlock>) {
    exists id | id in em :: ForeignRow(t.blocks, o, id)
  }

  ghost predicate ReconcileFails(t: Tables, o: Owner, em: map<Uuid, ValidatedBlock>) {
    exists c | c in t.corrections ::
      var row := t.corrections[c];
      row.targetBlockId in em && Targets(row, o, row.targetBlockId) && row.revision >= REVISION_CAP
  }

  ghost predicate SearchRowsFail(em: map<Uuid, ValidatedBlock>) {
    exists id | id in em :: !OrdinalsFit(em[id])
  }

  /** A correction meets the newly analysed block it targets. */
  function Reconciled(c: Correction, block: ValidatedBlock, version: nat, sha: Hasher): Correction {
    var value := ProviderValue(block, c.kind);
    var stays := c.state == Active && value.Some? && sha(value.value) == c.originalHash;
    c.(targetVersion := version, state := if stays then Active else Conflict, revision := c.revision + 1)
  }

  /** The block a correction targets is no longer part of the page. */
  function Orphaned(c: Correction): Correction {
    if c.revision < REVISION_CAP then c.(state := Conflict, revision := c.revision + 1) else c
  }

  function CommittedCorrection(t: Tables, o: Owner, em: map<Uuid, ValidatedBlock>, version: nat, sha: Hasher,
                               c: Correction): Correction
  {
    if c.targetBlockId in em then
      if Targets(c, o, c.targetBlockId) then Reconciled(c, em[c.targetBlockId], version, sha) else c
    else if c.pageId == o.pageId && c.targetBlockId in t.blocks && t.blocks[c.targetBlockId].pageId == o.pageId then
      Orphaned(c)
    else c
  }

  function CommittedCorrections(t: Tables, o: Owner, em: map<Uuid, ValidatedBlock>, version: nat,
                                sha: Hasher): map<Uuid, Correction>
  {
    map c | c in t.corrections :: CommittedCorrection(t, o, em, version, sha, t.corrections[c])
  }

  predicate HasCorrection(corrections: map<Uuid, Correction>, pageId: Uuid, blockId: Uuid) {
    exists c | c in corrections :: corrections[c].pageId == pageId && corrections[c].targetBlockId == blockId
  }

  function OwnedBlock(o: Owner, block: ValidatedBlock, version: nat): Block {
    Block(o.pageId, o.runId, o.bookId, block, version)
  }

  function CommittedBlocks(t: Tables, o: Owner, em: map<Uuid, ValidatedBlock>, version: nat): map<Uuid, Block> {
    map id | id in t.blocks.Keys + em.Keys
             && (id in em || t.blocks[id].pageId != o.pageId || HasCorrection(t.corrections, o.pageId, id))
      :: if id in em then OwnedBlock(o, em[id], version) else t.blocks[id]
  }

  function CommittedPage(page: Page, req: CommitRequest): Page {
    var reason := req.page.reviewReason;
    page.(contentVersion := page.contentVersion + 1,
          life := page.life.(status := if reason.Some? then NeedsReview else Indexed,
                             reviewReason := reason,
                             failure := None,
                             retryable := false,
                             updatedAt := req.now))
  }

  function CommittedTables(t: Tables, req: CommitRequest, sha: Hasher): Tables
    requires OwnedByRun(t, req.pageId)
  {
    var o := OwnerOf(t, req.pageId);
    var em := Emitted(o, req.page.blocks);
    var version := t.pages[req.pageId].contentVersion + 1;
    Tables(
      t.runs,
      t.pages[req.pageId := CommittedPage(t.pages[req.pageId], req)],
      CommittedBlocks(t, o, em, version),
      CommittedCorrections(t, o, em, version, sha))
  }

  /** The first error of the block half of a commit. */
  ghost function BlocksOutcome(t: Tables, o: Owner, em: map<Uuid, ValidatedBlock>,
                               ctl: CommitControl): Option<ErrorCode>
  {
    if UpsertFails(t, o, em) || ReconcileFails(t, o, em) then Some(RequestConflict)
    else if ctl.fault == Some(BlockInsert) then Some(DatabaseError)
    else None
  }

  /** The first error of everything a commit writes before the page's status. */
  ghost function RowsOutcome(t: Tables, o: Owner, em: map<Uuid, ValidatedBlock>,
                             ctl: CommitControl): Option<ErrorCode>
  {
    if BlocksOutcome(t, o, em, ctl).Some? then BlocksOutcome(t, o, em, ctl)
    else if SearchRowsFail(em) then Some(InvalidInput)
    else if ctl.fault == Some(SearchInsert) then Some(DatabaseError)
    else None
  }

  ghost function CommitPage(t: Tables, req: CommitRequest, ctl: CommitControl, sha: Hasher): Result<Tables> {
    var guard := CommitGuard(t, req, ctl);
    if guard.Some? then Err(guard.value)
    else
      var o := OwnerOf(t, req.pageId);
      var rows := RowsOutcome(t, o, Emitted(o, req.page.blocks), ctl);
      if rows.Some? then Err(rows.value)
      else if ctl.cancelledBeforeStatus then Err(ImportCancelled)
      else if ctl.fault == Some(StatusUpdate) then Err(DatabaseError)
      else Ok(CommittedTables(t, req, sha))
  }

  // ----- corrections

  datatype SaveInput = SaveInput(
    bookId: Uuid, pageId: Uuid, targetBlockId: Uuid, targetVersion: nat, kind: ValueKind,
    originalHash: string, correctedValue: string, expectedRevision: nat)

  datatype Decision = Keep | Accept | Compare

  datatype ResolveInput = ResolveInput(
    bookId: Uuid, pageId: Uuid, correctionId: Uuid, targetVersion: nat, currentHash: Option<string>,
    expectedRevision: nat, decision: Decision, comparedValue: Option<string>)

  datatype DeleteInput = DeleteInput(
    bookId: Uuid, pageId: Uuid, correctionId: Uuid, targetVersion: nat, currentHash: Option<string>,
    expectedRevision: nat)

  predicate ValidHash(h: string) {
    |h| == 64 && forall i | 0 <= i < |h| :: '0' <= h[i] <= '9' || 'a' <= h[i] <= 'f'
  }

  const MAX_TEXT_CODE_POINTS: nat := 65_536
  const MAX_LATEX_CODE_POINTS: nat := 16_384

  predicate ValidCorrectedValue(kind: ValueKind, value: string) {
    var maxCodePoints := if kind == TextValue then MAX_TEXT_CODE_POINTS else MAX_LATEX_CODE_POINTS;
    && !Blank(value)
    && Utf8Len(value) <= 4 * maxCodePoints
    && |value| <= maxCodePoints
    && '\0' !in value && '\r' !in value
    && !ContainsDisallowedControl(value)
  }

  /** A current block and the value a correction is about. */
  datatype Target = Target(pageId: Uuid, blockId: Uuid, kind: ValueKind, provider: string)

  function TargetValue(block: ValidatedBlock, kind: ValueKind): Result<string> {
    var value := ProviderValue(block, kind);
    if value.Some? && !Blank(value.value) then Ok(value.value) else Err(RequestConflict)
  }

  function CurrentTarget(t: Tables, bookId: Uuid, pageId: Uuid, blockId: Uuid, version: nat,
                         kind: ValueKind): (r: Result<Target>)
    ensures r.Ok? ==> Current(t, blockId) && t.blocks[blockId].pageId == pageId
                      && ProviderValue(t.blocks[blockId].content, kind) == Some(r.value.provider)
                      && t.pages[pageId].contentVersion == version && r.value.blockId == blockId
  {
    if pageId !in t.pages then Err(NotFound)
    else if t.pages[pageId].bookId != bookId || t.pages[pageId].contentVersion != version
      || version == 0 then Err(RequestConflict)
    else if blockId !in t.blocks then Err(NotFound)
    else
      var block := t.blocks[blockId];
      if block.pageId != pageId || block.bookId != bookId || block.contentVersion != version then Err(RequestConflict)
      else
        var value := TargetValue(block.content, kind);
        if value.Err? then Err(value.error) else Ok(Target(pageId, blockId, kind, value.value))
  }

  predicate SameTarget(c: Correction, pageId: Uuid, blockId: Uuid, kind: ValueKind) {
    c.pageId == pageId && c.targetBlockId == blockId && c.kind == kind
  }

  predicate CorrectionExists(corrections: map<Uuid, Correction>, pageId: Uuid, blockId: Uuid, kind: ValueKind) {
    exists c | c in corrections :: SameTarget(corrections[c], pageId, blockId, kind)
  }

  function NewCorrection(t: Tables, input: SaveInput, original: string, sha: Hasher): Correction
    requires input.targetBlockId in t.blocks
  {
    Correction(input.bookId, input.pageId, input.targetBlockId, input.targetVersion,
               t.blocks[input.targetBlockId].content.bounds, input.kind, sha(original), original,
               input.correctedValue, Active, 1)
  }

  /** The guard of the compare-and-set update. */
  predicate Updatable(corrections: map<Uuid, Correction>, id: Uuid, input: SaveInput, originalHash: string) {
    && id in corrections
    && var c := corrections[id];
    && c.bookId == input.bookId && SameTarget(c, input.pageId, input.targetBlockId, input.kind)
    && c.originalHash == originalHash && c.state == Active
    && c.revision == input.expectedRevision && c.revision < REVISION_CAP
  }

  /** The corrections after the write, before the chunk refresh. */
  function SavedCorrections(t: Tables, input: SaveInput, original: string, sha: Hasher): Result<map<Uuid, Correction>>
    requires input.targetBlockId in t.blocks
  {
    var id := StableCorrectionId(input.pageId, input.targetBlockId, input.kind);
    if input.expectedRevision == 0 then
      if CorrectionExists(t.corrections, input.pageId, input.targetBlockId, input.kind) then Err(RequestConflict)
      else Ok(t.corrections[id := NewCorrection(t, input, original, sha)])
    else if !Updatable(t.corrections, id, input, sha(original)) then Err(RequestConflict)
    else
      var c := t.corrections[id];
      Ok(t.corrections[id :=
        c.(correctedValue := input.correctedValue, targetVersion := input.targetVersion, revision := c.revision + 1)])
  }

  predicate RefreshFits(t: Tables, blockId: Uuid, kind: ValueKind)
    requires blockId in t.blocks
  {
    ChunkOrdinal(t.blocks[blockId].content.ordinal, KindSlot(kind)) <= MAX_CHUNK_ORDINAL
  }

  function SaveCorrection(t: Tables, input: SaveInput, sha: Hasher): Result<Tables> {
    if !ValidHash(input.originalHash) || !ValidCorrectedValue(input.kind, input.correctedValue) then Err(InvalidInput)
    else
      var target := CurrentTarget(t, input.bookId, input.pageId, input.targetBlockId, input.targetVersion, input.kind);
      if target.Err? then Err(target.error)
      else if sha(target.value.provider) != input.originalHash then Err(RequestConflict)
      else
        var saved := SavedCorrections(t, input, target.value.provider, sha);
        if saved.Err? then Err(saved.error)
        else if !RefreshFits(t, input.targetBlockId, input.kind) then Err(InvalidInput)
        else Ok(t.(corrections := saved.value))
  }

  function OwnedCorrection(t: Tables, bookId: Uuid, pageId: Uuid, id: Uuid,
                           expectedRevision: nat): (r: Result<Correction>)
    ensures r.Ok? ==> id in t.corrections && r.value == t.corrections[id]
                      && r.value.bookId == bookId && r.value.pageId == pageId && r.value.revision == expectedRevision
  {
    if id !in t.corrections then Err(NotFound)
    else
      var c := t.corrections[id];
      if c.bookId != bookId || c.pageId != pageId || c.revision != expectedRevision then Err(RequestConflict) else Ok(c)
  }

  /** The block a correction still applies to; None when it is gone or left behind by a later version. */
  function TargetForCorrection(t: Tables, c: Correction, version: nat): (r: Result<Option<Target>>)
    ensures r.Ok? ==> c.pageId in t.pages && t.pages[c.pageId].contentVersion == version
    ensures r.Ok? && r.value.Some? ==>
              Current(t, c.targetBlockId) && t.blocks[c.targetBlockId].pageId == c.pageId
              && ProviderValue(t.blocks[c.targetBlockId].content, c.kind) == Some(r.value.value.provider)
              && r.value.value == Target(c.pageId, c.targetBlockId, c.kind, r.value.value.provider)
    ensures r.Ok? && r.value.None? ==> !Current(t, c.targetBlockId)
  {
    if c.pageId !in t.pages then Err(NotFound)
    else if t.pages[c.pageId].bookId != c.bookId || t.pages[c.pageId].contentVersion != version
      || version == 0 then Err(RequestConflict)
    else if c.targetBlockId !in t.blocks then Ok(None)
    else
      var block := t.blocks[c.targetBlockId];
      if block.pageId != c.pageId || block.bookId != c.bookId then Err(RequestConflict)
      else if block.contentVersion != version then Ok(None)
      else
        var value := TargetValue(block.content, c.kind);
        if value.Err? then Err(value.error)
        else Ok(Some(Target(c.pageId, c.targetBlockId, c.kind, value.value)))
  }

  predicate HashMatches(target: Option<Target>, supplied: Option<string>, sha: Hasher) {
    match target
    case Some(t) => supplied == Some(sha(t.provider))
    case None => supplied.None?
  }

  /**
   * Removing a correction: a current block goes back to its provider value, a block left behind goes with its last
   * correction.
   */
  function RemoveCorrection(t: Tables, id: Uuid, target: Option<Target>, version: nat): Result<Tables>
    requires id in t.corrections
  {
    var c := t.corrections[id];
    var corrections := t.corrections - {id};
    if target.Some? then
      if c.targetBlockId in t.blocks && !RefreshFits(t, c.targetBlockId, c.kind) then Err(InvalidInput)
      else Ok(t.(corrections := corrections))
    else if !HasCorrection(corrections, c.pageId, c.targetBlockId)
            && c.targetBlockId in t.blocks && t.blocks[c.targetBlockId].pageId == c.pageId
            && t.blocks[c.targetBlockId].contentVersion != version
    then Ok(t.(corrections := corrections, blocks := t.blocks - {c.targetBlockId}))
    else Ok(t.(corrections := corrections))
  }

  function KeepCorrection(t: Tables, id: Uuid, target: Option<Target>, input: ResolveInput, sha: Hasher): Result<Tables>
    requires id in t.corrections
  {
    var c := t.corrections[id];
    if target.None? || c.revision >= REVISION_CAP then Err(RequestConflict)
    else if c.targetBlockId in t.blocks && !RefreshFits(t, c.targetBlockId, c.kind) then Err(InvalidInput)
    else
      var provider := target.value.provider;
      Ok(t.(corrections := t.corrections[id := c.(
        targetVersion := input.targetVersion,
        originalHash := sha(provider),
        originalValue := provider,
        correctedValue := if input.comparedValue.Some? then input.comparedValue.value else c.correctedValue,
        state := Active,
        revision := c.revision + 1)]))
  }

  function ResolveConflict(t: Tables, input: ResolveInput, sha: Hasher): Result<Tables> {
    if input.expectedRevision == 0
       || (input.currentHash.Some? && !ValidHash(input.currentHash.value))
       || (input.decision == Compare) != input.comparedValue.Some?
    then Err(InvalidInput)
    else
      var owned := OwnedCorrection(t, input.bookId, input.pageId, input.correctionId, input.expectedRevision);
      if owned.Err? then Err(owned.error)
      else if owned.value.state != Conflict then Err(RequestConflict)
      else if input.comparedValue.Some?
        && !ValidCorrectedValue(owned.value.kind, input.comparedValue.value) then Err(InvalidInput)
      else
        var target := TargetForCorrection(t, owned.value, input.targetVersion);
        if target.Err? then Err(target.error)
        else if !HashMatches(target.value, input.currentHash, sha) then Err(RequestConflict)
        else if input.decision == Accept then RemoveCorrection(t, input.correctionId, target.value, input.targetVersion)
        else KeepCorrection(t, input.correctionId, target.value, input, sha)
  }

  function DeleteCorrection(t: Tables, input: DeleteInput, sha: Hasher): Result<Tables> {
    if input.expectedRevision == 0
      || (input.currentHash.Some? && !ValidHash(input.currentHash.value)) then Err(InvalidInput)
    else
      var owned := OwnedCorrection(t, input.bookId, input.pageId, input.correctionId, input.expectedRevision);
      if owned.Err? then Err(owned.error)
      else
        var target := TargetForCorrection(t, owned.value, input.targetVersion);
        if target.Err? then Err(target.error)
        else if !HashMatches(target.value, input.currentHash, sha) then Err(RequestConflict)
        else RemoveCorrection(t, input.correctionId, target.value, input.targetVersion)
  }

  // ----- the environment: page scheduling, which never touches content

  function CreatePage(t: Tables, runId: Uuid, pageNumber: nat, life: PageLife): Result<Tables> {
    var id := StablePageId(runId, pageNumber);
    if pageNumber == 0 || pageNumber > 1_000_000 then Err(InvalidInput)
    else if runId !in t.runs then Err(NotFound)
    else if t.runs[runId].status != Running then Err(RequestConflict)
    else if id in t.pages then Err(DatabaseError)
    else Ok(t.(pages := t.pages[id := Page(runId, t.runs[runId].bookId, pageNumber, 0, life)]))
  }

  function SetRunStatus(t: Tables, runId: Uuid, status: RunStatus): Result<Tables> {
    if runId !in t.runs then Err(NotFound)
    else Ok(t.(runs := t.runs[runId := t.runs[runId].(status := status)]))
  }

  /** Claims, failures, retries and recovery: any change of the scheduling columns of any pages. */
  function Reschedule(t: Tables, lives: map<Uuid, PageLife>): Tables {
    t.(pages := map p | p in t.pages :: if p in lives then t.pages[p].(life := lives[p]) else t.pages[p])
  }

  // ----- one step, and a run of steps

  datatype Action =
    | DoCommit(commit: CommitRequest, control: CommitControl)
    | DoSave(save: SaveInput)
    | DoResolve(resolve: ResolveInput)
    | DoDelete(delete: DeleteInput)
    | DoCreatePage(runId: Uuid, pageNumber: nat, life: PageLife)
    | DoSetRunStatus(changedRun: Uuid, status: RunStatus)
    | DoReschedule(lives: map<Uuid, PageLife>)

  /** A commit is only ever asked for with a page the validator built. */
  predicate WellFormed(a: Action) {
    a.DoCommit? ==> ValidPage(a.commit.page)
  }

  ghost function Apply(t: Tables, a: Action, sha: Hasher): Result<Tables> {
    match a
    case DoCommit(req, ctl) => CommitPage(t, req, ctl, sha)
    case DoSave(input) => SaveCorrection(t, input, sha)
    case DoResolve(input) => ResolveConflict(t, input, sha)
    case DoDelete(input) => DeleteCorrection(t, input, sha)
    case DoCreatePage(runId, pageNumber, life) => CreatePage(t, runId, pageNumber, life)
    case DoSetRunStatus(runId, status) => SetRunStatus(t, runId, status)
    case DoReschedule(lives) => Ok(Reschedule(t, lives))
  }

  /** A failed transaction rolls back. */
  ghost function Step(t: Tables, a: Action, sha: Hasher): Tables {
    var r := Apply(t, a, sha);
    if r.Ok? then r.value else t
  }

  ghost function RunAll(t: Tables, actions: seq<Action>, sha: Hasher): Tables
    decreases |actions|
  {
    if actions == [] then t else RunAll(Step(t, actions[0], sha), actions[1..], sha)
  }
}
