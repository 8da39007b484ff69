/** Histories of one page, from an empty index: the states in which a property one would expect of corrections fails. */
module IndexHistories {
  import opened Results
  import opened Text
  import opened IndexModel
  import opened IndexTransitions
  import opened IndexInvariant
  import opened IndexRebuild
  import opened IndexClaims
  import opened IndexEffects

  const RUN := Random(0)
  const BOOK := Random(1)
  const FIRST_ATTEMPT := Random(2)
  const PAGE := StablePageId(RUN, 1)
  const OWNER := Owner(PAGE, RUN, BOOK, 1, "v1")
  const TARGET := BlockIdOf(OWNER, 1)
  const CORRECTION := StableCorrectionId(PAGE, TARGET, TextValue)

  /** One run and nothing else. */
  const EMPTY := Tables(map[RUN := Run(BOOK, "v1", Running)], map[], map[], map[])

  function Plain(ordinal: nat, text: string): ValidatedBlock {
    ValidatedBlock(ordinal, Some(text), None, None, None, None)
  }

  function Formula(ordinal: nat, latex: string): ValidatedBlock {
    ValidatedBlock(ordinal, None, Some(latex), None, None, None)
  }

  predicate HasContent(b: ValidatedBlock) {
    b.plainText.Some? || b.latex.Some? || b.tableCells.Some? || b.description.Some?
  }

  /** What else the validator guarantees: a page has blocks, each with content, their ordinals counting from 0. */
  predicate FromValidator(blocks: seq<ValidatedBlock>) {
    && blocks != [] && (forall b | b in blocks :: ValidBlock(b) && HasContent(b))
    && forall i | 0 <= i < |blocks| :: blocks[i].ordinal == i
  }

  predicate Requested(a: Action) {
    a.DoCommit? ==> FromValidator(a.commit.page.blocks)
  }

  /** Some run of requests leads here from the empty index. */
  ghost predicate Reachable(t: Tables, sha: Hasher) {
    exists actions :: (forall a | a in actions :: Requested(a)) && RunAll(EMPTY, actions, sha) == t
  }

  lemma {:induction false} RunSnoc(t: Tables, actions: seq<Action>, a: Action, sha: Hasher)
    ensures RunAll(t, actions + [a], sha) == Step(RunAll(t, actions, sha), a, sha)
    decreases |actions|
  {
    if actions == [] {
      assert ([] + [a])[1..] == [];
    } else {
      assert (actions + [a])[1..] == actions[1..] + [a];
      RunSnoc(Step(t, actions[0], sha), actions[1..], a, sha);
    }
  }

  lemma EmptyReachable(sha: Hasher)
    ensures Reachable(EMPTY, sha) && Inv(EMPTY, sha)
  {
    var none: seq<Action> := [];
    assert RunAll(EMPTY, none, sha) == EMPTY;
  }

  lemma StepReachable(t: Tables, a: Action, sha: Hasher)
    requires Reachable(t, sha) && Inv(t, sha) && Requested(a)
    ensures Reachable(Step(t, a, sha), sha) && Inv(Step(t, a, sha), sha)
  {
    var actions :| (forall x | x in actions :: Requested(x)) && RunAll(EMPTY, actions, sha) == t;
    RunSnoc(EMPTY, actions, a, sha);
    assert forall x | x in actions + [a] :: Requested(x);
    StepKeepsInv(t, a, sha);
  }

  lemma {:induction false} SavesReachable(t: Tables, actions: seq<Action>, sha: Hasher)
    requires Reachable(t, sha) && Inv(t, sha) && OnlySaves(actions)
    ensures Reachable(RunAll(t, actions, sha), sha) && Inv(RunAll(t, actions, sha), sha)
    decreases |actions|
  {
    if actions != [] {
      assert actions[0] in actions && actions[0].DoSave?;
      StepReachable(t, actions[0], sha);
      SavesReachable(Step(t, actions[0], sha), actions[1..], sha);
    }
  }

  // ----- analysing the page again

  predicate AtVersion(t: Tables, version: nat) {
    && t.runs == EMPTY.runs
    && PAGE in t.pages && t.pages[PAGE] == Page(RUN, BOOK, 1, version, t.pages[PAGE].life)
  }

  function ParsingLife(attempt: Uuid): PageLife {
    PageLife(Parsing, Some(attempt), 1, None, None, None, None, false, 0)
  }

  function Analysis(attempt: Uuid, blocks: seq<ValidatedBlock>): CommitRequest {
    CommitRequest(PAGE, attempt, ValidatedPage(1, blocks, None), 0)
  }

  lemma ConsecutiveIds(blocks: seq<ValidatedBlock>)
    requires FromValidator(blocks)
    ensures ValidPage(ValidatedPage(1, blocks, None))
    ensures TARGET in Emitted(OWNER, blocks) <==> |blocks| > 1
    ensures |blocks| > 1 ==> Emitted(OWNER, blocks)[TARGET] == blocks[1]
  {
    var em := Emitted(OWNER, blocks);
    if |blocks| > 1 {
      assert blocks[1] in blocks && BlockIdOf(OWNER, blocks[1].ordinal) in em;
    }
    if TARGET in em {
      assert em[TARGET] in blocks && em[TARGET].ordinal == 1;
    }
  }

  function Waiting(attempt: Uuid): Action {
    DoReschedule(map[PAGE := ParsingLife(attempt)])
  }

  function Commit(attempt: Uuid, blocks: seq<ValidatedBlock>): Action {
    DoCommit(Analysis(attempt, blocks), UNDISTURBED)
  }

  lemma Wait(t: Tables, version: nat, attempt: Uuid, sha: Hasher) returns (t': Tables)
    requires Reachable(t, sha) && Inv(t, sha) && AtVersion(t, version)
    ensures t' == Step(t, Waiting(attempt), sha) && Reachable(t', sha) && Inv(t', sha)
    ensures AtVersion(t', version) && t'.pages[PAGE].life == ParsingLife(attempt)
    ensures t'.corrections == t.corrections && t'.blocks == t.blocks
  {
    t' := Step(t, Waiting(attempt), sha);
    StepReachable(t, Waiting(attempt), sha);
  }

  /** What a commit of these blocks leaves of the page. */
  ghost predicate Committed(t: Tables, version: nat, blocks: seq<ValidatedBlock>, sha: Hasher, t': Tables) {
    && AtVersion(t', version + 1)
    && t'.corrections == CommittedCorrections(t, OWNER, Emitted(OWNER, blocks), version + 1, sha)
    && (TARGET in Emitted(OWNER, blocks) ==>
          TARGET in t'.blocks && t'.blocks[TARGET] == OwnedBlock(OWNER, Emitted(OWNER, blocks)[TARGET], version + 1))
    && (TARGET in t'.blocks && t'.blocks[TARGET].pageId == PAGE ==>
          (Current(t', TARGET) <==> TARGET in Emitted(OWNER, blocks)))
  }

  lemma NothingCapped(t: Tables, req: CommitRequest)
    requires OwnedByRun(t, req.pageId)
    requires forall c | c in t.corrections
                        && t.corrections[c].targetBlockId in Emitted(OwnerOf(t, req.pageId), req.page.blocks) ::
               t.corrections[c].revision < REVISION_CAP
    ensures !CappedTarget(t, req)
  {
    forall c, i | c in t.corrections && 0 <= i < |req.page.blocks|
                  && t.corrections[c].targetBlockId == BlockIdOf(OwnerOf(t, req.pageId), req.page.blocks[i].ordinal)
      ensures t.corrections[c].revision < 1_000_000
    {
      EmittedExactly(OwnerOf(t, req.pageId), req.page.blocks, t.corrections[c].targetBlockId);
    }
  }

  lemma CommitAccepted(t: Tables, version: nat, attempt: Uuid, blocks: seq<ValidatedBlock>, sha: Hasher)
    requires Inv(t, sha) && AtVersion(t, version) && version < VERSION_CAP && t.pages[PAGE].life == ParsingLife(attempt)
    requires FromValidator(blocks) && |blocks| < 1000
    requires forall c | c in t.corrections && t.corrections[c].targetBlockId in Emitted(OWNER, blocks) ::
               t.corrections[c].revision < REVISION_CAP
    ensures CommitPage(t, Analysis(attempt, blocks), UNDISTURBED, sha).Ok?
    ensures OwnerOf(t, PAGE) == OWNER
  {
    ConsecutiveIds(blocks);
    NothingCapped(t, Analysis(attempt, blocks));
    CommitAcceptedExactly(t, Analysis(attempt, blocks), UNDISTURBED, sha);
  }

  lemma CommittedHere(t: Tables, version: nat, attempt: Uuid, blocks: seq<ValidatedBlock>, sha: Hasher)
    requires Inv(t, sha) && AtVersion(t, version) && OwnedByRun(t, PAGE) && OwnerOf(t, PAGE) == OWNER
    ensures Committed(t, version, blocks, sha, CommittedTables(t, Analysis(attempt, blocks), sha))
  {
    NoForeignRows(t, PAGE, blocks, sha);
    CurrentAfterCommit(t, Analysis(attempt, blocks), sha, TARGET);
  }

  lemma CommitGives(t: Tables, version: nat, attempt: Uuid, blocks: seq<ValidatedBlock>, sha: Hasher)
    requires Inv(t, sha) && AtVersion(t, version) && OwnerOf(t, PAGE) == OWNER
    requires CommitPage(t, Analysis(attempt, blocks), UNDISTURBED, sha).Ok?
    ensures Committed(t, version, blocks, sha, CommitPage(t, Analysis(attempt, blocks), UNDISTURBED, sha).value)
  {
    CommittedHere(t, version, attempt, blocks, sha);
    CommitIsCommitted(t, Analysis(attempt, blocks), sha);
  }

  lemma CommitIsCommitted(t: Tables, req: CommitRequest, sha: Hasher)
    requires CommitPage(t, req, UNDISTURBED, sha).Ok?
    ensures OwnedByRun(t, req.pageId) && CommitPage(t, req, UNDISTURBED, sha).value == CommittedTables(t, req, sha)
  {
  }

  lemma CommitStep(t: Tables, version: nat, attempt: Uuid, blocks: seq<ValidatedBlock>, sha: Hasher)
    returns (t': Tables)
    requires Reachable(t, sha) && Inv(t, sha) && AtVersion(t, version) && version < VERSION_CAP
    requires t.pages[PAGE].life == ParsingLife(attempt) && FromValidator(blocks) && |blocks| < 1000
    requires forall c | c in t.corrections && t.corrections[c].targetBlockId in Emitted(OWNER, blocks) ::
               t.corrections[c].revision < REVISION_CAP
    ensures t' == Step(t, Commit(attempt, blocks), sha)
    ensures Reachable(t', sha) && Inv(t', sha) && Committed(t, version, blocks, sha, t')
  {
    CommitAccepted(t, version, attempt, blocks, sha);
    CommitGives(t, version, attempt, blocks, sha);
    StepReachable(t, Commit(attempt, blocks), sha);
    t' := Step(t, Commit(attempt, blocks), sha);
  }

  /** The page enters parsing under an attempt and is committed with these blocks. */
  lemma Analyse(t: Tables, version: nat, attempt: Uuid, blocks: seq<ValidatedBlock>, sha: Hasher)
    returns (t1: Tables, t': Tables)
    requires Reachable(t, sha) && Inv(t, sha) && AtVersion(t, version) && version < VERSION_CAP
    requires FromValidator(blocks) && |blocks| < 1000
    requires forall c | c in t.corrections && t.corrections[c].targetBlockId in Emitted(OWNER, blocks) ::
               t.corrections[c].revision < REVISION_CAP
    ensures t1 == Step(t, Waiting(attempt), sha) && t' == Step(t1, Commit(attempt, blocks), sha)
    ensures Reachable(t', sha) && Inv(t', sha) && Committed(t, version, blocks, sha, t')
  {
    t1 := Wait(t, version, attempt, sha);
    t' := CommitStep(t1, version, attempt, blocks, sha);
    SameCommitted(t, t1, version, blocks, sha, t');
  }

  /** Scheduling does not show in what a commit leaves. */
  lemma SameCommitted(t: Tables, t1: Tables, version: nat, blocks: seq<ValidatedBlock>, sha: Hasher, t': Tables)
    requires Committed(t1, version, blocks, sha, t')
    requires t1.corrections == t.corrections && t1.blocks == t.blocks
    ensures Committed(t, version, blocks, sha, t')
  {
  }

  // ----- a page of two blocks, the second one's text corrected

  /** The one correction, at this revision and state. */
  ghost predicate Story(t: Tables, sha: Hasher, version: nat, revision: nat, state: ConflictState) {
    && Reachable(t, sha) && Inv(t, sha) && AtVersion(t, version)
    && t.corrections.Keys == {CORRECTION}
    && var c := t.corrections[CORRECTION];
    && c.pageId == PAGE && c.bookId == BOOK && c.targetBlockId == TARGET && c.kind == TextValue
    && c.revision == revision && c.state == state
  }

  lemma PageCreated(sha: Hasher) returns (t: Tables)
    ensures Reachable(t, sha) && Inv(t, sha) && AtVersion(t, 0) && t.corrections == map[]
  {
    var create := DoCreatePage(RUN, 1, ParsingLife(FIRST_ATTEMPT));
    EmptyReachable(sha);
    StepReachable(EMPTY, create, sha);
    t := Step(EMPTY, create, sha);
  }

  lemma TextsCommitted(sha: Hasher) returns (t: Tables)
    ensures Reachable(t, sha) && Inv(t, sha) && AtVersion(t, 1) && t.corrections == map[]
    ensures TARGET in t.blocks && t.blocks[TARGET] == OwnedBlock(OWNER, Plain(1, "a"), 1)
  {
    var t1 := PageCreated(sha);
    TextsValid();
    ConsecutiveIds(TEXTS);
    var waiting;
    waiting, t := Analyse(t1, 0, FIRST_ATTEMPT, TEXTS, sha);
  }

  const TEXTS := [Plain(0, "z"), Plain(1, "a")]

  lemma TextsValid()
    ensures FromValidator(TEXTS)
  {
    assert !IsWhitespace("z"[0]) && !IsWhitespace("a"[0]);
  }

  lemma CorrectedByReader(sha: Hasher) returns (t: Tables)
    requires ValidHash(sha("a"))
    ensures Story(t, sha, 1, 1, Active) && Climbable(t, sha, CORRECTION)
    ensures t.corrections[CORRECTION].originalHash == sha("a") && t.corrections[CORRECTION].correctedValue == "b"
  {
    var t1 := TextsCommitted(sha);
    var input := SaveInput(BOOK, PAGE, TARGET, 1, TextValue, sha("a"), "b", 0);
    assert !IsWhitespace("a"[0]) && !IsWhitespace("b"[0]);
    assert ValidCorrectedValue(TextValue, "b") by { assert "b"[1..] == ""; }
    assert SaveCorrection(t1, input, sha).Ok?;
    SaveTakesEffect(t1, input, sha);
    StepReachable(t1, DoSave(input), sha);
    t := Step(t1, DoSave(input), sha);
  }

  // ----- analysed again

  /** What another analysis of both blocks makes of the correction: active only where it meets its value again. */
  lemma Reanalysed(t: Tables, version: nat, revision: nat, state: ConflictState, attempt: Uuid,
                   blocks: seq<ValidatedBlock>, sha: Hasher) returns (t1: Tables, t': Tables)
    requires Story(t, sha, version, revision, state) && version < VERSION_CAP && revision < REVISION_CAP
    requires FromValidator(blocks) && |blocks| == 2
    ensures t1 == Step(t, Waiting(attempt), sha) && t' == Step(t1, Commit(attempt, blocks), sha)
    ensures var value := blocks[1].plainText;
            var stays := state == Active && value.Some? && sha(value.value) == t.corrections[CORRECTION].originalHash;
            Story(t', sha, version + 1, revision + 1, if stays then Active else Conflict)
    ensures t'.corrections[CORRECTION].correctedValue == t.corrections[CORRECTION].correctedValue
    ensures Current(t', TARGET) && t'.blocks[TARGET] == Block(PAGE, RUN, BOOK, blocks[1], version + 1)
  {
    ConsecutiveIds(blocks);
    t1, t' := Analyse(t, version, attempt, blocks, sha);
    assert t'.corrections.Keys == {CORRECTION};
  }

  /** Analysed again with the same content, the correction stays active and its value is still searched by it. */
  lemma SameContentKeepsActive(sha: Hasher) returns (t: Tables, t1: Tables, t': Tables)
    requires ValidHash(sha("a"))
    ensures Story(t, sha, 1, 1, Active)
    ensures t1 == Step(t, Waiting(Random(3)), sha) && t' == Step(t1, Commit(Random(3), TEXTS), sha)
    ensures Story(t', sha, 2, 2, Active) && Current(t', TARGET)
    ensures Shows(t', TARGET, TextValue, SearchValue(UserCorrected, Some(CORRECTION), "b"))
  {
    t := CorrectedByReader(sha);
    TextsValid();
    t1, t' := Reanalysed(t, 1, 1, Active, Random(3), TEXTS, sha);
    StateDecidesShown(t', CORRECTION);
  }

  // ----- an active correction of a block the page no longer has

  /**
   * Saved up to the cap, then analysed without its block: the correction stays active on a block that is not current.
   */
  lemma CappedOrphanReached(sha: Hasher) returns (t: Tables)
    requires ValidHash(sha("a"))
    ensures Reachable(t, sha) && Inv(t, sha) && CORRECTION in t.corrections
    ensures t.corrections[CORRECTION].state == Active && !Current(t, t.corrections[CORRECTION].targetBlockId)
  {
    var t1 := CappedByReader(sha);
    var blocks := [Plain(0, "z")];
    assert !IsWhitespace("z"[0]);
    ConsecutiveIds(blocks);
    var waiting;
    waiting, t := Analyse(t1, 1, Random(3), blocks, sha);
    assert CorrectionOk(t, CORRECTION, sha) && CorrectionOk(t1, CORRECTION, sha);
  }

  lemma CappedByReader(sha: Hasher) returns (t: Tables)
    requires ValidHash(sha("a"))
    ensures Story(t, sha, 1, REVISION_CAP, Active)
  {
    var t1 := CorrectedByReader(sha);
    SavesClimb(t1, sha, CORRECTION, REVISION_CAP);
    t := AtRevision(t1, CORRECTION, REVISION_CAP);
    var saves :| OnlySaves(saves) && RunAll(t1, saves, sha) == t;
    SavesReachable(t1, saves, sha);
  }

  // ----- a corrected value that is gone, and back

  lemma FormulaOnly(sha: Hasher) returns (t: Tables)
    requires ValidHash(sha("a"))
    ensures Story(t, sha, 2, 2, Conflict) && ValueGone(t, CORRECTION)
  {
    var t1 := CorrectedByReader(sha);
    var blocks := [Plain(0, "z"), Formula(1, "x")];
    assert !IsWhitespace("z"[0]) && !IsWhitespace("x"[0]);
    var waiting;
    waiting, t := Reanalysed(t1, 1, 1, Active, Random(3), blocks, sha);
  }

  /** Analysed as a formula only, the block keeps the correction in conflict: it can be neither deleted nor resolved. */
  lemma ValueGoneReached(sha: Hasher) returns (t: Tables)
    requires ValidHash(sha("a"))
    ensures Story(t, sha, 2, 2, Conflict) && ValueGone(t, CORRECTION)
    ensures forall input: DeleteInput :: input.correctionId == CORRECTION ==> DeleteCorrection(t, input, sha).Err?
    ensures forall input: ResolveInput :: input.correctionId == CORRECTION ==> ResolveConflict(t, input, sha).Err?
  {
    t := FormulaOnly(sha);
    GoneMeansRefused(t, sha, CORRECTION);
  }

  /** One more analysis that brings a text back makes the same correction deletable and keepable again. */
  lemma ValueGoneEnds(sha: Hasher) returns (t: Tables, t1: Tables, t': Tables)
    requires forall v: string :: ValidHash(sha(v))
    ensures Story(t, sha, 2, 2, Conflict) && ValueGone(t, CORRECTION)
    ensures t1 == Step(t, Waiting(Random(4)), sha) && t' == Step(t1, Commit(Random(4), TEXTS), sha)
    ensures Story(t', sha, 3, 3, Conflict) && !ValueGone(t', CORRECTION)
    ensures exists input: DeleteInput :: input.correctionId == CORRECTION && DeleteCorrection(t', input, sha).Ok?
    ensures exists input: ResolveInput ::
              input.correctionId == CORRECTION && input.decision == Keep && ResolveConflict(t', input, sha).Ok?
  {
    assert ValidHash(sha("a"));
    t := ValueGoneReached(sha);
    t1, t' := TextsBack(t, sha);
    DeletableExactly(t', sha, CORRECTION);
    KeepableExactly(t', sha, CORRECTION);
  }

  lemma TextsBack(t: Tables, sha: Hasher) returns (t1: Tables, t': Tables)
    requires Story(t, sha, 2, 2, Conflict)
    ensures t1 == Step(t, Waiting(Random(4)), sha) && t' == Step(t1, Commit(Random(4), TEXTS), sha)
    ensures Story(t', sha, 3, 3, Conflict) && !ValueGone(t', CORRECTION)
  {
    TextsValid();
    t1, t' := Reanalysed(t, 2, 2, Conflict, Random(4), TEXTS, sha);
  }
}
