/** What every reachable state of the page index satisfies, and the proof that each step keeps it. */
module IndexInvariant {
  import opened Results
  import opened Text
  import opened IndexModel
  import opened IndexTransitions

  ghost predicate PageOk(t: Tables, p: Uuid)
    requires p in t.pages
  {
    && OwnedByRun(t, p)
    && p == StablePageId(t.pages[p].runId, t.pages[p].pageNumber)
  }

  ghost predicate BlockOk(t: Tables, id: Uuid)
    requires id in t.blocks
  {
    var b := t.blocks[id];
    && b.pageId in t.pages
    && OwnedByRun(t, b.pageId)
    && var o := OwnerOf(t, b.pageId);
    && b.runId == o.runId && b.bookId == o.bookId
    && id == BlockIdOf(o, b.content.ordinal)
    && 1 <= b.contentVersion <= t.pages[b.pageId].contentVersion
    && ValidBlock(b.content)
    && OrdinalsFit(b.content)
    && (!Current(t, id) ==> HasCorrection(t.corrections, b.pageId, id))
  }

  /** An active correction of a current block was made against the value the block still has. */
  predicate ActiveMatches(c: Correction, block: ValidatedBlock, sha: Hasher) {
    c.state == Active ==>
      ProviderValue(block, c.kind).Some? && sha(ProviderValue(block, c.kind).value) == c.originalHash
  }

  ghost predicate CorrectionOk(t: Tables, id: Uuid, sha: Hasher)
    requires id in t.corrections
  {
    var c := t.corrections[id];
    && id == StableCorrectionId(c.pageId, c.targetBlockId, c.kind)
    && c.targetBlockId in t.blocks
    && t.blocks[c.targetBlockId].pageId == c.pageId
    && t.blocks[c.targetBlockId].bookId == c.bookId
    && 1 <= c.revision <= REVISION_CAP
    && c.originalHash == sha(c.originalValue)
    && !Blank(c.correctedValue)
    && (Current(t, c.targetBlockId) ==>
          c.targetVersion == t.pages[c.pageId].contentVersion
            && ActiveMatches(c, t.blocks[c.targetBlockId].content, sha))
    && (!Current(t, c.targetBlockId) && c.state == Active ==> c.revision == REVISION_CAP)
  }

  ghost predicate Inv(t: Tables, sha: Hasher) {
    && (forall p {:trigger PageOk(t, p)} | p in t.pages :: PageOk(t, p))
    && (forall b {:trigger BlockOk(t, b)} | b in t.blocks :: BlockOk(t, b))
    && (forall c {:trigger CorrectionOk(t, c, sha)} | c in t.corrections :: CorrectionOk(t, c, sha))
  }

  // ----- commit

  lemma CommitKeepsPages(t: Tables, req: CommitRequest, sha: Hasher, p: Uuid)
    requires Inv(t, sha) && OwnedByRun(t, req.pageId)
    ensures var t' := CommittedTables(t, req, sha); p in t'.pages ==> PageOk(t', p)
  {
    if p in t.pages { assert PageOk(t, p); }
  }

  lemma CommitKeepsBlocks(t: Tables, req: CommitRequest, sha: Hasher, id: Uuid)
    requires Inv(t, sha) && OwnedByRun(t, req.pageId) && ValidPage(req.page)
    requires var o := OwnerOf(t, req.pageId);
             !SearchRowsFail(Emitted(o, req.page.blocks))
    ensures var t' := CommittedTables(t, req, sha); id in t'.blocks ==> BlockOk(t', id)
  {
    var o := OwnerOf(t, req.pageId);
    var em := Emitted(o, req.page.blocks);
    var t' := CommittedTables(t, req, sha);
    if id in t'.blocks {
      if id in em {
        assert ValidBlock(em[id]) && OrdinalsFit(em[id]);
      } else {
        assert BlockOk(t, id);
        var b := t.blocks[id];
        if !Current(t', id) {
          assert HasCorrection(t.corrections, b.pageId, id);
          var c :| c in t.corrections && t.corrections[c].pageId == b.pageId && t.corrections[c].targetBlockId == id;
          assert c in t'.corrections && t'.corrections[c].pageId == b.pageId && t'.corrections[c].targetBlockId == id;
        }
      }
    }
  }

  lemma ReconciledIsOk(t: Tables, req: CommitRequest, sha: Hasher, id: Uuid)
    requires Inv(t, sha) && OwnedByRun(t, req.pageId)
    requires id in t.corrections
    requires var o := OwnerOf(t, req.pageId);
             var em := Emitted(o, req.page.blocks);
             t.corrections[id].targetBlockId in em && !ReconcileFails(t, o, em)
    ensures CorrectionOk(CommittedTables(t, req, sha), id, sha)
  {
    var o := OwnerOf(t, req.pageId);
    var em := Emitted(o, req.page.blocks);
    var c := t.corrections[id];
    assert CorrectionOk(t, id, sha);
    assert BlockOk(t, c.targetBlockId);
    assert c.pageId == o.pageId by {
      assert PageOk(t, c.pageId) && PageOk(t, o.pageId);
      assert c.targetBlockId == BlockIdOf(OwnerOf(t, c.pageId), t.blocks[c.targetBlockId].content.ordinal);
      assert c.targetBlockId == BlockIdOf(o, em[c.targetBlockId].ordinal);
    }
    assert Targets(c, o, c.targetBlockId);
    assert c.revision < REVISION_CAP;
  }

  lemma UntouchedIsOk(t: Tables, req: CommitRequest, sha: Hasher, id: Uuid)
    requires Inv(t, sha) && OwnedByRun(t, req.pageId)
    requires id in t.corrections
    requires t.corrections[id].targetBlockId !in Emitted(OwnerOf(t, req.pageId), req.page.blocks)
    ensures CorrectionOk(CommittedTables(t, req, sha), id, sha)
  {
    var t' := CommittedTables(t, req, sha);
    var c := t.corrections[id];
    assert CorrectionOk(t, id, sha);
    assert BlockOk(t, c.targetBlockId);
    assert HasCorrection(t.corrections, c.pageId, c.targetBlockId);
    assert t'.blocks[c.targetBlockId] == t.blocks[c.targetBlockId];
  }

  lemma CommitKeepsCorrections(t: Tables, req: CommitRequest, sha: Hasher, id: Uuid)
    requires Inv(t, sha) && OwnedByRun(t, req.pageId)
    requires var o := OwnerOf(t, req.pageId);
             !ReconcileFails(t, o, Emitted(o, req.page.blocks))
    ensures var t' := CommittedTables(t, req, sha); id in t'.corrections ==> CorrectionOk(t', id, sha)
  {
    if id in t.corrections {
      if t.corrections[id].targetBlockId in Emitted(OwnerOf(t, req.pageId), req.page.blocks) {
        ReconciledIsOk(t, req, sha, id);
      } else {
        UntouchedIsOk(t, req, sha, id);
      }
    }
  }

  lemma CommitKeepsInv(t: Tables, req: CommitRequest, ctl: CommitControl, sha: Hasher)
    requires Inv(t, sha) && ValidPage(req.page)
    requires CommitPage(t, req, ctl, sha).Ok?
    ensures Inv(CommitPage(t, req, ctl, sha).value, sha)
  {
    var t' := CommitPage(t, req, ctl, sha).value;
    forall p | p in t'.pages ensures PageOk(t', p) { CommitKeepsPages(t, req, sha, p); }
    forall b | b in t'.blocks ensures BlockOk(t', b) { CommitKeepsBlocks(t, req, sha, b); }
    forall c | c in t'.corrections ensures CorrectionOk(t', c, sha) { CommitKeepsCorrections(t, req, sha, c); }
  }

  // ----- corrections

  /** A block keeps its correction when the correction table still holds one for it. */
  lemma BlockStaysOk(t: Tables, t': Tables, b: Uuid)
    requires b in t.blocks && b in t'.blocks && t'.blocks[b] == t.blocks[b]
    requires BlockOk(t, b)
    requires t'.pages == t.pages && t'.runs == t.runs
    requires HasCorrection(t.corrections, t.blocks[b].pageId, b) ==>
               HasCorrection(t'.corrections, t.blocks[b].pageId, b)
    ensures BlockOk(t', b)
  {
  }

  /** A correction is judged by its own row, its target block and its page. */
  lemma CorrectionStaysOk(t: Tables, t': Tables, id: Uuid, sha: Hasher)
    requires id in t.corrections && id in t'.corrections && t'.corrections[id] == t.corrections[id]
    requires CorrectionOk(t, id, sha)
    requires var b := t.corrections[id].targetBlockId; b in t'.blocks && t'.blocks[b] == t.blocks[b]
    requires t'.pages == t.pages
    ensures CorrectionOk(t', id, sha)
  {
  }

  /** Writing one correction of a block leaves every other row valid. */
  lemma WriteKeepsInv(t: Tables, id: Uuid, c: Correction, sha: Hasher)
    requires Inv(t, sha)
    requires CorrectionOk(t.(corrections := t.corrections[id := c]), id, sha)
    requires id in t.corrections ==>
               t.corrections[id].pageId == c.pageId && t.corrections[id].targetBlockId == c.targetBlockId
    ensures Inv(t.(corrections := t.corrections[id := c]), sha)
  {
    var t' := t.(corrections := t.corrections[id := c]);
    forall p | p in t'.pages ensures PageOk(t', p) { assert PageOk(t, p); }
    forall b | b in t'.blocks ensures BlockOk(t', b) {
      assert BlockOk(t, b);
      HasAfterWrite(t.corrections, id, c, t.blocks[b].pageId, b);
      BlockStaysOk(t, t', b);
    }
    forall w | w in t'.corrections ensures CorrectionOk(t', w, sha) {
      if w != id {
        assert CorrectionOk(t, w, sha);
        CorrectionStaysOk(t, t', w, sha);
      }
    }
  }

  lemma HasAfterWrite(corrections: map<Uuid, Correction>, id: Uuid, c: Correction, p: Uuid, b: Uuid)
    requires id in corrections ==>
               corrections[id].pageId == c.pageId && corrections[id].targetBlockId == c.targetBlockId
    ensures HasCorrection(corrections, p, b) ==> HasCorrection(corrections[id := c], p, b)
  {
    if HasCorrection(corrections, p, b) {
      var w :| w in corrections && corrections[w].pageId == p && corrections[w].targetBlockId == b;
      assert w in corrections[id := c];
    }
  }

  lemma SaveKeepsInv(t: Tables, input: SaveInput, sha: Hasher)
    requires Inv(t, sha)
    requires SaveCorrection(t, input, sha).Ok?
    ensures Inv(SaveCorrection(t, input, sha).value, sha)
  {
    var id := StableCorrectionId(input.pageId, input.targetBlockId, input.kind);
    var t' := SaveCorrection(t, input, sha).value;
    if id in t.corrections { assert CorrectionOk(t, id, sha); }
    assert BlockOk(t, input.targetBlockId);
    assert t' == t.(corrections := t.corrections[id := t'.corrections[id]]);
    WriteKeepsInv(t, id, t'.corrections[id], sha);
  }

  lemma KeepKeepsInv(t: Tables, id: Uuid, target: Option<Target>, input: ResolveInput, sha: Hasher)
    requires Inv(t, sha) && id in t.corrections
    requires TargetForCorrection(t, t.corrections[id], input.targetVersion) == Ok(target)
    requires input.comparedValue.Some? ==> ValidCorrectedValue(t.corrections[id].kind, input.comparedValue.value)
    requires KeepCorrection(t, id, target, input, sha).Ok?
    ensures Inv(KeepCorrection(t, id, target, input, sha).value, sha)
  {
    assert CorrectionOk(t, id, sha);
    var t' := KeepCorrection(t, id, target, input, sha).value;
    assert t' == t.(corrections := t.corrections[id := t'.corrections[id]]);
    WriteKeepsInv(t, id, t'.corrections[id], sha);
  }

  lemma RemoveKeepsInv(t: Tables, id: Uuid, target: Option<Target>, version: nat, sha: Hasher)
    requires Inv(t, sha) && id in t.corrections
    requires TargetForCorrection(t, t.corrections[id], version) == Ok(target)
    requires RemoveCorrection(t, id, target, version).Ok?
    ensures Inv(RemoveCorrection(t, id, target, version).value, sha)
  {
    var t' := RemoveCorrection(t, id, target, version).value;
    var c := t.corrections[id];
    assert CorrectionOk(t, id, sha);
    assert t'.corrections == t.corrections - {id};
    forall p | p in t'.pages ensures PageOk(t', p) { assert PageOk(t, p); }
    forall b | b in t'.blocks ensures BlockOk(t', b) {
      assert BlockOk(t, b);
      if b == c.targetBlockId {
        assert !Current(t, b) ==> HasCorrection(t'.corrections, c.pageId, b);
        assert BlockOk(t', b);
      } else {
        HasAfterRemove(t.corrections, id, t.blocks[b].pageId, b);
        BlockStaysOk(t, t', b);
      }
    }
    forall w | w in t'.corrections ensures CorrectionOk(t', w, sha) {
      assert CorrectionOk(t, w, sha);
      if t.corrections[w].targetBlockId == c.targetBlockId {
        assert HasCorrection(t'.corrections, c.pageId, c.targetBlockId);
      }
      CorrectionStaysOk(t, t', w, sha);
    }
  }

  lemma HasAfterRemove(corrections: map<Uuid, Correction>, id: Uuid, p: Uuid, b: Uuid)
    requires id in corrections && corrections[id].targetBlockId != b
    ensures HasCorrection(corrections, p, b) ==> HasCorrection(corrections - {id}, p, b)
  {
    if HasCorrection(corrections, p, b) {
      var w :| w in corrections && corrections[w].pageId == p && corrections[w].targetBlockId == b;
      assert w in corrections - {id};
    }
  }

  lemma RescheduleKeepsInv(t: Tables, lives: map<Uuid, PageLife>, sha: Hasher)
    requires Inv(t, sha)
    ensures Inv(Reschedule(t, lives), sha)
  {
    var t' := Reschedule(t, lives);
    forall p | p in t'.pages ensures PageOk(t', p) { assert PageOk(t, p); }
    forall b | b in t'.blocks ensures BlockOk(t', b) { assert BlockOk(t, b); }
    forall w | w in t'.corrections ensures CorrectionOk(t', w, sha) { assert CorrectionOk(t, w, sha); }
  }

  lemma EnvironmentKeepsInv(t: Tables, a: Action, sha: Hasher)
    requires Inv(t, sha)
    requires a.DoCreatePage? || a.DoSetRunStatus?
    requires Apply(t, a, sha).Ok?
    ensures Inv(Apply(t, a, sha).value, sha)
  {
    var t' := Apply(t, a, sha).value;
    forall p | p in t'.pages ensures PageOk(t', p) { if p in t.pages { assert PageOk(t, p); } }
    forall b | b in t'.blocks ensures BlockOk(t', b) { assert BlockOk(t, b); }
    forall w | w in t'.corrections ensures CorrectionOk(t', w, sha) {
      assert CorrectionOk(t, w, sha);
      assert BlockOk(t, t.corrections[w].targetBlockId);
    }
  }

  /** Every step, accepted or rolled back, keeps the invariant. */
  lemma StepKeepsInv(t: Tables, a: Action, sha: Hasher)
    requires Inv(t, sha) && WellFormed(a)
    ensures Inv(Step(t, a, sha), sha)
  {
    if Apply(t, a, sha).Ok? {
      match a
      case DoCommit(req, ctl) => CommitKeepsInv(t, req, ctl, sha);
      case DoSave(input) => SaveKeepsInv(t, input, sha);
      case DoResolve(input) =>
        var c := t.corrections[input.correctionId];
        var target := TargetForCorrection(t, c, input.targetVersion).value;
        if input.decision == Accept {
          RemoveKeepsInv(t, input.correctionId, target, input.targetVersion, sha);
        } else {
          KeepKeepsInv(t, input.correctionId, target, input, sha);
        }
      case DoDelete(input) =>
        var target := TargetForCorrection(t, t.corrections[input.correctionId], input.targetVersion).value;
        RemoveKeepsInv(t, input.correctionId, target, input.targetVersion, sha);
      case DoReschedule(lives) => RescheduleKeepsInv(t, lives, sha);
      case _ => EnvironmentKeepsInv(t, a, sha);
    }
  }

  /** Every state any interleaving of steps can reach satisfies the invariant. */
  lemma {:induction false} RunKeepsInv(t: Tables, actions: seq<Action>, sha: Hasher)
    requires Inv(t, sha)
    requires forall a | a in actions :: WellFormed(a)
    ensures Inv(RunAll(t, actions, sha), sha)
    decreases |actions|
  {
    if actions != [] {
      StepKeepsInv(t, actions[0], sha);
      RunKeepsInv(Step(t, actions[0], sha), actions[1..], sha);
    }
  }
}
