/** Startup recovery: every page a crash left in flight is requeued or failed, and its scratch file follows it. */
module Recovery {
  import opened Results
  import opened Text
  import opened IndexModel
  import opened IndexTransitions
  import opened IndexInvariant
  import opened IndexRebuild
  import opened IndexClaims
  import opened IndexService

  datatype RecoverySummary = RecoverySummary(requeued: nat, markedRetryable: nat, unchangedIndexed: nat)

  /** The render files, by page and attempt. */
  class ScratchStore {
    var files: set<(Uuid, Uuid)>

    method Move(pageId: Uuid, source: Uuid, target: Uuid)
      modifies this
      ensures files == old(files) - {(pageId, source)} + {(pageId, target)}
    {
      files := files - {(pageId, source)} + {(pageId, target)};
    }

    method Remove(pageId: Uuid, attempt: Uuid)
      modifies this
      ensures files == old(files) - {(pageId, attempt)}
    {
      files := files - {(pageId, attempt)};
    }
  }

  predicate InFlight(life: PageLife) {
    life.status == Rendering || life.status == Sending || life.status == Parsing || life.status == Validating
  }

  /** The rendered page can be sent again. */
  predicate Reusable(life: PageLife, scratchExists: bool, now: int, maxAge: int) {
    scratchExists && now - life.updatedAt <= maxAge && life.renderHash.Some?
  }

  predicate Requeues(life: PageLife, scratchExists: bool, now: int, maxAge: int) {
    life.status == Rendering || Reusable(life, scratchExists, now, maxAge)
  }

  function RecoveredLife(life: PageLife, scratchExists: bool, now: int, maxAge: int, newAttempt: Uuid): PageLife {
    if Requeues(life, scratchExists, now, maxAge) then
      PageLife(Queued, Some(newAttempt), life.attemptCount + 1,
               if Reusable(life, scratchExists, now, maxAge) then life.renderHash else None,
               None, None, None, false, now)
    else
      life.(status := Failed, reviewReason := None,
            failure := Some(if scratchExists then AttemptExpired else ScratchMissing), retryable := true, updatedAt :=
              now)
  }

  /** What one recovery knows: the clock, the age limit, and the attempt id it would give each page. */
  datatype Setting = Setting(now: int, maxAge: int, newAttempts: map<Uuid, Uuid>)

  predicate Interrupted(pages: map<Uuid, Page>, p: Uuid) {
    p in pages && InFlight(pages[p].life)
  }

  predicate HasScratch(pages: map<Uuid, Page>, files: set<(Uuid, Uuid)>, p: Uuid) {
    p in pages && pages[p].life.attemptId.Some? && (p, pages[p].life.attemptId.value) in files
  }

  /** The page table once the pages in `done` are recovered. */
  function RecoveredPages(pages: map<Uuid, Page>, files: set<(Uuid, Uuid)>, s: Setting, done: set<Uuid>): map<Uuid,
    Page>
    requires done <= s.newAttempts.Keys
  {
    map p | p in pages ::
      if p in done then pages[p].(life :=
        RecoveredLife(pages[p].life, HasScratch(pages, files, p), s.now, s.maxAge, s.newAttempts[p]))
      else pages[p]
  }

  predicate MovesScratch(pages: map<Uuid, Page>, files: set<(Uuid, Uuid)>, s: Setting, p: Uuid) {
    p in pages && Reusable(pages[p].life, HasScratch(pages, files, p), s.now, s.maxAge)
  }

  /** The scratch files once the pages in `done` are recovered. */
  ghost predicate RecoveredFiles(pages: map<Uuid, Page>, files: set<(Uuid, Uuid)>, s: Setting, done: set<Uuid>,
                                 now: set<(Uuid, Uuid)>)
    requires done <= s.newAttempts.Keys
  {
    forall p, a :: (p, a) in now <==>
      if p in done && p in pages
      then ((p, a) in files && pages[p].life.attemptId != Some(a))
        || (MovesScratch(pages, files, s, p) && a == s.newAttempts[p])
      else (p, a) in files
  }

  predicate FreshSetting(pages: map<Uuid, Page>, files: set<(Uuid, Uuid)>, s: Setting) {
    && pages.Keys <= s.newAttempts.Keys
    && (forall p | p in pages :: (p, s.newAttempts[p]) !in files)
    && (forall p, q | p in pages && q in pages :: pages[q].life.attemptId != Some(s.newAttempts[p]))
  }

  ghost predicate PartlyRecovered(pages: map<Uuid, Page>, files: set<(Uuid, Uuid)>, s: Setting, done: set<Uuid>,
                                  pages': map<Uuid, Page>, files': set<(Uuid, Uuid)>)
    requires done <= s.newAttempts.Keys
  {
    && (forall p | p in done :: Interrupted(pages, p))
    && pages' == RecoveredPages(pages, files, s, done)
    && RecoveredFiles(pages, files, s, done, files')
  }

  function InterruptedOf(pages: map<Uuid, Page>): set<Uuid> {
    set p | p in pages && Interrupted(pages, p)
  }

  function RequeuedOf(pages: map<Uuid, Page>, files: set<(Uuid, Uuid)>, s: Setting): set<Uuid> {
    set p | p in pages && Interrupted(pages, p) && Requeues(pages[p].life, HasScratch(pages, files, p), s.now, s.maxAge)
  }

  function FailedOf(pages: map<Uuid, Page>, files: set<(Uuid, Uuid)>, s: Setting): set<Uuid> {
    set p | p in pages && Interrupted(pages, p)
      && !Requeues(pages[p].life, HasScratch(pages, files, p), s.now, s.maxAge)
  }

  /** What can go wrong with one page: a file operation, the row update, or an update that finds the row changed. */
  datatype Fault = FileFails | RowFails | RowGone

  function ErrorOf(fault: Fault): ErrorCode {
    match fault
    case FileFails => LocalIoError
    case RowFails => DatabaseError
    case RowGone => RequestConflict
  }

  /** Its recovery stops the loop. */
  predicate Stops(pages: map<Uuid, Page>, files: set<(Uuid, Uuid)>, fault: Option<Fault>, p: Uuid) {
    fault.Some? && (fault.value == FileFails ==> HasScratch(pages, files, p))
  }

  /** The files once a page's scratch is moved or removed, its row not yet written. */
  function Taken(pages: map<Uuid, Page>, files: set<(Uuid, Uuid)>, s: Setting, p: Uuid): set<(Uuid, Uuid)>
    requires p in pages && pages[p].life.attemptId.Some? && p in s.newAttempts
  {
    var rest := files - {(p, pages[p].life.attemptId.value)};
    if MovesScratch(pages, files, s, p) then rest + {(p, s.newAttempts[p])} else rest
  }

  /**
   * The file is put back only where no row matched: after a failing update it stays where it was moved, or stays
   * removed.
   */
  function StoppedFiles(pages: map<Uuid, Page>, files: set<(Uuid, Uuid)>, s: Setting, fault: Fault, p: Uuid): set<(Uuid,
    Uuid)>
    requires p in pages && pages[p].life.attemptId.Some? && p in s.newAttempts
  {
    if fault == FileFails || (fault == RowGone && MovesScratch(pages, files, s, p)) then files
      else Taken(pages, files, s, p)
  }

  /** The scratch file of one page goes where its recovery needs it. */
  method TakeScratch(scratch: ScratchStore, p: Uuid, attempt: Uuid, newAttempt: Uuid, scratchExists: bool,
                     canReuse: bool)
    requires canReuse ==> scratchExists
    modifies scratch
    ensures scratch.files ==
            if canReuse then old(scratch.files) - {(p, attempt)} + {(p, newAttempt)}
            else if scratchExists then old(scratch.files) - {(p, attempt)}
            else old(scratch.files)
  {
    if canReuse {
      scratch.Move(p, attempt, newAttempt);
    } else if scratchExists {
      scratch.Remove(p, attempt);
    }
  }

  /** One page: its scratch file first, then its row. */
  method RecoverPage(index: PageIndex, scratch: ScratchStore, s: Setting, fault: Option<Fault>, p: Uuid)
    returns (r: Result<bool>)
    requires index.Valid() && Interrupted(index.pages, p) && index.pages[p].life.attemptId.Some? && p in s.newAttempts
    requires index.pages[p].life.attemptId != Some(s.newAttempts[p]) && (p, s.newAttempts[p]) !in scratch.files
    modifies index, scratch
    ensures index.Valid()
    ensures r.Err? <==> Stops(old(index.pages), old(scratch.files), fault, p)
    ensures r.Err? ==> index.Sources() == old(index.Sources())
                       && scratch.files == StoppedFiles(old(index.pages), old(scratch.files), s, fault.value, p)
    ensures r.Err? ==> r.error == ErrorOf(fault.value)
    ensures r.Ok? ==>
              r.value == Requeues(old(index.pages)[p].life, HasScratch(old(index.pages), old(scratch.files), p), s.now,
                                  s.maxAge)
    ensures r.Ok? ==>
              index.Sources()
              == old(index.Sources()).(pages := RecoveredPages(old(index.pages), old(scratch.files), s, {p}))
    ensures r.Ok? ==> RecoveredFiles(old(index.pages), old(scratch.files), s, {p}, scratch.files)
  {
    var life := index.pages[p].life;
    var attempt := life.attemptId.value;
    var scratchExists := (p, attempt) in scratch.files;
    var canReuse := scratchExists && s.now - life.updatedAt <= s.maxAge && life.renderHash.Some?;
    var requeue := life.status == Rendering || canReuse;
    if scratchExists && fault == Some(FileFails) { return Err(LocalIoError); }
    TakeScratch(scratch, p, attempt, s.newAttempts[p], scratchExists, canReuse);
    if fault == Some(RowFails) { return Err(DatabaseError); }
    if fault == Some(RowGone) {
      if canReuse { scratch.Move(p, s.newAttempts[p], attempt); }
      assert canReuse ==> scratch.files == old(scratch.files);
      return Err(RequestConflict);
    }
    var next :=
      if requeue then
        life.(status := Queued, attemptId := Some(s.newAttempts[p]), attemptCount := life.attemptCount + 1,
              renderHash := if canReuse then life.renderHash else None,
              responseHash := None, reviewReason := None, failure := None, retryable := false, updatedAt := s.now)
      else
        life.(status := Failed, reviewReason := None,
              failure := Some(if scratchExists then AttemptExpired else ScratchMissing),
              retryable := true, updatedAt := s.now);
    index.Environment(DoReschedule(map[p := next]));
    r := Ok(requeue);
  }

  /** The next page of the loop. */
  method RecoverNext(index: PageIndex, scratch: ScratchStore, s: Setting, fault: Option<Fault>, p: Uuid,
                     ghost pages0: map<Uuid, Page>, ghost files0: set<(Uuid, Uuid)>, ghost done: set<Uuid>,
                     ghost requeued: set<Uuid>, ghost marked: set<Uuid>) returns (r: Result<bool>)
    requires index.Valid() && FreshSetting(pages0, files0, s)
    requires Interrupted(pages0, p) && pages0[p].life.attemptId.Some? && p !in done
    requires Progress(pages0, files0, s, done, index.pages, scratch.files, requeued, marked)
    modifies index, scratch
    ensures index.Valid()
    ensures index.Sources().(pages := map[]) == old(index.Sources()).(pages := map[])
    ensures r.Err? <==> Stops(pages0, files0, fault, p)
    ensures r.Err? ==> r.error == ErrorOf(fault.value)
                       && Stopped(pages0, files0, s, done, p, fault.value, index.pages, scratch.files)
    ensures r.Ok? ==> Progress(pages0, files0, s, done + {p}, index.pages, scratch.files,
                               if r.value then requeued + {p} else requeued, if r.value then marked else marked + {p})
  {
    ghost var pages1, files1 := index.pages, scratch.files;
    assert pages1[p] == pages0[p] && HasScratch(pages1, files1, p) == HasScratch(pages0, files0, p);
    assert (p, s.newAttempts[p]) !in files1;
    r := RecoverPage(index, scratch, s, fault, p);
    if r.Ok? {
      ProgressGrows(pages0, files0, s, done, p, pages1, files1, requeued, marked, index.pages, scratch.files,
                    if r.value then requeued + {p} else requeued, if r.value then marked else marked + {p}, r.value);
    } else {
      assert PartlyRecovered(pages0, files0, s, done, index.pages, files1);
    }
  }

  /** Recovers every interrupted page; stops at the first that fails. */
  method RecoverInterruptedPages(index: PageIndex, scratch: ScratchStore, s: Setting, faults: map<Uuid, Fault>)
    returns (r: Result<RecoverySummary>)
    requires index.Valid() && FreshSetting(index.pages, scratch.files, s)
    modifies index, scratch
    ensures index.Valid()
    ensures r.Err? <==> exists p | p in InterruptedOf(old(index.pages)) ::
                          old(index.pages)[p].life.attemptId.None?
                            || Stops(old(index.pages), old(scratch.files), FaultOf(faults, p), p)
    ensures index.Sources().(pages := map[]) == old(index.Sources()).(pages := map[])
    ensures r.Ok? ==>
              && Recovered(old(index.pages), old(scratch.files), s, index.pages, scratch.files)
              && r.value == RecoverySummary(|RequeuedOf(old(index.pages), old(scratch.files), s)|,
                                            |FailedOf(old(index.pages), old(scratch.files), s)|,
                                            |set p | p in old(index.pages)
                                              && old(index.pages)[p].life.status == Indexed|)
    ensures r.Err? && (exists p | p in InterruptedOf(old(index.pages)) :: old(index.pages)[p].life.attemptId.None?) ==>
              index.Sources() == old(index.Sources()) && scratch.files == old(scratch.files)
    ensures r.Err? && (forall p | p in InterruptedOf(old(index.pages)) :: old(index.pages)[p].life.attemptId.Some?) ==>
              exists done, p :: p in faults && r.error == ErrorOf(faults[p])
                && Stopped(old(index.pages), old(scratch.files), s, done, p, faults[p], index.pages, scratch.files)
  {
    var interrupted := InterruptedOf(index.pages);
    if exists p | p in interrupted :: index.pages[p].life.attemptId.None? {
      return Err(DatabaseError);
    }
    var indexed := |set p | p in index.pages && index.pages[p].life.status == Indexed|;
    var failed, requeued, marked := RecoverEach(index, scratch, s, faults, interrupted);
    r := if failed.Some? then Err(failed.value) else Ok(RecoverySummary(|requeued|, |marked|, indexed));
  }

  function FaultOf(faults: map<Uuid, Fault>, p: Uuid): Option<Fault> {
    if p in faults then Some(faults[p]) else None
  }

  /** The loop over the interrupted pages. */
  method RecoverEach(index: PageIndex, scratch: ScratchStore, s: Setting, faults: map<Uuid, Fault>,
                     interrupted: set<Uuid>)
    returns (failed: Option<ErrorCode>, requeued: set<Uuid>, marked: set<Uuid>)
    requires index.Valid() && FreshSetting(index.pages, scratch.files, s)
    requires interrupted == InterruptedOf(index.pages)
    requires forall p | p in interrupted :: index.pages[p].life.attemptId.Some?
    modifies index, scratch
    ensures index.Valid()
    ensures index.Sources().(pages := map[]) == old(index.Sources()).(pages := map[])
    ensures failed.Some? <==>
              exists p | p in interrupted :: Stops(old(index.pages), old(scratch.files), FaultOf(faults, p), p)
    ensures failed.Some? ==>
              exists done, p :: p in faults && failed == Some(ErrorOf(faults[p]))
                && Stopped(old(index.pages), old(scratch.files), s, done, p, faults[p], index.pages, scratch.files)
    ensures failed.None? ==>
              Recovered(old(index.pages), old(scratch.files), s, index.pages, scratch.files)
              && requeued == RequeuedOf(old(index.pages), old(scratch.files), s)
              && marked == FailedOf(old(index.pages), old(scratch.files), s)
  {
    ghost var pages0, files0 := index.pages, scratch.files;
    NothingDone(pages0, files0, s);
    requeued, marked := {}, {};
    var todo := interrupted;
    while todo != {}
      invariant todo <= interrupted
      invariant index.Valid()
      invariant index.Sources().(pages := map[]) == old(index.Sources()).(pages := map[])
      invariant Progress(pages0, files0, s, interrupted - todo, index.pages, scratch.files, requeued, marked)
      invariant forall p | p in interrupted - todo :: !Stops(pages0, files0, FaultOf(faults, p), p)
      decreases todo
    {
      var p :| p in todo;
      var one := RecoverNext(index, scratch, s, FaultOf(faults, p), p, pages0, files0, interrupted - todo, requeued,
                             marked);
      if one.Err? { return Some(one.error), requeued, marked; }
      if one.value { requeued := requeued + {p}; } else { marked := marked + {p}; }
      OneMoreDone(interrupted, todo, p);
      todo := todo - {p};
    }
    AllDone(pages0, files0, s, interrupted - todo, index.pages, scratch.files, requeued, marked);
    failed := None;
  }

  /** Some pages are recovered, and one had its file touched at most. */
  ghost predicate Stopped(pages: map<Uuid, Page>, files: set<(Uuid, Uuid)>, s: Setting, done: set<Uuid>, p: Uuid,
                          fault: Fault,
                          pages': map<Uuid, Page>, files': set<(Uuid, Uuid)>)
  {
    && done <= s.newAttempts.Keys && p in s.newAttempts && p !in done
    && Interrupted(pages, p) && pages[p].life.attemptId.Some?
    && exists files1 ::
         PartlyRecovered(pages, files, s, done, pages', files1) && p in pages' && pages'[p] == pages[p]
         && files' == StoppedFiles(pages', files1, s, fault, p)
  }

  /** How far recovery has come. */
  ghost predicate Progress(pages: map<Uuid, Page>, files: set<(Uuid, Uuid)>, s: Setting, done: set<Uuid>,
                           pages': map<Uuid, Page>, files': set<(Uuid, Uuid)>, requeued: set<Uuid>, marked: set<Uuid>)
  {
    && done <= s.newAttempts.Keys
    && PartlyRecovered(pages, files, s, done, pages', files')
    && requeued == RequeuedOf(pages, files, s) * done && marked == FailedOf(pages, files, s) * done
  }

  lemma OneMoreDone(all: set<Uuid>, todo: set<Uuid>, p: Uuid)
    requires p in todo && todo <= all
    ensures all - (todo - {p}) == all - todo + {p}
  {
  }

  lemma AllDone(pages: map<Uuid, Page>, files: set<(Uuid, Uuid)>, s: Setting, done: set<Uuid>,
                pages': map<Uuid, Page>, files': set<(Uuid, Uuid)>, requeued: set<Uuid>, marked: set<Uuid>)
    requires Progress(pages, files, s, done, pages', files', requeued, marked) && done == InterruptedOf(pages)
    ensures Recovered(pages, files, s, pages', files')
    ensures requeued == RequeuedOf(pages, files, s) && marked == FailedOf(pages, files, s)
  {
  }

  lemma NothingDone(pages: map<Uuid, Page>, files: set<(Uuid, Uuid)>, s: Setting)
    ensures Progress(pages, files, s, {}, pages, files, {}, {})
  {
    var none: set<Uuid> := {};
    assert RecoveredPages(pages, files, s, none) == pages;
  }

  lemma ProgressGrows(pages: map<Uuid, Page>, files: set<(Uuid, Uuid)>, s: Setting, done: set<Uuid>, p: Uuid,
                      pages1: map<Uuid, Page>, files1: set<(Uuid, Uuid)>, requeued1: set<Uuid>, marked1: set<Uuid>,
                      pages2: map<Uuid, Page>, files2: set<(Uuid, Uuid)>, requeued2: set<Uuid>, marked2: set<Uuid>,
                        requeues: bool)
    requires p in s.newAttempts && p !in done && Interrupted(pages, p)
    requires Progress(pages, files, s, done, pages1, files1, requeued1, marked1)
    requires pages2 == RecoveredPages(pages1, files1, s, {p})
    requires RecoveredFiles(pages1, files1, s, {p}, files2)
    requires requeues == (p in pages1 && Requeues(pages1[p].life, HasScratch(pages1, files1, p), s.now, s.maxAge))
    requires requeued2 == (if requeues then requeued1 + {p} else requeued1)
             && marked2 == (if requeues then marked1 else marked1 + {p})
    ensures Progress(pages, files, s, done + {p}, pages2, files2, requeued2, marked2)
  {
    assert pages1[p] == pages[p];
    assert HasScratch(pages1, files1, p) == HasScratch(pages, files, p);
    PartlyRecoveredGrows(pages, files, s, done, p, pages1, files1, pages2, files2);
  }

  lemma PartlyRecoveredGrows(pages: map<Uuid, Page>, files: set<(Uuid, Uuid)>, s: Setting, done: set<Uuid>, p: Uuid,
                             pages1: map<Uuid, Page>, files1: set<(Uuid, Uuid)>, pages2: map<Uuid, Page>,
                               files2: set<(Uuid, Uuid)>)
    requires done <= s.newAttempts.Keys && p in s.newAttempts && p !in done && Interrupted(pages, p)
    requires PartlyRecovered(pages, files, s, done, pages1, files1)
    requires pages2 == RecoveredPages(pages1, files1, s, {p})
    requires RecoveredFiles(pages1, files1, s, {p}, files2)
    ensures PartlyRecovered(pages, files, s, done + {p}, pages2, files2)
  {
    assert HasScratch(pages1, files1, p) == HasScratch(pages, files, p);
    assert pages2 == RecoveredPages(pages, files, s, done + {p});
    assert MovesScratch(pages1, files1, s, p) == MovesScratch(pages, files, s, p);
  }

  // ----- what a finished recovery means

  /** The state a successful recovery leaves, as the method states it. */
  ghost predicate Recovered(pages: map<Uuid, Page>, files: set<(Uuid, Uuid)>, s: Setting, pages': map<Uuid, Page>,
                            files': set<(Uuid, Uuid)>)
  {
    InterruptedOf(pages) <= s.newAttempts.Keys && PartlyRecovered(pages, files, s, InterruptedOf(pages), pages', files')
  }

  /** No page is in flight any more, every interrupted page is counted once, and every other page is as it was. */
  lemma NothingInFlight(pages: map<Uuid, Page>, files: set<(Uuid, Uuid)>, s: Setting, pages': map<Uuid, Page>,
                        files': set<(Uuid, Uuid)>)
    requires Recovered(pages, files, s, pages', files')
    ensures pages'.Keys == pages.Keys
    ensures forall p | p in pages' :: !Interrupted(pages', p)
    ensures forall p | p in pages && !Interrupted(pages, p) :: pages'[p] == pages[p]
    ensures forall p, a | p in pages && !Interrupted(pages, p) :: (p, a) in files' <==> (p, a) in files
    ensures |RequeuedOf(pages, files, s)| + |FailedOf(pages, files, s)| == |InterruptedOf(pages)|
  {
    var requeued, failed := RequeuedOf(pages, files, s), FailedOf(pages, files, s);
    assert requeued * failed == {};
    assert requeued + failed == InterruptedOf(pages);
  }

  /** The page was sent off, or was about to be, and its render is still there and young enough. */
  predicate RenderKept(life: PageLife, p: Uuid, files: set<(Uuid, Uuid)>, s: Setting) {
    && life.attemptId.Some? && (p, life.attemptId.value) in files
    && life.renderHash.Some? && s.now - life.updatedAt <= s.maxAge
  }

  /**
   * Every page left in flight: queued under its new attempt, one attempt further, if it was still rendering or its
   * render is kept, and else failed but retryable, its attempt and count as they were. Its file is at the new attempt's
   * path exactly when the render is kept, and never at the old one.
   */
  lemma RecoversEachPage(pages: map<Uuid, Page>, files: set<(Uuid, Uuid)>, s: Setting, pages': map<Uuid, Page>,
                         files': set<(Uuid, Uuid)>, p: Uuid)
    requires Recovered(pages, files, s, pages', files') && p in pages
    requires pages[p].life.status in {Rendering, Sending, Parsing, Validating}
    ensures p in s.newAttempts && p in pages'
    ensures var was, kept := pages[p].life, RenderKept(pages[p].life, p, files, s);
            pages'[p] == Page(
              pages[p].runId, pages[p].bookId, pages[p].pageNumber, pages[p].contentVersion,
              if was.status == Rendering || kept then
                PageLife(Queued, Some(s.newAttempts[p]), was.attemptCount + 1, if kept then was.renderHash else None,
                         None, None, None, false, s.now)
              else
                PageLife(Failed, was.attemptId, was.attemptCount, was.renderHash, was.responseHash, None,
                         Some(if was.attemptId.Some? && (p, was.attemptId.value) in files then AttemptExpired
                              else ScratchMissing),
                         true, s.now))
    ensures forall a :: (p, a) in files' <==>
                        || ((p, a) in files && pages[p].life.attemptId != Some(a))
                        || (RenderKept(pages[p].life, p, files, s) && a == s.newAttempts[p])
  {
    assert p in InterruptedOf(pages);
    assert MovesScratch(pages, files, s, p) == RenderKept(pages[p].life, p, files, s);
  }

  /**
   * A requeued page keeps its render hash exactly when its file now lies at the new attempt's path; its old path is
   * always gone.
   */
  lemma RequeuedFollowsScratch(pages: map<Uuid, Page>, files: set<(Uuid, Uuid)>, s: Setting, pages': map<Uuid, Page>,
                               files': set<(Uuid, Uuid)>, p: Uuid)
    requires Recovered(pages, files, s, pages', files') && FreshSetting(pages, files, s)
    requires p in RequeuedOf(pages, files, s)
    ensures p in pages' && pages'[p].life.status == Queued && pages'[p].life.attemptId == Some(s.newAttempts[p])
    ensures pages'[p].life.renderHash.Some? <==> (p, s.newAttempts[p]) in files'
    ensures pages'[p].life.renderHash.Some? ==> pages'[p].life.renderHash == pages[p].life.renderHash
    ensures pages[p].life.attemptId.Some? ==> (p, pages[p].life.attemptId.value) !in files'
  {
  }

  /** Running recovery again finds nothing and changes nothing. */
  lemma SecondRecoveryIsIdle(pages: map<Uuid, Page>, files: set<(Uuid, Uuid)>, s: Setting, pages': map<Uuid, Page>,
                             files': set<(Uuid, Uuid)>,
                             s2: Setting, pages'': map<Uuid, Page>, files'': set<(Uuid, Uuid)>)
    requires Recovered(pages, files, s, pages', files')
    requires Recovered(pages', files', s2, pages'', files'')
    ensures pages'' == pages' && files'' == files'
    ensures RequeuedOf(pages', files', s2) == {} && FailedOf(pages', files', s2) == {}
  {
    NothingInFlight(pages, files, s, pages', files');
    forall f ensures f in files'' <==> f in files' {
      assert f == (f.0, f.1);
    }
  }

  /**
   * What a stop leaves of the page it stopped at: its row; and its file where it was, if moving it failed or the row
   * was gone and the render kept, and else not at the old path, and at the new one exactly when the render is kept.
   */
  lemma StopLeaves(pages: map<Uuid, Page>, files: set<(Uuid, Uuid)>, s: Setting, done: set<Uuid>, stop: Uuid,
                   fault: Fault, pages1: map<Uuid, Page>, files1: set<(Uuid, Uuid)>)
    requires Stopped(pages, files, s, done, stop, fault, pages1, files1) && FreshSetting(pages, files, s)
    ensures stop in pages && stop in pages1 && pages1[stop] == pages[stop] && pages[stop].life.attemptId.Some?
    ensures var attempt, kept := pages[stop].life.attemptId.value, RenderKept(pages[stop].life, stop, files, s);
            if fault == FileFails || (fault == RowGone && kept) then
              forall a :: (stop, a) in files1 <==> (stop, a) in files
            else
              (stop, attempt) !in files1 && ((stop, s.newAttempts[stop]) in files1 <==> kept)
  {
    var between :| PartlyRecovered(pages, files, s, done, pages1, between) && pages1[stop] == pages[stop]
                   && files1 == StoppedFiles(pages1, between, s, fault, stop);
    assert HasScratch(pages1, between, stop) == HasScratch(pages, files, stop);
    assert MovesScratch(pages, files, s, stop) == RenderKept(pages[stop].life, stop, files, s);
    assert forall a :: (stop, a) in between <==> (stop, a) in files;
  }

  /** What a page's next recovery finds of its scratch after a stop: an update that failed has used it up. */
  predicate StillHasScratch(pages: map<Uuid, Page>, files: set<(Uuid, Uuid)>, s: Setting, p: Uuid, stop: Uuid,
                            fault: Fault)
  {
    HasScratch(pages, files, p)
      && (p == stop ==> fault == FileFails || (fault == RowGone && MovesScratch(pages, files, s, p)))
  }

  /**
   * A recovery that stopped can be run again, later and with other attempt ids: every page done stays done, and every
   * other interrupted page is recovered from the row the crash left and from the scratch file that is still there.
   */
  lemma RerunCompletes(pages: map<Uuid, Page>, files: set<(Uuid, Uuid)>, s: Setting, done: set<Uuid>, stop: Uuid,
                       fault: Fault,
                       pages1: map<Uuid, Page>, files1: set<(Uuid, Uuid)>, s2: Setting, pages2: map<Uuid, Page>,
                         files2: set<(Uuid, Uuid)>)
    requires Stopped(pages, files, s, done, stop, fault, pages1, files1) && FreshSetting(pages, files, s)
    requires Recovered(pages1, files1, s2, pages2, files2)
    ensures pages2.Keys == pages.Keys
    ensures forall p | p in pages && Interrupted(pages, p) && p !in done :: p in s2.newAttempts
    ensures forall p | p in pages ::
              pages2[p] ==
              if !Interrupted(pages, p) then pages[p]
              else if p in done then
                pages[p].(life :=
                  RecoveredLife(pages[p].life, HasScratch(pages, files, p), s.now, s.maxAge, s.newAttempts[p]))
              else if p !in s2.newAttempts then pages2[p]
              else
                pages[p].(life := RecoveredLife(pages[p].life, StillHasScratch(pages, files, s, p, stop, fault),
                                                s2.now, s2.maxAge, s2.newAttempts[p]))
  {
    var between :| PartlyRecovered(pages, files, s, done, pages1, between) && pages1[stop] == pages[stop]
                   && files1 == StoppedFiles(pages1, between, s, fault, stop);
    forall p | p in pages && Interrupted(pages, p) && p !in done
      ensures Interrupted(pages1, p)
              && HasScratch(pages1, files1, p) == StillHasScratch(pages, files, s, p, stop, fault)
    {
      assert pages1[p] == pages[p];
      assert HasScratch(pages1, between, p) == HasScratch(pages, files, p);
    }
  }

  /**
   * The page whose row update failed has lost its render: the rerun renders it again, or fails it as missing its
   * scratch.
   */
  lemma FailedUpdateLosesRender(pages: map<Uuid, Page>, files: set<(Uuid, Uuid)>, s: Setting, done: set<Uuid>,
                                stop: Uuid,
                                pages1: map<Uuid, Page>, files1: set<(Uuid, Uuid)>, s2: Setting,
                                pages2: map<Uuid, Page>, files2: set<(Uuid, Uuid)>)
    requires Stopped(pages, files, s, done, stop, RowFails, pages1, files1) && FreshSetting(pages, files, s)
    requires Recovered(pages1, files1, s2, pages2, files2)
    ensures stop in pages2
    ensures pages[stop].life.status == Rendering ==>
              pages2[stop].life.status == Queued && pages2[stop].life.renderHash == None
    ensures pages[stop].life.status != Rendering ==>
              pages2[stop].life.status == Failed && pages2[stop].life.failure == Some(ScratchMissing)
    ensures MovesScratch(pages, files, s, stop) ==> (stop, s.newAttempts[stop]) in files1
  {
    RerunCompletes(pages, files, s, done, stop, RowFails, pages1, files1, s2, pages2, files2);
    assert stop in pages && stop in s2.newAttempts;
    var between :| PartlyRecovered(pages, files, s, done, pages1, between) && pages1[stop] == pages[stop]
                   && files1 == StoppedFiles(pages1, between, s, RowFails, stop);
    assert HasScratch(pages1, between, stop) == HasScratch(pages, files, stop);
  }

  /**
   * After recovery, whatever is requested next, the attempt a requeued page had can never commit, as long as it is not
   * issued again.
   */
  lemma RequeuedAttemptIsDead(t: Tables, files: set<(Uuid, Uuid)>, s: Setting, t': Tables, files': set<(Uuid, Uuid)>,
                              p: Uuid,
                              actions: seq<Action>, sha: Hasher, req: CommitRequest, ctl: CommitControl)
    requires Recovered(t.pages, files, s, t'.pages, files') && FreshSetting(t.pages, files, s)
    requires p in RequeuedOf(t.pages, files, s) && t.pages[p].life.attemptId == Some(req.attemptId)
    requires forall q | q in t.pages && q != p :: t.pages[q].life.attemptId != Some(req.attemptId)
    requires forall a | a in actions :: !Issues(a, req.attemptId)
    ensures CommitPage(RunAll(t', actions, sha), req, ctl, sha).Err?
  {
    assert NobodyHas(t', req.attemptId);
    ReplacedAttemptNeverCommits(t', actions, sha, req.attemptId, req, ctl);
  }
}
