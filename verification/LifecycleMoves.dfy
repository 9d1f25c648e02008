/** The moves that jobs, items and documents can make at all, and which transaction makes them. */
module LifecycleMoves {
  import opened Wrappers
  import opened Lifecycle
  import opened LifecycleOutcomes

  // ---------- jobs ----------

  /** The transaction takes a job from one status to another. */
  predicate MovesJob(e: Event, j: JobId, before: JobStatus, after: JobStatus) {
    match after
    case Queued => e == ResumeEvent(j) && before == Paused
    case Running => e.ClaimBatchEvent? && e.job == j && before == Queued
    case Paused => e == PauseEvent(j) && (before == Queued || before == Running)
    case JobCancelled => e == CancelEvent(j) && (before == Queued || before == Running || before == Paused)
    case JobFailed => e == RefreshEvent(j) && before == Running
    case JobCompleted => e == RefreshEvent(j) && before == Running
  }

  lemma BatchKeepsJobs(s: State, j: JobId, stale: seq<DocId>, picked: seq<DocId>, maxAttempts: nat)
    ensures var t := ClaimBatch(s, j, stale, picked, maxAttempts);
            t == s || (j in s.jobs && s.jobs[j].status in {Queued, Running} && t.jobs == s.jobs[j := s.jobs[j].(status := Running)])
  {
    hide ResetAll, ClaimAll;
  }

  lemma CreationKeepsJobs(s: State, j: JobId, target: Version, batchSize: nat, docs: set<DocId>)
    ensures forall i <- s.jobs :: i in AddJob(s, j, target, batchSize, docs).jobs
              && AddJob(s, j, target, batchSize, docs).jobs[i] == s.jobs[i]
  {
    hide KeysFor, Active;
  }

  /** A job never disappears, keeps what it was created for, and changes its status only in these ways; in particular a
      completed, failed or cancelled job stays so. */
  lemma JobMoves(s: State, e: Event, maxAttempts: nat, j: JobId)
    requires j in s.jobs
    ensures var t := Apply(s, e, maxAttempts);
            && j in t.jobs
            && t.jobs[j].target == s.jobs[j].target && t.jobs[j].total == s.jobs[j].total
            && t.jobs[j].batchSize == s.jobs[j].batchSize
            && (t.jobs[j].status != s.jobs[j].status ==> MovesJob(e, j, s.jobs[j].status, t.jobs[j].status))
  {
    hide ClaimBatch, AddJob, FinishItem, Publish, ItemsWith, PurgeDocument, ClaimDocument, FailRun, Eligible, RolledBack;
    match e
    case ClaimBatchEvent(i, stale, picked) => BatchKeepsJobs(s, i, stale, picked, maxAttempts);
    case CreateJobEvent(i, v, n, docs) => CreationKeepsJobs(s, i, v, n, docs);
    case RollbackEvent(source, i, n) => CreationKeepsJobs(s, i, Legacy, n, set d <- s.docs | RolledBack(s, source, d));
    case FinishItemEvent(i, d) => OthersKeepJobs(s, e, maxAttempts);
    case PublishEvent(r, rows) => OthersKeepJobs(s, e, maxAttempts);
    case ClaimDocumentEvent(r, d, v, stale) => OthersKeepJobs(s, e, maxAttempts);
    case FailEvent(r, stage) => OthersKeepJobs(s, e, maxAttempts);
    case PurgeEvent(d) => OthersKeepJobs(s, e, maxAttempts);
    case _ =>
  }

  lemma OthersKeepJobs(s: State, e: Event, maxAttempts: nat)
    requires e.FinishItemEvent? || e.PublishEvent? || e.ClaimDocumentEvent? || e.FailEvent? || e.PurgeEvent?
    ensures Apply(s, e, maxAttempts).jobs == s.jobs
  {
    hide ClaimBatch, CreateJob, RollbackJob, HasChild, Replaced, Bumped, Without;
  }

  // ---------- documents ----------

  /** The transaction takes a document from one status to another. */
  predicate MovesDoc(s: State, e: Event, d: DocId, before: DocStatus, after: DocStatus) {
    match after
    case DocPending =>
      || (e == RetryEvent(d) && before == DocFailed)
      || (e.ClaimBatchEvent? && d in e.picked && (before in {DocReady, DocFailed} || (d in e.stale && before == DocProcessing)))
    case DocProcessing => e.ClaimDocumentEvent? && e.doc == d && before in {DocPending, DocFailed}
    case DocReady =>
      || (e.PublishEvent? && e.run in s.runs && s.runs[e.run].doc == d && before == DocProcessing)
      || (e.ClaimBatchEvent? && d in e.stale && before in {DocPending, DocProcessing, DocFailed})
    case DocFailed => e.FailEvent? && e.run in s.runs && s.runs[e.run].doc == d && before == DocProcessing
    case DocDeleting => e == DeleteEvent(d)
  }

  /** What a transaction may do to a document. */
  predicate DocStep(s: State, t: State, e: Event, d: DocId)
    requires d in s.docs
  {
    && (d !in t.docs ==> e == PurgeEvent(d) && s.docs[d].status == DocDeleting)
    && (d in t.docs ==>
         && t.docs[d].kb == s.docs[d].kb
         && (t.docs[d].status != s.docs[d].status ==> MovesDoc(s, e, d, s.docs[d].status, t.docs[d].status))
         && (t.docs[d].version != s.docs[d].version ==>
              && e.PublishEvent? && e.run in s.runs && s.runs[e.run].doc == d && s.docs[d].status == DocProcessing
              && t.docs[d].version == Some(s.runs[e.run].target)))
  }

  lemma BatchSteps(s: State, j: JobId, stale: seq<DocId>, picked: seq<DocId>, maxAttempts: nat, d: DocId)
    requires d in s.docs
    ensures DocStep(s, ClaimBatch(s, j, stale, picked, maxAttempts), ClaimBatchEvent(j, stale, picked), d)
  {
    hide ResetAll, ClaimAll, ResetStale, ClaimItem, HasArrived;
    if j in s.jobs && s.jobs[j].status in {Queued, Running} && |picked| <= s.jobs[j].batchSize {
      var s1 := WithJob(s, j, Running);
      var s2 := ResetAll(s1, j, stale, maxAttempts);
      ResetAllOn(s1, j, stale, d, maxAttempts);
      ResetItemIs(s1, j, d, maxAttempts);
      ClaimAllOn(s2, j, picked, d);
      TakenItemIs(s2, j, d);
    }
  }

  lemma RunSteps(s: State, e: Event, maxAttempts: nat, d: DocId)
    requires d in s.docs && (e.PublishEvent? || e.FailEvent? || e.ClaimDocumentEvent?)
    ensures DocStep(s, Apply(s, e, maxAttempts), e, d)
  {
    hide ClaimBatch, CreateJob, RollbackJob, HasChild, Replaced, Bumped, Without, IsBatch, FinishItem, RefreshJob, CancelJob;
  }

  lemma OtherSteps(s: State, e: Event, maxAttempts: nat, d: DocId)
    requires d in s.docs && !(e.PublishEvent? || e.FailEvent? || e.ClaimDocumentEvent? || e.ClaimBatchEvent?)
    ensures DocStep(s, Apply(s, e, maxAttempts), e, d)
  {
    hide ClaimBatch, Publish, FailRun, ClaimDocument, HasChild, Bumped, Without, Eligible, KeysFor, Active, RolledBack, ItemsWith, Retryable;
  }

  /** A document only goes away by its purge, keeps its Knowledge Base, changes its version only when a run publishes, and
      changes its status only in these ways. */
  lemma DocMoves(s: State, e: Event, maxAttempts: nat, d: DocId)
    requires d in s.docs
    ensures DocStep(s, Apply(s, e, maxAttempts), e, d)
  {
    hide DocStep, ClaimBatch;
    match e
    case ClaimBatchEvent(j, stale, picked) =>
      BatchTransaction(s, j, stale, picked, maxAttempts);
      BatchSteps(s, j, stale, picked, maxAttempts, d);
    case PublishEvent(r, rows) => RunSteps(s, e, maxAttempts, d);
    case FailEvent(r, stage) => RunSteps(s, e, maxAttempts, d);
    case ClaimDocumentEvent(r, v, w, stale) => RunSteps(s, e, maxAttempts, d);
    case _ => OtherSteps(s, e, maxAttempts, d);
  }

  /** A run starts exactly on a document that waits or has failed, or whose run is called stale. */
  lemma RunStarts(s: State, r: RunId, d: DocId, target: Version, stale: bool, maxAttempts: nat)
    requires r !in s.runs && r !in s.published
    ensures var t := Apply(s, ClaimDocumentEvent(r, d, target, stale), maxAttempts);
            if d in s.docs && (s.docs[d].status == DocPending || s.docs[d].status == DocFailed
                               || (s.docs[d].status == DocProcessing && stale))
            then t == s.(docs := s.docs[d := Doc(s.docs[d].kb, DocProcessing, s.docs[d].version, None)],
                         runs := s.runs[r := Run(d, target)])
            else t == s
  {
    hide ClaimBatch, CreateJob, RollbackJob, Publish, FailRun, FinishItem, RefreshJob, CancelJob, PurgeDocument, DeleteDocument;
  }

  // ---------- items ----------

  /** The transaction takes an item from one status to another. */
  predicate MovesItem(e: Event, k: Key, before: ItemStatus, after: ItemStatus) {
    match after
    case Pending => e == FinishItemEvent(k.job, k.doc) || (TakesFrom(e, k) && k.doc in e.stale && before == Processing)
    case Processing => TakesFrom(e, k) && k.doc in e.picked && before == Pending
    case Completed => e == FinishItemEvent(k.job, k.doc) || (TakesFrom(e, k) && k.doc in e.stale && before == Processing)
    case Failed =>
      || e == FinishItemEvent(k.job, k.doc)
      || (TakesFrom(e, k) && ((before == Pending && k.doc in e.picked) || (before == Processing && k.doc in e.stale)))
    case Cancelled => e == CancelEvent(k.job) && before == Pending
  }

  predicate TakesFrom(e: Event, k: Key) { e.ClaimBatchEvent? && e.job == k.job }

  predicate ItemStep(s: State, t: State, e: Event, k: Key)
    requires k in s.items
  {
    && (k !in t.items ==> e == PurgeEvent(k.doc))
    && (k in t.items ==>
         && s.items[k].attempts <= t.items[k].attempts <= s.items[k].attempts + 1
         && (t.items[k].attempts != s.items[k].attempts ==> t.items[k].status == Processing && TakesFrom(e, k) && k.doc in e.picked)
         && (t.items[k].status != s.items[k].status ==> MovesItem(e, k, s.items[k].status, t.items[k].status)))
  }

  lemma {:induction false} ResetAllElsewhere(s: State, j: JobId, stale: seq<DocId>, maxAttempts: nat, k: Key)
    requires j in s.jobs && k.job != j && k in s.items
    ensures var t := ResetAll(s, j, stale, maxAttempts); k in t.items && t.items[k] == s.items[k]
    decreases |stale|
  {
    hide HasChild;
    if stale != [] { ResetAllElsewhere(ResetStale(s, j, stale[0], maxAttempts), j, stale[1..], maxAttempts, k); }
  }

  lemma {:induction false} ClaimAllElsewhere(s: State, j: JobId, picked: seq<DocId>, k: Key)
    requires k.job != j && k in s.items
    ensures var t := ClaimAll(s, j, picked); k in t.items && t.items[k] == s.items[k]
    decreases |picked|
  {
    if picked != [] { ClaimAllElsewhere(ClaimItem(s, j, picked[0]), j, picked[1..], k); }
  }

  lemma BatchStepsItem(s: State, j: JobId, stale: seq<DocId>, picked: seq<DocId>, maxAttempts: nat, k: Key)
    requires k in s.items
    ensures ItemStep(s, ClaimBatch(s, j, stale, picked, maxAttempts), ClaimBatchEvent(j, stale, picked), k)
  {
    hide ResetAll, ClaimAll, ResetStale, ClaimItem, HasArrived;
    if j in s.jobs && s.jobs[j].status in {Queued, Running} && |picked| <= s.jobs[j].batchSize {
      var s1 := WithJob(s, j, Running);
      var s2 := ResetAll(s1, j, stale, maxAttempts);
      if k.job == j {
        ResetAllOn(s1, j, stale, k.doc, maxAttempts);
        ResetItemIs(s1, j, k.doc, maxAttempts);
        ClaimAllOn(s2, j, picked, k.doc);
        TakenItemIs(s2, j, k.doc);
      } else {
        ResetAllElsewhere(s1, j, stale, maxAttempts, k);
        ClaimAllElsewhere(s2, j, picked, k);
      }
    }
  }

  lemma OtherStepsItem(s: State, e: Event, maxAttempts: nat, k: Key)
    requires k in s.items && !e.ClaimBatchEvent? && !e.CreateJobEvent? && !e.RollbackEvent?
    ensures ItemStep(s, Apply(s, e, maxAttempts), e, k)
  {
    hide ClaimBatch, CreateJob, RollbackJob, HasChild, Replaced, Bumped, Without, IsBatch, ItemsWith, Retryable;
  }

  lemma CreationStepsItem(s: State, j: JobId, target: Version, batchSize: nat, docs: set<DocId>, k: Key)
    requires k in s.items && k.job in s.jobs
    ensures var t := AddJob(s, j, target, batchSize, docs); k in t.items && t.items[k] == s.items[k]
  {
    hide Active;
  }

  /** An item only goes away with its document, gains an attempt only when it is taken, and changes its status only in
      these ways. */
  lemma ItemMoves(s: State, e: Event, maxAttempts: nat, k: Key)
    requires k in s.items && k.job in s.jobs
    ensures ItemStep(s, Apply(s, e, maxAttempts), e, k)
  {
    hide ClaimBatch, AddJob, Eligible, RolledBack;
    match e
    case ClaimBatchEvent(j, stale, picked) =>
      hide ItemStep;
      BatchTransaction(s, j, stale, picked, maxAttempts);
      BatchStepsItem(s, j, stale, picked, maxAttempts, k);
    case CreateJobEvent(j, v, n, docs) => CreationStepsItem(s, j, v, n, docs, k);
    case RollbackEvent(source, j, n) => CreationStepsItem(s, j, Legacy, n, (set d <- s.docs | RolledBack(s, source, d)), k);
    case _ => hide ItemStep; OtherStepsItem(s, e, maxAttempts, k);
  }

  // ---------- new jobs ----------

  /** A document takes part in a new job when it has been ingested, in another version than the one asked for. */
  predicate CanBeReindexed(s: State, d: DocId, target: Version) {
    && d in s.docs && (s.docs[d].status == DocReady || s.docs[d].status == DocFailed)
    && exists i :: 0 <= i < |s.chunks| && s.chunks[i].doc == d && s.chunks[i].level == ChildRow && s.chunks[i].version != target
  }

  /** A new job has exactly the selected documents, all of them pending without an attempt; there is none without
      documents, with a document that cannot take part, or beside a job that waits, runs or is paused. */
  lemma CreatedJob(s: State, j: JobId, target: Version, batchSize: nat, docs: set<DocId>, maxAttempts: nat, k: Key)
    requires j !in s.jobs && (k in s.items ==> k.job in s.jobs)
    ensures var t := Apply(s, CreateJobEvent(j, target, batchSize, docs), maxAttempts);
            var isCreated := && docs != {} && (forall d <- docs :: CanBeReindexed(s, d, target))
                             && forall i <- s.jobs :: s.jobs[i].status in {JobCompleted, JobFailed, JobCancelled};
            if isCreated
            then && t.jobs == s.jobs[j := Job(target, Queued, batchSize, |docs|, 0, 0)]
                 && t.docs == s.docs && t.chunks == s.chunks
                 && (k in t.items <==> k in s.items || (k.job == j && k.doc in docs))
                 && (k in t.items ==> t.items[k] == if k in s.items then s.items[k] else Item(Pending, 0))
            else t == s
  {
    hide ClaimBatch, RollbackJob, Publish, PurgeDocument, FinishItem, RefreshJob, CancelJob, ClaimDocument, FailRun, AddJob;
    forall d | d in docs ensures Eligible(s, d, target) <==> CanBeReindexed(s, d, target) { ReindexedIs(s, d, target); }
    AddedJob(s, j, target, batchSize, docs, k);
  }

  lemma ReindexedIs(s: State, d: DocId, target: Version)
    ensures Eligible(s, d, target) <==> CanBeReindexed(s, d, target)
  {}

  lemma ActiveIs(job: Job)
    ensures Active(job) <==> job.status !in {JobCompleted, JobFailed, JobCancelled}
  {
    match job.status
    case Queued => case Running => case Paused => case JobCompleted => case JobFailed => case JobCancelled =>
  }

  lemma AddedJob(s: State, j: JobId, target: Version, batchSize: nat, docs: set<DocId>, k: Key)
    requires j !in s.jobs && (k in s.items ==> k.job in s.jobs)
    ensures var t := AddJob(s, j, target, batchSize, docs);
            if docs != {} && forall i <- s.jobs :: s.jobs[i].status in {JobCompleted, JobFailed, JobCancelled}
            then && t.jobs == s.jobs[j := Job(target, Queued, batchSize, |docs|, 0, 0)]
                 && t.docs == s.docs && t.chunks == s.chunks
                 && (k in t.items <==> k in s.items || (k.job == j && k.doc in docs))
                 && (k in t.items ==> t.items[k] == if k in s.items then s.items[k] else Item(Pending, 0))
            else t == s
  {
    forall i | i in s.jobs ensures Active(s.jobs[i]) <==> s.jobs[i].status !in {JobCompleted, JobFailed, JobCancelled} {
      ActiveIs(s.jobs[i]);
    }
    hide Active;
    assert k in KeysFor(j, docs) <==> k.job == j && k.doc in docs by {
      if k.job == j && k.doc in docs { assert k == Key(j, k.doc); }
    }
  }

  /** A rollback is a new job back to the old version over what the hierarchical job completed and is still ready. */
  lemma RolledBackJob(s: State, source: JobId, j: JobId, batchSize: nat, maxAttempts: nat, d: DocId)
    requires j !in s.jobs && Key(j, d) !in s.items
    requires source in s.jobs && s.jobs[source].status == JobCompleted && s.jobs[source].target == Hierarchical
    requires forall i <- s.jobs :: s.jobs[i].status in {JobCompleted, JobFailed, JobCancelled}
    ensures var t := Apply(s, RollbackEvent(source, j, batchSize), maxAttempts);
            var isCovered := Key(source, d) in s.items && s.items[Key(source, d)].status == Completed
                             && d in s.docs && s.docs[d].status == DocReady;
            && (Key(j, d) in t.items <==> isCovered)
            && (isCovered ==> j in t.jobs && t.jobs[j].target == Legacy && t.jobs[j].status == Queued
                              && t.items[Key(j, d)] == Item(Pending, 0))
            && t.docs == s.docs && t.chunks == s.chunks
  {
    hide ClaimBatch, CreateJob, Publish, PurgeDocument, FinishItem, RefreshJob, CancelJob, ClaimDocument, FailRun, AddJob;
    var docs := set e <- s.docs | RolledBack(s, source, e);
    AddedJob(s, j, Legacy, batchSize, docs, Key(j, d));
    assert Apply(s, RollbackEvent(source, j, batchSize), maxAttempts) == AddJob(s, j, Legacy, batchSize, docs);
    assert d in docs <==> d in s.docs && RolledBack(s, source, d);
  }

  /** Only a completed job for the hierarchical version can be rolled back. */
  lemma NothingToRollBack(s: State, source: JobId, j: JobId, batchSize: nat, maxAttempts: nat)
    requires source in s.jobs ==> s.jobs[source].status != JobCompleted || s.jobs[source].target != Hierarchical
    ensures Apply(s, RollbackEvent(source, j, batchSize), maxAttempts) == s
  {
    hide ClaimBatch, CreateJob, Publish, PurgeDocument, FinishItem, RefreshJob, CancelJob, ClaimDocument, FailRun, AddJob;
  }
}
