/** The transactions of the ingestion and re-index protocol as the source performs them: on rows, one
    assignment after another.  Each is proved to commit exactly the state that its specification gives, and to keep
    the invariant of the protocol. */
module Store {
  import opened Wrappers
  import opened Lifecycle
  import opened LifecycleSafety

  class Database {
    var docs: map<DocId, Doc>
    var chunks: seq<Row>
    var jobs: map<JobId, Job>
    var items: map<Key, Item>
    var generation: map<KbId, nat>
    var runs: map<RunId, Run>
    var published: map<RunId, seq<Row>>

    /** The committed state. */
    ghost function Contents(): State
      reads this
    {
      State(docs, chunks, jobs, items, generation, runs, published)
    }

    const maxAttempts: nat

    /** The committed state satisfies the invariant of the protocol. */
    ghost predicate Valid()
      reads this
    {
      maxAttempts > 0 && Inv(Contents(), maxAttempts)
    }

    constructor (maxAttempts: nat)
      requires maxAttempts > 0
      ensures Valid() && Contents() == EMPTY && this.maxAttempts == maxAttempts
    {
      this.maxAttempts := maxAttempts;
      docs, chunks, jobs, items, generation, runs, published := map[], [], map[], map[], map[], map[], map[];
      new;
      AlwaysInv([], maxAttempts);
    }

    /** The transaction that is about to run keeps the invariant. */
    lemma Keeps(e: Event)
      requires Valid()
      ensures Inv(Apply(Contents(), e, maxAttempts), maxAttempts)
    {
      hide Inv, Apply;
      ApplyKeeps(Contents(), e, maxAttempts);
    }

    method BumpGeneration(kb: KbId)
      modifies `generation
      ensures generation == Bumped(old(generation), kb)
    {
      var current := 0;
      if kb in generation { current := generation[kb]; }
      generation := generation[kb := current + 1];
    }

    // ---------- ingestion runs ----------

    /** The conditional update that starts `run_ingestion`; a run id is used once. */
    method Claim(r: RunId, d: DocId, target: Version, stale: bool) returns (claimed: bool)
      requires Valid()
      modifies this
      ensures Contents() == ClaimDocument(old(Contents()), r, d, target, stale)
      ensures Valid()
      ensures claimed <==> r !in old(runs) && r !in old(published) && CanClaim(old(Contents()), d, stale)
    {
      hide Inv;
      Keeps(ClaimDocumentEvent(r, d, target, stale));
      claimed := false;
      if r !in runs && r !in published && d in docs {
        var status := docs[d].status;
        if status in {DocPending, DocFailed} || (status == DocProcessing && stale) {
          docs := docs[d := docs[d].(status := DocProcessing, error := None)];
          runs := runs[r := Run(d, target)];
          claimed := true;
        }
      }
    }

    /** `replace_document_chunks`: the old rows are deleted, then the new ones inserted. */
    method ReplaceDocumentChunks(d: DocId, rows: seq<Row>)
      modifies `chunks
      ensures chunks == Replaced(old(chunks), d, rows)
    {
      var kept: seq<Row> := [];
      var i := 0;
      while i < |chunks|
        invariant 0 <= i <= |chunks| && chunks == old(chunks)
        invariant kept + Without(chunks[i..], d) == Without(chunks, d)
      {
        assert chunks[i..][0] == chunks[i] && chunks[i..][1..] == chunks[i + 1..];
        if chunks[i].doc != d { kept := kept + [chunks[i]]; }
        i := i + 1;
      }
      chunks := kept;
      chunks := chunks + rows;
    }

    /** The publishing transaction of `run_ingestion`. */
    method PublishRun(r: RunId, rows: seq<Row>) returns (completed: bool)
      requires Valid()
      modifies this
      ensures Contents() == Publish(old(Contents()), r, rows)
      ensures Valid()
      ensures completed ==> r in old(runs) && old(runs)[r].doc in docs && docs[old(runs)[r].doc].status == DocReady
      ensures !completed ==> chunks == old(chunks) && docs == old(docs)
    {
      hide Inv;
      Keeps(PublishEvent(r, rows));
      completed := false;
      if r in runs && IsBatch(rows, runs[r].doc, r, runs[r].target) {
        var run := runs[r];
        runs := runs - {r};
        if run.doc in docs && docs[run.doc].status == DocProcessing {
          ReplaceDocumentChunks(run.doc, rows);
          docs := docs[run.doc := docs[run.doc].(status := DocReady, version := Some(run.target), error := None)];
          BumpGeneration(docs[run.doc].kb);
          published := published[r := rows];
          completed := true;
        }
      }
    }

    /** `_mark_failed`. */
    method MarkFailed(r: RunId, stage: Stage)
      requires Valid()
      modifies this
      ensures Contents() == FailRun(old(Contents()), r, stage)
      ensures Valid()
    {
      hide Inv;
      Keeps(FailEvent(r, stage));
      if r in runs {
        var d := runs[r].doc;
        runs := runs - {r};
        if d in docs && docs[d].status == DocProcessing {
          docs := docs[d := docs[d].(status := DocFailed, error := Some(stage))];
        }
      }
    }

    // ---------- administrators: documents ----------

    method Retry(d: DocId) returns (accepted: bool)
      requires Valid()
      modifies `docs
      ensures Contents() == RetryDocument(old(Contents()), d)
      ensures Valid()
      ensures accepted <==> d in old(docs) && old(docs)[d].status == DocFailed
    {
      hide Inv;
      Keeps(RetryEvent(d));
      accepted := d in docs && docs[d].status == DocFailed;
      if accepted { docs := docs[d := docs[d].(status := DocPending, error := None)]; }
    }

    method Delete(d: DocId)
      requires Valid()
      modifies this
      ensures Contents() == DeleteDocument(old(Contents()), d)
      ensures Valid()
    {
      hide Inv;
      Keeps(DeleteEvent(d));
      if d in docs && docs[d].status != DocDeleting {
        docs := docs[d := docs[d].(status := DocDeleting, error := None)];
        BumpGeneration(docs[d].kb);
      }
    }

    /** `run_purge`; the row's chunks and items go with it. */
    method Purge(d: DocId)
      requires Valid()
      modifies this
      ensures Contents() == PurgeDocument(old(Contents()), d)
      ensures Valid()
    {
      hide Inv;
      Keeps(PurgeEvent(d));
      if d in docs && docs[d].status == DocDeleting {
        var kb := docs[d].kb;
        docs := docs - {d};
        ReplaceDocumentChunks(d, []);
        items := map k | k in items && k.doc != d :: items[k];
        BumpGeneration(kb);
      }
    }

    // ---------- administrators: jobs ----------

    /** `_create_job`. */
    method Create(j: JobId, target: Version, batchSize: nat, selected: set<DocId>) returns (created: bool)
      modifies this
      ensures Contents() == AddJob(old(Contents()), j, target, batchSize, selected)
      ensures created ==> j !in old(jobs) && j in jobs && Active(jobs[j]) && forall i <- old(jobs) :: !Active(jobs[i])
    {
      if j in jobs || (exists k <- jobs :: Active(jobs[k])) || selected == {} { return false; }
      jobs := jobs[j := Job(target, Queued, batchSize, |selected|, 0, 0)];
      items := items + map k | k in KeysFor(j, selected) :: Item(Pending, 0);
      return true;
    }

    /** `create_reindex_job` for documents that its query finds eligible. */
    method CreateForEligible(j: JobId, target: Version, batchSize: nat, selected: set<DocId>) returns (created: bool)
      requires Valid()
      modifies this
      ensures Contents() == CreateJob(old(Contents()), j, target, batchSize, selected)
      ensures Valid()
      ensures created ==> forall d <- selected :: Eligible(old(Contents()), d, target)
    {
      hide Inv;
      Keeps(CreateJobEvent(j, target, batchSize, selected));
      created := false;
      if forall d <- selected :: d in docs && docs[d].status in {DocReady, DocFailed} && HasOtherChild(chunks, d, target) {
        created := Create(j, target, batchSize, selected);
      }
    }

    /** `rollback_reindex`: a new job over what the source job completed and is still ready. */
    method Rollback(source: JobId, j: JobId, batchSize: nat) returns (created: bool)
      requires Valid()
      modifies this
      ensures Contents() == RollbackJob(old(Contents()), source, j, batchSize)
      ensures Valid()
    {
      hide Inv;
      Keeps(RollbackEvent(source, j, batchSize));
      if source !in jobs || jobs[source].status != JobCompleted || jobs[source].target != Hierarchical { return false; }
      var selected := set d <- docs | Key(source, d) in items && items[Key(source, d)].status == Completed
                                      && docs[d].status == DocReady;
      assert selected == set d <- docs | RolledBack(Contents(), source, d);
      created := Create(j, Legacy, batchSize, selected);
    }

    /** Both the administrator's pause and the pause after a lost queue. */
    method Pause(j: JobId) returns (accepted: bool)
      requires Valid()
      modifies `jobs
      ensures Contents() == PauseJob(old(Contents()), j)
      ensures Valid()
      ensures accepted <==> j in old(jobs) && old(jobs)[j].status in {Queued, Running}
    {
      hide Inv;
      Keeps(PauseEvent(j));
      accepted := j in jobs && jobs[j].status in {Queued, Running};
      if accepted { jobs := jobs[j := jobs[j].(status := Paused)]; }
    }

    method Resume(j: JobId) returns (accepted: bool)
      requires Valid()
      modifies `jobs
      ensures Contents() == ResumeJob(old(Contents()), j)
      ensures Valid()
      ensures accepted <==> j in old(jobs) && old(jobs)[j].status == Paused
    {
      hide Inv;
      Keeps(ResumeEvent(j));
      accepted := j in jobs && jobs[j].status == Paused;
      if accepted { jobs := jobs[j := jobs[j].(status := Queued)]; }
    }

    method Cancel(j: JobId) returns (accepted: bool)
      requires Valid()
      modifies this
      ensures Contents() == CancelJob(old(Contents()), j)
      ensures Valid()
      ensures accepted <==> j in old(jobs) && old(jobs)[j].status !in {JobCompleted, JobFailed, JobCancelled}
    {
      hide Inv;
      Keeps(CancelEvent(j));
      accepted := j in jobs && !(jobs[j].status.JobCompleted? || jobs[j].status.JobFailed? || jobs[j].status.JobCancelled?);
      if accepted {
        assert Active(jobs[j]);
        jobs := jobs[j := jobs[j].(status := JobCancelled)];
        items := map k | k in items ::
          if k.job == j && items[k].status == Pending then items[k].(status := Cancelled) else items[k];
        ghost var cancelled := CancelJob(old(Contents()), j);
        assert items == cancelled.items;
      }
    }

    // ---------- re-index workers ----------

    /** The body of the first loop of `_claim_batch`, for one stale item. */
    method ReleaseStale(j: JobId, d: DocId)
      requires j in jobs
      modifies `docs, `items
      ensures Contents() == ResetStale(old(Contents()), j, d, maxAttempts)
    {
      var k := Key(j, d);
      if k !in items || items[k].status != Processing { return; }
      if d in docs && docs[d].status == DocReady && HasChild(chunks, d, jobs[j].target) {
        items := items[k := items[k].(status := Completed)];
        return;
      }
      if d in docs && docs[d].status in {DocPending, DocProcessing, DocFailed} {
        docs := docs[d := docs[d].(status := DocReady, error := None)];
      }
      if items[k].attempts >= maxAttempts {
        items := items[k := items[k].(status := Failed)];
      } else {
        items := items[k := items[k].(status := Pending)];
      }
    }

    /** The body of the second loop of `_claim_batch`, for one pending item. */
    method TakeItem(j: JobId, d: DocId) returns (taken: bool)
      modifies `docs, `items
      ensures Contents() == ClaimItem(old(Contents()), j, d)
      ensures taken ==> d in docs && docs[d].status == DocPending
      ensures taken ==> Key(j, d) in items && items[Key(j, d)].status == Processing
    {
      var k := Key(j, d);
      if k !in items || items[k].status != Pending { return false; }
      if d !in docs || docs[d].status !in {DocReady, DocFailed} {
        items := items[k := items[k].(status := Failed)];
        return false;
      }
      docs := docs[d := docs[d].(status := DocPending, error := None)];
      items := items[k := items[k].(status := Processing)];
      items := items[k := items[k].(attempts := items[k].attempts + 1)];
      return true;
    }

    /** `_claim_batch`: release the stale items, then take up to a batch of pending ones. */
    method TakeBatch(j: JobId, stale: seq<DocId>, picked: seq<DocId>) returns (claimed: seq<DocId>)
      requires Valid()
      modifies this
      ensures Contents() == ClaimBatch(old(Contents()), j, stale, picked, maxAttempts)
      ensures Valid()
      ensures forall d <- claimed :: d in picked
      ensures |claimed| <= if j in old(jobs) then old(jobs)[j].batchSize else 0
    {
      hide Inv;
      Keeps(ClaimBatchEvent(j, stale, picked));
      claimed := [];
      if j !in jobs || jobs[j].status !in {Queued, Running} || |picked| > jobs[j].batchSize { return; }
      jobs := jobs[j := jobs[j].(status := Running)];
      ghost var running := Contents();
      var i := 0;
      while i < |stale|
        invariant 0 <= i <= |stale| && jobs == running.jobs
        invariant ResetAll(Contents(), j, stale[i..], maxAttempts) == ResetAll(running, j, stale, maxAttempts)
      {
        assert stale[i..][0] == stale[i] && stale[i..][1..] == stale[i + 1..];
        ReleaseStale(j, stale[i]);
        i := i + 1;
      }
      ghost var released := Contents();
      i := 0;
      while i < |picked|
        invariant 0 <= i <= |picked| && |claimed| <= i && forall d <- claimed :: d in picked
        invariant ClaimAll(Contents(), j, picked[i..]) == ClaimAll(released, j, picked)
      {
        assert picked[i..][0] == picked[i] && picked[i..][1..] == picked[i + 1..];
        var taken := TakeItem(j, picked[i]);
        if taken { claimed := claimed + [picked[i]]; }
        i := i + 1;
      }
    }

    /** `_finish_item`. */
    method Finish(j: JobId, d: DocId)
      requires Valid()
      modifies `items
      ensures Contents() == FinishItem(old(Contents()), j, d, maxAttempts)
      ensures Valid()
    {
      hide Inv;
      Keeps(FinishItemEvent(j, d));
      var k := Key(j, d);
      if j !in jobs || k !in items { return; }
      if d in docs && docs[d].status == DocReady && HasChild(chunks, d, jobs[j].target) {
        items := items[k := items[k].(status := Completed)];
      } else if d in docs && Retryable(docs[d], items[k].attempts, maxAttempts) {
        items := items[k := items[k].(status := Pending)];
      } else {
        items := items[k := items[k].(status := Failed)];
      }
    }

    /** `_refresh_job`; the result says whether the worker enqueues another batch. */
    method Refresh(j: JobId) returns (more: bool)
      requires Valid()
      modifies `jobs
      ensures Contents() == RefreshJob(old(Contents()), j)
      ensures Valid()
      ensures more <==> j in jobs && jobs[j].status == Running
                        && exists k <- items :: k.job == j && items[k].status in {Pending, Processing}
    {
      hide Inv, Apply, ItemsWith;
      Keeps(RefreshEvent(j));
      RefreshApplies(Contents(), j, maxAttempts);
      if j !in jobs { return false; }
      var completed := set k <- items | k.job == j && items[k].status == Completed;
      var failed := set k <- items | k.job == j && items[k].status == Failed;
      CountedItems(old(Contents()), j);
      jobs := jobs[j := jobs[j].(completed := |completed|, failed := |failed|)];
      var open := exists k <- items :: k.job == j && items[k].status in {Pending, Processing};
      OpenItems(old(Contents()), j);
      if jobs[j].status == Running && !open {
        if jobs[j].failed > 0 {
          jobs := jobs[j := jobs[j].(status := JobFailed)];
        } else {
          jobs := jobs[j := jobs[j].(status := JobCompleted)];
        }
      }
      more := jobs[j].status == Running && open;
    }
  }

  lemma RefreshApplies(s: State, j: JobId, maxAttempts: nat)
    ensures Apply(s, RefreshEvent(j), maxAttempts) == RefreshJob(s, j)
  {
    hide RefreshJob;
  }

  /** An item is open exactly when it is among the pending or the processing ones. */
  lemma OpenItems(s: State, j: JobId)
    ensures (exists k <- s.items :: k.job == j && s.items[k].status in {Pending, Processing})
              <==> ItemsWith(s, j, Pending) != {} || ItemsWith(s, j, Processing) != {}
  {
    if k :| k in s.items && k.job == j && s.items[k].status in {Pending, Processing} {
      assert k in ItemsWith(s, j, s.items[k].status);
    }
    if ItemsWith(s, j, Pending) != {} {
      var k :| k in ItemsWith(s, j, Pending);
    }
    if ItemsWith(s, j, Processing) != {} {
      var k :| k in ItemsWith(s, j, Processing);
    }
  }

  lemma CountedItems(s: State, j: JobId)
    ensures ItemsWith(s, j, Completed) == set k <- s.items | k.job == j && s.items[k].status == Completed
    ensures ItemsWith(s, j, Failed) == set k <- s.items | k.job == j && s.items[k].status == Failed
  {}
}
