/** What the transactions of ingestion and re-indexing come to: outcomes of consecutive transactions, and the moves that
    jobs, items and documents can make at all. */
module LifecycleOutcomes {
  import opened Wrappers
  import opened Lifecycle
  import opened LifecycleSafety

  /** The document is published with a searchable chunk of this version. */
  predicate HasArrived(s: State, d: DocId, v: Version) {
    && d in s.docs && s.docs[d].status == DocReady
    && exists i :: 0 <= i < |s.chunks| && s.chunks[i].doc == d && s.chunks[i].level == ChildRow && s.chunks[i].version == v
  }

  lemma DocumentTransactions(s: State, d: DocId, r: RunId, stage: Stage, maxAttempts: nat)
    ensures Apply(s, FailEvent(r, stage), maxAttempts) == FailRun(s, r, stage)
    ensures Apply(s, DeleteEvent(d), maxAttempts) == DeleteDocument(s, d)
    ensures Apply(s, RetryEvent(d), maxAttempts) == RetryDocument(s, d)
  {
    hide FailRun, DeleteDocument, RetryDocument;
  }

  lemma JobTransactions(s: State, j: JobId, maxAttempts: nat)
    ensures Apply(s, PauseEvent(j), maxAttempts) == PauseJob(s, j)
    ensures Apply(s, ResumeEvent(j), maxAttempts) == ResumeJob(s, j)
    ensures Apply(s, CancelEvent(j), maxAttempts) == CancelJob(s, j)
    ensures Apply(s, RefreshEvent(j), maxAttempts) == RefreshJob(s, j)
  {
    hide PauseJob, ResumeJob, CancelJob, RefreshJob;
  }

  lemma FinishTransaction(s: State, j: JobId, d: DocId, maxAttempts: nat)
    ensures Apply(s, FinishItemEvent(j, d), maxAttempts) == FinishItem(s, j, d, maxAttempts)
  {
    hide FinishItem;
  }

  lemma BatchTransaction(s: State, j: JobId, stale: seq<DocId>, picked: seq<DocId>, maxAttempts: nat)
    ensures Apply(s, ClaimBatchEvent(j, stale, picked), maxAttempts) == ClaimBatch(s, j, stale, picked, maxAttempts)
  {
    hide ClaimBatch;
  }

  /** The document failed while it was embedded or persisted, and the item has attempts left. */
  predicate MayRetry(s: State, d: DocId, attempts: nat, maxAttempts: nat) {
    && d in s.docs && s.docs[d].status == DocFailed && attempts < maxAttempts
    && (s.docs[d].error == Some(Embed) || s.docs[d].error == Some(Persist))
  }

  lemma FinishedItem(s: State, j: JobId, d: DocId, maxAttempts: nat)
    requires j in s.jobs && Key(j, d) in s.items
    ensures var k := Key(j, d);
            var x := s.items[k];
            FinishItem(s, j, d, maxAttempts) == s.(items := s.items[k := Item(
              if HasArrived(s, d, s.jobs[j].target) then Completed
              else if MayRetry(s, d, x.attempts, maxAttempts) then Pending else Failed, x.attempts)])
  {
    assert HasArrived(s, d, s.jobs[j].target) <==>
             d in s.docs && s.docs[d].status == DocReady && HasChild(s.chunks, d, s.jobs[j].target);
    hide HasArrived, HasChild;
  }

  // ---------- one attempt at an item ----------

  /** A run that fails while it embeds or persists gives its item another attempt, as long as there are any left; every
      other failure is final. */
  lemma FailedAttempt(s: State, r: RunId, stage: Stage, j: JobId, d: DocId, maxAttempts: nat)
    requires r in s.runs && s.runs[r].doc == d && d in s.docs && s.docs[d].status == DocProcessing
    requires j in s.jobs && Key(j, d) in s.items
    ensures var t := Apply(Apply(s, FailEvent(r, stage), maxAttempts), FinishItemEvent(j, d), maxAttempts);
            var x := s.items[Key(j, d)];
            && t.docs == s.docs[d := Doc(s.docs[d].kb, DocFailed, s.docs[d].version, Some(stage))]
            && t.items == s.items[Key(j, d) := Item(
                 if (stage == Embed || stage == Persist) && x.attempts < maxAttempts then Pending else Failed, x.attempts)]
            && t.runs == s.runs - {r}
            && t.chunks == s.chunks && t.jobs == s.jobs && t.generation == s.generation && t.published == s.published
  {
    hide Apply, FinishItem;
    var failed := FailRun(s, r, stage);
    assert failed == s.(docs := s.docs[d := Doc(s.docs[d].kb, DocFailed, s.docs[d].version, Some(stage))], runs := s.runs - {r});
    hide FailRun;
    DocumentTransactions(s, d, r, stage, maxAttempts);
    FinishTransaction(failed, j, d, maxAttempts);
    FinishedItem(failed, j, d, maxAttempts);
  }

  /** A run that publishes completes the item exactly when it was a run of the version that the job asks for. */
  lemma PublishedAttempt(s: State, r: RunId, rows: seq<Row>, j: JobId, d: DocId, maxAttempts: nat)
    requires r in s.runs && s.runs[r].doc == d && d in s.docs && s.docs[d].status == DocProcessing
    requires IsBatch(rows, d, r, s.runs[r].target)
    requires j in s.jobs && Key(j, d) in s.items
    ensures var t := Apply(Apply(s, PublishEvent(r, rows), maxAttempts), FinishItemEvent(j, d), maxAttempts);
            var x := s.items[Key(j, d)];
            && t.docs == s.docs[d := Doc(s.docs[d].kb, DocReady, Some(s.runs[r].target), None)]
            && t.items == s.items[Key(j, d) := Item(
                 if s.runs[r].target == s.jobs[j].target then Completed else Failed, x.attempts)]
            && RowsOf(t.chunks, d) == rows && t.runs == s.runs - {r} && t.jobs == s.jobs
  {
    hide Replaced, RowsOf, IsBatch;
    var v := s.runs[r].target;
    var chunks := Replaced(s.chunks, d, rows);
    BatchIsOf(rows, d, r, v);
    ReplacedRows(s.chunks, d, rows, d);
    ChildOfVersion(chunks, d, r, rows, v, s.jobs[j].target);
  }

  lemma BatchIsOf(rows: seq<Row>, d: DocId, r: RunId, v: Version)
    requires IsBatch(rows, d, r, v)
    ensures forall row <- rows :: row.doc == d && row.version == v
    ensures exists row <- rows :: row.level == ChildRow
  {}

  lemma ChildOfVersion(chunks: seq<Row>, d: DocId, r: RunId, rows: seq<Row>, v: Version, w: Version)
    requires IsBatch(rows, d, r, v) && RowsOf(chunks, d) == rows
    ensures HasChild(chunks, d, w) <==> v == w
  {
    hide RowsOf;
    forall row: Row ensures row in rows <==> row in chunks && row.doc == d { RowsOfMembers(chunks, d, row); }
    var child :| child in rows && child.level == ChildRow;
    assert child in chunks;
  }

  /** An item whose document is deleted meanwhile fails. */
  lemma DeletedAttempt(s: State, j: JobId, d: DocId, maxAttempts: nat)
    requires d in s.docs && j in s.jobs && Key(j, d) in s.items
    ensures var t := Apply(Apply(s, DeleteEvent(d), maxAttempts), FinishItemEvent(j, d), maxAttempts);
            t.items == s.items[Key(j, d) := Item(Failed, s.items[Key(j, d)].attempts)]
            && t.docs[d].status == DocDeleting && t.chunks == s.chunks && t.jobs == s.jobs
  {
    hide Apply, FinishItem, Bumped;
    var deleted := DeleteDocument(s, d);
    assert d in deleted.docs && deleted.docs[d].status == DocDeleting;
    assert deleted.items == s.items && deleted.jobs == s.jobs && deleted.chunks == s.chunks;
    hide DeleteDocument;
    DocumentTransactions(s, d, 0, Claim, maxAttempts);
    FinishTransaction(deleted, j, d, maxAttempts);
    FinishedItem(deleted, j, d, maxAttempts);
  }

  /** A failed document that is retried can be claimed again, without its error. */
  lemma RetriedDocument(s: State, r: RunId, stage: Stage, again: RunId, target: Version, maxAttempts: nat)
    requires r in s.runs && s.runs[r].doc in s.docs && s.docs[s.runs[r].doc].status == DocProcessing
    requires again !in s.runs && again !in s.published
    ensures var d := s.runs[r].doc;
            var failed := Apply(s, FailEvent(r, stage), maxAttempts);
            var retried := Apply(failed, RetryEvent(d), maxAttempts);
            var claimed := Apply(retried, ClaimDocumentEvent(again, d, target, false), maxAttempts);
            && retried == failed.(docs := failed.docs[d := Doc(s.docs[d].kb, DocPending, s.docs[d].version, None)])
            && claimed.docs[d] == Doc(s.docs[d].kb, DocProcessing, s.docs[d].version, None)
            && claimed.runs == (s.runs - {r})[again := Run(d, target)]
  {
    hide ClaimBatch, Publish, PurgeDocument, CreateJob, RollbackJob, RefreshJob, FinishItem, CancelJob;
  }

  // ---------- claiming a batch ----------

  /** Two states agree on everything that a worker looks at for one item. */
  predicate AgreeOn(s: State, t: State, j: JobId, d: DocId) {
    && (Key(j, d) in s.items <==> Key(j, d) in t.items) && (d in s.docs <==> d in t.docs)
    && (Key(j, d) in s.items ==> s.items[Key(j, d)] == t.items[Key(j, d)])
    && (d in s.docs ==> s.docs[d] == t.docs[d])
    && s.chunks == t.chunks && s.jobs == t.jobs
  }

  /** What the release of one stale item does, seen from that item. */
  lemma ResetItemIs(s: State, j: JobId, d: DocId, maxAttempts: nat)
    requires j in s.jobs
    ensures var t, k := ResetStale(s, j, d, maxAttempts), Key(j, d);
            && t.jobs == s.jobs && t.chunks == s.chunks && t.items.Keys == s.items.Keys && t.docs.Keys == s.docs.Keys
            && (k in s.items && s.items[k].status == Processing ==>
                 if HasArrived(s, d, s.jobs[j].target)
                 then t.items[k] == Item(Completed, s.items[k].attempts) && t.docs == s.docs
                 else
                   && t.items[k] == Item(if s.items[k].attempts >= maxAttempts then Failed else Pending, s.items[k].attempts)
                   && (d in s.docs ==> t.docs[d] == Released(s.docs[d])))
            && (!(k in s.items && s.items[k].status == Processing) ==> t == s)
  {
    assert HasArrived(s, d, s.jobs[j].target) <==>
             d in s.docs && s.docs[d].status == DocReady && HasChild(s.chunks, d, s.jobs[j].target);
    hide HasArrived, HasChild;
  }

  function Released(x: Doc): Doc {
    if x.status in {DocPending, DocProcessing, DocFailed} then Doc(x.kb, DocReady, x.version, None) else x
  }

  predicate IsAvailable(s: State, d: DocId) { d in s.docs && (s.docs[d].status == DocReady || s.docs[d].status == DocFailed) }

  /** What taking one pending item does, seen from that item. */
  lemma TakenItemIs(s: State, j: JobId, d: DocId)
    ensures var t, k := ClaimItem(s, j, d), Key(j, d);
            && t.jobs == s.jobs && t.chunks == s.chunks && t.items.Keys == s.items.Keys && t.docs.Keys == s.docs.Keys
            && (k in s.items && s.items[k].status == Pending ==>
                 if IsAvailable(s, d)
                 then && t.items[k] == Item(Processing, s.items[k].attempts + 1)
                      && t.docs[d] == Doc(s.docs[d].kb, DocPending, s.docs[d].version, None)
                 else t.items[k] == Item(Failed, s.items[k].attempts) && t.docs == s.docs)
            && (!(k in s.items && s.items[k].status == Pending) ==> t == s)
  {
    var t, k := ClaimItem(s, j, d), Key(j, d);
    if k in s.items && s.items[k].status == Pending {
      if IsAvailable(s, d) {
        assert t.items == s.items[k := Item(Processing, s.items[k].attempts + 1)];
        assert t.docs == s.docs[d := Doc(s.docs[d].kb, DocPending, s.docs[d].version, None)];
        hide ClaimItem;
        SameKeys(s.items, k, t.items[k]);
        SameKeys(s.docs, d, t.docs[d]);
      } else {
        assert t.items == s.items[k := Item(Failed, s.items[k].attempts)] && t.docs == s.docs;
        hide ClaimItem;
        SameKeys(s.items, k, t.items[k]);
      }
    }
  }

  lemma SameKeys<K, V>(m: map<K, V>, k: K, v: V)
    requires k in m
    ensures m[k := v].Keys == m.Keys
  {}

  lemma ResetIsLocal(s: State, t: State, j: JobId, d: DocId, maxAttempts: nat)
    requires j in s.jobs && j in t.jobs && AgreeOn(s, t, j, d)
    ensures AgreeOn(ResetStale(s, j, d, maxAttempts), ResetStale(t, j, d, maxAttempts), j, d)
  {
    hide ResetStale, Released;
    ResetItemIs(s, j, d, maxAttempts);
    ResetItemIs(t, j, d, maxAttempts);
    assert HasArrived(s, d, s.jobs[j].target) == HasArrived(t, d, t.jobs[j].target);
    hide HasArrived;
  }

  lemma ResetElsewhere(s: State, j: JobId, e: DocId, d: DocId, maxAttempts: nat)
    requires j in s.jobs && e != d
    ensures AgreeOn(ResetStale(s, j, e, maxAttempts), s, j, d)
  {}

  lemma ResetTwice(s: State, j: JobId, d: DocId, maxAttempts: nat)
    requires j in s.jobs
    ensures j in ResetStale(s, j, d, maxAttempts).jobs
    ensures ResetStale(ResetStale(s, j, d, maxAttempts), j, d, maxAttempts) == ResetStale(s, j, d, maxAttempts)
  {}

  /** However often and in whatever company, a stale item is released once. */
  lemma {:induction false} ResetAllOn(s: State, j: JobId, stale: seq<DocId>, d: DocId, maxAttempts: nat)
    requires j in s.jobs
    ensures AgreeOn(ResetAll(s, j, stale, maxAttempts), if d in stale then ResetStale(s, j, d, maxAttempts) else s, j, d)
    decreases |stale|
  {
    hide ResetStale;
    if stale != [] {
      var s1 := ResetStale(s, j, stale[0], maxAttempts);
      ResetTwice(s, j, stale[0], maxAttempts);
      ResetAllOn(s1, j, stale[1..], d, maxAttempts);
      if stale[0] != d {
        ResetElsewhere(s, j, stale[0], d, maxAttempts);
        ResetIsLocal(s1, s, j, d, maxAttempts);
      }
    }
  }

  lemma ClaimIsLocal(s: State, t: State, j: JobId, d: DocId)
    requires AgreeOn(s, t, j, d)
    ensures AgreeOn(ClaimItem(s, j, d), ClaimItem(t, j, d), j, d)
  {
    hide ClaimItem;
    TakenItemIs(s, j, d);
    TakenItemIs(t, j, d);
  }

  lemma ClaimElsewhere(s: State, j: JobId, e: DocId, d: DocId)
    requires e != d
    ensures AgreeOn(ClaimItem(s, j, e), s, j, d)
  {}

  lemma ClaimTwice(s: State, j: JobId, d: DocId)
    ensures ClaimItem(ClaimItem(s, j, d), j, d) == ClaimItem(s, j, d)
  {}

  lemma {:induction false} ClaimAllOn(s: State, j: JobId, picked: seq<DocId>, d: DocId)
    ensures AgreeOn(ClaimAll(s, j, picked), if d in picked then ClaimItem(s, j, d) else s, j, d)
    decreases |picked|
  {
    hide ClaimItem;
    if picked != [] {
      var s1 := ClaimItem(s, j, picked[0]);
      ClaimTwice(s, j, picked[0]);
      ClaimAllOn(s1, j, picked[1..], d);
      if picked[0] != d {
        ClaimElsewhere(s, j, picked[0], d);
        ClaimIsLocal(s1, s, j, d);
      }
    }
  }

  /** The item is being processed, its worker is called stale, and its document did not arrive. */
  predicate IsAbandoned(s: State, j: JobId, d: DocId, stale: seq<DocId>)
    requires j in s.jobs && Key(j, d) in s.items
  {
    s.items[Key(j, d)].status == Processing && d in stale && !HasArrived(s, d, s.jobs[j].target)
  }

  /** What claiming a batch makes of an item, for every answer of its two queries. */
  function ClaimedItem(s: State, j: JobId, d: DocId, stale: seq<DocId>, picked: seq<DocId>, maxAttempts: nat): Item
    requires j in s.jobs && Key(j, d) in s.items
  {
    var x := s.items[Key(j, d)];
    if x.status == Processing && d in stale && HasArrived(s, d, s.jobs[j].target) then Item(Completed, x.attempts)
    else if IsAbandoned(s, j, d, stale) then
      if x.attempts >= maxAttempts then Item(Failed, x.attempts)
      else if d !in picked then Item(Pending, x.attempts)
      else if d in s.docs && s.docs[d].status != DocDeleting then Item(Processing, x.attempts + 1)
      else Item(Failed, x.attempts)
    else if x.status == Pending && d in picked then
      if IsAvailable(s, d) then Item(Processing, x.attempts + 1)
      else Item(Failed, x.attempts)
    else x
  }

  /** And of the document: it waits for its run when the item is taken, and is ready again when the item is only released. */
  function ClaimedDoc(s: State, j: JobId, d: DocId, stale: seq<DocId>, picked: seq<DocId>, maxAttempts: nat): Doc
    requires j in s.jobs && Key(j, d) in s.items && d in s.docs
  {
    var x := ClaimedItem(s, j, d, stale, picked, maxAttempts);
    if x.attempts > s.items[Key(j, d)].attempts then Doc(s.docs[d].kb, DocPending, s.docs[d].version, None)
    else if IsAbandoned(s, j, d, stale) then Released(s.docs[d])
    else s.docs[d]
  }

  /** Claiming a batch: for every item of the job, whatever the two queries answer. */
  lemma ClaimedBatch(s: State, j: JobId, stale: seq<DocId>, picked: seq<DocId>, maxAttempts: nat, d: DocId)
    requires j in s.jobs && s.jobs[j].status in {Queued, Running} && |picked| <= s.jobs[j].batchSize
    requires Key(j, d) in s.items
    ensures var t := Apply(s, ClaimBatchEvent(j, stale, picked), maxAttempts);
            && t.jobs == s.jobs[j := s.jobs[j].(status := Running)]
            && Key(j, d) in t.items && t.items[Key(j, d)] == ClaimedItem(s, j, d, stale, picked, maxAttempts)
            && (d in t.docs <==> d in s.docs)
            && (d in s.docs ==> t.docs[d] == ClaimedDoc(s, j, d, stale, picked, maxAttempts))
  {
    hide ResetStale, ClaimItem, ResetAll, ClaimAll, HasArrived;
    var s1 := WithJob(s, j, Running);
    var s2 := ResetAll(s1, j, stale, maxAttempts);
    ResetAllOn(s1, j, stale, d, maxAttempts);
    ResetItemIs(s1, j, d, maxAttempts);
    assert HasArrived(s1, d, s1.jobs[j].target) == HasArrived(s, d, s.jobs[j].target) by { SameArrival(s, s1, d, s.jobs[j].target); }
    ClaimAllOn(s2, j, picked, d);
    var once := if d in stale then ResetStale(s1, j, d, maxAttempts) else s1;
    assert AgreeOn(s2, once, j, d);
    TakenItemIs(s2, j, d);
  }

  lemma SameArrival(s: State, t: State, d: DocId, v: Version)
    requires t.docs == s.docs && t.chunks == s.chunks
    ensures HasArrived(t, d, v) == HasArrived(s, d, v)
  {}

  /** A failure while embedding or persisting, and the next batch that picks the document: one more attempt. */
  lemma NextAttempt(s: State, r: RunId, stage: Stage, j: JobId, d: DocId, stale: seq<DocId>, picked: seq<DocId>, maxAttempts: nat)
    requires r in s.runs && s.runs[r].doc == d && d in s.docs && s.docs[d].status == DocProcessing
    requires j in s.jobs && Key(j, d) in s.items && s.jobs[j].status in {Queued, Running}
    requires |picked| <= s.jobs[j].batchSize && d in picked
    ensures var t := Apply(Apply(Apply(s, FailEvent(r, stage), maxAttempts), FinishItemEvent(j, d), maxAttempts),
                           ClaimBatchEvent(j, stale, picked), maxAttempts);
            var x := s.items[Key(j, d)];
            && Key(j, d) in t.items && d in t.docs
            && (if (stage == Embed || stage == Persist) && x.attempts < maxAttempts
                then t.items[Key(j, d)] == Item(Processing, x.attempts + 1) && t.docs[d].status == DocPending
                else t.items[Key(j, d)] == Item(Failed, x.attempts) && t.docs[d].status == DocFailed)
  {
    hide Apply;
    FailedAttempt(s, r, stage, j, d, maxAttempts);
    var t := Apply(Apply(s, FailEvent(r, stage), maxAttempts), FinishItemEvent(j, d), maxAttempts);
    ClaimedBatch(t, j, stale, picked, maxAttempts, d);
  }

  // ---------- pausing, resuming, cancelling ----------

  /** A paused job takes nothing and ends nothing until it is resumed; then it is queued, whatever it was. */
  lemma PausedJobWaits(s: State, j: JobId, stale: seq<DocId>, picked: seq<DocId>, maxAttempts: nat)
    requires j in s.jobs && s.jobs[j].status in {Queued, Running}
    ensures var paused := Apply(s, PauseEvent(j), maxAttempts);
            && paused == s.(jobs := s.jobs[j := s.jobs[j].(status := Paused)])
            && Apply(paused, ClaimBatchEvent(j, stale, picked), maxAttempts) == paused
            && Apply(paused, PauseEvent(j), maxAttempts) == paused
            && j in Apply(paused, RefreshEvent(j), maxAttempts).jobs
            && Apply(paused, RefreshEvent(j), maxAttempts).jobs[j].status == Paused
            && Apply(paused, ResumeEvent(j), maxAttempts) == s.(jobs := s.jobs[j := s.jobs[j].(status := Queued)])
  {
    hide Apply, ResetAll, ClaimAll, ItemsWith;
    JobTransactions(s, j, maxAttempts);
    var t := PauseJob(s, j);
    assert t.jobs == s.jobs[j := s.jobs[j].(status := Paused)];
    JobTransactions(t, j, maxAttempts);
    BatchTransaction(t, j, stale, picked, maxAttempts);
    assert t.jobs[j := t.jobs[j].(status := Queued)] == s.jobs[j := s.jobs[j].(status := Queued)];
  }

  /** A job that is not paused cannot be resumed, and one that does not wait or run cannot be paused. */
  lemma OnlyPausedResumes(s: State, j: JobId, maxAttempts: nat)
    ensures (j in s.jobs ==> s.jobs[j].status != Paused) ==> Apply(s, ResumeEvent(j), maxAttempts) == s
    ensures (j in s.jobs ==> s.jobs[j].status !in {Queued, Running}) ==> Apply(s, PauseEvent(j), maxAttempts) == s
  {}

  /** A cancelled job has no pending item left, keeps all that was done, and is over. */
  lemma CancelledJobIsOver(s: State, j: JobId, k: Key, stale: seq<DocId>, picked: seq<DocId>, maxAttempts: nat)
    requires j in s.jobs && s.jobs[j].status in {Queued, Running, Paused} && k in s.items
    ensures var t := Apply(s, CancelEvent(j), maxAttempts);
            && t.jobs == s.jobs[j := s.jobs[j].(status := JobCancelled)]
            && t.docs == s.docs && t.chunks == s.chunks && t.runs == s.runs && t.items.Keys == s.items.Keys
            && t.items[k] == (if k.job == j && s.items[k].status == Pending then Item(Cancelled, s.items[k].attempts) else s.items[k])
            && Apply(t, ClaimBatchEvent(j, stale, picked), maxAttempts) == t
            && Apply(t, CancelEvent(j), maxAttempts) == t
            && Apply(t, ResumeEvent(j), maxAttempts) == t && Apply(t, PauseEvent(j), maxAttempts) == t
  {
    hide Apply, ResetAll, ClaimAll;
    JobTransactions(s, j, maxAttempts);
    var t := CancelJob(s, j);
    assert t.jobs == s.jobs[j := s.jobs[j].(status := JobCancelled)];
    JobTransactions(t, j, maxAttempts);
    BatchTransaction(t, j, stale, picked, maxAttempts);
  }

  /** The counters after a refresh are the numbers of completed and of failed items, and a running job ends when no item
      is pending or processing: as failed if one failed, as completed otherwise. */
  lemma RefreshedJob(s: State, j: JobId, maxAttempts: nat)
    requires j in s.jobs
    ensures var t := Apply(s, RefreshEvent(j), maxAttempts);
            var open := exists k <- s.items :: k.job == j && (s.items[k].status == Pending || s.items[k].status == Processing);
            var failed := exists k <- s.items :: k.job == j && s.items[k].status == Failed;
            && t == s.(jobs := s.jobs[j := t.jobs[j]])
            && t.jobs[j] == s.jobs[j].(
                 completed := |set k <- s.items | k.job == j && s.items[k].status == Completed|,
                 failed := |set k <- s.items | k.job == j && s.items[k].status == Failed|,
                 status := if s.jobs[j].status != Running || open then s.jobs[j].status
                           else if failed then JobFailed else JobCompleted)
  {
    var failures := ItemsWith(s, j, Failed);
    assert failures == set k <- s.items | k.job == j && s.items[k].status == Failed;
    assert ItemsWith(s, j, Completed) == set k <- s.items | k.job == j && s.items[k].status == Completed;
    if k :| k in s.items && k.job == j && s.items[k].status == Failed {
      assert k in failures;
      HasElement(failures, k);
    } else {
      assert failures == {};
    }
    OpenItemsAre(s, j);
  }

  lemma OpenItemsAre(s: State, j: JobId)
    ensures ItemsWith(s, j, Pending) == {} && ItemsWith(s, j, Processing) == {} <==>
              !exists k <- s.items :: k.job == j && (s.items[k].status == Pending || s.items[k].status == Processing)
  {
    if k :| k in s.items && k.job == j && (s.items[k].status == Pending || s.items[k].status == Processing) {
      assert k in ItemsWith(s, j, s.items[k].status);
    } else {
      assert ItemsWith(s, j, Pending) == {} && ItemsWith(s, j, Processing) == {};
    }
  }

  lemma HasElement<T>(a: set<T>, x: T)
    requires x in a
    ensures |a| > 0
  {
    assert a == (a - {x}) + {x};
  }

  // ---------- documents that come and go ----------

  lemma AdditionTransaction(s: State, d: DocId, kb: KbId, maxAttempts: nat)
    ensures Apply(s, AddDocumentEvent(d, kb), maxAttempts) == AddDocument(s, d, kb)
    ensures Apply(s, PurgeEvent(d), maxAttempts) == PurgeDocument(s, d)
  {
    hide AddDocument, PurgeDocument;
  }

  /** A new document waits for its first run in its Knowledge Base; an id that is taken changes nothing. */
  lemma AddedDocument(s: State, d: DocId, kb: KbId, maxAttempts: nat)
    ensures Apply(s, AddDocumentEvent(d, kb), maxAttempts) ==
              if d in s.docs then s else s.(docs := s.docs[d := Doc(kb, DocPending, None, None)])
  {
    hide Apply;
    AdditionTransaction(s, d, kb, maxAttempts);
  }

  lemma {:induction false} NoRowsWithout(chunks: seq<Row>, d: DocId, row: Row)
    ensures row in Without(chunks, d) <==> row in chunks && row.doc != d
  {
    if chunks != [] { NoRowsWithout(chunks[1..], d, row); }
  }

  function GenerationOf(s: State, kb: KbId): nat { if kb in s.generation then s.generation[kb] else 0 }

  /** Deleting and then purging a document leaves no row, no chunk and no item of it, and nothing else changes but the
      generation of its Knowledge Base, which moves twice. */
  lemma DeletedAndPurged(s: State, d: DocId, maxAttempts: nat, row: Row, k: Key)
    requires d in s.docs && s.docs[d].status != DocDeleting
    ensures var deleted := Apply(s, DeleteEvent(d), maxAttempts);
            var t := Apply(deleted, PurgeEvent(d), maxAttempts);
            && deleted.docs == s.docs[d := Doc(s.docs[d].kb, DocDeleting, s.docs[d].version, None)]
            && deleted.chunks == s.chunks && deleted.items == s.items && deleted.jobs == s.jobs
            && GenerationOf(deleted, s.docs[d].kb) == GenerationOf(s, s.docs[d].kb) + 1
            && t.docs == s.docs - {d}
            && (row in t.chunks <==> row in s.chunks && row.doc != d)
            && (k in t.items <==> k in s.items && k.doc != d) && (k in t.items ==> t.items[k] == s.items[k])
            && t.jobs == s.jobs && t.runs == s.runs
            && GenerationOf(t, s.docs[d].kb) == GenerationOf(s, s.docs[d].kb) + 2
  {
    hide Apply, Without;
    DocumentTransactions(s, d, 0, Claim, maxAttempts);
    var deleted := DeleteDocument(s, d);
    AdditionTransaction(deleted, d, 0, maxAttempts);
    NoRowsWithout(s.chunks, d, row);
  }
}
