/** What every transaction of the ingestion and re-index protocol keeps, and what follows for whole runs. */
module LifecycleSafety {
  import opened Arithmetic
  import opened Wrappers
  import opened Lifecycle

  // ---------- the invariant ----------

  predicate OneActiveJob(s: State) {
    forall i, j :: i in s.jobs && j in s.jobs && Active(s.jobs[i]) && Active(s.jobs[j]) ==> i == j
  }

  /** A document has no rows, or exactly the rows that one run published, of the version it records;
      a ready document has rows. */
  predicate DocHolds(s: State, d: DocId)
    requires d in s.docs
  {
    var rows := RowsOf(s.chunks, d);
    && (rows != [] ==>
         && rows[0].run in s.published && s.published[rows[0].run] == rows
         && s.docs[d].version.Some? && IsBatch(rows, d, rows[0].run, s.docs[d].version.value))
    && (s.docs[d].status == DocReady ==> rows != [])
  }

  /** What a completed item of an active job promises about its document. */
  predicate Achieved(s: State, d: DocId, target: Version) {
    && d in s.docs
    && (s.docs[d].status == DocDeleting || (s.docs[d].status == DocReady && s.docs[d].version == Some(target)))
  }

  predicate ItemHolds(s: State, k: Key, maxAttempts: nat)
    requires k in s.items
  {
    var item := s.items[k];
    && k.job in s.jobs && k.doc in s.docs && RowsOf(s.chunks, k.doc) != []
    && item.attempts <= maxAttempts && (item.status == Pending ==> item.attempts < maxAttempts)
    && (Active(s.jobs[k.job]) ==>
         && item.status != Cancelled
         && (item.status == Completed ==> Achieved(s, k.doc, s.jobs[k.job].target)))
  }

  function ItemsOf(s: State, j: JobId): set<Key> { set k <- s.items | k.job == j }

  predicate JobHolds(s: State, j: JobId)
    requires j in s.jobs
  {
    |ItemsOf(s, j)| <= s.jobs[j].total && s.jobs[j].completed + s.jobs[j].failed <= s.jobs[j].total
  }

  predicate Inv(s: State, maxAttempts: nat) {
    && OneActiveJob(s)
    && (forall d <- s.docs :: DocHolds(s, d))
    && (forall k <- s.items :: ItemHolds(s, k, maxAttempts))
    && (forall j <- s.jobs :: JobHolds(s, j))
    && (forall row <- s.chunks :: row.doc in s.docs)
    && (forall r <- s.runs :: r !in s.published)
  }

  // ---------- rows ----------

  lemma RowsOfStep(row: Row, rest: seq<Row>, d: DocId)
    ensures RowsOf([row] + rest, d) == (if row.doc == d then [row] else []) + RowsOf(rest, d)
  {
    assert ([row] + rest)[1..] == rest;
  }

  lemma {:induction false} RowsOfConcat(a: seq<Row>, b: seq<Row>, d: DocId)
    ensures RowsOf(a + b, d) == RowsOf(a, d) + RowsOf(b, d)
  {
    if a == [] {
      assert a + b == b;
    } else {
      hide RowsOf;
      var first, rest := a[0], a[1..];
      assert a == [first] + rest && a + b == [first] + (rest + b);
      RowsOfStep(first, rest, d);
      RowsOfStep(first, rest + b, d);
      RowsOfConcat(rest, b, d);
    }
  }

  lemma {:induction false} RowsOfWithout(chunks: seq<Row>, d: DocId, e: DocId)
    ensures RowsOf(Without(chunks, d), e) == if d == e then [] else RowsOf(chunks, e)
    ensures forall row <- Without(chunks, d) :: row in chunks && row.doc != d
  {
    if chunks != [] {
      RowsOfWithout(chunks[1..], d, e);
      RowsOfConcat(if chunks[0].doc == d then [] else [chunks[0]], Without(chunks[1..], d), e);
    }
  }

  lemma {:induction false} RowsOfOneDocument(rows: seq<Row>, d: DocId, e: DocId)
    requires forall row <- rows :: row.doc == d
    ensures RowsOf(rows, e) == if d == e then rows else []
  {
    if rows != [] { RowsOfOneDocument(rows[1..], d, e); }
  }

  lemma {:induction false} RowsOfMembers(chunks: seq<Row>, d: DocId, row: Row)
    ensures row in RowsOf(chunks, d) <==> row in chunks && row.doc == d
  {
    if chunks != [] { RowsOfMembers(chunks[1..], d, row); }
  }

  /** Replacing the chunks of one document gives it exactly the new rows and leaves all others alone. */
  lemma ReplacedRows(chunks: seq<Row>, d: DocId, rows: seq<Row>, e: DocId)
    requires forall row <- rows :: row.doc == d
    ensures RowsOf(Replaced(chunks, d, rows), e) == if d == e then rows else RowsOf(chunks, e)
  {
    RowsOfWithout(chunks, d, e);
    RowsOfConcat(Without(chunks, d), rows, e);
    RowsOfOneDocument(rows, d, e);
  }

  /** A ready document with a child of some version is a document of that version. */
  lemma ChildTellsVersion(s: State, d: DocId, v: Version)
    requires d in s.docs && DocHolds(s, d) && HasChild(s.chunks, d, v)
    ensures RowsOf(s.chunks, d) != [] && s.docs[d].version == Some(v)
  {
    var row :| row in s.chunks && row.doc == d && row.level == ChildRow && row.version == v;
    RowsOfMembers(s.chunks, d, row);
  }

  // ---------- updates of one document or one item ----------

  lemma SetDoc(s: State, d: DocId, status: DocStatus, error: Option<Stage>, maxAttempts: nat)
    requires Inv(s, maxAttempts) && d in s.docs
    requires status == DocReady ==> RowsOf(s.chunks, d) != []
    requires forall k <- s.items :: k.doc == d && k.job in s.jobs && Active(s.jobs[k.job]) && s.items[k].status == Completed ==>
               status == DocDeleting || (status == DocReady && s.docs[d].version == Some(s.jobs[k.job].target))
    ensures Inv(WithDoc(s, d, status, error), maxAttempts)
  {
    hide RowsOf, IsBatch;
    var s' := WithDoc(s, d, status, error);
    forall e | e in s'.docs ensures DocHolds(s', e) { assert DocHolds(s, e); }
    forall k | k in s'.items ensures ItemHolds(s', k, maxAttempts) { assert ItemHolds(s, k, maxAttempts); }
    forall j | j in s'.jobs ensures JobHolds(s', j) {
      assert JobHolds(s, j);
      assert ItemsOf(s', j) == ItemsOf(s, j);
    }
  }

  /** A document that is neither ready nor being deleted is not the document of a completed item. */
  lemma NotAchieved(s: State, d: DocId, maxAttempts: nat)
    requires Inv(s, maxAttempts) && d in s.docs && s.docs[d].status in {DocPending, DocProcessing, DocFailed}
    ensures forall k <- s.items :: k.doc == d && k.job in s.jobs && Active(s.jobs[k.job]) ==> s.items[k].status != Completed
  {
    hide RowsOf, IsBatch, DocHolds, JobHolds;
    forall k | k in s.items && k.doc == d && Active(s.jobs[k.job]) ensures s.items[k].status != Completed {
      assert ItemHolds(s, k, maxAttempts);
    }
  }

  lemma SetItem(s: State, k: Key, item: Item, maxAttempts: nat)
    requires Inv(s, maxAttempts) && k in s.items
    requires item.attempts <= maxAttempts && (item.status == Pending ==> item.attempts < maxAttempts)
    requires k.job in s.jobs && Active(s.jobs[k.job]) ==>
               item.status != Cancelled && (item.status == Completed ==> Achieved(s, k.doc, s.jobs[k.job].target))
    ensures Inv(s.(items := s.items[k := item]), maxAttempts)
  {
    hide RowsOf, IsBatch;
    var s' := s.(items := s.items[k := item]);
    forall e | e in s'.docs ensures DocHolds(s', e) { assert DocHolds(s, e); }
    forall i | i in s'.items ensures ItemHolds(s', i, maxAttempts) { assert ItemHolds(s, i, maxAttempts); }
    forall j | j in s'.jobs ensures JobHolds(s', j) {
      assert JobHolds(s, j);
      assert ItemsOf(s', j) == ItemsOf(s, j);
    }
  }

  // ---------- ingestion runs ----------

  lemma RunsKeep(s: State, runs: map<RunId, Run>, maxAttempts: nat)
    requires Inv(s, maxAttempts) && forall r <- runs :: r !in s.published
    ensures Inv(s.(runs := runs), maxAttempts)
  {
    hide RowsOf, IsBatch;
    var s' := s.(runs := runs);
    forall e | e in s'.docs ensures DocHolds(s', e) { assert DocHolds(s, e); }
    forall i | i in s'.items ensures ItemHolds(s', i, maxAttempts) { assert ItemHolds(s, i, maxAttempts); }
    forall j | j in s'.jobs ensures JobHolds(s', j) {
      assert JobHolds(s, j);
      assert ItemsOf(s', j) == ItemsOf(s, j);
    }
  }

  lemma ClaimDocumentKeeps(s: State, r: RunId, d: DocId, target: Version, stale: bool, maxAttempts: nat)
    requires Inv(s, maxAttempts)
    ensures Inv(ClaimDocument(s, r, d, target, stale), maxAttempts)
  {
    hide Inv, RowsOf;
    if r !in s.runs && r !in s.published && CanClaim(s, d, stale) {
      NotAchieved(s, d, maxAttempts);
      SetDoc(s, d, DocProcessing, None, maxAttempts);
      var s1 := WithDoc(s, d, DocProcessing, None);
      RunsUnpublished(s, maxAttempts);
      RunsKeep(s1, s1.runs[r := Run(d, target)], maxAttempts);
    }
  }

  lemma RunsUnpublished(s: State, maxAttempts: nat)
    requires Inv(s, maxAttempts)
    ensures forall r <- s.runs :: r !in s.published
  {}

  lemma PublishKeeps(s: State, r: RunId, rows: seq<Row>, maxAttempts: nat)
    requires Inv(s, maxAttempts)
    ensures Inv(Publish(s, r, rows), maxAttempts)
  {
    if r in s.runs && IsBatch(rows, s.runs[r].doc, r, s.runs[r].target) {
      var d := s.runs[r].doc;
      RunsKeep(s, s.runs - {r}, maxAttempts);
      if d in s.docs && s.docs[d].status == DocProcessing {
        PublishingKeeps(s, r, rows, maxAttempts);
      }
    }
  }

  lemma PublishingKeeps(s: State, r: RunId, rows: seq<Row>, maxAttempts: nat)
    requires Inv(s, maxAttempts) && r in s.runs && IsBatch(rows, s.runs[r].doc, r, s.runs[r].target)
    requires s.runs[r].doc in s.docs && s.docs[s.runs[r].doc].status == DocProcessing
    ensures Inv(Publish(s, r, rows), maxAttempts)
  {
    hide RowsOf, DistinctIds, IsBatch, DocHolds, ItemHolds, JobHolds, Replaced;
    var d, s' := s.runs[r].doc, Publish(s, r, rows);
    forall e | e in s'.docs ensures DocHolds(s', e) { PublishedDocHolds(s, r, rows, e, maxAttempts); }
    forall k | k in s'.items ensures ItemHolds(s', k, maxAttempts) { PublishedItemHolds(s, r, rows, k, maxAttempts); }
    forall j | j in s'.jobs ensures JobHolds(s', j) {
      assert JobHolds(s, j);
      SameItemsSameJob(s, s', j);
    }
    BatchIsNotEmpty(rows, d, r, s.runs[r].target);
    forall row | row in s'.chunks ensures row.doc in s'.docs { PublishedMembers(s, d, rows, row); }
  }

  lemma SameItemsSameJob(s: State, s': State, j: JobId)
    requires j in s.jobs && s'.jobs == s.jobs && s'.items == s.items && JobHolds(s, j)
    ensures JobHolds(s', j)
  {
    assert ItemsOf(s', j) == ItemsOf(s, j);
  }

  lemma PublishedMembers(s: State, d: DocId, rows: seq<Row>, row: Row)
    requires row in Replaced(s.chunks, d, rows)
    ensures row in s.chunks || row in rows
  {
    RowsOfWithout(s.chunks, d, d);
  }

  lemma PublishedItemHolds(s: State, r: RunId, rows: seq<Row>, k: Key, maxAttempts: nat)
    requires Inv(s, maxAttempts) && r in s.runs && IsBatch(rows, s.runs[r].doc, r, s.runs[r].target)
    requires s.runs[r].doc in s.docs && s.docs[s.runs[r].doc].status == DocProcessing && k in s.items
    ensures ItemHolds(Publish(s, r, rows), k, maxAttempts)
  {
    BatchIsNotEmpty(rows, s.runs[r].doc, r, s.runs[r].target);
    NotAchieved(s, s.runs[r].doc, maxAttempts);
    hide RowsOf, DistinctIds, DocHolds, JobHolds, Replaced;
    PublishedRows(s, s.runs[r].doc, rows, k.doc);
    assert ItemHolds(s, k, maxAttempts);
  }

  lemma BatchIsNotEmpty(rows: seq<Row>, d: DocId, r: RunId, v: Version)
    requires IsBatch(rows, d, r, v)
    ensures rows != [] && forall row <- rows :: row.doc == d
  {}

  lemma PublishedDocHolds(s: State, r: RunId, rows: seq<Row>, e: DocId, maxAttempts: nat)
    requires Inv(s, maxAttempts) && r in s.runs && IsBatch(rows, s.runs[r].doc, r, s.runs[r].target)
    requires s.runs[r].doc in s.docs && s.docs[s.runs[r].doc].status == DocProcessing && e in s.docs
    ensures DocHolds(Publish(s, r, rows), e)
  {
    hide RowsOf, Without, DistinctIds;
    PublishedRows(s, s.runs[r].doc, rows, e);
    assert DocHolds(s, e);
  }

  lemma PublishedRows(s: State, d: DocId, rows: seq<Row>, e: DocId)
    requires rows != [] && forall row <- rows :: row.doc == d
    ensures RowsOf(Replaced(s.chunks, d, rows), e) == if d == e then rows else RowsOf(s.chunks, e)
  {
    ReplacedRows(s.chunks, d, rows, e);
  }

  lemma FailRunKeeps(s: State, r: RunId, stage: Stage, maxAttempts: nat)
    requires Inv(s, maxAttempts)
    ensures Inv(FailRun(s, r, stage), maxAttempts)
  {
    hide Inv, RowsOf;
    if r in s.runs {
      var d := s.runs[r].doc;
      var ended := s.(runs := s.runs - {r});
      RunsUnpublished(s, maxAttempts);
      RunsKeep(s, s.runs - {r}, maxAttempts);
      if d in s.docs && s.docs[d].status == DocProcessing {
        NotAchieved(ended, d, maxAttempts);
        SetDoc(ended, d, DocFailed, Some(stage), maxAttempts);
      }
    }
  }

  // ---------- administrators: documents ----------

  lemma GenerationKeeps(s: State, generation: map<KbId, nat>, maxAttempts: nat)
    requires Inv(s, maxAttempts)
    ensures Inv(s.(generation := generation), maxAttempts)
  {
    hide RowsOf, IsBatch;
    var s' := s.(generation := generation);
    forall e | e in s'.docs ensures DocHolds(s', e) { assert DocHolds(s, e); }
    forall i | i in s'.items ensures ItemHolds(s', i, maxAttempts) { assert ItemHolds(s, i, maxAttempts); }
    forall j | j in s'.jobs ensures JobHolds(s', j) {
      assert JobHolds(s, j);
      assert ItemsOf(s', j) == ItemsOf(s, j);
    }
  }

  lemma AddDocumentKeeps(s: State, d: DocId, kb: KbId, maxAttempts: nat)
    requires Inv(s, maxAttempts)
    ensures Inv(AddDocument(s, d, kb), maxAttempts)
  {
    hide RowsOf, IsBatch;
    if d !in s.docs {
      var s' := AddDocument(s, d, kb);
      NoRowsOfNoDocument(s.chunks, d);
      forall e | e in s'.docs ensures DocHolds(s', e) {
        if e != d { assert DocHolds(s, e); }
      }
      forall k | k in s'.items ensures ItemHolds(s', k, maxAttempts) { assert ItemHolds(s, k, maxAttempts); }
      forall j | j in s'.jobs ensures JobHolds(s', j) {
        assert JobHolds(s, j);
        assert ItemsOf(s', j) == ItemsOf(s, j);
      }
    }
  }

  lemma {:induction false} NoRowsOfNoDocument(chunks: seq<Row>, d: DocId)
    ensures (forall row <- chunks :: row.doc != d) ==> RowsOf(chunks, d) == []
  {
    if RowsOf(chunks, d) != [] { RowsOfMembers(chunks, d, RowsOf(chunks, d)[0]); }
  }

  lemma RetryKeeps(s: State, d: DocId, maxAttempts: nat)
    requires Inv(s, maxAttempts)
    ensures Inv(RetryDocument(s, d), maxAttempts)
  {
    hide Inv, RowsOf;
    if d in s.docs && s.docs[d].status == DocFailed {
      NotAchieved(s, d, maxAttempts);
      SetDoc(s, d, DocPending, None, maxAttempts);
    }
  }

  lemma DeleteKeeps(s: State, d: DocId, maxAttempts: nat)
    requires Inv(s, maxAttempts)
    ensures Inv(DeleteDocument(s, d), maxAttempts)
  {
    hide Inv, RowsOf;
    if d in s.docs && s.docs[d].status != DocDeleting {
      SetDoc(s, d, DocDeleting, None, maxAttempts);
      GenerationKeeps(WithDoc(s, d, DocDeleting, None), Bumped(s.generation, s.docs[d].kb), maxAttempts);
    }
  }

  lemma PurgeKeeps(s: State, d: DocId, maxAttempts: nat)
    requires Inv(s, maxAttempts)
    ensures Inv(PurgeDocument(s, d), maxAttempts)
  {
    hide RowsOf, Without, IsBatch;
    if d in s.docs && s.docs[d].status == DocDeleting {
      var s' := PurgeDocument(s, d);
      RowsOfWithout(s.chunks, d, d);
      forall e | e in s'.docs ensures DocHolds(s', e) {
        RowsOfWithout(s.chunks, d, e);
        assert DocHolds(s, e);
      }
      forall k | k in s'.items ensures ItemHolds(s', k, maxAttempts) {
        RowsOfWithout(s.chunks, d, k.doc);
        assert ItemHolds(s, k, maxAttempts);
      }
      forall j | j in s'.jobs ensures JobHolds(s', j) {
        assert JobHolds(s, j);
        assert ItemsOf(s', j) <= ItemsOf(s, j);
        SmallerSet(ItemsOf(s', j), ItemsOf(s, j));
      }
    }
  }

  lemma AnElement<T>(a: set<T>) returns (x: T)
    requires a != {}
    ensures x in a
  {
    x :| x in a;
  }

  // ---------- administrators: jobs ----------

  lemma {:induction false} KeysForSize(j: JobId, docs: set<DocId>)
    ensures |KeysFor(j, docs)| == |docs|
  {
    if docs != {} {
      var d := AnElement(docs);
      KeysForSize(j, docs - {d});
      assert KeysFor(j, docs) == KeysFor(j, docs - {d}) + {Key(j, d)};
    }
  }

  lemma AddJobKeeps(s: State, j: JobId, target: Version, batchSize: nat, docs: set<DocId>, maxAttempts: nat)
    requires Inv(s, maxAttempts) && maxAttempts > 0
    requires forall d <- docs :: d in s.docs && RowsOf(s.chunks, d) != []
    ensures Inv(AddJob(s, j, target, batchSize, docs), maxAttempts)
  {
    hide RowsOf, IsBatch;
    var s' := AddJob(s, j, target, batchSize, docs);
    if s' != s {
      KeysForSize(j, docs);
      forall e | e in s'.docs ensures DocHolds(s', e) { assert DocHolds(s, e); }
      forall k | k in s'.items ensures ItemHolds(s', k, maxAttempts) {
        if k.job != j { assert ItemHolds(s, k, maxAttempts); }
      }
      forall i | i in s'.jobs ensures JobHolds(s', i) {
        if i == j {
          assert ItemsOf(s', j) == KeysFor(j, docs) by {
            forall k | k in s.items ensures k.job != j { assert ItemHolds(s, k, maxAttempts); }
          }
        } else {
          assert JobHolds(s, i);
          assert ItemsOf(s', i) == ItemsOf(s, i);
        }
      }
    }
  }

  lemma CreateJobKeeps(s: State, j: JobId, target: Version, batchSize: nat, docs: set<DocId>, maxAttempts: nat)
    requires Inv(s, maxAttempts) && maxAttempts > 0
    ensures Inv(CreateJob(s, j, target, batchSize, docs), maxAttempts)
  {
    hide Inv, RowsOf, AddJob;
    if forall d <- docs :: Eligible(s, d, target) {
      forall d | d in docs ensures d in s.docs && RowsOf(s.chunks, d) != [] {
        var row :| row in s.chunks && row.doc == d;
        RowsOfMembers(s.chunks, d, row);
      }
      AddJobKeeps(s, j, target, batchSize, docs, maxAttempts);
    }
  }

  lemma RollbackKeeps(s: State, source: JobId, j: JobId, batchSize: nat, maxAttempts: nat)
    requires Inv(s, maxAttempts) && maxAttempts > 0
    ensures Inv(RollbackJob(s, source, j, batchSize), maxAttempts)
  {
    hide RowsOf, AddJob;
    var docs := set d <- s.docs | RolledBack(s, source, d);
    forall d | d in docs ensures RowsOf(s.chunks, d) != [] { assert DocHolds(s, d); }
    AddJobKeeps(s, j, Legacy, batchSize, docs, maxAttempts);
  }

  /** Moving a job among the active statuses. */
  lemma SetActive(s: State, j: JobId, status: JobStatus, maxAttempts: nat)
    requires Inv(s, maxAttempts) && j in s.jobs && Active(s.jobs[j]) && status in {Queued, Running, Paused}
    ensures Inv(WithJob(s, j, status), maxAttempts)
  {
    hide RowsOf, IsBatch;
    var s' := WithJob(s, j, status);
    forall e | e in s'.docs ensures DocHolds(s', e) { assert DocHolds(s, e); }
    forall k | k in s'.items ensures ItemHolds(s', k, maxAttempts) { assert ItemHolds(s, k, maxAttempts); }
    forall i | i in s'.jobs ensures JobHolds(s', i) {
      assert JobHolds(s, i);
      assert ItemsOf(s', i) == ItemsOf(s, i);
    }
  }

  lemma CancelKeeps(s: State, j: JobId, maxAttempts: nat)
    requires Inv(s, maxAttempts)
    ensures Inv(CancelJob(s, j), maxAttempts)
  {
    hide RowsOf, IsBatch;
    if j in s.jobs && Active(s.jobs[j]) {
      var s' := CancelJob(s, j);
      forall e | e in s'.docs ensures DocHolds(s', e) { assert DocHolds(s, e); }
      forall k | k in s'.items ensures ItemHolds(s', k, maxAttempts) { assert ItemHolds(s, k, maxAttempts); }
      forall i | i in s'.jobs ensures JobHolds(s', i) {
        assert JobHolds(s, i);
        assert ItemsOf(s', i) == ItemsOf(s, i);
      }
    }
  }

  // ---------- re-index workers ----------

  lemma ResetStaleKeeps(s: State, j: JobId, d: DocId, maxAttempts: nat)
    requires Inv(s, maxAttempts) && j in s.jobs
    ensures Inv(ResetStale(s, j, d, maxAttempts), maxAttempts)
  {
    hide RowsOf, IsBatch, HasChild, Inv;
    var k := Key(j, d);
    if k in s.items && s.items[k].status == Processing {
      ItemFacts(s, k, maxAttempts);
      if s.docs[d].status == DocReady && HasChild(s.chunks, d, s.jobs[j].target) {
        ChildTellsVersion(s, d, s.jobs[j].target);
        SetItem(s, k, s.items[k].(status := Completed), maxAttempts);
      } else {
        var status := if s.items[k].attempts >= maxAttempts then Failed else Pending;
        if s.docs[d].status in {DocPending, DocProcessing, DocFailed} {
          NotAchieved(s, d, maxAttempts);
          SetDoc(s, d, DocReady, None, maxAttempts);
          SetItem(WithDoc(s, d, DocReady, None), k, s.items[k].(status := status), maxAttempts);
        } else {
          SetItem(s, k, s.items[k].(status := status), maxAttempts);
        }
      }
    }
  }

  lemma ItemFacts(s: State, k: Key, maxAttempts: nat)
    requires Inv(s, maxAttempts) && k in s.items
    ensures ItemHolds(s, k, maxAttempts) && DocHolds(s, k.doc)
  {}

  lemma ClaimItemKeeps(s: State, j: JobId, d: DocId, maxAttempts: nat)
    requires Inv(s, maxAttempts) && j in s.jobs && Active(s.jobs[j])
    ensures Inv(ClaimItem(s, j, d), maxAttempts)
  {
    hide RowsOf, IsBatch, Inv;
    var k := Key(j, d);
    if k in s.items && s.items[k].status == Pending {
      ItemFacts(s, k, maxAttempts);
      if s.docs[d].status !in {DocReady, DocFailed} {
        SetItem(s, k, s.items[k].(status := Failed), maxAttempts);
      } else {
        OnlyItemOf(s, j, d, maxAttempts);
        SetDoc(s, d, DocPending, None, maxAttempts);
        SetItem(WithDoc(s, d, DocPending, None), k, Item(Processing, s.items[k].attempts + 1), maxAttempts);
      }
    }
  }

  /** The one active job has one item for a document; while it is pending, none is completed. */
  lemma OnlyItemOf(s: State, j: JobId, d: DocId, maxAttempts: nat)
    requires Inv(s, maxAttempts) && j in s.jobs && Active(s.jobs[j])
    requires Key(j, d) in s.items && s.items[Key(j, d)].status == Pending
    ensures forall k <- s.items :: k.doc == d && k.job in s.jobs && Active(s.jobs[k.job]) ==> s.items[k].status != Completed
  {
    hide DocHolds, ItemHolds, JobHolds;
    forall k | k in s.items && k.doc == d && k.job in s.jobs && Active(s.jobs[k.job]) ensures k == Key(j, d) {}
  }

  lemma {:induction false} ResetAllKeeps(s: State, j: JobId, stale: seq<DocId>, maxAttempts: nat)
    requires Inv(s, maxAttempts) && j in s.jobs
    ensures Inv(ResetAll(s, j, stale, maxAttempts), maxAttempts)
    decreases |stale|
  {
    hide Inv;
    if stale != [] {
      ResetStaleKeeps(s, j, stale[0], maxAttempts);
      ResetAllKeeps(ResetStale(s, j, stale[0], maxAttempts), j, stale[1..], maxAttempts);
    }
  }

  lemma {:induction false} ClaimAllKeeps(s: State, j: JobId, picked: seq<DocId>, maxAttempts: nat)
    requires Inv(s, maxAttempts) && j in s.jobs && Active(s.jobs[j])
    ensures Inv(ClaimAll(s, j, picked), maxAttempts)
    decreases |picked|
  {
    hide Inv;
    if picked != [] {
      ClaimItemKeeps(s, j, picked[0], maxAttempts);
      ClaimAllKeeps(ClaimItem(s, j, picked[0]), j, picked[1..], maxAttempts);
    }
  }

  lemma ClaimBatchKeeps(s: State, j: JobId, stale: seq<DocId>, picked: seq<DocId>, maxAttempts: nat)
    requires Inv(s, maxAttempts)
    ensures Inv(ClaimBatch(s, j, stale, picked, maxAttempts), maxAttempts)
  {
    hide Inv, ResetAll, ClaimAll;
    if j in s.jobs && s.jobs[j].status in {Queued, Running} {
      SetActive(s, j, Running, maxAttempts);
      ResetAllKeeps(WithJob(s, j, Running), j, stale, maxAttempts);
      ClaimAllKeeps(ResetAll(WithJob(s, j, Running), j, stale, maxAttempts), j, picked, maxAttempts);
    }
  }

  lemma FinishItemKeeps(s: State, j: JobId, d: DocId, maxAttempts: nat)
    requires Inv(s, maxAttempts)
    ensures Inv(FinishItem(s, j, d, maxAttempts), maxAttempts)
  {
    hide RowsOf, IsBatch, HasChild, Inv;
    var k := Key(j, d);
    if j in s.jobs && k in s.items {
      ItemFacts(s, k, maxAttempts);
      if s.docs[d].status == DocReady && HasChild(s.chunks, d, s.jobs[j].target) {
        ChildTellsVersion(s, d, s.jobs[j].target);
        SetItem(s, k, s.items[k].(status := Completed), maxAttempts);
      } else if Retryable(s.docs[d], s.items[k].attempts, maxAttempts) {
        SetItem(s, k, s.items[k].(status := Pending), maxAttempts);
      } else {
        SetItem(s, k, s.items[k].(status := Failed), maxAttempts);
      }
    }
  }

  lemma CountsWithin(s: State, j: JobId)
    ensures |ItemsWith(s, j, Completed)| + |ItemsWith(s, j, Failed)| <= |ItemsOf(s, j)|
  {
    var done, failed := ItemsWith(s, j, Completed), ItemsWith(s, j, Failed);
    assert done * failed == {} && done + failed <= ItemsOf(s, j);
    assert |done + failed| == |done| + |failed|;
    SmallerSet(done + failed, ItemsOf(s, j));
  }

  lemma RefreshKeeps(s: State, j: JobId, maxAttempts: nat)
    requires Inv(s, maxAttempts)
    ensures Inv(RefreshJob(s, j), maxAttempts)
  {
    hide RowsOf, IsBatch;
    if j in s.jobs {
      var s' := RefreshJob(s, j);
      forall e | e in s'.docs ensures DocHolds(s', e) { assert DocHolds(s, e); }
      forall k | k in s'.items ensures ItemHolds(s', k, maxAttempts) { assert ItemHolds(s, k, maxAttempts); }
      CountsWithin(s, j);
      forall i | i in s'.jobs ensures JobHolds(s', i) {
        assert JobHolds(s, i);
        assert ItemsOf(s', i) == ItemsOf(s, i);
      }
    }
  }

  // ---------- every transaction, every run ----------

  /** Every transaction keeps the invariant. */
  lemma ApplyKeeps(s: State, e: Event, maxAttempts: nat)
    requires Inv(s, maxAttempts) && maxAttempts > 0
    ensures Inv(Apply(s, e, maxAttempts), maxAttempts)
  {
    hide Inv, ClaimBatch, FinishItem, RefreshJob, Publish, AddJob, PurgeDocument, CancelJob, RollbackJob, CreateJob;
    match e
    case ClaimDocumentEvent(r, d, v, stale) => ClaimDocumentKeeps(s, r, d, v, stale, maxAttempts);
    case PublishEvent(r, rows) => PublishKeeps(s, r, rows, maxAttempts);
    case FailEvent(r, stage) => FailRunKeeps(s, r, stage, maxAttempts);
    case AddDocumentEvent(d, kb) => AddDocumentKeeps(s, d, kb, maxAttempts);
    case RetryEvent(d) => RetryKeeps(s, d, maxAttempts);
    case DeleteEvent(d) => DeleteKeeps(s, d, maxAttempts);
    case PurgeEvent(d) => PurgeKeeps(s, d, maxAttempts);
    case CreateJobEvent(j, v, n, docs) => CreateJobKeeps(s, j, v, n, docs, maxAttempts);
    case RollbackEvent(source, j, n) => RollbackKeeps(s, source, j, n, maxAttempts);
    case PauseEvent(j) => if j in s.jobs && s.jobs[j].status in {Queued, Running} { SetActive(s, j, Paused, maxAttempts); }
    case ResumeEvent(j) => if j in s.jobs && s.jobs[j].status == Paused { SetActive(s, j, Queued, maxAttempts); }
    case CancelEvent(j) => CancelKeeps(s, j, maxAttempts);
    case ClaimBatchEvent(j, stale, picked) => ClaimBatchKeeps(s, j, stale, picked, maxAttempts);
    case FinishItemEvent(j, d) => FinishItemKeeps(s, j, d, maxAttempts);
    case RefreshEvent(j) => RefreshKeeps(s, j, maxAttempts);
  }

  /** The invariant holds after every sequence of transactions. */
  lemma {:induction false} AlwaysInv(events: seq<Event>, maxAttempts: nat)
    requires maxAttempts > 0
    ensures Inv(After(events, maxAttempts), maxAttempts)
    decreases |events|
  {
    hide Apply;
    if events != [] {
      var init := events[..|events| - 1];
      AlwaysInv(init, maxAttempts);
      ApplyKeeps(After(init, maxAttempts), events[|events| - 1], maxAttempts);
    }
  }

  /** In every run at most one job is active. */
  lemma AtMostOneActiveJob(events: seq<Event>, maxAttempts: nat, i: JobId, j: JobId)
    requires maxAttempts > 0
    requires var s := After(events, maxAttempts);
             i in s.jobs && j in s.jobs && Active(s.jobs[i]) && Active(s.jobs[j])
    ensures i == j
  {
    hide After, DocHolds, ItemHolds, JobHolds;
    AlwaysInv(events, maxAttempts);
  }

  /** In every run: at most one job is active, and a completed item of an active job stands for a document that
      is ready with nothing but chunks of the job's target version, or is being deleted. */
  lemma CompletedItemsHold(events: seq<Event>, maxAttempts: nat, k: Key)
    requires maxAttempts > 0
    requires var s := After(events, maxAttempts);
             k in s.items && k.job in s.jobs && Active(s.jobs[k.job]) && s.items[k].status == Completed
    ensures var s := After(events, maxAttempts);
            && (forall j <- s.jobs :: Active(s.jobs[j]) ==> j == k.job)
            && k.doc in s.docs
            && (s.docs[k.doc].status == DocDeleting
                || (s.docs[k.doc].status == DocReady && HasChild(s.chunks, k.doc, s.jobs[k.job].target)
                    && !HasOtherChild(s.chunks, k.doc, s.jobs[k.job].target)))
  {
    hide RowsOf, After;
    AlwaysInv(events, maxAttempts);
    var s := After(events, maxAttempts);
    assert ItemHolds(s, k, maxAttempts) && DocHolds(s, k.doc);
    if s.docs[k.doc].status == DocReady { VersionIsUniform(s, k.doc, s.jobs[k.job].target, maxAttempts); }
  }

  lemma VersionIsUniform(s: State, d: DocId, v: Version, maxAttempts: nat)
    requires Inv(s, maxAttempts) && d in s.docs && s.docs[d].status == DocReady && s.docs[d].version == Some(v)
    ensures HasChild(s.chunks, d, v) && !HasOtherChild(s.chunks, d, v)
  {
    hide RowsOf;
    assert DocHolds(s, d);
    var rows := RowsOf(s.chunks, d);
    var child :| child in rows && child.level == ChildRow;
    RowsOfMembers(s.chunks, d, child);
    forall row | row in s.chunks && row.doc == d ensures row.version == v { RowsOfMembers(s.chunks, d, row); }
  }

  /** A job that becomes completed has re-indexed every document that it still lists. */
  lemma JobCompletionHolds(events: seq<Event>, maxAttempts: nat, j: JobId, k: Key)
    requires maxAttempts > 0
    requires var s := After(events, maxAttempts);
             && j in s.jobs && s.jobs[j].status != JobCompleted
             && RefreshJob(s, j).jobs[j].status == JobCompleted
             && k in s.items && k.job == j
    ensures var s := RefreshJob(After(events, maxAttempts), j);
            && s.items[k].status == Completed && k.doc in s.docs
            && (s.docs[k.doc].status == DocDeleting
                || (s.docs[k.doc].status == DocReady && HasChild(s.chunks, k.doc, s.jobs[j].target)
                    && !HasOtherChild(s.chunks, k.doc, s.jobs[j].target)))
  {
    hide RowsOf, After, HasChild, HasOtherChild;
    AlwaysInv(events, maxAttempts);
    var s := After(events, maxAttempts);
    assert ItemHolds(s, k, maxAttempts);
    assert k !in ItemsWith(s, j, Pending) && k !in ItemsWith(s, j, Processing);
    assert ItemsWith(s, j, Failed) == {};
    assert k !in ItemsWith(s, j, Failed);
    CompletedItemsHold(events, maxAttempts, k);
  }

  /** In every run a ready document holds exactly what one run published for it: not empty, with children,
      all of the version that the document records. */
  lemma PublicationIsAtomic(events: seq<Event>, maxAttempts: nat, d: DocId)
    requires maxAttempts > 0
    requires var s := After(events, maxAttempts); d in s.docs && s.docs[d].status == DocReady
    ensures var s := After(events, maxAttempts);
            exists r: RunId :: r in s.published && RowsOf(s.chunks, d) == s.published[r] && s.docs[d].version.Some?
              && IsBatch(s.published[r], d, r, s.docs[d].version.value)
  {
    hide After;
    AlwaysInv(events, maxAttempts);
    assert DocHolds(After(events, maxAttempts), d);
  }

  /** No transaction moves a document out of deletion or touches its chunks, except by removing it with
      all its chunks and items. */
  lemma DeletingStays(s: State, e: Event, maxAttempts: nat, d: DocId)
    requires d in s.docs && s.docs[d].status == DocDeleting
    ensures var s' := Apply(s, e, maxAttempts);
            if d in s'.docs then s'.docs[d] == s.docs[d] && RowsOf(s'.chunks, d) == RowsOf(s.chunks, d)
            else e == PurgeEvent(d) && RowsOf(s'.chunks, d) == [] && forall k <- s'.items :: k.doc != d
  {
    hide RowsOf, Publish, PurgeDocument, ClaimBatch, CancelJob, AddJob, CreateJob, RollbackJob, RefreshJob, FinishItem;
    match e
    case PublishEvent(r, rows) => PublishLeavesDeleting(s, r, rows, d);
    case PurgeEvent(p) => PurgeLeavesDeleting(s, p, d);
    case ClaimBatchEvent(j, stale, picked) => ClaimBatchLeavesDeleting(s, j, stale, picked, maxAttempts, d);
    case _ => OthersLeaveDeleting(s, e, maxAttempts, d);
  }

  lemma OthersLeaveDeleting(s: State, e: Event, maxAttempts: nat, d: DocId)
    requires d in s.docs && s.docs[d].status == DocDeleting
    requires !e.PublishEvent? && !e.PurgeEvent? && !e.ClaimBatchEvent?
    ensures var s' := Apply(s, e, maxAttempts); d in s'.docs && s'.docs[d] == s.docs[d] && s'.chunks == s.chunks
  {}

  lemma PublishLeavesDeleting(s: State, r: RunId, rows: seq<Row>, d: DocId)
    requires d in s.docs && s.docs[d].status == DocDeleting
    ensures var s' := Publish(s, r, rows); d in s'.docs && s'.docs[d] == s.docs[d] && RowsOf(s'.chunks, d) == RowsOf(s.chunks, d)
  {
    hide RowsOf, IsBatch, Replaced;
    if r in s.runs && s.runs[r].doc != d && IsBatch(rows, s.runs[r].doc, r, s.runs[r].target) {
      BatchRows(s, s.runs[r].doc, r, rows, s.runs[r].target, d);
    }
  }

  lemma PurgeLeavesDeleting(s: State, p: DocId, d: DocId)
    requires d in s.docs && s.docs[d].status == DocDeleting
    ensures var s' := PurgeDocument(s, p);
            if d == p then d !in s'.docs && RowsOf(s'.chunks, d) == [] && forall k <- s'.items :: k.doc != d
            else d in s'.docs && s'.docs[d] == s.docs[d] && RowsOf(s'.chunks, d) == RowsOf(s.chunks, d)
  {
    hide RowsOf, Without;
    RowsOfWithout(s.chunks, p, d);
  }

  lemma BatchRows(s: State, p: DocId, r: RunId, rows: seq<Row>, v: Version, d: DocId)
    requires IsBatch(rows, p, r, v) && p != d
    ensures RowsOf(Replaced(s.chunks, p, rows), d) == RowsOf(s.chunks, d)
  {
    ReplacedRows(s.chunks, p, rows, d);
  }

  lemma ClaimBatchLeavesDeleting(s: State, j: JobId, stale: seq<DocId>, picked: seq<DocId>, maxAttempts: nat, d: DocId)
    requires d in s.docs && s.docs[d].status == DocDeleting
    ensures var s' := ClaimBatch(s, j, stale, picked, maxAttempts);
            d in s'.docs && s'.docs[d] == s.docs[d] && s'.chunks == s.chunks
  {
    if j in s.jobs && s.jobs[j].status in {Queued, Running} {
      ResetAllLeaves(WithJob(s, j, Running), j, stale, maxAttempts, d);
      ClaimAllLeaves(ResetAll(WithJob(s, j, Running), j, stale, maxAttempts), j, picked, d);
    }
  }

  lemma {:induction false} ResetAllLeaves(s: State, j: JobId, stale: seq<DocId>, maxAttempts: nat, d: DocId)
    requires j in s.jobs && d in s.docs && s.docs[d].status == DocDeleting
    ensures var s' := ResetAll(s, j, stale, maxAttempts);
            d in s'.docs && s'.docs[d] == s.docs[d] && s'.chunks == s.chunks
    decreases |stale|
  {
    if stale != [] { ResetAllLeaves(ResetStale(s, j, stale[0], maxAttempts), j, stale[1..], maxAttempts, d); }
  }

  lemma {:induction false} ClaimAllLeaves(s: State, j: JobId, picked: seq<DocId>, d: DocId)
    requires d in s.docs && s.docs[d].status == DocDeleting
    ensures var s' := ClaimAll(s, j, picked);
            d in s'.docs && s'.docs[d] == s.docs[d] && s'.chunks == s.chunks
    decreases |picked|
  {
    if picked != [] { ClaimAllLeaves(ClaimItem(s, j, picked[0]), j, picked[1..], d); }
  }

  /** In every run no document is claimed more often than allowed, and the counters of a job stay within its total. */
  lemma AttemptsAndCountersBounded(events: seq<Event>, maxAttempts: nat)
    requires maxAttempts > 0
    ensures var s := After(events, maxAttempts);
            && (forall k <- s.items :: s.items[k].attempts <= maxAttempts)
            && (forall j <- s.jobs :: s.jobs[j].completed + s.jobs[j].failed <= s.jobs[j].total)
  {
    hide After, RowsOf, DocHolds;
    AlwaysInv(events, maxAttempts);
    var s := After(events, maxAttempts);
    forall k | k in s.items ensures s.items[k].attempts <= maxAttempts { assert ItemHolds(s, k, maxAttempts); }
    forall j | j in s.jobs ensures s.jobs[j].completed + s.jobs[j].failed <= s.jobs[j].total { assert JobHolds(s, j); }
  }
}
