/** The retrieval-result cache: entries keyed by Knowledge Base, index generation and request digest, written
    and served while the ingestion and re-index protocol goes on. */
module RetrievalCache {
  import opened Wrappers
  import opened Lifecycle
  import opened LifecycleSafety

  /** A request: `text` stands for the query as typed, `documents` for the metadata filters (empty: no filter). */
  datatype Query = Query(text: int, documents: set<DocId>)

  datatype Scores = Scores(retrieval: real, semantic: Option<real>, lexical: Option<real>)

  datatype Candidate = Candidate(row: Row, scores: Scores)

  datatype Answer = Answer(candidates: seq<Candidate>, sufficient: bool)

  datatype Stored = Stored(id: ChunkId, scores: Scores)

  /** What is kept under a key: chunk ids and scores, never texts. */
  datatype Entry = Entry(candidates: seq<Stored>, sufficient: bool)

  datatype CacheKey = CacheKey(kb: KbId, generation: nat, digest: int)

  /** The deterministic computation of an answer from the visible chunks: candidates, fusion, reranking. */
  type Pipeline = (set<Row>, Query) -> Answer

  const MAX_CACHED := 100

  // ---------- what a Knowledge Base shows ----------

  function Generation(s: State, kb: KbId): nat { if kb in s.generation then s.generation[kb] else 0 }

  predicate Visible(s: State, kb: KbId, row: Row) {
    row.doc in s.docs && s.docs[row.doc].kb == kb && s.docs[row.doc].status == DocReady
  }

  function View(s: State, kb: KbId): set<Row> { set row <- s.chunks | Visible(s, kb, row) }

  /** A Knowledge Base shows the chunks of its ready documents. */
  lemma ViewExactly(s: State, kb: KbId, row: Row)
    ensures row in View(s, kb) <==>
              row in s.chunks && row.doc in s.docs && s.docs[row.doc].kb == kb && s.docs[row.doc].status == DocReady
  {}

  predicate Matches(q: Query, row: Row) { q.documents == {} || row.doc in q.documents }

  /** A pipeline answers with chunks of the view that match the filters. */
  ghost predicate Selects(pipeline: Pipeline) {
    forall v: set<Row>, q: Query :: forall c <- pipeline(v, q).candidates :: c.row in v && Matches(q, c.row)
  }

  // ---------- reading and writing entries ----------

  /** `_write_retrieval_cache`. */
  function Written(a: Answer): (e: Entry)
    ensures |e.candidates| == |a.candidates|
  {
    Entry(seq(|a.candidates|, i requires 0 <= i < |a.candidates| =>
                Stored(IdOf(a.candidates[i].row), a.candidates[i].scores)), a.sufficient)
  }

  /** The visible and matching row with a given id. */
  function Fetch(s: State, kb: KbId, q: Query, rows: seq<Row>, id: ChunkId): (r: Option<Row>)
    ensures r.Some? ==> r.value in rows && IdOf(r.value) == id && Visible(s, kb, r.value) && Matches(q, r.value)
    ensures r.None? ==> forall row <- rows :: IdOf(row) == id ==> !Visible(s, kb, row) || !Matches(q, row)
  {
    if rows == [] then None
    else if IdOf(rows[0]) == id && Visible(s, kb, rows[0]) && Matches(q, rows[0]) then Some(rows[0])
    else Fetch(s, kb, q, rows[1..], id)
  }

  predicate Distinct(stored: seq<Stored>) {
    forall i, j :: 0 <= i < j < |stored| ==> stored[i].id != stored[j].id
  }

  predicate AllFound(s: State, kb: KbId, q: Query, stored: seq<Stored>) {
    forall c <- stored :: Fetch(s, kb, q, s.chunks, c.id).Some?
  }

  /** `_load_cached_candidates`: all of the entry from the rows of now, or nothing. */
  function LoadCached(s: State, kb: KbId, q: Query, e: Entry): Option<Answer> {
    if |e.candidates| > MAX_CACHED || !Distinct(e.candidates) || !AllFound(s, kb, q, e.candidates) then None
    else Some(Answer(seq(|e.candidates|, i requires 0 <= i < |e.candidates| =>
                Candidate(Fetch(s, kb, q, s.chunks, e.candidates[i].id).value, e.candidates[i].scores)), e.sufficient))
  }

  /** The source's loop: fetch all rows at once, compare the ids, then rebuild the candidates in stored order. */
  method LoadCachedCandidates(s: State, kb: KbId, q: Query, e: Entry) returns (r: Option<Answer>)
    ensures r == LoadCached(s, kb, q, e)
  {
    if |e.candidates| > MAX_CACHED || !Distinct(e.candidates) { return None; }
    var ids := set c <- e.candidates :: c.id;
    var rows := map id <- ids | Fetch(s, kb, q, s.chunks, id).Some? :: Fetch(s, kb, q, s.chunks, id).value;
    if rows.Keys != ids {
      var id :| id in ids && id !in rows;
      return None;
    }
    var selected: seq<Candidate> := [];
    for i := 0 to |e.candidates|
      invariant |selected| == i
      invariant forall k :: 0 <= k < i ==>
                  e.candidates[k].id in rows
                  && selected[k] == Candidate(rows[e.candidates[k].id], e.candidates[k].scores)
    {
      assert e.candidates[i].id in ids;
      selected := selected + [Candidate(rows[e.candidates[i].id], e.candidates[i].scores)];
    }
    assert AllFound(s, kb, q, e.candidates) by {
      forall c | c in e.candidates ensures Fetch(s, kb, q, s.chunks, c.id).Some? { assert c.id in rows; }
    }
    assert selected == LoadCached(s, kb, q, e).value.candidates;
    return Some(Answer(selected, e.sufficient));
  }

  /** An entry is served exactly when it is short, free of repeated ids, and each of its chunks still belongs to
      a ready document of this Knowledge Base that matches the filters; the answer has those chunks in order. */
  lemma ServedChunksAreReady(s: State, kb: KbId, q: Query, e: Entry)
    ensures LoadCached(s, kb, q, e).Some? <==>
              && |e.candidates| <= 100 && Distinct(e.candidates)
              && (forall c <- e.candidates :: exists row <- View(s, kb) :: IdOf(row) == c.id && Matches(q, row))
    ensures var a := LoadCached(s, kb, q, e);
            a.Some? ==>
              && |a.value.candidates| == |e.candidates| && a.value.sufficient == e.sufficient
              && forall i :: 0 <= i < |e.candidates| ==>
                   var c := a.value.candidates[i];
                   && c.row in View(s, kb) && Matches(q, c.row)
                   && IdOf(c.row) == e.candidates[i].id && c.scores == e.candidates[i].scores
  {
    if forall c <- e.candidates :: exists row <- View(s, kb) :: IdOf(row) == c.id && Matches(q, row) {
      forall c | c in e.candidates ensures Fetch(s, kb, q, s.chunks, c.id).Some? {
        var row :| row in View(s, kb) && IdOf(row) == c.id && Matches(q, row);
      }
    }
    if AllFound(s, kb, q, e.candidates) {
      forall c | c in e.candidates ensures exists row <- View(s, kb) :: IdOf(row) == c.id && Matches(q, row) {
        assert Fetch(s, kb, q, s.chunks, c.id).value in View(s, kb);
      }
    }
  }

  /** The id of a chunk determines the chunk. */
  lemma IdsAreUnique(s: State, maxAttempts: nat, a: Row, b: Row)
    requires Inv(s, maxAttempts) && a in s.chunks && b in s.chunks && IdOf(a) == IdOf(b)
    ensures a == b
  {
    hide RowsOf;
    assert DocHolds(s, a.doc);
    RowsOfMembers(s.chunks, a.doc, a);
    RowsOfMembers(s.chunks, a.doc, b);
    var rows := RowsOf(s.chunks, a.doc);
    assert IsBatch(rows, a.doc, rows[0].run, s.docs[a.doc].version.value);
    var i :| 0 <= i < |rows| && rows[i] == a;
    var j :| 0 <= j < |rows| && rows[j] == b;
  }

  /** Round trip: what is read back at the same view is what was written. */
  lemma WrittenIsReadBack(s: State, maxAttempts: nat, kb: KbId, q: Query, a: Answer)
    requires Inv(s, maxAttempts)
    requires forall c <- a.candidates :: c.row in View(s, kb)
    requires LoadCached(s, kb, q, Written(a)).Some?
    ensures LoadCached(s, kb, q, Written(a)) == Some(a)
  {
    hide Inv;
    var e, b := Written(a), LoadCached(s, kb, q, Written(a)).value;
    forall i | 0 <= i < |a.candidates| ensures b.candidates[i] == a.candidates[i] {
      assert e.candidates[i].id == IdOf(a.candidates[i].row) && a.candidates[i].row in View(s, kb);
      assert e.candidates[i] in e.candidates;
      IdsAreUnique(s, maxAttempts, b.candidates[i].row, a.candidates[i].row);
    }
    assert b.candidates == a.candidates;
  }

  // ---------- the view and the generation ----------

  lemma GenerationGrows(s: State, e: Event, maxAttempts: nat, kb: KbId)
    ensures Generation(s, kb) <= Generation(Apply(s, e, maxAttempts), kb)
  {
    hide ResetAll, ClaimAll;
    if e.ClaimBatchEvent? {
      var j := e.job;
      if j in s.jobs {
        ResetAllKeepsGeneration(WithJob(s, j, Running), j, e.stale, maxAttempts);
        ClaimAllKeepsGeneration(ResetAll(WithJob(s, j, Running), j, e.stale, maxAttempts), j, e.picked);
      }
    }
  }

  lemma {:induction false} ResetAllKeepsGeneration(s: State, j: JobId, stale: seq<DocId>, maxAttempts: nat)
    requires j in s.jobs
    ensures ResetAll(s, j, stale, maxAttempts).generation == s.generation
    decreases |stale|
  {
    if stale != [] { ResetAllKeepsGeneration(ResetStale(s, j, stale[0], maxAttempts), j, stale[1..], maxAttempts); }
  }

  lemma {:induction false} ClaimAllKeepsGeneration(s: State, j: JobId, picked: seq<DocId>)
    ensures ClaimAll(s, j, picked).generation == s.generation
    decreases |picked|
  {
    if picked != [] { ClaimAllKeepsGeneration(ClaimItem(s, j, picked[0]), j, picked[1..]); }
  }

  /** Apart from the claim of a re-index batch, a transaction that changes what a Knowledge Base shows moves its
      generation by one. */
  lemma ViewChangesBump(s: State, e: Event, maxAttempts: nat, kb: KbId)
    requires !e.ClaimBatchEvent?
    ensures var s' := Apply(s, e, maxAttempts);
            View(s', kb) == View(s, kb) || Generation(s', kb) == Generation(s, kb) + 1
  {
    hide View, Generation, Publish, PurgeDocument, DeleteDocument, ClaimDocument, FailRun, RetryDocument, AddDocument;
    hide AddJob, CreateJob, RollbackJob, CancelJob, FinishItem, RefreshJob;
    match e
    case ClaimDocumentEvent(r, d, v, stale) => ClaimDocumentShowsNothing(s, r, d, v, stale, kb);
    case PublishEvent(r, rows) => PublishBumps(s, r, rows, kb);
    case FailEvent(r, stage) => FailRunShowsNothing(s, r, stage, kb);
    case AddDocumentEvent(d, k) => AddDocumentShowsNothing(s, d, k, kb);
    case RetryEvent(d) => RetryShowsNothing(s, d, kb);
    case DeleteEvent(d) => DeleteBumps(s, d, kb);
    case PurgeEvent(d) => PurgeBumps(s, d, kb);
    case _ => JobsShowNothing(s, e, maxAttempts, kb);
  }

  lemma JobsShowNothing(s: State, e: Event, maxAttempts: nat, kb: KbId)
    requires e.CreateJobEvent? || e.RollbackEvent? || e.PauseEvent? || e.ResumeEvent? || e.CancelEvent?
             || e.FinishItemEvent? || e.RefreshEvent?
    ensures View(Apply(s, e, maxAttempts), kb) == View(s, kb)
  {
    hide View;
    SameStatusesSameView(s, Apply(s, e, maxAttempts), kb);
  }

  lemma ClaimDocumentShowsNothing(s: State, r: RunId, d: DocId, v: Version, stale: bool, kb: KbId)
    ensures View(ClaimDocument(s, r, d, v, stale), kb) == View(s, kb)
  {
    hide View;
    SameStatusesSameView(s, ClaimDocument(s, r, d, v, stale), kb);
  }

  lemma FailRunShowsNothing(s: State, r: RunId, stage: Stage, kb: KbId)
    ensures View(FailRun(s, r, stage), kb) == View(s, kb)
  {
    hide View;
    SameStatusesSameView(s, FailRun(s, r, stage), kb);
  }

  lemma AddDocumentShowsNothing(s: State, d: DocId, k: KbId, kb: KbId)
    ensures View(AddDocument(s, d, k), kb) == View(s, kb)
  {
    hide View;
    SameStatusesSameView(s, AddDocument(s, d, k), kb);
  }

  lemma RetryShowsNothing(s: State, d: DocId, kb: KbId)
    ensures View(RetryDocument(s, d), kb) == View(s, kb)
  {
    hide View;
    SameStatusesSameView(s, RetryDocument(s, d), kb);
  }

  lemma DeleteBumps(s: State, d: DocId, kb: KbId)
    ensures View(DeleteDocument(s, d), kb) == View(s, kb) || Generation(DeleteDocument(s, d), kb) == Generation(s, kb) + 1
  {
    hide View;
    var s' := DeleteDocument(s, d);
    if s' == s || s.docs[d].kb != kb { SameStatusesSameView(s, s', kb); }
  }

  lemma PublishBumps(s: State, r: RunId, rows: seq<Row>, kb: KbId)
    ensures View(Publish(s, r, rows), kb) == View(s, kb) || Generation(Publish(s, r, rows), kb) == Generation(s, kb) + 1
  {
    hide View, IsBatch, Replaced;
    var s' := Publish(s, r, rows);
    if r !in s.runs || s.runs[r].doc !in s.docs || s.docs[s.runs[r].doc].kb == kb {
      if s'.generation == s.generation { SameStatusesSameView(s, s', kb); }
    } else {
      PublishLeavesOthers(s, r, rows, kb);
    }
  }

  lemma PurgeBumps(s: State, d: DocId, kb: KbId)
    ensures View(PurgeDocument(s, d), kb) == View(s, kb) || Generation(PurgeDocument(s, d), kb) == Generation(s, kb) + 1
  {
    hide View, Without;
    if d in s.docs && s.docs[d].kb != kb { PurgeLeavesOthers(s, d, kb); }
  }

  lemma SameStatusesSameView(s: State, s': State, kb: KbId)
    requires s'.chunks == s.chunks
    requires forall d :: (d in s.docs && s.docs[d].kb == kb && s.docs[d].status == DocReady)
                    <==> (d in s'.docs && s'.docs[d].kb == kb && s'.docs[d].status == DocReady)
    ensures View(s', kb) == View(s, kb)
  {}

  /** A change to the rows and the record of one document changes nothing for other Knowledge Bases. */
  lemma OthersSameView(s: State, s': State, d: DocId, kb: KbId)
    requires d in s.docs ==> s.docs[d].kb != kb
    requires d in s'.docs ==> s'.docs[d].kb != kb
    requires s'.docs - {d} == s.docs - {d}
    requires forall row: Row :: row.doc != d ==> (row in s'.chunks <==> row in s.chunks)
    ensures View(s', kb) == View(s, kb)
  {
    assert forall e :: e != d ==> (e in s'.docs <==> e in s'.docs - {d}) && (e in s.docs <==> e in s.docs - {d});
    forall row ensures row in View(s', kb) <==> row in View(s, kb) {}
  }

  lemma ReplacedKeepsOthers(chunks: seq<Row>, d: DocId, rows: seq<Row>, row: Row)
    requires row.doc != d && forall added <- rows :: added.doc == d
    ensures row in Replaced(chunks, d, rows) <==> row in chunks
  {
    hide Replaced, RowsOf;
    ReplacedRows(chunks, d, rows, row.doc);
    RowsOfMembers(chunks, row.doc, row);
    RowsOfMembers(Replaced(chunks, d, rows), row.doc, row);
  }

  lemma WithoutKeepsOthers(chunks: seq<Row>, d: DocId, row: Row)
    requires row.doc != d
    ensures row in Without(chunks, d) <==> row in chunks
  {
    hide Without, RowsOf;
    RowsOfWithout(chunks, d, row.doc);
    RowsOfMembers(chunks, row.doc, row);
    RowsOfMembers(Without(chunks, d), row.doc, row);
  }

  lemma PublishLeavesOthers(s: State, r: RunId, rows: seq<Row>, kb: KbId)
    requires r in s.runs && s.runs[r].doc in s.docs && s.docs[s.runs[r].doc].kb != kb
    ensures View(Publish(s, r, rows), kb) == View(s, kb)
  {
    hide View, Replaced;
    var d, s' := s.runs[r].doc, Publish(s, r, rows);
    forall row: Row | row.doc != d ensures row in s'.chunks <==> row in s.chunks {
      if IsBatch(rows, d, r, s.runs[r].target) { ReplacedKeepsOthers(s.chunks, d, rows, row); }
    }
    OthersSameView(s, s', d, kb);
  }

  lemma PurgeLeavesOthers(s: State, d: DocId, kb: KbId)
    requires d in s.docs && s.docs[d].kb != kb
    ensures View(PurgeDocument(s, d), kb) == View(s, kb)
  {
    hide View, Without;
    var s' := PurgeDocument(s, d);
    forall row: Row | row.doc != d ensures row in s'.chunks <==> row in s.chunks { WithoutKeepsOthers(s.chunks, d, row); }
    OthersSameView(s, s', d, kb);
  }

  // ---------- readers, writers and the database together ----------

  /** A reader has read the generation, and perhaps computed its answer already. */
  datatype Reader = Reader(kb: KbId, generation: nat, query: Query, result: Option<Answer>)

  datatype System = System(db: State, cache: map<CacheKey, Entry>, readers: map<int, Reader>)

  datatype Step =
    | Database(event: Event)
    | Begin(reader: int, kb: KbId, query: Query)
    | Compute(reader: int)
    | Write(reader: int)
    | Evict(key: CacheKey)

  /** Everything around the cache: the pipeline, the digest of a request, and the attempts allowed. */
  datatype Setting = Setting(pipeline: Pipeline, digest: Query -> int, maxAttempts: nat)

  function KeyOf(r: Reader, setting: Setting): CacheKey { CacheKey(r.kb, r.generation, setting.digest(r.query)) }

  function Next(y: System, step: Step, setting: Setting): System {
    match step
    case Database(e) => y.(db := Apply(y.db, e, setting.maxAttempts))
    case Begin(r, kb, q) => y.(readers := y.readers[r := Reader(kb, Generation(y.db, kb), q, None)])
    case Compute(r) =>
      if r !in y.readers then y
      else
        var reader := y.readers[r];
        y.(readers := y.readers[r := reader.(result := Some(setting.pipeline(View(y.db, reader.kb), reader.query)))])
    case Write(r) =>
      if r !in y.readers || y.readers[r].result.None? then y
      else y.(cache := y.cache[KeyOf(y.readers[r], setting) := Written(y.readers[r].result.value)])
    case Evict(key) => y.(cache := y.cache - {key})
  }

  function Reached(steps: seq<Step>, setting: Setting): System {
    if steps == [] then System(EMPTY, map[], map[])
    else Next(Reached(steps[..|steps| - 1], setting), steps[|steps| - 1], setting)
  }

  /** Since the generation of a Knowledge Base last moved, something has changed what it shows. */
  predicate Disturbed(steps: seq<Step>, setting: Setting, kb: KbId) {
    if steps == [] then false
    else
      var init := steps[..|steps| - 1];
      var before, after := Reached(init, setting).db, Reached(steps, setting).db;
      && Generation(after, kb) == Generation(before, kb)
      && (Disturbed(init, setting, kb) || View(after, kb) != View(before, kb))
  }

  /** Only the claim of a re-index batch starts a disturbance. */
  lemma OnlyClaimsDisturb(steps: seq<Step>, setting: Setting, kb: KbId)
    requires steps != [] && Disturbed(steps, setting, kb) && !Disturbed(steps[..|steps| - 1], setting, kb)
    ensures steps[|steps| - 1].Database? && steps[|steps| - 1].event.ClaimBatchEvent?
  {
    hide View, Generation, Apply;
    var step := steps[|steps| - 1];
    if step.Database? && !step.event.ClaimBatchEvent? {
      ViewChangesBump(Reached(steps[..|steps| - 1], setting).db, step.event, setting.maxAttempts, kb);
    }
  }

  /** No entry and no reader is ahead of the generation. */
  predicate NotAhead(y: System, kb: KbId) {
    && (forall key <- y.cache :: key.kb == kb ==> key.generation <= Generation(y.db, kb))
    && (forall r <- y.readers :: y.readers[r].kb == kb ==> y.readers[r].generation <= Generation(y.db, kb))
  }

  lemma NextNotAhead(y: System, step: Step, setting: Setting, kb: KbId)
    requires NotAhead(y, kb)
    ensures NotAhead(Next(y, step, setting), kb)
  {
    hide View, Generation, Apply, Written;
    if step.Database? { GenerationGrows(y.db, step.event, setting.maxAttempts, kb); }
  }

  lemma {:induction false} NeverAhead(steps: seq<Step>, setting: Setting, kb: KbId)
    ensures NotAhead(Reached(steps, setting), kb)
    decreases |steps|
  {
    hide Next, NotAhead;
    if steps == [] {
      NothingAhead(kb);
    } else {
      var init := steps[..|steps| - 1];
      NeverAhead(init, setting, kb);
      NextNotAhead(Reached(init, setting), steps[|steps| - 1], setting, kb);
    }
  }

  lemma NothingAhead(kb: KbId)
    ensures NotAhead(System(EMPTY, map[], map[]), kb)
  {}

  lemma {:induction false} DatabaseHolds(steps: seq<Step>, setting: Setting)
    requires setting.maxAttempts > 0
    ensures Inv(Reached(steps, setting).db, setting.maxAttempts)
    decreases |steps|
  {
    hide Apply;
    if steps != [] {
      var init := steps[..|steps| - 1];
      DatabaseHolds(init, setting);
      if steps[|steps| - 1].Database? {
        ApplyKeeps(Reached(init, setting).db, steps[|steps| - 1].event, setting.maxAttempts);
      }
    }
  }

  function CurrentKey(y: System, setting: Setting, kb: KbId, q: Query): CacheKey {
    CacheKey(kb, Generation(y.db, kb), setting.digest(q))
  }

  /** What a reader with the current generation is served on a hit. */
  function Served(y: System, setting: Setting, kb: KbId, q: Query): Option<Answer> {
    var key := CurrentKey(y, setting, kb, q);
    if key !in y.cache then None else LoadCached(y.db, kb, q, y.cache[key])
  }

  /** Requests with the same digest have the same answers. */
  ghost predicate RespectsDigest(setting: Setting) {
    forall v: set<Row>, p: Query, q: Query :: setting.digest(p) == setting.digest(q) ==>
      setting.pipeline(v, p) == setting.pipeline(v, q)
  }

  // ---------- a hit that is not transparent ----------

  /** A pipeline that only reports whether there is anything to see. */
  const PEEK: Setting := Setting((v: set<Row>, q: Query) => Answer([], v != {}), (q: Query) => q.text, 3)

  const CHUNK: Row := Row(1, 1, Legacy, ChildRow, 0, 0)

  /** A document is claimed for re-indexing, a reader answers without it, the claim is reset as stale. */
  const RESET: seq<Step> := [
    Database(AddDocumentEvent(1, 0)),
    Database(ClaimDocumentEvent(1, 1, Legacy, false)),
    Database(PublishEvent(1, [CHUNK])),
    Database(CreateJobEvent(1, Hierarchical, 1, {1})),
    Database(ClaimBatchEvent(1, [], [1])),
    Begin(1, 0, Query(0, {})),
    Compute(1),
    Write(1),
    Database(ClaimBatchEvent(1, [1], []))]

  const READY: State := State(
    map[1 := Doc(0, DocReady, Some(Legacy), None)], [CHUNK], map[], map[], map[0 := 1], map[], map[1 := [CHUNK]])

  const CLAIMED: State := State(
    map[1 := Doc(0, DocPending, Some(Legacy), None)], [CHUNK], map[1 := Job(Hierarchical, Running, 1, 1, 0, 0)],
    map[Key(1, 1) := Item(Processing, 1)], map[0 := 1], map[], map[1 := [CHUNK]])

  const RELEASED: State := State(
    map[1 := Doc(0, DocReady, Some(Legacy), None)], [CHUNK], map[1 := Job(Hierarchical, Running, 1, 1, 0, 0)],
    map[Key(1, 1) := Item(Pending, 1)], map[0 := 1], map[], map[1 := [CHUNK]])

  const PENDING: State := State(map[1 := Doc(0, DocPending, None, None)], [], map[], map[], map[], map[], map[])

  const INGESTING: State := State(
    map[1 := Doc(0, DocProcessing, None, None)], [], map[], map[], map[], map[1 := Run(1, Legacy)], map[])

  const QUEUED: State := State(
    map[1 := Doc(0, DocReady, Some(Legacy), None)], [CHUNK], map[1 := Job(Hierarchical, Queued, 1, 1, 0, 0)],
    map[Key(1, 1) := Item(Pending, 0)], map[0 := 1], map[], map[1 := [CHUNK]])

  lemma FirstIngestion()
    ensures Apply(EMPTY, AddDocumentEvent(1, 0), 3) == PENDING
    ensures Apply(PENDING, ClaimDocumentEvent(1, 1, Legacy, false), 3) == INGESTING
    ensures Apply(INGESTING, PublishEvent(1, [CHUNK]), 3) == READY
  {
    var rows := [CHUNK];
    assert rows[0].level == ChildRow && IsBatch(rows, 1, 1, Legacy);
    assert INGESTING.runs - {1} == map[];
  }

  lemma Queueing()
    ensures Apply(READY, CreateJobEvent(1, Hierarchical, 1, {1}), 3) == QUEUED
  {
    assert READY.chunks[0] == CHUNK && HasOtherChild(READY.chunks, 1, Hierarchical);
    assert KeysFor(1, {1}) == {Key(1, 1)};
    var s := CreateJob(READY, 1, Hierarchical, 1, {1});
    assert s.items == map[Key(1, 1) := Item(Pending, 0)];
  }

  lemma Claiming()
    ensures Apply(QUEUED, ClaimBatchEvent(1, [], [1]), 3) == CLAIMED
  {
    var s := WithJob(QUEUED, 1, Running);
    assert s.jobs == map[1 := Job(Hierarchical, Running, 1, 1, 0, 0)];
    assert ClaimAll(s, 1, [1]) == ClaimAll(ClaimItem(s, 1, 1), 1, []);
  }

  lemma Releasing()
    ensures Apply(CLAIMED, ClaimBatchEvent(1, [1], []), 3) == RELEASED
  {
    assert WithJob(CLAIMED, 1, Running) == CLAIMED;
    assert ResetAll(CLAIMED, 1, [1], 3) == ResetAll(ResetStale(CLAIMED, 1, 1, 3), 1, [], 3);
    assert !HasChild(CLAIMED.chunks, 1, Hierarchical);
  }

  lemma NextOf(steps: seq<Step>, setting: Setting, k: nat)
    requires k < |steps|
    ensures Reached(steps[..k + 1], setting) == Next(Reached(steps[..k], setting), steps[k], setting)
  {
    assert steps[..k + 1][..k] == steps[..k];
  }

  /** The system after the seventh step: the reader has its answer. */
  lemma BeforeWriting()
    ensures var y := Reached(RESET[..7], PEEK);
            y == System(CLAIMED, map[], map[1 := Reader(0, 1, Query(0, {}), Some(Answer([], false)))])
  {
    hide Apply, Reached;
    FirstIngestion();
    Queueing();
    Claiming();
    assert Reached(RESET[..0], PEEK) == System(EMPTY, map[], map[]) by { assert RESET[..0] == []; EmptyReached(PEEK); }
    NextOf(RESET, PEEK, 0);
    NextOf(RESET, PEEK, 1);
    NextOf(RESET, PEEK, 2);
    NextOf(RESET, PEEK, 3);
    NextOf(RESET, PEEK, 4);
    NextOf(RESET, PEEK, 5);
    NextOf(RESET, PEEK, 6);
    assert View(CLAIMED, 0) == {};
  }

  lemma EmptyReached(setting: Setting)
    ensures Reached([], setting) == System(EMPTY, map[], map[])
  {}

  /** After a stale reset a hit at the current generation can differ from every fresh answer. */
  lemma ResetMakesHitsStale()
    ensures Selects(PEEK.pipeline) && Disturbed(RESET, PEEK, 0)
    ensures var y := Reached(RESET, PEEK);
            && Served(y, PEEK, 0, Query(0, {})) == Some(Answer([], false))
            && forall q: Query :: PEEK.pipeline(View(y.db, 0), q) == Answer([], true)
  {
    hide Apply, Reached;
    BeforeWriting();
    Releasing();
    NextOf(RESET, PEEK, 7);
    NextOf(RESET, PEEK, 8);
    assert RESET == RESET[..9] && RESET[..|RESET| - 1] == RESET[..8];
    assert View(CLAIMED, 0) == {};
    assert CHUNK in RELEASED.chunks && CHUNK in View(RELEASED, 0);
    var y := Reached(RESET, PEEK);
    assert y.cache == map[CacheKey(0, 1, 0) := Entry([], false)];
    assert LoadCached(RELEASED, 0, Query(0, {}), Entry([], false)).value.candidates == [];
  }
}
