/** Ingestion and re-indexing as a protocol of atomic transactions over documents, chunks, jobs and items.

    Any number of ingestion runs are in flight, with different target versions; a run that never takes
    another step is a dead worker.  Clocks, row locks and the choice of a canary are parameters of the events.
 */
module Lifecycle {
  import opened Wrappers

  type DocId = int
  type JobId = int
  type RunId = int
  type KbId = int

  datatype Version = Legacy | LegacyChar | TokenRecursive | Hierarchical

  datatype DocStatus = DocPending | DocProcessing | DocReady | DocFailed | DocDeleting

  datatype Stage = Claim | Extract | Normalize | Construct | Validate | Summarize | Embed | Persist

  datatype Doc = Doc(kb: KbId, status: DocStatus, version: Option<Version>, error: Option<Stage>)

  datatype JobStatus = Queued | Running | Paused | JobCompleted | JobFailed | JobCancelled

  datatype Job = Job(target: Version, status: JobStatus, batchSize: nat, total: nat, completed: nat, failed: nat)

  datatype ItemStatus = Pending | Processing | Completed | Failed | Cancelled

  datatype Item = Item(status: ItemStatus, attempts: nat)

  datatype Key = Key(job: JobId, doc: DocId)

  datatype RowLevel = ParentRow | ChildRow | SummaryRow

  /** A chunk row, with the run that wrote it. */
  datatype Row = Row(doc: DocId, run: RunId, version: Version, level: RowLevel, ordinal: nat, hash: int)

  /** What `_stable_chunk_id` hashes: the primary key of a chunk row. */
  datatype ChunkId = ChunkId(doc: DocId, level: RowLevel, ordinal: nat, hash: int)

  function IdOf(row: Row): ChunkId { ChunkId(row.doc, row.level, row.ordinal, row.hash) }

  predicate DistinctIds(rows: seq<Row>) {
    forall i, j :: 0 <= i < j < |rows| ==> IdOf(rows[i]) != IdOf(rows[j])
  }

  /** An ingestion run that has claimed its document and not ended yet. */
  datatype Run = Run(doc: DocId, target: Version)

  /** The database, the runs in flight, and (as history) what every run published. */
  datatype State = State(
    docs: map<DocId, Doc>,
    chunks: seq<Row>,
    jobs: map<JobId, Job>,
    items: map<Key, Item>,
    generation: map<KbId, nat>,
    runs: map<RunId, Run>,
    published: map<RunId, seq<Row>>)

  const EMPTY: State := State(map[], [], map[], map[], map[], map[], map[])

  // ---------- chunk rows ----------

  function RowsOf(chunks: seq<Row>, d: DocId): seq<Row> {
    if chunks == [] then []
    else (if chunks[0].doc == d then [chunks[0]] else []) + RowsOf(chunks[1..], d)
  }

  function Without(chunks: seq<Row>, d: DocId): seq<Row> {
    if chunks == [] then []
    else (if chunks[0].doc == d then [] else [chunks[0]]) + Without(chunks[1..], d)
  }

  /** `replace_document_chunks`. */
  function Replaced(chunks: seq<Row>, d: DocId, rows: seq<Row>): seq<Row> { Without(chunks, d) + rows }

  predicate IsBatch(rows: seq<Row>, d: DocId, r: RunId, v: Version) {
    && (forall row <- rows :: row.doc == d && row.run == r && row.version == v)
    && (exists row <- rows :: row.level == ChildRow)
    && DistinctIds(rows)
  }

  predicate HasChild(chunks: seq<Row>, d: DocId, v: Version) {
    exists row <- chunks :: row.doc == d && row.level == ChildRow && row.version == v
  }

  predicate HasOtherChild(chunks: seq<Row>, d: DocId, v: Version) {
    exists row <- chunks :: row.doc == d && row.level == ChildRow && row.version != v
  }

  // ---------- small updates ----------

  function Bumped(generation: map<KbId, nat>, kb: KbId): map<KbId, nat> {
    generation[kb := (if kb in generation then generation[kb] else 0) + 1]
  }

  function WithDoc(s: State, d: DocId, status: DocStatus, error: Option<Stage>): State
    requires d in s.docs
  {
    s.(docs := s.docs[d := s.docs[d].(status := status, error := error)])
  }

  function WithItem(s: State, k: Key, status: ItemStatus): State
    requires k in s.items
  {
    s.(items := s.items[k := s.items[k].(status := status)])
  }

  function WithJob(s: State, j: JobId, status: JobStatus): State
    requires j in s.jobs
  {
    s.(jobs := s.jobs[j := s.jobs[j].(status := status)])
  }

  predicate Active(job: Job) { job.status in {Queued, Running, Paused} }

  // ---------- ingestion runs ----------

  /** The claim of `run_ingestion`; `stale` says whether the clock calls the document's last update stale. */
  predicate CanClaim(s: State, d: DocId, stale: bool) {
    d in s.docs && (s.docs[d].status in {DocPending, DocFailed} || (s.docs[d].status == DocProcessing && stale))
  }

  function ClaimDocument(s: State, r: RunId, d: DocId, target: Version, stale: bool): State {
    if r in s.runs || r in s.published || !CanClaim(s, d, stale) then s
    else WithDoc(s, d, DocProcessing, None).(runs := s.runs[r := Run(d, target)])
  }

  /** The publishing transaction of `run_ingestion`. */
  function Publish(s: State, r: RunId, rows: seq<Row>): State {
    if r !in s.runs || !IsBatch(rows, s.runs[r].doc, r, s.runs[r].target) then s
    else
      var run := s.runs[r];
      var ended := s.(runs := s.runs - {r});
      if run.doc !in s.docs || s.docs[run.doc].status != DocProcessing then ended
      else ended.(
        chunks := Replaced(s.chunks, run.doc, rows),
        docs := s.docs[run.doc := Doc(s.docs[run.doc].kb, DocReady, Some(run.target), None)],
        generation := Bumped(s.generation, s.docs[run.doc].kb),
        published := s.published[r := rows])
  }

  /** `_mark_failed`. */
  function FailRun(s: State, r: RunId, stage: Stage): State {
    if r !in s.runs then s
    else
      var run := s.runs[r];
      var ended := s.(runs := s.runs - {r});
      if run.doc !in s.docs || s.docs[run.doc].status != DocProcessing then ended
      else WithDoc(ended, run.doc, DocFailed, Some(stage))
  }

  // ---------- administrators: documents ----------

  function AddDocument(s: State, d: DocId, kb: KbId): State {
    if d in s.docs then s
    else s.(docs := s.docs[d := Doc(kb, DocPending, None, None)])
  }

  function RetryDocument(s: State, d: DocId): State {
    if d !in s.docs || s.docs[d].status != DocFailed then s else WithDoc(s, d, DocPending, None)
  }

  function DeleteDocument(s: State, d: DocId): State {
    if d !in s.docs || s.docs[d].status == DocDeleting then s
    else WithDoc(s, d, DocDeleting, None).(generation := Bumped(s.generation, s.docs[d].kb))
  }

  /** `run_purge`: the row goes, and with it its chunks and its items. */
  function PurgeDocument(s: State, d: DocId): State {
    if d !in s.docs || s.docs[d].status != DocDeleting then s
    else s.(
      docs := s.docs - {d},
      chunks := Without(s.chunks, d),
      items := map k | k in s.items && k.doc != d :: s.items[k],
      generation := Bumped(s.generation, s.docs[d].kb))
  }

  // ---------- administrators: jobs ----------

  predicate Eligible(s: State, d: DocId, target: Version) {
    d in s.docs && s.docs[d].status in {DocReady, DocFailed} && HasOtherChild(s.chunks, d, target)
  }

  /** `_create_job` for a selection of documents. */
  function AddJob(s: State, j: JobId, target: Version, batchSize: nat, docs: set<DocId>): State {
    if j in s.jobs || (exists k <- s.jobs :: Active(s.jobs[k])) || docs == {} then s
    else s.(
      jobs := s.jobs[j := Job(target, Queued, batchSize, |docs|, 0, 0)],
      items := s.items + map k | k in KeysFor(j, docs) :: Item(Pending, 0))
  }

  function KeysFor(j: JobId, docs: set<DocId>): set<Key> { set d <- docs :: Key(j, d) }

  function CreateJob(s: State, j: JobId, target: Version, batchSize: nat, docs: set<DocId>): State {
    if forall d <- docs :: Eligible(s, d, target) then AddJob(s, j, target, batchSize, docs) else s
  }

  predicate RolledBack(s: State, source: JobId, d: DocId) {
    Key(source, d) in s.items && s.items[Key(source, d)].status == Completed
    && d in s.docs && s.docs[d].status == DocReady
  }

  function RollbackJob(s: State, source: JobId, j: JobId, batchSize: nat): State {
    if source !in s.jobs || s.jobs[source].status != JobCompleted || s.jobs[source].target != Hierarchical then s
    else AddJob(s, j, Legacy, batchSize, set d <- s.docs | RolledBack(s, source, d))
  }

  /** Both the administrator's pause and the pause after a lost queue. */
  function PauseJob(s: State, j: JobId): State {
    if j !in s.jobs || s.jobs[j].status !in {Queued, Running} then s else WithJob(s, j, Paused)
  }

  function ResumeJob(s: State, j: JobId): State {
    if j !in s.jobs || s.jobs[j].status != Paused then s else WithJob(s, j, Queued)
  }

  function CancelJob(s: State, j: JobId): State {
    if j !in s.jobs || !Active(s.jobs[j]) then s
    else WithJob(s, j, JobCancelled).(
      items := map k | k in s.items ::
        if k.job == j && s.items[k].status == Pending then s.items[k].(status := Cancelled) else s.items[k])
  }

  // ---------- re-index workers ----------

  /** The first loop of `_claim_batch` for one item that the clock calls stale. */
  function ResetStale(s: State, j: JobId, d: DocId, maxAttempts: nat): State
    requires j in s.jobs
  {
    var k := Key(j, d);
    if k !in s.items || s.items[k].status != Processing then s
    else if d in s.docs && s.docs[d].status == DocReady && HasChild(s.chunks, d, s.jobs[j].target) then
      WithItem(s, k, Completed)
    else
      var s1 := if d in s.docs && s.docs[d].status in {DocPending, DocProcessing, DocFailed}
                then WithDoc(s, d, DocReady, None) else s;
      WithItem(s1, k, if s.items[k].attempts >= maxAttempts then Failed else Pending)
  }

  /** The second loop of `_claim_batch` for one pending item. */
  function ClaimItem(s: State, j: JobId, d: DocId): State
  {
    var k := Key(j, d);
    if k !in s.items || s.items[k].status != Pending then s
    else if d !in s.docs || s.docs[d].status !in {DocReady, DocFailed} then WithItem(s, k, Failed)
    else
      var s1 := WithDoc(s, d, DocPending, None);
      s1.(items := s1.items[k := Item(Processing, s1.items[k].attempts + 1)])
  }

  function ResetAll(s: State, j: JobId, stale: seq<DocId>, maxAttempts: nat): (r: State)
    requires j in s.jobs
    ensures r.jobs == s.jobs
    decreases |stale|
  {
    if stale == [] then s
    else ResetAll(ResetStale(s, j, stale[0], maxAttempts), j, stale[1..], maxAttempts)
  }

  function ClaimAll(s: State, j: JobId, picked: seq<DocId>): (r: State)
    ensures r.jobs == s.jobs
    decreases |picked|
  {
    if picked == [] then s else ClaimAll(ClaimItem(s, j, picked[0]), j, picked[1..])
  }

  /** `_claim_batch`, with the stale and the picked items as found by its two queries. */
  function ClaimBatch(s: State, j: JobId, stale: seq<DocId>, picked: seq<DocId>, maxAttempts: nat): State {
    if j !in s.jobs || s.jobs[j].status !in {Queued, Running} || |picked| > s.jobs[j].batchSize then s
    else ClaimAll(ResetAll(WithJob(s, j, Running), j, stale, maxAttempts), j, picked)
  }

  /** `retryable_reindex_failure`. */
  predicate Retryable(doc: Doc, attempts: nat, maxAttempts: nat) {
    doc.status == DocFailed && attempts < maxAttempts && doc.error in {Some(Embed), Some(Persist)}
  }

  /** `_finish_item`; nothing in it asks whether the item is still being processed. */
  function FinishItem(s: State, j: JobId, d: DocId, maxAttempts: nat): State {
    var k := Key(j, d);
    if j !in s.jobs || k !in s.items then s
    else if d in s.docs && s.docs[d].status == DocReady && HasChild(s.chunks, d, s.jobs[j].target) then
      WithItem(s, k, Completed)
    else if d in s.docs && Retryable(s.docs[d], s.items[k].attempts, maxAttempts) then WithItem(s, k, Pending)
    else WithItem(s, k, Failed)
  }

  function ItemsWith(s: State, j: JobId, status: ItemStatus): set<Key> {
    set k <- s.items | k.job == j && s.items[k].status == status
  }

  /** `_refresh_job`. */
  function RefreshJob(s: State, j: JobId): State {
    if j !in s.jobs then s
    else
      var failed := |ItemsWith(s, j, Failed)|;
      var job := s.jobs[j].(completed := |ItemsWith(s, j, Completed)|, failed := failed);
      var ends := job.status == Running && ItemsWith(s, j, Pending) == {} && ItemsWith(s, j, Processing) == {};
      s.(jobs := s.jobs[j := job.(status := if !ends then job.status else if failed > 0 then JobFailed else JobCompleted)])
  }

  // ---------- events and runs of the whole system ----------

  datatype Event =
    | ClaimDocumentEvent(run: RunId, doc: DocId, target: Version, isStale: bool)
    | PublishEvent(run: RunId, rows: seq<Row>)
    | FailEvent(run: RunId, stage: Stage)
    | AddDocumentEvent(doc: DocId, kb: KbId)
    | RetryEvent(doc: DocId)
    | DeleteEvent(doc: DocId)
    | PurgeEvent(doc: DocId)
    | CreateJobEvent(job: JobId, target: Version, batchSize: nat, docs: set<DocId>)
    | RollbackEvent(source: JobId, job: JobId, batchSize: nat)
    | PauseEvent(job: JobId)
    | ResumeEvent(job: JobId)
    | CancelEvent(job: JobId)
    | ClaimBatchEvent(job: JobId, stale: seq<DocId>, picked: seq<DocId>)
    | FinishItemEvent(job: JobId, doc: DocId)
    | RefreshEvent(job: JobId)

  function Apply(s: State, e: Event, maxAttempts: nat): State {
    match e
    case ClaimDocumentEvent(r, d, v, stale) => ClaimDocument(s, r, d, v, stale)
    case PublishEvent(r, rows) => Publish(s, r, rows)
    case FailEvent(r, stage) => FailRun(s, r, stage)
    case AddDocumentEvent(d, kb) => AddDocument(s, d, kb)
    case RetryEvent(d) => RetryDocument(s, d)
    case DeleteEvent(d) => DeleteDocument(s, d)
    case PurgeEvent(d) => PurgeDocument(s, d)
    case CreateJobEvent(j, v, n, docs) => CreateJob(s, j, v, n, docs)
    case RollbackEvent(source, j, n) => RollbackJob(s, source, j, n)
    case PauseEvent(j) => PauseJob(s, j)
    case ResumeEvent(j) => ResumeJob(s, j)
    case CancelEvent(j) => CancelJob(s, j)
    case ClaimBatchEvent(j, stale, picked) => ClaimBatch(s, j, stale, picked, maxAttempts)
    case FinishItemEvent(j, d) => FinishItem(s, j, d, maxAttempts)
    case RefreshEvent(j) => RefreshJob(s, j)
  }

  /** The state after a sequence of committed transactions, from an empty installation. */
  function After(events: seq<Event>, maxAttempts: nat): State {
    if events == [] then EMPTY
    else Apply(After(events[..|events| - 1], maxAttempts), events[|events| - 1], maxAttempts)
  }
}
