/** Resumable uploads: upload sessions and Documents in the database, temporary and final files on disk.

    A request is a plan: a list of file actions and commits in the order in which they happen.  A crash may fall
    between any two actions of a plan, or leave an append half done.  Requests for one session are serialized by
    the lock on its row.  The clock, the format check and the outcome of a commit are parameters of the requests.
 */
module Uploads {
  import opened Wrappers

  type UploadId = int
  type DocumentId = int
  type KbId = int
  type Byte = b: int | 0 <= b < 256
  type Bytes = seq<Byte>
  type Digest = int

  datatype Status = Open | Completed | Failed

  datatype Receipt = Receipt(length: nat, digest: Digest)

  /** A session row; `confirmed` is history: the bytes of all confirmed parts, in order. */
  datatype Session = Session(
    kb: KbId, declared: Digest, total: nat, partSize: nat, received: nat, status: Status,
    receipts: map<nat, Receipt>, document: Option<DocumentId>, confirmed: Bytes)

  /** A Document row, with the upload whose final file it stores, if it came from one. */
  datatype DocumentRow = DocumentRow(kb: KbId, digest: Digest, size: nat, file: Option<UploadId>, isDeleting: bool)

  datatype Database = Database(uploads: map<UploadId, Session>, documents: map<DocumentId, DocumentRow>)

  datatype FileKey = Temporary(upload: UploadId) | Final(upload: UploadId)

  /** `discarded` is history: the open sessions from which the removal of a file has taken confirmed bytes away. */
  datatype State = State(db: Database, files: map<FileKey, Bytes>, discarded: set<UploadId>)

  // ---------- actions ----------

  datatype Action =
    | CreateFile(key: FileKey)
    | Extend(key: FileKey, content: Bytes)
    | Truncate(key: FileKey, size: nat)
    | Move(source: FileKey, destination: FileKey)
    | Remove(key: FileKey)
    | Commit(db: Database)

  predicate IsOpen(s: State, u: UploadId) { u in s.db.uploads && s.db.uploads[u].status == Open }

  /** The confirmed bytes are on disk: as the whole final file, or at the start of the checkpoint file. */
  predicate IsStored(s: State, u: UploadId)
    requires u in s.db.uploads
  {
    || (Final(u) in s.files && s.files[Final(u)] == s.db.uploads[u].confirmed)
    || (Temporary(u) in s.files && s.db.uploads[u].confirmed <= s.files[Temporary(u)])
  }

  function WithoutFile(s: State, key: FileKey): State { s.(files := s.files - {key}) }

  /** The removal of this file takes confirmed bytes of an open session away. */
  predicate Discards(s: State, key: FileKey) {
    && IsOpen(s, key.upload) && s.db.uploads[key.upload].received > 0
    && IsStored(s, key.upload) && !IsStored(WithoutFile(s, key), key.upload)
  }

  function Removed(s: State, key: FileKey): State {
    WithoutFile(s, key).(discarded := s.discarded + if Discards(s, key) then {key.upload} else {})
  }

  /** A commit ends the history of the sessions that it closes. */
  function Committed(s: State, db: Database): State {
    var t := s.(db := db);
    t.(discarded := set u <- s.discarded | IsOpen(t, u))
  }

  function Perform(s: State, a: Action): State {
    match a
    case CreateFile(key) => s.(files := s.files[key := []])
    case Extend(key, content) => if key in s.files then s.(files := s.files[key := s.files[key] + content]) else s
    case Truncate(key, size) =>
      if key in s.files && size <= |s.files[key]| then s.(files := s.files[key := s.files[key][..size]]) else s
    case Move(source, destination) =>
      if source in s.files then s.(files := (s.files - {source})[destination := s.files[source]]) else s
    case Remove(key) => Removed(s, key)
    case Commit(db) => Committed(s, db)
  }

  function PerformAll(s: State, plan: seq<Action>): State
    decreases |plan|
  {
    if plan == [] then s else PerformAll(Perform(s, plan[0]), plan[1..])
  }

  /** The first `done` actions of a plan happen; of an append that comes next, `torn` bytes reach the disk. */
  function Interrupted(s: State, plan: seq<Action>, done: nat, torn: nat): State
    decreases |plan|
  {
    if plan == [] then s
    else if done > 0 then Interrupted(Perform(s, plan[0]), plan[1..], done - 1, torn)
    else if plan[0].Extend? && torn <= |plan[0].content| then Perform(s, Extend(plan[0].key, plan[0].content[..torn]))
    else s
  }

  // ---------- requests ----------

  /** What the database answers when the completion commits. */
  datatype Outcome = Accepted | Conflict | Unavailable

  datatype Request =
    | Create(upload: UploadId, kb: KbId, declared: Digest, total: nat, partSize: nat, isSameSource: bool, limit: nat)
    | Put(upload: UploadId, offset: nat, length: nat, digest: Digest, content: Bytes, isExpired: bool)
    | Complete(upload: UploadId, document: DocumentId, isValid: bool, isFull: bool, outcome: Outcome, isExpired: bool)
    | Cancel(upload: UploadId)
    | Reconcile(picked: seq<UploadId>, expired: set<UploadId>)
    | AddDocument(document: DocumentId, kb: KbId, digest: Digest, size: nat)
    | DeleteDocument(document: DocumentId)
    | PurgeDocument(document: DocumentId)

  function WithSession(db: Database, u: UploadId, x: Session): Database { db.(uploads := db.uploads[u := x]) }

  function WithoutSession(db: Database, u: UploadId): Database { db.(uploads := db.uploads - {u}) }

  function FailedSession(x: Session): Session { x.(status := Failed, receipts := map[]) }

  predicate IsDuplicate(db: Database, kb: KbId, digest: Digest) {
    exists d <- db.documents :: db.documents[d].kb == kb && db.documents[d].digest == digest
  }

  predicate IsOpenFor(db: Database, u: UploadId, kb: KbId, digest: Digest)
    requires u in db.uploads
  {
    db.uploads[u].kb == kb && db.uploads[u].declared == digest && db.uploads[u].status == Open
  }

  predicate IsOpenElsewhere(db: Database, kb: KbId, digest: Digest) {
    exists u <- db.uploads :: IsOpenFor(db, u, kb, digest)
  }

  function NewSession(kb: KbId, declared: Digest, total: nat, partSize: nat): Session {
    Session(kb, declared, total, partSize, 0, Open, map[], None, [])
  }

  /** The open session of this file, if it is for the same number of bytes. */
  predicate Resumes(db: Database, kb: KbId, declared: Digest, total: nat) {
    exists u <- db.uploads :: IsOpenFor(db, u, kb, declared) && db.uploads[u].total == total
  }

  function ActiveCount(db: Database): nat { |set u <- db.uploads | db.uploads[u].status == Open| }

  /** No trace of this id. */
  predicate IsUnused(s: State, u: UploadId) {
    && u !in s.db.uploads && Temporary(u) !in s.files && Final(u) !in s.files
    && forall d <- s.db.documents :: s.db.documents[d].file != Some(u)
  }

  /** `create_upload_session`: a file with a Document is refused, a file with an open session resumes it (which only
      renews its expiry) or is refused when it differs, and only a new session counts against the limit. */
  function CreatePlan(s: State, u: UploadId, kb: KbId, declared: Digest, total: nat, partSize: nat, isSameSource: bool,
                      limit: nat): seq<Action>
  {
    if total == 0 || partSize == 0 || IsDuplicate(s.db, kb, declared) then []
    else if IsOpenElsewhere(s.db, kb, declared) then
      if Resumes(s.db, kb, declared, total) && isSameSource then [Commit(s.db)] else []
    else if ActiveCount(s.db) >= limit || !IsUnused(s, u) then []
    else [Commit(WithSession(s.db, u, NewSession(kb, declared, total, partSize)))]
  }

  /** `_terminal_failure` and `_fail_inconsistent_session`. */
  function FailPlan(s: State, u: UploadId): seq<Action>
    requires u in s.db.uploads
  {
    [Remove(Temporary(u)), Remove(Final(u)), Commit(WithSession(s.db, u, FailedSession(s.db.uploads[u])))]
  }

  /** `_delete_expired_upload`. */
  function ExpirePlan(s: State, u: UploadId): seq<Action>
    requires u in s.db.uploads
  {
    [Remove(Temporary(u))] + (if s.db.uploads[u].status != Completed then [Remove(Final(u))] else [])
      + [Commit(WithoutSession(s.db, u))]
  }

  function Confirmed(x: Session, length: nat, digest: Digest, content: Bytes): Session {
    x.(received := x.received + length, receipts := x.receipts[x.received := Receipt(length, digest)],
       confirmed := x.confirmed + content)
  }

  /** `append_part` and the commit of the receipt, or the terminal failure when the file is too short. */
  function AppendPlan(s: State, u: UploadId, length: nat, digest: Digest, content: Bytes): seq<Action>
    requires u in s.db.uploads
  {
    var x := s.db.uploads[u];
    var size := if Temporary(u) in s.files then |s.files[Temporary(u)]| else 0;
    (if Temporary(u) in s.files then [] else [CreateFile(Temporary(u))])
      + if size < x.received then FailPlan(s, u)
        else (if size > x.received then [Truncate(Temporary(u), x.received)] else [])
               + [Extend(Temporary(u), content), Commit(WithSession(s.db, u, Confirmed(x, length, digest, content)))]
  }

  predicate IsReplay(x: Session, offset: nat, length: nat, digest: Digest) {
    offset in x.receipts && x.receipts[offset] == Receipt(length, digest)
  }

  predicate IsNextPart(x: Session, offset: nat, length: nat, digest: Digest, content: Bytes, sha: Bytes -> Digest) {
    && offset !in x.receipts && offset == x.received
    && length > 0 && length == Min(x.partSize, x.total - offset) && |content| == length && sha(content) == digest
  }

  /** `put_upload_part`; a replay only renews the expiry. */
  function PutPlan(s: State, u: UploadId, offset: nat, length: nat, digest: Digest, content: Bytes, isExpired: bool,
                   sha: Bytes -> Digest): seq<Action>
  {
    if u !in s.db.uploads then []
    else if isExpired then ExpirePlan(s, u)
    else if s.db.uploads[u].status != Open then []
    else if IsReplay(s.db.uploads[u], offset, length, digest) then [Commit(s.db)]
    else if !IsNextPart(s.db.uploads[u], offset, length, digest, content, sha) then []
    else AppendPlan(s, u, length, digest, content)
  }

  function CompletedDatabase(db: Database, u: UploadId, d: DocumentId): Database
    requires u in db.uploads
  {
    var x := db.uploads[u];
    Database(db.uploads[u := x.(status := Completed, document := Some(d))],
             db.documents[d := DocumentRow(x.kb, x.declared, x.total, Some(u), false)])
  }

  /** The stored file is the one that was declared. */
  predicate FileIsDeclared(s: State, u: UploadId, sha: Bytes -> Digest)
    requires u in s.db.uploads
  {
    Temporary(u) in s.files && |s.files[Temporary(u)]| == s.db.uploads[u].total
    && sha(s.files[Temporary(u)]) == s.db.uploads[u].declared
  }

  /** `complete_upload_session`. */
  function CompletePlan(s: State, u: UploadId, d: DocumentId, isValid: bool, isFull: bool, outcome: Outcome,
                        isExpired: bool, sha: Bytes -> Digest): seq<Action>
  {
    if u !in s.db.uploads || s.db.uploads[u].status == Completed then []
    else if isExpired then ExpirePlan(s, u)
    else if s.db.uploads[u].status != Open || s.db.uploads[u].received != s.db.uploads[u].total then []
    else if !FileIsDeclared(s, u, sha) || !isValid || isFull
            || IsDuplicate(s.db, s.db.uploads[u].kb, s.db.uploads[u].declared) then FailPlan(s, u)
    else
      [Move(Temporary(u), Final(u))]
        + if outcome == Accepted && d !in s.db.documents then [Commit(CompletedDatabase(s.db, u, d))]
          else [Move(Final(u), Temporary(u))] + if outcome == Unavailable then [] else FailPlan(s, u)
  }

  /** `cancel_upload_session`. */
  function CancelPlan(s: State, u: UploadId): seq<Action> {
    if u !in s.db.uploads || s.db.uploads[u].status == Completed then []
    else [Remove(Temporary(u)), Remove(Final(u)), Commit(WithoutSession(s.db, u))]
  }

  // ---------- reconciliation ----------

  /** The size that the checkpoint file of an open session has once a stray final file is put back. */
  function StoredSize(s: State, u: UploadId): Option<nat> {
    if Temporary(u) in s.files then Some(|s.files[Temporary(u)]|)
    else if Final(u) in s.files then Some(|s.files[Final(u)]|)
    else None
  }

  /** An open session whose confirmed bytes are not all there. */
  predicate IsBroken(s: State, u: UploadId)
    requires u in s.db.uploads
  {
    && s.db.uploads[u].status == Open
    && (if StoredSize(s, u).None? then s.db.uploads[u].received > 0
        else StoredSize(s, u).value < s.db.uploads[u].received)
  }

  /** The file actions of `reconcile_upload_sessions` for one session. */
  function Repairs(s: State, u: UploadId, isExpired: bool): seq<Action> {
    if u !in s.db.uploads then []
    else
      var x := s.db.uploads[u];
      if isExpired then
        [Remove(Temporary(u))] + if x.status != Completed then [Remove(Final(u))] else []
      else if x.status == Open then
        (if Final(u) !in s.files then []
         else if Temporary(u) in s.files then [Remove(Final(u))]
         else [Move(Final(u), Temporary(u))])
          + if IsBroken(s, u) then [Remove(Temporary(u)), Remove(Final(u))]
            else if StoredSize(s, u).Some? && StoredSize(s, u).value > x.received then [Truncate(Temporary(u), x.received)]
            else []
      else
        [Remove(Temporary(u))] + if x.status == Failed then [Remove(Final(u))] else []
  }

  function AllRepairs(s: State, picked: seq<UploadId>, expired: set<UploadId>): seq<Action> {
    if picked == [] then []
    else Repairs(s, picked[0], picked[0] in expired) + AllRepairs(s, picked[1..], expired)
  }

  function ReconciledDatabase(s: State, picked: seq<UploadId>, expired: set<UploadId>): Database {
    s.db.(uploads := map u | u in s.db.uploads && !(u in picked && u in expired) ::
            if u in picked && IsBroken(s, u) then FailedSession(s.db.uploads[u]) else s.db.uploads[u])
  }

  predicate Distinct(picked: seq<UploadId>) { forall i, j :: 0 <= i < j < |picked| ==> picked[i] != picked[j] }

  /** `reconcile_upload_sessions` over the sessions that nobody else has locked, with one commit at the end. */
  function ReconcilePlan(s: State, picked: seq<UploadId>, expired: set<UploadId>): seq<Action> {
    if !Distinct(picked) then []
    else AllRepairs(s, picked, expired) + [Commit(ReconciledDatabase(s, picked, expired))]
  }

  // ---------- Documents outside the upload session ----------

  function AddDocumentPlan(s: State, d: DocumentId, kb: KbId, digest: Digest, size: nat): seq<Action> {
    if d in s.db.documents || IsDuplicate(s.db, kb, digest) then []
    else [Commit(s.db.(documents := s.db.documents[d := DocumentRow(kb, digest, size, None, false)]))]
  }

  function DeleteDocumentPlan(s: State, d: DocumentId): seq<Action> {
    if d !in s.db.documents then []
    else [Commit(s.db.(documents := s.db.documents[d := s.db.documents[d].(isDeleting := true)]))]
  }

  /** `run_purge` of a Document that is being deleted: its file, then its row. */
  function PurgePlan(s: State, d: DocumentId): seq<Action> {
    if d !in s.db.documents || !s.db.documents[d].isDeleting then []
    else
      (if s.db.documents[d].file.Some? then [Remove(Final(s.db.documents[d].file.value))] else [])
        + [Commit(Database(map u | u in s.db.uploads ::
                             if s.db.uploads[u].document == Some(d) then s.db.uploads[u].(document := None) else s.db.uploads[u],
                           s.db.documents - {d}))]
  }

  // ---------- answers ----------

  datatype Answer = SessionOpened(upload: UploadId) | PartConfirmed(nextOffset: nat) | Document(id: DocumentId) | Refused

  function PutAnswer(s: State, u: UploadId, offset: nat, length: nat, digest: Digest, content: Bytes, isExpired: bool,
                     sha: Bytes -> Digest): Answer
  {
    if u !in s.db.uploads || isExpired || s.db.uploads[u].status != Open then Refused
    else
      var x := s.db.uploads[u];
      if IsReplay(x, offset, length, digest) then PartConfirmed(x.received)
      else if !IsNextPart(x, offset, length, digest, content, sha) then Refused
      else if (if Temporary(u) in s.files then |s.files[Temporary(u)]| else 0) < x.received then Refused
      else PartConfirmed(x.received + length)
  }

  function CompleteAnswer(s: State, u: UploadId, d: DocumentId, isValid: bool, isFull: bool, outcome: Outcome,
                          isExpired: bool, sha: Bytes -> Digest): Answer
  {
    if u !in s.db.uploads then Refused
    else
      var x := s.db.uploads[u];
      if x.status == Completed then
        if x.document.Some? && x.document.value in s.db.documents then Document(x.document.value) else Refused
      else if isExpired || x.status != Open || x.received != x.total || !FileIsDeclared(s, u, sha) || !isValid || isFull
              || IsDuplicate(s.db, x.kb, x.declared) || outcome != Accepted || d in s.db.documents then Refused
      else Document(d)
  }

  // ---------- plans of all requests ----------

  function Plan(s: State, r: Request, sha: Bytes -> Digest): seq<Action> {
    match r
    case Create(u, kb, declared, total, partSize, isSameSource, limit) =>
      CreatePlan(s, u, kb, declared, total, partSize, isSameSource, limit)
    case Put(u, offset, length, digest, content, expired) => PutPlan(s, u, offset, length, digest, content, expired, sha)
    case Complete(u, d, valid, full, outcome, expired) => CompletePlan(s, u, d, valid, full, outcome, expired, sha)
    case Cancel(u) => CancelPlan(s, u)
    case Reconcile(picked, expired) => ReconcilePlan(s, picked, expired)
    case AddDocument(d, kb, digest, size) => AddDocumentPlan(s, d, kb, digest, size)
    case DeleteDocument(d) => DeleteDocumentPlan(s, d)
    case PurgeDocument(d) => PurgePlan(s, d)
  }

  /** A request that runs to its end, or dies after some of its actions. */
  datatype Event = Served(request: Request) | Crashed(request: Request, done: nat, torn: nat)

  function Apply(s: State, e: Event, sha: Bytes -> Digest): State {
    match e
    case Served(r) => PerformAll(s, Plan(s, r, sha))
    case Crashed(r, done, torn) => Interrupted(s, Plan(s, r, sha), done, torn)
  }

  const EMPTY: State := State(Database(map[], map[]), map[], {})

  /** The state after a sequence of requests and crashes, from an empty installation. */
  function After(events: seq<Event>, sha: Bytes -> Digest): State {
    if events == [] then EMPTY else Apply(After(events[..|events| - 1], sha), events[|events| - 1], sha)
  }
}
