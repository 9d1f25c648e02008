/** The browser client of an upload: its retry loop over a network that loses requests and answers, against a
    server that crashes and serves others in between. */
module UploadClient {
  import opened Wrappers
  import opened Uploads
  import opened UploadSafety
  import opened UploadRecovery

  /** What becomes of one request: answered, served with the answer lost, never delivered, or cut off by a crash. */
  datatype Delivery = Answered | AnswerLost | Undelivered | Died(done: nat, torn: nat)

  /** One attempt: what others do first, whether the session has expired, and the fate of the request. */
  datatype Attempt = Attempt(others: seq<Event>, isExpired: bool, delivery: Delivery)

  datatype Transfer = Done(document: DocumentId) | Rejected | Paused

  const MAX_RETRIES := 3

  function PartAt(file: Bytes, offset: nat, partSize: nat): Bytes
    requires offset <= |file|
  {
    file[offset..Min(|file|, offset + partSize)]
  }

  /** Others may do anything but open the session anew or send it bytes that are not the file's. */
  predicate IsHarmless(e: Event, u: UploadId, file: Bytes) {
    match e.request
    case Create(v, _, _, _, _, _, _) => v != u
    case Put(v, offset, _, _, content, _) => v == u ==> offset + |content| <= |file| && content == file[offset..offset + |content|]
    case _ => true
  }

  /** The session, if it is still there, is for this file and has confirmed at least `offset` bytes of it. */
  predicate Agrees(db: Database, u: UploadId, file: Bytes, partSize: nat, offset: nat) {
    u in db.uploads ==>
      var x := db.uploads[u];
      x.total == |file| && x.partSize == partSize && x.confirmed <= file && offset <= x.received
  }

  /** Between parts the client stands at a whole number of parts or at the end. */
  predicate IsStep(file: Bytes, partSize: nat, offset: nat) {
    offset <= |file| && partSize > 0 && (offset == |file| || offset % partSize == 0)
  }

  // ---------- what requests do to the session ----------

  predicate CommitsAgree(plan: seq<Action>, u: UploadId, file: Bytes, partSize: nat, offset: nat) {
    forall a <- plan :: a.Commit? ==> Agrees(a.db, u, file, partSize, offset)
  }

  lemma {:induction false} AgreementStays(s: State, plan: seq<Action>, u: UploadId, file: Bytes, partSize: nat, offset: nat,
                                          done: nat, torn: nat)
    requires Agrees(s.db, u, file, partSize, offset) && CommitsAgree(plan, u, file, partSize, offset)
    ensures Agrees(PerformAll(s, plan).db, u, file, partSize, offset)
    ensures Agrees(Interrupted(s, plan, done, torn).db, u, file, partSize, offset)
    decreases |plan|
  {
    hide Agrees;
    if plan != [] {
      AgreementStays(Perform(s, plan[0]), plan[1..], u, file, partSize, offset, if done > 0 then done - 1 else 0, torn);
    }
  }

  lemma PlansAgree(s: State, r: Request, sha: Bytes -> Digest, u: UploadId, file: Bytes, partSize: nat, offset: nat)
    requires Inv(s, sha) && Agrees(s.db, u, file, partSize, offset) && IsHarmless(Served(r), u, file)
    ensures CommitsAgree(Plan(s, r, sha), u, file, partSize, offset)
  {
    hide PutPlan, CompletePlan, ReconcilePlan;
    match r
    case Reconcile(picked, expired) => ReconcilePlanAgrees(s, picked, expired, u, file, partSize, offset);
    case Put(v, at, length, digest, content, expired) =>
      PutPlanAgrees(s, v, at, length, digest, content, expired, sha, u, file, partSize, offset);
    case Complete(v, d, valid, full, outcome, expired) =>
      CompletePlanAgrees(s, v, d, valid, full, outcome, expired, sha, u, file, partSize, offset);
    case _ =>
  }

  lemma DiscardsAgree(s: State, v: UploadId, u: UploadId, file: Bytes, partSize: nat, offset: nat)
    requires v in s.db.uploads && Agrees(s.db, u, file, partSize, offset)
    ensures CommitsAgree(FailPlan(s, v), u, file, partSize, offset)
    ensures CommitsAgree(ExpirePlan(s, v), u, file, partSize, offset)
  {}

  lemma ReconcilePlanAgrees(s: State, picked: seq<UploadId>, expired: set<UploadId>, u: UploadId, file: Bytes, partSize: nat,
                            offset: nat)
    requires Agrees(s.db, u, file, partSize, offset)
    ensures CommitsAgree(ReconcilePlan(s, picked, expired), u, file, partSize, offset)
  {
    hide Agrees, ReconciledDatabase, AllRepairs;
    RepairsDoNotCommit(s, picked, expired);
    ReconciledAgrees(s, picked, expired, u, file, partSize, offset);
  }

  lemma PutPlanAgrees(s: State, v: UploadId, at: nat, length: nat, digest: Digest, content: Bytes, isExpired: bool,
                      sha: Bytes -> Digest, u: UploadId, file: Bytes, partSize: nat, offset: nat)
    requires Inv(s, sha) && Agrees(s.db, u, file, partSize, offset)
    requires v == u ==> at + |content| <= |file| && content == file[at..at + |content|]
    ensures CommitsAgree(PutPlan(s, v, at, length, digest, content, isExpired, sha), u, file, partSize, offset)
  {
    if v in s.db.uploads {
      hide Agrees, FailPlan, ExpirePlan, Inv;
      DiscardsAgree(s, v, u, file, partSize, offset);
      var db := WithSession(s.db, v, Confirmed(s.db.uploads[v], length, digest, content));
      if IsNextPart(s.db.uploads[v], at, length, digest, content, sha) {
        NextPartAgrees(s, v, at, length, digest, content, sha, u, file, partSize, offset);
      }
    }
  }

  lemma NextPartAgrees(s: State, v: UploadId, at: nat, length: nat, digest: Digest, content: Bytes, sha: Bytes -> Digest,
                       u: UploadId, file: Bytes, partSize: nat, offset: nat)
    requires Inv(s, sha) && v in s.db.uploads && Agrees(s.db, u, file, partSize, offset)
    requires IsNextPart(s.db.uploads[v], at, length, digest, content, sha)
    requires v == u ==> at + |content| <= |file| && content == file[at..at + |content|]
    ensures Agrees(WithSession(s.db, v, Confirmed(s.db.uploads[v], length, digest, content)), u, file, partSize, offset)
  {
    if v == u { PartAgrees(s, length, digest, content, sha, u, file, partSize, offset); }
  }

  lemma CompletePlanAgrees(s: State, v: UploadId, d: DocumentId, isValid: bool, isFull: bool, outcome: Outcome,
                           isExpired: bool, sha: Bytes -> Digest, u: UploadId, file: Bytes, partSize: nat, offset: nat)
    requires Agrees(s.db, u, file, partSize, offset)
    ensures CommitsAgree(CompletePlan(s, v, d, isValid, isFull, outcome, isExpired, sha), u, file, partSize, offset)
  {
    if v in s.db.uploads {
      DiscardsAgree(s, v, u, file, partSize, offset);
      assert Agrees(CompletedDatabase(s.db, v, d), u, file, partSize, offset);
      hide Agrees, FailPlan, ExpirePlan, CompletedDatabase;
    }
  }

  lemma ReconciledAgrees(s: State, picked: seq<UploadId>, expired: set<UploadId>, u: UploadId, file: Bytes, partSize: nat,
                         offset: nat)
    requires Agrees(s.db, u, file, partSize, offset)
    ensures Agrees(ReconciledDatabase(s, picked, expired), u, file, partSize, offset)
  {
    hide IsBroken;
  }

  lemma PartAgrees(s: State, length: nat, digest: Digest, content: Bytes, sha: Bytes -> Digest, u: UploadId, file: Bytes,
                   partSize: nat, offset: nat)
    requires Inv(s, sha) && u in s.db.uploads && Agrees(s.db, u, file, partSize, offset)
    ensures var x := s.db.uploads[u];
            x.received + |content| <= |file| && content == file[x.received..x.received + |content|] ==>
              Agrees(WithSession(s.db, u, Confirmed(x, length, digest, content)), u, file, partSize, offset)
  {
    var x := s.db.uploads[u];
    assert SessionHolds(s, u, sha);
    if x.received + |content| <= |file| && content == file[x.received..x.received + |content|] {
      assert x.confirmed + content == file[..x.received + |content|];
    }
  }

  /** Nothing that happens in between takes bytes back or mixes in others. */
  lemma EventAgrees(s: State, e: Event, sha: Bytes -> Digest, u: UploadId, file: Bytes, partSize: nat, offset: nat)
    requires Inv(s, sha) && Agrees(s.db, u, file, partSize, offset) && IsHarmless(e, u, file)
    ensures Inv(Apply(s, e, sha), sha) && Agrees(Apply(s, e, sha).db, u, file, partSize, offset)
  {
    hide Inv, Agrees, Plan;
    ApplyKeeps(s, e, sha);
    PlansAgree(s, e.request, sha, u, file, partSize, offset);
    match e
    case Served(r) => AgreementStays(s, Plan(s, r, sha), u, file, partSize, offset, 0, 0);
    case Crashed(r, done, torn) => AgreementStays(s, Plan(s, r, sha), u, file, partSize, offset, done, torn);
  }

  function ApplyAll(s: State, events: seq<Event>, sha: Bytes -> Digest): State
    decreases |events|
  {
    if events == [] then s else ApplyAll(Apply(s, events[0], sha), events[1..], sha)
  }

  lemma {:induction false} EventsAgree(s: State, events: seq<Event>, sha: Bytes -> Digest, u: UploadId, file: Bytes,
                                       partSize: nat, offset: nat)
    requires Inv(s, sha) && Agrees(s.db, u, file, partSize, offset) && forall e <- events :: IsHarmless(e, u, file)
    ensures Inv(ApplyAll(s, events, sha), sha) && Agrees(ApplyAll(s, events, sha).db, u, file, partSize, offset)
    decreases |events|
  {
    hide Inv, Agrees, Apply, IsHarmless;
    if events != [] {
      EventAgrees(s, events[0], sha, u, file, partSize, offset);
      EventsAgree(Apply(s, events[0], sha), events[1..], sha, u, file, partSize, offset);
    }
  }

  // ---------- what the client is told ----------

  /** A confirmation moves the client forward, to where the server is. */
  lemma ConfirmationAdvances(s: State, sha: Bytes -> Digest, u: UploadId, file: Bytes, partSize: nat, offset: nat,
                             isExpired: bool)
    requires Inv(s, sha) && Agrees(s.db, u, file, partSize, offset) && IsStep(file, partSize, offset) && offset < |file|
    ensures var part := PartAt(file, offset, partSize);
            var r := Put(u, offset, |part|, sha(part), part, isExpired);
            var answer := PutAnswer(s, u, offset, |part|, sha(part), part, isExpired, sha);
            answer.PartConfirmed? ==>
              && offset < answer.nextOffset && IsStep(file, partSize, answer.nextOffset)
              && Agrees(Apply(s, Served(r), sha).db, u, file, partSize, answer.nextOffset)
  {
    var part := PartAt(file, offset, partSize);
    var r := Put(u, offset, |part|, sha(part), part, isExpired);
    var answer := PutAnswer(s, u, offset, |part|, sha(part), part, isExpired, sha);
    if answer.PartConfirmed? {
      var x := s.db.uploads[u];
      assert SessionHolds(s, u, sha);
      if IsReplay(x, offset, |part|, sha(part)) {
        ReplayChangesNothing(s, u, offset, |part|, sha(part), part, 0, 0, sha);
      } else {
        AppendedPart(s, sha, u, file, partSize, offset);
      }
    }
  }

  lemma AppendedPart(s: State, sha: Bytes -> Digest, u: UploadId, file: Bytes, partSize: nat, offset: nat)
    requires Inv(s, sha) && Agrees(s.db, u, file, partSize, offset) && IsStep(file, partSize, offset) && offset < |file|
    requires var part := PartAt(file, offset, partSize);
             && PutAnswer(s, u, offset, |part|, sha(part), part, false, sha).PartConfirmed?
             && !IsReplay(s.db.uploads[u], offset, |part|, sha(part))
    ensures var part := PartAt(file, offset, partSize);
            var t := Apply(s, Served(Put(u, offset, |part|, sha(part), part, false)), sha);
            && Agrees(t.db, u, file, partSize, offset + |part|) && IsStep(file, partSize, offset + |part|)
  {
    var part := PartAt(file, offset, partSize);
    var x := s.db.uploads[u];
    assert SessionHolds(s, u, sha);
    var plan := AppendPlan(s, u, |part|, sha(part), part);
    var db := WithSession(s.db, u, Confirmed(x, |part|, sha(part), part));
    PartAgrees(s, |part|, sha(part), part, sha, u, file, partSize, offset);
    assert Agrees(db, u, file, partSize, offset + |part|);
    assert plan == plan[..|plan| - 1] + [Commit(db)];
    PerformConcat(s, plan[..|plan| - 1], [Commit(db)]);
    CommitLast(PerformAll(s, plan[..|plan| - 1]), db);
    StepsOfParts(offset, offset, partSize);
  }

  /** While the session is open, has not expired, and nobody has begun to discard it, every delivered attempt is
      confirmed, also the retry of a part whose first confirmation was lost. */
  lemma RetriesAreConfirmed(s: State, sha: Bytes -> Digest, u: UploadId, file: Bytes, partSize: nat, offset: nat)
    requires Inv(s, sha) && IsOpen(s, u) && u !in s.discarded
    requires Agrees(s.db, u, file, partSize, offset) && IsStep(file, partSize, offset) && offset < |file|
    ensures var part := PartAt(file, offset, partSize);
            var answer := PutAnswer(s, u, offset, |part|, sha(part), part, false, sha);
            answer.PartConfirmed? && offset < answer.nextOffset
  {
    var part, x := PartAt(file, offset, partSize), s.db.uploads[u];
    assert SessionHolds(s, u, sha);
    if offset < x.received {
      assert offset in x.receipts && ReceiptHolds(x, offset, sha);
      var length := x.receipts[offset].length;
      assert x.confirmed[offset..offset + length] == file[offset..offset + length] == part;
    } else {
      assert offset == x.received && offset !in x.receipts;
    }
  }

  /** A completion that is answered with a Document leaves that Document, and only that one, with this file. */
  lemma CompletionDelivers(s: State, sha: Bytes -> Digest, u: UploadId, file: Bytes, partSize: nat, d: DocumentId,
                           isValid: bool, isFull: bool, outcome: Outcome, isExpired: bool)
    requires Inv(s, sha) && Agrees(s.db, u, file, partSize, |file|)
    ensures var t := Apply(s, Served(Complete(u, d, isValid, isFull, outcome, isExpired)), sha);
            var answer := CompleteAnswer(s, u, d, isValid, isFull, outcome, isExpired, sha);
            answer.Document? ==>
              && answer.id in t.db.documents
              && (forall e <- t.db.documents :: t.db.documents[e].file == Some(u) ==> e == answer.id)
              && t.db.documents[answer.id].file == Some(u)
              && (!t.db.documents[answer.id].isDeleting ==> Final(u) in t.files && t.files[Final(u)] == file)
              && (answer.id == d && d !in s.db.documents ==> !t.db.documents[d].isDeleting)
  {
    var r := Complete(u, d, isValid, isFull, outcome, isExpired);
    var t := Apply(s, Served(r), sha);
    var answer := CompleteAnswer(s, u, d, isValid, isFull, outcome, isExpired, sha);
    if answer.Document? {
      ApplyKeeps(s, Served(r), sha);
      EventAgrees(s, Served(r), sha, u, file, partSize, |file|);
      CompletedState(s, u, d, isValid, isFull, outcome, isExpired, sha);
      var x := t.db.uploads[u];
      assert SessionHolds(t, u, sha);
      assert x.confirmed == file;
    }
  }

  lemma CompletedState(s: State, u: UploadId, d: DocumentId, isValid: bool, isFull: bool, outcome: Outcome,
                       isExpired: bool, sha: Bytes -> Digest)
    requires CompleteAnswer(s, u, d, isValid, isFull, outcome, isExpired, sha).Document?
    ensures var t := Apply(s, Served(Complete(u, d, isValid, isFull, outcome, isExpired)), sha);
            var id := CompleteAnswer(s, u, d, isValid, isFull, outcome, isExpired, sha).id;
            && u in t.db.uploads && t.db.uploads[u].status == Completed && t.db.uploads[u].document == Some(id)
            && id in t.db.documents
            && (id == d && d !in s.db.documents ==> t.db.documents[d].file == Some(u) && !t.db.documents[d].isDeleting)
  {
    if s.db.uploads[u].status != Completed {
      var db := CompletedDatabase(s.db, u, d);
      var first := [Move(Temporary(u), Final(u))];
      PerformConcat(s, first, [Commit(db)]);
      CommitLast(PerformAll(s, first), db);
    }
  }

  // ---------- progress ----------

  /** The session waits for parts: open, nothing taken away, and no completion under way. */
  predicate Awaits(s: State, u: UploadId) { IsOpen(s, u) && u !in s.discarded && Final(u) !in s.files }

  /** Still waiting, for the same file of the same Knowledge Base, with the Documents of `db`. */
  predicate AwaitsAs(s: State, u: UploadId, db: Database) {
    && Awaits(s, u) && u in db.uploads && IsOpenFor(s.db, u, db.uploads[u].kb, db.uploads[u].declared)
    && s.db.documents == db.documents
  }

  /** An action that leaves the session waiting. */
  predicate IsGentle(a: Action, u: UploadId, db: Database) {
    match a
    case CreateFile(key) => key == Temporary(u)
    case Extend(key, _) => key == Temporary(u)
    case Truncate(key, _) => key == Temporary(u)
    case Move(_, _) => false
    case Remove(_) => false
    case Commit(after) =>
      && u in db.uploads && u in after.uploads && after.documents == db.documents
      && IsOpenFor(after, u, db.uploads[u].kb, db.uploads[u].declared)
  }

  lemma {:induction false} GentlePlan(s: State, plan: seq<Action>, u: UploadId, db: Database, done: nat, torn: nat)
    requires AwaitsAs(s, u, db) && forall a <- plan :: IsGentle(a, u, db)
    ensures AwaitsAs(PerformAll(s, plan), u, db) && AwaitsAs(Interrupted(s, plan, done, torn), u, db)
    decreases |plan|
  {
    if plan != [] {
      GentleAction(s, plan[0], u, db);
      hide AwaitsAs, IsGentle, Perform;
      assert plan[0] in plan && forall a <- plan[1..] :: a in plan;
      GentlePlan(Perform(s, plan[0]), plan[1..], u, db, if done > 0 then done - 1 else 0, torn);
      if plan[0].Extend? && torn <= |plan[0].content| { TornIsGentle(s, plan[0], torn, u, db); }
    }
  }

  lemma TornIsGentle(s: State, a: Action, torn: nat, u: UploadId, db: Database)
    requires AwaitsAs(s, u, db) && IsGentle(a, u, db) && a.Extend? && torn <= |a.content|
    ensures AwaitsAs(Perform(s, Extend(a.key, a.content[..torn])), u, db)
  {
    GentleAction(s, Extend(a.key, a.content[..torn]), u, db);
  }

  lemma GentleAction(s: State, a: Action, u: UploadId, db: Database)
    requires AwaitsAs(s, u, db)
    ensures IsGentle(a, u, db) ==> AwaitsAs(Perform(s, a), u, db)
  {}

  /** The client's own part, whether it is served or dies on the way, leaves the session waiting. */
  lemma OwnPartKeepsWaiting(s: State, sha: Bytes -> Digest, u: UploadId, file: Bytes, partSize: nat, offset: nat,
                            digest: Digest, db: Database, done: nat, torn: nat)
    requires Inv(s, sha) && AwaitsAs(s, u, db) && offset <= |file|
    ensures var part := PartAt(file, offset, partSize);
            var r := Put(u, offset, |part|, digest, part, false);
            AwaitsAs(Apply(s, Served(r), sha), u, db) && AwaitsAs(Apply(s, Crashed(r, done, torn), sha), u, db)
  {
    var part := PartAt(file, offset, partSize);
    var plan := PutPlan(s, u, offset, |part|, digest, part, false, sha);
    assert forall a <- plan :: IsGentle(a, u, db) by { OwnPlanIsGentle(s, sha, u, offset, |part|, digest, part, db); }
    hide Inv, AwaitsAs, IsGentle, PutPlan;
    GentlePlan(s, plan, u, db, done, torn);
  }

  lemma OwnPlanIsGentle(s: State, sha: Bytes -> Digest, u: UploadId, offset: nat, length: nat, digest: Digest,
                        content: Bytes, db: Database)
    requires Inv(s, sha) && AwaitsAs(s, u, db)
    ensures forall a <- PutPlan(s, u, offset, length, digest, content, false, sha) :: IsGentle(a, u, db)
  {
    hide Tiles, IsReplay, IsNextPart;
    assert SessionHolds(s, u, sha);
    hide Inv;
    var x := s.db.uploads[u];
    assert (if Temporary(u) in s.files then |s.files[Temporary(u)]| else 0) >= x.received;
    assert IsGentle(Commit(s.db), u, db);
    assert IsGentle(Commit(WithSession(s.db, u, Confirmed(x, length, digest, content))), u, db);
  }

  /** How many parts are left from an offset on. */
  function PartsLeft(file: Bytes, partSize: nat, offset: nat): nat
    requires partSize > 0 && offset <= |file|
  {
    (|file| - offset + partSize - 1) / partSize
  }

  /** Every confirmation leaves at least one part fewer. */
  lemma PartsFall(file: Bytes, partSize: nat, offset: nat, next: nat)
    requires IsStep(file, partSize, offset) && IsStep(file, partSize, next) && offset < next
    ensures PartsLeft(file, partSize, next) + 1 <= PartsLeft(file, partSize, offset)
  {
    var n := |file|;
    if next == n {
      Quotient(partSize - 1, partSize, 0);
      QuotientGrows(n - offset + partSize - 1, partSize);
    } else {
      NextStep(offset, next, partSize);
      QuotientLess(n - next + partSize - 1, n - offset + partSize - 1, partSize);
    }
  }

  lemma Quotient(x: nat, n: nat, q: nat)
    requires n > 0 && q * n <= x < q * n + n
    ensures x / n == q
  {
    var k := x / n;
    if k < q { ScaledApart(k, q, n); } else if k > q { ScaledApart(q, k, n); }
  }

  lemma QuotientGrows(x: nat, n: nat)
    requires n > 0 && x >= n
    ensures x / n >= 1
  {
    QuotientLess(x - n, x, n);
  }

  lemma QuotientLess(x: nat, y: nat, n: nat)
    requires n > 0 && x + n <= y
    ensures x / n + 1 <= y / n
  {
    var p, q := x / n, y / n;
    if q < p + 1 {
      if q < p { ScaledApart(q, p, n); }
    }
  }

  lemma NextStep(offset: nat, next: nat, n: nat)
    requires n > 0 && offset < next && offset % n == 0 && next % n == 0
    ensures offset + n <= next
  {
    var p, q := offset / n, next / n;
    if q < p { ScaledApart(q, p, n); }
    if p < q { ScaledApart(p, q, n); }
  }

  /** A completion that everything speaks for is answered with the new Document. */
  lemma CompletionSucceeds(s: State, sha: Bytes -> Digest, u: UploadId, file: Bytes, partSize: nat, d: DocumentId)
    requires Inv(s, sha) && Awaits(s, u) && Agrees(s.db, u, file, partSize, |file|)
    requires s.db.uploads[u].declared == sha(file) && !IsDuplicate(s.db, s.db.uploads[u].kb, s.db.uploads[u].declared)
    requires d !in s.db.documents
    ensures CompleteAnswer(s, u, d, true, false, Accepted, false, sha) == Document(d)
  {
    hide Tiles;
    assert SessionHolds(s, u, sha);
    hide Inv;
    var x := s.db.uploads[u];
    assert x.confirmed == file;
    assert s.files[Temporary(u)] == file;
  }

  /** Nobody else interferes, and of any four attempts in a row one is answered. */
  predicate IsCalm(network: seq<Attempt>) {
    && (forall i :: 0 <= i < |network| ==> network[i].others == [] && !network[i].isExpired)
    && (forall i :: 0 <= i && i + MAX_RETRIES < |network| ==> OneAnswered(network, i))
  }

  predicate OneAnswered(network: seq<Attempt>, i: nat)
    requires i + MAX_RETRIES < |network|
  {
    exists j :: i <= j <= i + MAX_RETRIES && network[j].delivery.Answered?
  }

  predicate AllAnswered(network: seq<Attempt>) { forall i :: 0 <= i < |network| ==> network[i].delivery.Answered? }

  /** The network lets the upload through: calm, and long enough for every part and the completion. */
  predicate LetsThrough(network: seq<Attempt>, file: Bytes, partSize: nat, received: nat)
    requires partSize > 0 && received <= |file|
  {
    IsCalm(network) && |network| > (MAX_RETRIES + 1) * PartsLeft(file, partSize, received)
  }

  /** Nothing speaks against the new Document. */
  predicate IsWelcome(db: Database, u: UploadId, file: Bytes, d: DocumentId, sha: Bytes -> Digest)
    requires u in db.uploads
  {
    && db.uploads[u].declared == sha(file) && d !in db.documents
    && !IsDuplicate(db, db.uploads[u].kb, db.uploads[u].declared)
  }

  // ---------- the client ----------

  predicate Increasing(offsets: seq<nat>) { forall i, j :: 0 <= i < j < |offsets| ==> offsets[i] < offsets[j] }

  lemma IncreasingGrows(offsets: seq<nat>, n: nat)
    requires Increasing(offsets) && offsets != [] && offsets[|offsets| - 1] < n
    ensures Increasing(offsets + [n])
  {}

  lemma SameSession(s: State, u: UploadId, db: Database, file: Bytes, d: DocumentId, sha: Bytes -> Digest)
    requires AwaitsAs(s, u, db) && IsWelcome(db, u, file, d, sha)
    ensures IsWelcome(s.db, u, file, d, sha)
  {}

  lemma StillAwaits(s: State, u: UploadId, db: Database)
    requires AwaitsAs(s, u, db)
    ensures Awaits(s, u)
  {}

  /** Of four attempts in a row, one is answered. */
  lemma OneOfFour(network: seq<Attempt>, i: nat)
    requires IsCalm(network) && MAX_RETRIES < i <= |network|
    ensures exists j :: i - MAX_RETRIES - 1 <= j < i && network[j].delivery.Answered?
  {
    assert OneAnswered(network, i - MAX_RETRIES - 1);
  }

  /** `transferUpload`: send part after part, retrying each up to three times, then complete the session.  The
      attempts are given by the network; when they run out the user has paused the upload. */
  method TransferUpload(start: State, sha: Bytes -> Digest, u: UploadId, file: Bytes, partSize: nat, received: nat,
                        network: seq<Attempt>, d: DocumentId, isValid: bool, isFull: bool, outcome: Outcome)
    returns (server: State, result: Transfer, confirmed: seq<nat>)
    requires Inv(start, sha) && Agrees(start.db, u, file, partSize, received) && IsStep(file, partSize, received)
    requires forall a <- network :: forall e <- a.others :: IsHarmless(e, u, file)
    ensures Inv(server, sha)
    ensures Increasing([received] + confirmed) && forall n <- confirmed :: n <= |file|
    ensures Agrees(server.db, u, file, partSize, if confirmed == [] then received else confirmed[|confirmed| - 1])
    ensures result.Done? ==>
              && (confirmed == [] ==> received == |file|) && (confirmed != [] ==> confirmed[|confirmed| - 1] == |file|)
              && result.document in server.db.documents
              && (forall e <- server.db.documents :: server.db.documents[e].file == Some(u) ==> e == result.document)
              && server.db.documents[result.document].file == Some(u)
              && (!server.db.documents[result.document].isDeleting ==>
                   Final(u) in server.files && server.files[Final(u)] == file)
    ensures Awaits(start, u) && LetsThrough(network, file, partSize, received) ==>
              ([received] + confirmed)[|confirmed|] == |file|
    ensures (&& Awaits(start, u) && LetsThrough(network, file, partSize, received) && AllAnswered(network)
             && IsWelcome(start.db, u, file, d, sha) && isValid && !isFull && outcome == Accepted) ==> result == Done(d)
  {
    hide Inv, Apply, ApplyAll, PutAnswer, CompleteAnswer, Agrees, IsHarmless, AwaitsAs, Awaits, IsCalm, PartsLeft, IsWelcome;
    server := start;
    confirmed := [];
    var offset := received;
    var i := 0;
    ghost var calm := Awaits(start, u) && LetsThrough(network, file, partSize, received);
    ghost var left := PartsLeft(file, partSize, received);
    if calm { AwaitsItself(start, u); }
    while offset < |file|
      invariant Inv(server, sha) && Agrees(server.db, u, file, partSize, offset) && IsStep(file, partSize, offset)
      invariant 0 <= i <= |network| && Increasing([received] + confirmed) && forall n <- confirmed :: n <= |file|
      invariant offset == ([received] + confirmed)[|confirmed|]
      invariant calm ==> AwaitsAs(server, u, start.db)
      invariant calm ==> i <= (MAX_RETRIES + 1) * (left - PartsLeft(file, partSize, offset))
      decreases |file| - offset
    {
      var part := PartAt(file, offset, partSize);
      var checksum := sha(part);
      var retries := 0;
      var answer := Refused;
      ghost var before := i;
      PartsLeftPositive(file, partSize, offset);
      while !answer.PartConfirmed?
        invariant Inv(server, sha) && 0 <= i <= |network| && 0 <= retries <= MAX_RETRIES
        invariant Agrees(server.db, u, file, partSize, if answer.PartConfirmed? then answer.nextOffset else offset)
        invariant answer.PartConfirmed? ==> offset < answer.nextOffset && IsStep(file, partSize, answer.nextOffset)
        invariant calm ==> AwaitsAs(server, u, start.db)
        invariant i == before + retries + if answer.PartConfirmed? then 1 else 0
        invariant !answer.PartConfirmed? ==> forall j :: before <= j < i ==> !network[j].delivery.Answered?
        decreases |network| - i, if answer.PartConfirmed? then 0 else 1
      {
        if i == |network| { return server, Paused, confirmed; }
        var attempt := network[i];
        i := i + 1;
        if calm { CalmAttempt(network, i - 1, server, sha); }
        EventsAgree(server, attempt.others, sha, u, file, partSize, offset);
        server := ApplyAll(server, attempt.others, sha);
        var request := Put(u, offset, |part|, checksum, part, attempt.isExpired);
        OwnPartIsHarmless(u, file, partSize, offset, checksum, attempt.isExpired);
        if attempt.delivery.Answered? {
          answer := PutAnswer(server, u, offset, |part|, checksum, part, attempt.isExpired, sha);
          ConfirmationAdvances(server, sha, u, file, partSize, offset, attempt.isExpired);
          EventAgrees(server, Served(request), sha, u, file, partSize, offset);
          if calm { CalmPart(server, sha, u, file, partSize, offset, start.db, 0, 0); }
          server := Apply(server, Served(request), sha);
          if !answer.PartConfirmed? { return server, Rejected, confirmed; }
        } else {
          if attempt.delivery.AnswerLost? {
            EventAgrees(server, Served(request), sha, u, file, partSize, offset);
            if calm { CalmPart(server, sha, u, file, partSize, offset, start.db, 0, 0); }
            server := Apply(server, Served(request), sha);
          } else if attempt.delivery.Died? {
            EventAgrees(server, Crashed(request, attempt.delivery.done, attempt.delivery.torn), sha, u, file, partSize, offset);
            if calm { CalmPart(server, sha, u, file, partSize, offset, start.db, attempt.delivery.done, attempt.delivery.torn); }
            server := Apply(server, Crashed(request, attempt.delivery.done, attempt.delivery.torn), sha);
          }
          if retries >= MAX_RETRIES {
            if calm { OneOfFour(network, i); }
            return server, Rejected, confirmed;
          }
          retries := retries + 1;
        }
      }
      IncreasingGrows([received] + confirmed, answer.nextOffset);
      assert [received] + confirmed + [answer.nextOffset] == [received] + (confirmed + [answer.nextOffset]);
      PartsFall(file, partSize, offset, answer.nextOffset);
      offset := answer.nextOffset;
      confirmed := confirmed + [offset];
    }
    if i == |network| { return server, Paused, confirmed; }
    var attempt := network[i];
    if calm { CalmAttempt(network, i, server, sha); }
    EventsAgree(server, attempt.others, sha, u, file, partSize, offset);
    server := ApplyAll(server, attempt.others, sha);
    var request := Complete(u, d, isValid, isFull, outcome, attempt.isExpired);
    CompletionIsHarmless(u, d, isValid, isFull, outcome, attempt.isExpired, file);
    result := Rejected;
    if attempt.delivery.Answered? {
      var answer := CompleteAnswer(server, u, d, isValid, isFull, outcome, attempt.isExpired, sha);
      CompletionDelivers(server, sha, u, file, partSize, d, isValid, isFull, outcome, attempt.isExpired);
      if calm && IsWelcome(start.db, u, file, d, sha) { CalmCompletion(server, sha, u, file, partSize, d, start.db); }
      if answer.Document? { result := Done(answer.id); }
    }
    if !attempt.delivery.Undelivered? {
      var event := if attempt.delivery.Died? then Crashed(request, attempt.delivery.done, attempt.delivery.torn) else Served(request);
      EventAgrees(server, event, sha, u, file, partSize, offset);
      server := Apply(server, event, sha);
    }
  }

  lemma AwaitsItself(s: State, u: UploadId)
    requires Awaits(s, u)
    ensures AwaitsAs(s, u, s.db)
  {}

  lemma PartsLeftPositive(file: Bytes, partSize: nat, offset: nat)
    requires partSize > 0 && offset < |file|
    ensures PartsLeft(file, partSize, offset) >= 1
  {
    QuotientGrows(|file| - offset + partSize - 1, partSize);
  }

  /** In a calm attempt nobody else does anything. */
  lemma CalmAttempt(network: seq<Attempt>, i: nat, s: State, sha: Bytes -> Digest)
    requires IsCalm(network) && i < |network|
    ensures network[i].others == [] && !network[i].isExpired && ApplyAll(s, network[i].others, sha) == s
  {}

  /** The client's own part in a calm attempt: it is confirmed, and the session goes on waiting. */
  lemma CalmPart(s: State, sha: Bytes -> Digest, u: UploadId, file: Bytes, partSize: nat, offset: nat, db: Database,
                 done: nat, torn: nat)
    requires Inv(s, sha) && AwaitsAs(s, u, db) && Agrees(s.db, u, file, partSize, offset)
    requires IsStep(file, partSize, offset) && offset < |file|
    ensures var part := PartAt(file, offset, partSize);
            var r := Put(u, offset, |part|, sha(part), part, false);
            && PutAnswer(s, u, offset, |part|, sha(part), part, false, sha).PartConfirmed?
            && AwaitsAs(Apply(s, Served(r), sha), u, db) && AwaitsAs(Apply(s, Crashed(r, done, torn), sha), u, db)
  {
    hide Inv, Agrees, IsStep, PutAnswer, Apply;
    OwnPartKeepsWaiting(s, sha, u, file, partSize, offset, sha(PartAt(file, offset, partSize)), db, done, torn);
    RetriesAreConfirmed(s, sha, u, file, partSize, offset) by { StillAwaits(s, u, db); }
  }

  lemma CalmCompletion(s: State, sha: Bytes -> Digest, u: UploadId, file: Bytes, partSize: nat, d: DocumentId, db: Database)
    requires Inv(s, sha) && AwaitsAs(s, u, db) && Agrees(s.db, u, file, partSize, |file|) && IsWelcome(db, u, file, d, sha)
    ensures CompleteAnswer(s, u, d, true, false, Accepted, false, sha) == Document(d)
  {
    SameSession(s, u, db, file, d, sha);
    StillAwaits(s, u, db);
    CompletionSucceeds(s, sha, u, file, partSize, d);
  }

  lemma OwnPartIsHarmless(u: UploadId, file: Bytes, partSize: nat, offset: nat, digest: Digest, isExpired: bool)
    requires offset <= |file|
    ensures var part := PartAt(file, offset, partSize);
            var r := Put(u, offset, |part|, digest, part, isExpired);
            IsHarmless(Served(r), u, file) && forall done: nat, torn: nat :: IsHarmless(Crashed(r, done, torn), u, file)
  {}

  lemma CompletionIsHarmless(u: UploadId, d: DocumentId, isValid: bool, isFull: bool, outcome: Outcome, isExpired: bool,
                             file: Bytes)
    ensures var r := Complete(u, d, isValid, isFull, outcome, isExpired);
            IsHarmless(Served(r), u, file) && forall done: nat, torn: nat :: IsHarmless(Crashed(r, done, torn), u, file)
  {}
}
