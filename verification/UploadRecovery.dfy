/** Reconciliation after crashes, and what holds in every run of the upload service. */
module UploadRecovery {
  import opened Arithmetic
  import opened Wrappers
  import opened Uploads
  import opened UploadSafety

  // ---------- one session ----------

  /** The files of a session that reconciliation has gone over. */
  predicate IsRepaired(s: State, t: State, u: UploadId, isExpired: bool) {
    u in s.db.uploads ==>
      var x := s.db.uploads[u];
      && (isExpired || x.status != Open || IsBroken(s, u) ==>
           && Temporary(u) !in t.files
           && (x.status != Completed && (isExpired || x.status != Open || IsBroken(s, u)) ==> Final(u) !in t.files)
           && (x.status == Completed ==> (Final(u) in s.files <==> Final(u) in t.files))
           && (x.status == Completed && Final(u) in s.files ==> s.files[Final(u)] == t.files[Final(u)]))
      && (!isExpired && x.status == Open && !IsBroken(s, u) ==>
           && Final(u) !in t.files
           && (Temporary(u) in t.files ==> t.files[Temporary(u)] == x.confirmed)
           && (x.received > 0 ==> Temporary(u) in t.files))
  }

  lemma RepairsAreSafe(s: State, u: UploadId, isExpired: bool, sha: Bytes -> Digest)
    requires Inv(s, sha)
    ensures Safe(s, Repairs(s, u, isExpired), sha)
    ensures var t := PerformAll(s, Repairs(s, u, isExpired));
            Inv(t, sha) && t.db == s.db && IsRepaired(s, t, u, isExpired)
            && (forall v :: v != u ==> SameFiles(s, t, v))
  {
    NothingIsSafe(s, sha);
    if u in s.db.uploads {
      var x := s.db.uploads[u];
      assert SessionHolds(s, u, sha);
      hide Inv, Safe, Tiles;
      if !isExpired && x.status == Open {
        OpenRepairsAreSafe(s, u, sha);
      } else if x.status != Completed {
        DiscardIsSafe(s, u, sha);
        assert Repairs(s, u, isExpired) == [Remove(Temporary(u)), Remove(Final(u))];
      } else {
        RemoveTemporaryIsSafe(s, u, sha);
        assert Repairs(s, u, isExpired) == [Remove(Temporary(u))];
      }
    }
  }

  lemma OpenRepairsAreSafe(s: State, u: UploadId, sha: Bytes -> Digest)
    requires Inv(s, sha) && IsOpen(s, u)
    ensures Safe(s, Repairs(s, u, false), sha)
    ensures var t := PerformAll(s, Repairs(s, u, false));
            Inv(t, sha) && t.db == s.db && IsRepaired(s, t, u, false)
            && (forall v :: v != u ==> SameFiles(s, t, v))
  {
    var x := s.db.uploads[u];
    assert SessionHolds(s, u, sha);
    hide Inv, Safe, Tiles;
    NothingIsSafe(s, sha);
    if Final(u) in s.files {
      OneActionIsSafe(s, Move(Final(u), Temporary(u)), sha);
      assert Repairs(s, u, false) == [Move(Final(u), Temporary(u))];
    } else if IsBroken(s, u) {
      DiscardIsSafe(s, u, sha);
      assert Repairs(s, u, false) == [Remove(Temporary(u)), Remove(Final(u))];
    } else if Temporary(u) in s.files && |s.files[Temporary(u)]| > x.received {
      OneActionIsSafe(s, Truncate(Temporary(u), x.received), sha);
      assert Repairs(s, u, false) == [Truncate(Temporary(u), x.received)];
    }
  }

  // ---------- all sessions ----------

  lemma {:induction false} AllRepairsAreSafe(s: State, t: State, picked: seq<UploadId>, expired: set<UploadId>,
                                             sha: Bytes -> Digest)
    requires Inv(t, sha) && t.db == s.db && Distinct(picked) && forall u <- picked :: SameFiles(s, t, u)
    ensures Safe(t, AllRepairs(s, picked, expired), sha)
    ensures var r := PerformAll(t, AllRepairs(s, picked, expired));
            && Inv(r, sha) && r.db == s.db
            && (forall u <- picked :: IsRepaired(s, r, u, u in expired))
            && (forall u :: u !in picked ==> SameFiles(t, r, u))
    decreases |picked|
  {
    hide Inv, Safe, PerformAll, Repairs;
    if picked == [] {
      NothingIsSafe(t, sha);
    } else {
      var u := picked[0];
      var first, rest := Repairs(s, u, u in expired), AllRepairs(s, picked[1..], expired);
      RepairsAreLocal(s, t, u, u in expired);
      RepairsAreSafe(t, u, u in expired, sha);
      var t1 := PerformAll(t, first);
      forall v | v in picked[1..] ensures SameFiles(s, t1, v) {
        assert v in picked && v != u && SameFiles(s, t, v) && SameFiles(t, t1, v);
      }
      AllRepairsAreSafe(s, t1, picked[1..], expired, sha);
      SafeConcat(t, first, rest, sha);
      PerformConcat(t, first, rest);
      var r := PerformAll(t1, rest);
      forall v | v in picked ensures IsRepaired(s, r, v, v in expired) {
        if v == u {
          assert u !in picked[1..];
          RepairedStays(s, t, t1, r, u, u in expired);
        }
      }
      forall v | v !in picked ensures SameFiles(t, r, v) { assert SameFiles(t, t1, v) && SameFiles(t1, r, v); }
    }
  }

  lemma RepairedStays(s: State, t: State, t1: State, r: State, u: UploadId, isExpired: bool)
    requires t.db == s.db && SameFiles(s, t, u) && IsRepaired(t, t1, u, isExpired) && SameFiles(t1, r, u)
    ensures IsRepaired(s, r, u, isExpired)
  {}

  lemma ReconciliationCommits(s: State, t: State, picked: seq<UploadId>, expired: set<UploadId>, sha: Bytes -> Digest)
    requires Inv(t, sha) && t.db == s.db
    ensures Inv(Committed(t, ReconciledDatabase(s, picked, expired)), sha)
  {
    hide Tiles, CheckpointHolds, IsBroken, Committed;
    var db := ReconciledDatabase(s, picked, expired);
    var r := Committed(t, db);
    CommittedFields(t, db);
    BrokenIsOpen(s, picked);
    StillDiffer(t.db, db);
    forall u | u in r.db.uploads ensures SessionHolds(r, u, sha) {
      assert SessionHolds(t, u, sha);
      if r.db.uploads[u].status == Open { SameCheckpoint(t, r, u); }
    }
    forall d | d in r.db.documents ensures DocumentHolds(r, d, sha) { assert DocumentHolds(t, d, sha); }
  }

  lemma BrokenIsOpen(s: State, picked: seq<UploadId>)
    ensures forall u <- s.db.uploads :: u in picked && IsBroken(s, u) ==> s.db.uploads[u].status == Open
  {}

  lemma ReconcileIsSafe(s: State, picked: seq<UploadId>, expired: set<UploadId>, sha: Bytes -> Digest)
    requires Inv(s, sha)
    ensures Safe(s, ReconcilePlan(s, picked, expired), sha)
  {
    hide Inv, Safe, PerformAll, AllRepairs, ReconciledDatabase;
    NothingIsSafe(s, sha);
    if Distinct(picked) {
      AllRepairsAreSafe(s, s, picked, expired, sha);
      var t, db := PerformAll(s, AllRepairs(s, picked, expired)), ReconciledDatabase(s, picked, expired);
      ReconciliationCommits(s, t, picked, expired, sha);
      CommitIsSafe(t, db, sha);
      SafeConcat(s, AllRepairs(s, picked, expired), [Commit(db)], sha);
    }
  }

  /** After reconciliation has run to its end, every session it went over is exact: an open session's checkpoint
      file holds precisely the confirmed bytes, and there is no final file; a session fails exactly when some of
      its confirmed bytes are gone; expired and failed sessions leave no files, completed ones keep the final file. */
  lemma ReconcileRestores(s: State, picked: seq<UploadId>, expired: set<UploadId>, sha: Bytes -> Digest, u: UploadId)
    requires Inv(s, sha) && Distinct(picked) && u in picked && u in s.db.uploads
    ensures var x := s.db.uploads[u];
            var t := Apply(s, Served(Reconcile(picked, expired)), sha);
            && (u in t.db.uploads <==> u !in expired)
            && (u !in expired && x.status != Open ==> t.db.uploads[u] == x)
            && (u !in expired && x.status == Open ==> t.db.uploads[u] == if IsBroken(s, u) then FailedSession(x) else x)
            && (u !in expired && x.status == Open && !IsBroken(s, u) ==>
                 && Final(u) !in t.files
                 && (Temporary(u) in t.files ==> t.files[Temporary(u)] == x.confirmed)
                 && (Temporary(u) !in t.files ==> x.received == 0))
            && (u in expired || x.status != Open || IsBroken(s, u) ==> Temporary(u) !in t.files)
            && (x.status != Completed && (u in expired || x.status != Open || IsBroken(s, u)) ==> Final(u) !in t.files)
            && (x.status == Completed && Final(u) in s.files ==>
                 Final(u) in t.files && t.files[Final(u)] == s.files[Final(u)])
  {
    hide Inv, Safe, PerformAll, AllRepairs, Repairs, IsBroken;
    AllRepairsAreSafe(s, s, picked, expired, sha);
    var t, db := PerformAll(s, AllRepairs(s, picked, expired)), ReconciledDatabase(s, picked, expired);
    PerformConcat(s, AllRepairs(s, picked, expired), [Commit(db)]);
    CommitLast(t, db);
    BrokenIsOpen(s, picked);
  }

  lemma CommitLast(s: State, db: Database)
    ensures PerformAll(s, [Commit(db)]) == Committed(s, db)
  {
    assert [Commit(db)][1..] == [];
  }

  // ---------- Documents outside the upload sessions ----------

  lemma CreateIsSafe(s: State, u: UploadId, kb: KbId, declared: Digest, total: nat, partSize: nat, isSameSource: bool,
                     limit: nat, sha: Bytes -> Digest)
    requires Inv(s, sha)
    ensures Safe(s, CreatePlan(s, u, kb, declared, total, partSize, isSameSource, limit), sha)
  {
    hide Safe, Inv;
    NothingIsSafe(s, sha);
    SameCommits(s, sha);
    CommitIsSafe(s, s.db, sha);
    if total > 0 && partSize > 0 && !IsOpenElsewhere(s.db, kb, declared) && IsUnused(s, u) {
      CreationCommits(s, u, kb, declared, total, partSize, sha);
      CommitIsSafe(s, WithSession(s.db, u, NewSession(kb, declared, total, partSize)), sha);
    }
  }

  lemma CreationCommits(s: State, u: UploadId, kb: KbId, declared: Digest, total: nat, partSize: nat, sha: Bytes -> Digest)
    requires Inv(s, sha) && total > 0 && partSize > 0 && !IsOpenElsewhere(s.db, kb, declared) && IsUnused(s, u)
    ensures Inv(Committed(s, WithSession(s.db, u, NewSession(kb, declared, total, partSize))), sha)
  {
    hide CheckpointHolds, Committed;
    var db := WithSession(s.db, u, NewSession(kb, declared, total, partSize));
    var t := Committed(s, db);
    CommittedFields(s, db);
    forall v | v in t.db.uploads ensures SessionHolds(t, v, sha) {
      if v == u {
        NewCheckpoint(t, u);
      } else {
        assert SessionHolds(s, v, sha);
        if s.db.uploads[v].status == Open { SameCheckpoint(s, t, v); }
      }
    }
    forall d | d in t.db.documents ensures DocumentHolds(t, d, sha) { assert DocumentHolds(s, d, sha); }
  }

  lemma NewCheckpoint(s: State, u: UploadId)
    requires u in s.db.uploads && s.db.uploads[u].received == 0 && Temporary(u) !in s.files && Final(u) !in s.files
    requires u !in s.discarded
    ensures CheckpointHolds(s, u)
  {}

  lemma StillThere(s: State, db: Database, d: DocumentId)
    requires d in s.db.documents && forall e <- s.db.documents :: e in db.documents
    ensures d in db.documents
  {}

  lemma DocumentsCommit(s: State, db: Database, sha: Bytes -> Digest)
    requires Inv(s, sha) && db.uploads == s.db.uploads && DocumentsDiffer(db)
    requires forall d <- s.db.documents :: d in db.documents
    requires forall d <- db.documents ::
               if d in s.db.documents then db.documents[d] == s.db.documents[d].(isDeleting := db.documents[d].isDeleting)
                                           && (s.db.documents[d].isDeleting ==> db.documents[d].isDeleting)
               else db.documents[d].file.None?
    ensures Safe(s, [Commit(db)], sha)
  {
    hide CheckpointHolds, Safe, DocumentsDiffer, Committed;
    var t := Committed(s, db);
    CommittedFields(s, db);
    StillDiffer(s.db, db);
    forall u | u in t.db.uploads ensures SessionHolds(t, u, sha) {
      assert SessionHolds(s, u, sha);
      var x := s.db.uploads[u];
      if x.document.Some? { StillThere(s, db, x.document.value); }
      if s.db.uploads[u].status == Open { SameCheckpoint(s, t, u); }
    }
    forall d | d in t.db.documents ensures DocumentHolds(t, d, sha) {
      if d in s.db.documents { assert DocumentHolds(s, d, sha); }
    }
    CommitIsSafe(s, db, sha);
  }

  lemma PurgeIsSafe(s: State, d: DocumentId, sha: Bytes -> Digest)
    requires Inv(s, sha)
    ensures Safe(s, PurgePlan(s, d), sha)
  {
    NothingIsSafe(s, sha);
    if d in s.db.documents && s.db.documents[d].isDeleting {
      var file := s.db.documents[d].file;
      var first := if file.Some? then [Remove(Final(file.value))] else [];
      var t := PerformAll(s, first);
      if file.Some? { PurgedFileIsUnused(s, d, file.value, sha); }
      hide Safe, Inv;
      if file.Some? { OneActionIsSafe(s, Remove(Final(file.value)), sha); }
      var db := Database(map u | u in s.db.uploads ::
                           if s.db.uploads[u].document == Some(d) then s.db.uploads[u].(document := None) else s.db.uploads[u],
                         s.db.documents - {d});
      PurgeCommits(t, d, db, sha);
      SafeConcat(s, first, [Commit(db)], sha);
    }
  }

  lemma PurgedFileIsUnused(s: State, d: DocumentId, u: UploadId, sha: Bytes -> Digest)
    requires Inv(s, sha) && d in s.db.documents && s.db.documents[d].isDeleting && s.db.documents[d].file == Some(u)
    ensures Allowed(s, Remove(Final(u)), sha)
  {
    if u in s.db.uploads { assert SessionHolds(s, u, sha); }
  }

  lemma PurgeCommits(s: State, d: DocumentId, db: Database, sha: Bytes -> Digest)
    requires Inv(s, sha) && db.documents == s.db.documents - {d}
    requires db.uploads == map u | u in s.db.uploads ::
               if s.db.uploads[u].document == Some(d) then s.db.uploads[u].(document := None) else s.db.uploads[u]
    ensures Safe(s, [Commit(db)], sha)
  {
    hide CheckpointHolds, Safe, Tiles, Committed;
    var t := Committed(s, db);
    CommittedFields(s, db);
    StillDiffer(s.db, db);
    forall u | u in t.db.uploads ensures SessionHolds(t, u, sha) {
      assert SessionHolds(s, u, sha);
      if s.db.uploads[u].status == Open { DetachedSession(s, t, u, d, sha); }
    }
    forall e | e in t.db.documents ensures DocumentHolds(t, e, sha) { assert DocumentHolds(s, e, sha); }
    CommitIsSafe(s, db, sha);
  }

  lemma DetachedSession(s: State, t: State, u: UploadId, d: DocumentId, sha: Bytes -> Digest)
    requires u in s.db.uploads && u in t.db.uploads && t.files == s.files && (u in t.discarded <==> u in s.discarded)
    requires t.db.uploads[u] == s.db.uploads[u] || t.db.uploads[u] == s.db.uploads[u].(document := None)
    requires Tiles(s.db.uploads[u], sha) && CheckpointHolds(s, u)
    ensures Tiles(t.db.uploads[u], sha) && CheckpointHolds(t, u)
  {}

  // ---------- every request, every crash, every run ----------

  lemma PlansAreSafe(s: State, r: Request, sha: Bytes -> Digest)
    requires Inv(s, sha)
    ensures Safe(s, Plan(s, r, sha), sha)
  {
    NothingIsSafe(s, sha);
    match r
    case Create(u, kb, declared, total, partSize, isSameSource, limit) =>
      CreateIsSafe(s, u, kb, declared, total, partSize, isSameSource, limit, sha);
    case Put(u, offset, length, digest, content, expired) => PutIsSafe(s, u, offset, length, digest, content, expired, sha);
    case Complete(u, d, valid, full, outcome, expired) => CompleteIsSafe(s, u, d, valid, full, outcome, expired, sha);
    case Cancel(u) => CancelIsSafe(s, u, sha);
    case Reconcile(picked, expired) => ReconcileIsSafe(s, picked, expired, sha);
    case AddDocument(d, kb, digest, size) =>
      if AddDocumentPlan(s, d, kb, digest, size) != [] {
        DocumentsCommit(s, s.db.(documents := s.db.documents[d := DocumentRow(kb, digest, size, None, false)]), sha);
      }
    case DeleteDocument(d) =>
      if d in s.db.documents {
        DocumentsCommit(s, s.db.(documents := s.db.documents[d := s.db.documents[d].(isDeleting := true)]), sha);
      }
    case PurgeDocument(d) => PurgeIsSafe(s, d, sha);
  }

  /** Every request keeps the invariant, to its end and wherever a crash cuts it off. */
  lemma ApplyKeeps(s: State, e: Event, sha: Bytes -> Digest)
    requires Inv(s, sha)
    ensures Inv(Apply(s, e, sha), sha)
  {
    hide Inv, Safe, Plan;
    PlansAreSafe(s, e.request, sha);
    match e
    case Served(r) => SafePlanKeeps(s, Plan(s, r, sha), sha, 0, 0);
    case Crashed(r, done, torn) => SafePlanKeeps(s, Plan(s, r, sha), sha, done, torn);
  }

  lemma {:induction false} AlwaysInv(events: seq<Event>, sha: Bytes -> Digest)
    ensures Inv(After(events, sha), sha)
    decreases |events|
  {
    hide Apply;
    if events != [] {
      AlwaysInv(events[..|events| - 1], sha);
      ApplyKeeps(After(events[..|events| - 1], sha), events[|events| - 1], sha);
    }
  }

  /** In every run of requests, crashes and repairs: the receipts of an open session tile its confirmed bytes; and
      those bytes are on disk, at the start of the checkpoint file or (after a crash during completion) as the whole
      final file, if and only if no removal has taken them away. */
  lemma OpenSessionsHold(events: seq<Event>, sha: Bytes -> Digest, u: UploadId)
    requires IsOpen(After(events, sha), u)
    ensures var s := After(events, sha);
            var x := s.db.uploads[u];
            && x.received <= x.total && |x.confirmed| == x.received && Tiles(x, sha)
            && (Temporary(u) in s.files && x.received <= |s.files[Temporary(u)]| ==>
                 x.confirmed == s.files[Temporary(u)][..x.received])
            && (x.received > 0 ==> (IsStored(s, u) <==> u !in s.discarded))
            && (Final(u) in s.files ==> x.received == x.total && Temporary(u) !in s.files)
  {
    hide After, Tiles;
    AlwaysInv(events, sha);
    assert SessionHolds(After(events, sha), u, sha);
  }

  /** In every run: a completed session has at most one Document, and while that is not being deleted, its final
      file is exactly the confirmed bytes, of the declared length and checksum. */
  lemma CompletedSessionsHold(events: seq<Event>, sha: Bytes -> Digest, u: UploadId, d: DocumentId)
    requires var s := After(events, sha);
             d in s.db.documents && s.db.documents[d].file == Some(u)
    ensures var s := After(events, sha);
            && (forall e <- s.db.documents :: s.db.documents[e].file == Some(u) ==> e == d)
            && (!s.db.documents[d].isDeleting ==>
                 && Final(u) in s.files && |s.files[Final(u)]| == s.db.documents[d].size
                 && sha(s.files[Final(u)]) == s.db.documents[d].digest)
            && (u in s.db.uploads ==>
                 var x := s.db.uploads[u];
                 && x.status == Completed && x.document == Some(d) && |x.confirmed| == x.total && sha(x.confirmed) == x.declared
                 && (!s.db.documents[d].isDeleting ==> s.files[Final(u)] == x.confirmed))
  {
    hide After, Tiles, CheckpointHolds;
    AlwaysInv(events, sha);
    var s := After(events, sha);
    assert DocumentHolds(s, d, sha);
    if u in s.db.uploads { assert SessionHolds(s, u, sha); }
  }

  /** A replayed part changes nothing, neither a row nor a byte on disk. */
  lemma ReplayChangesNothing(s: State, u: UploadId, offset: nat, length: nat, digest: Digest, content: Bytes,
                             done: nat, torn: nat, sha: Bytes -> Digest)
    requires IsOpen(s, u) && offset in s.db.uploads[u].receipts
    ensures var t := Apply(s, Served(Put(u, offset, length, digest, content, false)), sha);
            t.db == s.db && t.files == s.files
    ensures var t := Apply(s, Crashed(Put(u, offset, length, digest, content, false), done, torn), sha);
            t.db == s.db && t.files == s.files
  {
    hide Committed;
    var plan := Plan(s, Put(u, offset, length, digest, content, false), sha);
    assert plan == [] || plan == [Commit(s.db)];
    CommittedFields(s, s.db);
    if plan != [] {
      assert plan[1..] == [] && Perform(s, plan[0]) == Committed(s, s.db);
      NothingIsSafe(Committed(s, s.db), sha);
      assert Interrupted(Committed(s, s.db), [], if done > 0 then done - 1 else 0, torn) == Committed(s, s.db);
    }
  }

  /** A Document that is not being deleted survives every request, every crash and every reconciliation with its
      file unchanged, until somebody deletes the Document. */
  lemma DocumentFilesStay(s: State, e: Event, sha: Bytes -> Digest, d: DocumentId)
    requires Inv(s, sha) && d in s.db.documents && !s.db.documents[d].isDeleting && s.db.documents[d].file.Some?
    requires e.request != DeleteDocument(d)
    ensures var key := Final(s.db.documents[d].file.value);
            var t := Apply(s, e, sha);
            d in t.db.documents && t.db.documents[d] == s.db.documents[d]
            && key in s.files && key in t.files && t.files[key] == s.files[key]
  {
    hide Inv, Safe, Plan;
    assert DocumentHolds(s, d, sha) by { InvOfDocument(s, d, sha); }
    PlansAreSafe(s, e.request, sha);
    PlansKeepDocuments(s, e.request, sha, d);
    var plan := Plan(s, e.request, sha);
    match e
    case Served(r) => FileStays(s, plan, sha, d, |plan|, 0);
    case Crashed(r, done, torn) => FileStays(s, plan, sha, d, done, torn);
  }

  lemma InvOfDocument(s: State, d: DocumentId, sha: Bytes -> Digest)
    requires Inv(s, sha) && d in s.db.documents
    ensures DocumentHolds(s, d, sha)
  {}

  predicate KeepsDocument(plan: seq<Action>, d: DocumentId, x: DocumentRow) {
    forall a <- plan :: a.Commit? ==> d in a.db.documents && a.db.documents[d] == x
  }

  lemma PlansKeepDocuments(s: State, r: Request, sha: Bytes -> Digest, d: DocumentId)
    requires d in s.db.documents && !s.db.documents[d].isDeleting && r != DeleteDocument(d)
    ensures KeepsDocument(Plan(s, r, sha), d, s.db.documents[d])
  {
    hide IsDuplicate, IsOpenElsewhere, Resumes, IsUnused, ActiveCount, FileIsDeclared, IsNextPart, IsReplay, IsBroken;
    match r
    case Reconcile(picked, expired) => RepairsDoNotCommit(s, picked, expired);
    case _ =>
  }

  lemma {:induction false} RepairsDoNotCommit(s: State, picked: seq<UploadId>, expired: set<UploadId>)
    ensures forall a <- AllRepairs(s, picked, expired) :: !a.Commit?
    decreases |picked|
  {
    if picked != [] { RepairsDoNotCommit(s, picked[1..], expired); }
  }

  lemma {:induction false} FileStays(s: State, plan: seq<Action>, sha: Bytes -> Digest, d: DocumentId, done: nat, torn: nat)
    requires Inv(s, sha) && Safe(s, plan, sha) && d in s.db.documents && KeepsDocument(plan, d, s.db.documents[d])
    requires !s.db.documents[d].isDeleting && s.db.documents[d].file.Some?
    ensures var key := Final(s.db.documents[d].file.value);
            && key in s.files
            && (forall t :: t == Interrupted(s, plan, done, torn) || (done >= |plan| && t == PerformAll(s, plan)) ==>
                 d in t.db.documents && t.db.documents[d] == s.db.documents[d] && key in t.files && t.files[key] == s.files[key])
    decreases |plan|
  {
    hide Tiles, CheckpointHolds;
    InvOfDocument(s, d, sha);
    if plan != [] {
      hide Inv;
      AllowedKeeps(s, plan[0], sha);
      OneActionKeepsFile(s, plan[0], sha, d);
      FileStays(Perform(s, plan[0]), plan[1..], sha, d, if done > 0 then done - 1 else 0, torn);
      if done == 0 && plan[0].Extend? && torn <= |plan[0].content| {
        OneActionKeepsFile(s, Extend(plan[0].key, plan[0].content[..torn]), sha, d);
      }
    }
  }

  lemma OneActionKeepsFile(s: State, a: Action, sha: Bytes -> Digest, d: DocumentId)
    requires Inv(s, sha) && Allowed(s, a, sha) && d in s.db.documents && KeepsDocument([a], d, s.db.documents[d])
    requires !s.db.documents[d].isDeleting && s.db.documents[d].file.Some?
    ensures var key := Final(s.db.documents[d].file.value);
            var t := Perform(s, a);
            d in t.db.documents && t.db.documents[d] == s.db.documents[d]
            && key in s.files && key in t.files && t.files[key] == s.files[key]
  {
    hide Tiles, CheckpointHolds;
    var u := s.db.documents[d].file.value;
    assert DocumentHolds(s, d, sha);
    assert a == [a][0];
    if u in s.db.uploads { assert SessionHolds(s, u, sha); }
  }

  // ---------- only a crash loses confirmed bytes ----------

  function RemovedBy(plan: seq<Action>): set<UploadId> { set a <- plan | a.Remove? :: a.key.upload }

  lemma {:induction false} DiscardsAreRemovals(s: State, plan: seq<Action>)
    ensures PerformAll(s, plan).discarded <= s.discarded + RemovedBy(plan)
    decreases |plan|
  {
    if plan != [] {
      DiscardsAreRemovals(Perform(s, plan[0]), plan[1..]);
      assert plan[0] in plan && forall a <- plan[1..] :: a in plan;
    }
  }

  /** A plan that ends with a commit leaves no discarded session open that it has not closed. */
  lemma ClosingCommit(s: State, plan: seq<Action>, db: Database)
    requires forall u <- RemovedBy(plan) :: u in db.uploads ==> db.uploads[u].status != Open
    ensures PerformAll(s, plan + [Commit(db)]).discarded <= s.discarded
  {
    PerformConcat(s, plan, [Commit(db)]);
    CommitLast(PerformAll(s, plan), db);
    DiscardsAreRemovals(s, plan);
  }

  lemma NoRemovals(s: State, plan: seq<Action>)
    requires forall a <- plan :: !a.Remove?
    ensures PerformAll(s, plan).discarded <= s.discarded
  {
    DiscardsAreRemovals(s, plan);
  }

  lemma FailDiscardsNothing(s: State, open: seq<Action>, u: UploadId, db: Database)
    requires u in db.uploads && forall a <- open :: !a.Remove?
    ensures PerformAll(s, open + [Remove(Temporary(u)), Remove(Final(u)), Commit(WithSession(db, u, FailedSession(db.uploads[u])))])
              .discarded <= s.discarded
  {
    var plan := open + [Remove(Temporary(u)), Remove(Final(u))];
    var closing := WithSession(db, u, FailedSession(db.uploads[u]));
    ClosingCommit(s, plan, closing);
    assert plan + [Commit(closing)] == open + [Remove(Temporary(u)), Remove(Final(u)), Commit(closing)];
  }

  lemma ExpireDiscardsNothing(s: State, u: UploadId)
    requires u in s.db.uploads
    ensures PerformAll(s, ExpirePlan(s, u)).discarded <= s.discarded
    ensures PerformAll(s, CancelPlan(s, u)).discarded <= s.discarded
  {
    NoRemovals(s, []);
    ClosingCommit(s, [Remove(Temporary(u)), Remove(Final(u))], WithoutSession(s.db, u));
    ClosingCommit(s, [Remove(Temporary(u))], WithoutSession(s.db, u));
    assert [Remove(Temporary(u)), Remove(Final(u))] + [Commit(WithoutSession(s.db, u))]
        == [Remove(Temporary(u))] + [Remove(Final(u))] + [Commit(WithoutSession(s.db, u))];
    assert [Remove(Temporary(u))] + [] + [Commit(WithoutSession(s.db, u))] == [Remove(Temporary(u))] + [Commit(WithoutSession(s.db, u))];
    assert [Remove(Temporary(u)), Remove(Final(u))] + [Commit(WithoutSession(s.db, u))]
        == [Remove(Temporary(u)), Remove(Final(u)), Commit(WithoutSession(s.db, u))];
  }

  lemma PutDiscardsNothing(s: State, u: UploadId, offset: nat, length: nat, digest: Digest, content: Bytes, isExpired: bool,
                           sha: Bytes -> Digest)
    ensures PerformAll(s, PutPlan(s, u, offset, length, digest, content, isExpired, sha)).discarded <= s.discarded
  {
    hide PerformAll;
    NoRemovals(s, []);
    NoRemovals(s, [Commit(s.db)]);
    if u in s.db.uploads {
      ExpireDiscardsNothing(s, u);
      var plan := AppendPlan(s, u, length, digest, content);
      var open := OpenPlan(s, u);
      FailDiscardsNothing(s, open, u, s.db);
      if !(exists a <- plan :: a.Remove?) {
        NoRemovals(s, plan);
      } else {
        assert plan == open + FailPlan(s, u);
      }
    }
  }

  lemma CompleteDiscardsNothing(s: State, u: UploadId, d: DocumentId, isValid: bool, isFull: bool, outcome: Outcome,
                                isExpired: bool, sha: Bytes -> Digest)
    ensures PerformAll(s, CompletePlan(s, u, d, isValid, isFull, outcome, isExpired, sha)).discarded <= s.discarded
  {
    hide PerformAll;
    NoRemovals(s, []);
    if u in s.db.uploads {
      ExpireDiscardsNothing(s, u);
      FailDiscardsNothing(s, [], u, s.db);
      var there, back := Move(Temporary(u), Final(u)), Move(Final(u), Temporary(u));
      FailDiscardsNothing(s, [there, back], u, s.db);
      NoRemovals(s, [there] + [Commit(CompletedDatabase(s.db, u, d))]);
      NoRemovals(s, [there] + ([back] + []));
      assert [] + FailPlan(s, u) == FailPlan(s, u);
      assert [there] + ([back] + FailPlan(s, u)) == [there, back] + FailPlan(s, u);
    }
  }

  lemma {:induction false} RepairsRemove(s: State, picked: seq<UploadId>, expired: set<UploadId>, sha: Bytes -> Digest, u: UploadId)
    requires Inv(s, sha) && u in RemovedBy(AllRepairs(s, picked, expired))
    ensures u in picked && u in s.db.uploads && (u in expired || s.db.uploads[u].status != Open || IsBroken(s, u))
    decreases |picked|
  {
    hide Inv, IsBroken;
    var first, rest := Repairs(s, picked[0], picked[0] in expired), AllRepairs(s, picked[1..], expired);
    var a: Action :| a in first + rest && a.Remove? && a.key.upload == u;
    if a in rest {
      RepairsRemove(s, picked[1..], expired, sha, u);
    } else if picked[0] in s.db.uploads && s.db.uploads[picked[0]].status == Open {
      OneFileAtMost(s, picked[0], sha);
    }
  }

  lemma OneFileAtMost(s: State, u: UploadId, sha: Bytes -> Digest)
    requires Inv(s, sha) && IsOpen(s, u)
    ensures !(Temporary(u) in s.files && Final(u) in s.files)
  {
    hide Tiles;
    assert SessionHolds(s, u, sha);
  }

  lemma ReconcileDiscardsNothing(s: State, picked: seq<UploadId>, expired: set<UploadId>, sha: Bytes -> Digest)
    requires Inv(s, sha)
    ensures PerformAll(s, ReconcilePlan(s, picked, expired)).discarded <= s.discarded
  {
    hide Inv, PerformAll, AllRepairs, IsBroken, RemovedBy;
    NoRemovals(s, []);
    var db := ReconciledDatabase(s, picked, expired);
    forall u | u in RemovedBy(AllRepairs(s, picked, expired)) ensures u in db.uploads ==> db.uploads[u].status != Open {
      RepairsRemove(s, picked, expired, sha, u);
    }
    ClosingCommit(s, AllRepairs(s, picked, expired), db);
  }

  lemma PurgeDiscardsNothing(s: State, d: DocumentId, sha: Bytes -> Digest)
    requires Inv(s, sha)
    ensures PerformAll(s, PurgePlan(s, d)).discarded <= s.discarded
  {
    NoRemovals(s, []);
    if d in s.db.documents && s.db.documents[d].isDeleting {
      var file := s.db.documents[d].file;
      if file.Some? && file.value in s.db.uploads { assert SessionHolds(s, file.value, sha); }
      hide Inv;
      var plan := PurgePlan(s, d);
      var n := |plan| - 1;
      assert plan == plan[..n] + [Commit(plan[n].db)];
      ClosingCommit(s, plan[..n], plan[n].db);
    }
  }

  /** Confirmed bytes of a session that stays open are only lost to a crash: a request that is served to its end
      discards nothing. */
  lemma OnlyCrashesDiscard(s: State, r: Request, sha: Bytes -> Digest)
    requires Inv(s, sha)
    ensures Apply(s, Served(r), sha).discarded <= s.discarded
  {
    hide Inv, PerformAll, PutPlan, CompletePlan, ReconcilePlan, PurgePlan, CancelPlan;
    NoRemovals(s, []);
    match r
    case Put(u, offset, length, digest, content, expired) =>
      PutDiscardsNothing(s, u, offset, length, digest, content, expired, sha);
    case Complete(u, d, valid, full, outcome, expired) =>
      CompleteDiscardsNothing(s, u, d, valid, full, outcome, expired, sha);
    case Cancel(u) => CancelDiscardsNothing(s, u);
    case Reconcile(picked, expired) => ReconcileDiscardsNothing(s, picked, expired, sha);
    case PurgeDocument(d) => PurgeDiscardsNothing(s, d, sha);
    case _ => NoRemovals(s, Plan(s, r, sha));
  }

  lemma CancelDiscardsNothing(s: State, u: UploadId)
    ensures PerformAll(s, CancelPlan(s, u)).discarded <= s.discarded
  {
    NoRemovals(s, []);
    if u in s.db.uploads { ExpireDiscardsNothing(s, u); }
  }

  lemma {:induction false} NothingDiscarded(events: seq<Event>, sha: Bytes -> Digest)
    requires forall e <- events :: e.Served?
    ensures After(events, sha).discarded == {}
    decreases |events|
  {
    hide Apply, Inv;
    if events != [] {
      var n := |events| - 1;
      assert events[n] in events;
      NothingDiscarded(events[..n], sha);
      AlwaysInv(events[..n], sha);
      OnlyCrashesDiscard(After(events[..n], sha), events[n].request, sha);
    }
  }

  /** In every run without a crash the confirmed bytes of every open session are on disk. */
  lemma BytesStayWithoutCrashes(events: seq<Event>, sha: Bytes -> Digest, u: UploadId)
    requires (forall e <- events :: e.Served?) && IsOpen(After(events, sha), u)
    ensures var s := After(events, sha); s.db.uploads[u].received > 0 ==> IsStored(s, u)
  {
    hide After, IsStored, Tiles;
    NothingDiscarded(events, sha);
    OpenSessionsHold(events, sha, u);
  }

  // ---------- completed sessions and their Documents ----------

  predicate IsCompleted(db: Database, u: UploadId) { u in db.uploads && db.uploads[u].status == Completed }

  predicate PurgesDocumentOf(s: State, r: Request, u: UploadId) {
    r.PurgeDocument? && IsCompleted(s.db, u) && s.db.uploads[u].document == Some(r.document)
  }

  /** No session becomes completed without a Document, and none loses its Document but to the purge of that Document. */
  predicate LinksHold(s: State, r: Request, db: Database, u: UploadId) {
    IsCompleted(db, u) && db.uploads[u].document.None? ==>
      (IsCompleted(s.db, u) && s.db.uploads[u].document.None?) || PurgesDocumentOf(s, r, u)
  }

  predicate CommitsLink(s: State, r: Request, plan: seq<Action>, u: UploadId) {
    forall a <- plan :: a.Commit? ==> LinksHold(s, r, a.db, u)
  }

  lemma DiscardsLink(s: State, r: Request, v: UploadId, u: UploadId)
    requires v in s.db.uploads && s.db.uploads[v].status != Completed
    ensures CommitsLink(s, r, FailPlan(s, v), u)
  {}

  lemma ExpiryLinks(s: State, r: Request, v: UploadId, u: UploadId)
    requires v in s.db.uploads
    ensures CommitsLink(s, r, ExpirePlan(s, v), u) && CommitsLink(s, r, CancelPlan(s, v), u)
  {}

  lemma PutLinks(s: State, r: Request, v: UploadId, offset: nat, length: nat, digest: Digest, content: Bytes,
                 isExpired: bool, sha: Bytes -> Digest, u: UploadId)
    ensures CommitsLink(s, r, PutPlan(s, v, offset, length, digest, content, isExpired, sha), u)
  {
    hide IsNextPart, IsReplay;
    if v in s.db.uploads {
      ExpiryLinks(s, r, v, u);
      if s.db.uploads[v].status == Open {
        DiscardsLink(s, r, v, u);
        var db := WithSession(s.db, v, Confirmed(s.db.uploads[v], length, digest, content));
        assert LinksHold(s, r, db, u) && LinksHold(s, r, s.db, u);
        hide FailPlan, ExpirePlan, LinksHold;
      }
    }
  }

  lemma CompleteLinks(s: State, r: Request, v: UploadId, d: DocumentId, isValid: bool, isFull: bool, outcome: Outcome,
                      isExpired: bool, sha: Bytes -> Digest, u: UploadId)
    ensures CommitsLink(s, r, CompletePlan(s, v, d, isValid, isFull, outcome, isExpired, sha), u)
  {
    if v in s.db.uploads && s.db.uploads[v].status != Completed {
      ExpiryLinks(s, r, v, u);
      DiscardsLink(s, r, v, u);
      assert LinksHold(s, r, CompletedDatabase(s.db, v, d), u);
      hide FailPlan, ExpirePlan, LinksHold, CompletedDatabase, FileIsDeclared, IsDuplicate;
    }
  }

  lemma PlansLink(s: State, r: Request, sha: Bytes -> Digest, u: UploadId)
    ensures CommitsLink(s, r, Plan(s, r, sha), u)
  {
    hide PutPlan, CompletePlan, CancelPlan, IsDuplicate, IsOpenElsewhere, Resumes, IsUnused, ActiveCount;
    match r
    case Put(v, offset, length, digest, content, expired) =>
      PutLinks(s, r, v, offset, length, digest, content, expired, sha, u);
    case Complete(v, d, valid, full, outcome, expired) =>
      CompleteLinks(s, r, v, d, valid, full, outcome, expired, sha, u);
    case Cancel(v) => if v in s.db.uploads { ExpiryLinks(s, r, v, u); } else { NothingLinks(s, r, v, u); }
    case Reconcile(picked, expired) =>
      RepairsDoNotCommit(s, picked, expired);
      BrokenIsOpen(s, picked);
    case _ =>
  }

  lemma NothingLinks(s: State, r: Request, v: UploadId, u: UploadId)
    requires v !in s.db.uploads
    ensures CommitsLink(s, r, CancelPlan(s, v), u)
  {}

  lemma {:induction false} LinksStay(s: State, r: Request, t: State, plan: seq<Action>, u: UploadId, done: nat, torn: nat)
    requires LinksHold(s, r, t.db, u) && CommitsLink(s, r, plan, u)
    ensures LinksHold(s, r, PerformAll(t, plan).db, u) && LinksHold(s, r, Interrupted(t, plan, done, torn).db, u)
    decreases |plan|
  {
    hide LinksHold;
    if plan != [] { LinksStay(s, r, Perform(t, plan[0]), plan[1..], u, if done > 0 then done - 1 else 0, torn); }
  }

  lemma EventLinks(s: State, e: Event, sha: Bytes -> Digest, u: UploadId)
    ensures LinksHold(s, e.request, Apply(s, e, sha).db, u)
  {
    hide Plan;
    PlansLink(s, e.request, sha, u);
    match e
    case Served(r) => LinksStay(s, r, s, Plan(s, r, sha), u, 0, 0);
    case Crashed(r, done, torn) => LinksStay(s, r, s, Plan(s, r, sha), u, done, torn);
  }

  /** Some request of the run began to purge the Document that the session had at that time. */
  predicate WasPurged(events: seq<Event>, sha: Bytes -> Digest, u: UploadId) {
    exists i :: 0 <= i < |events| && PurgedAt(events, sha, u, i)
  }

  predicate PurgedAt(events: seq<Event>, sha: Bytes -> Digest, u: UploadId, i: nat)
    requires i < |events|
  {
    PurgesDocumentOf(After(events[..i], sha), events[i].request, u)
  }

  /** In every run: a completed session has its Document, unless that Document was purged. */
  lemma {:induction false} CompletedSessionsAreLinked(events: seq<Event>, sha: Bytes -> Digest, u: UploadId)
    requires IsCompleted(After(events, sha).db, u)
    ensures var s := After(events, sha);
            var x := s.db.uploads[u];
            && |x.confirmed| == x.total && sha(x.confirmed) == x.declared
            && (x.document.Some? ==>
                 x.document.value in s.db.documents && s.db.documents[x.document.value].file == Some(u))
            && (x.document.None? ==> WasPurged(events, sha, u))
    decreases |events|
  {
    hide Apply, Tiles, CheckpointHolds;
    AlwaysInv(events, sha);
    assert SessionHolds(After(events, sha), u, sha);
    if events != [] {
      var n := |events| - 1;
      var before := After(events[..n], sha);
      EventLinks(before, events[n], sha, u);
      if After(events, sha).db.uploads[u].document.None? {
        if PurgesDocumentOf(before, events[n].request, u) {
          assert PurgedAt(events, sha, u, n);
        } else {
          CompletedSessionsAreLinked(events[..n], sha, u);
          EarlierPurge(events, sha, u, n);
        }
      }
    }
  }

  lemma EarlierPurge(events: seq<Event>, sha: Bytes -> Digest, u: UploadId, n: nat)
    requires n <= |events| && WasPurged(events[..n], sha, u)
    ensures WasPurged(events, sha, u)
  {
    hide After;
    var i :| 0 <= i < n && PurgedAt(events[..n], sha, u, i);
    assert events[..n][..i] == events[..i];
    assert PurgedAt(events, sha, u, i);
  }

  // ---------- a crash in the middle of a discard ----------

  /** A one-part upload whose cancellation dies after the first of its file removals. */
  function InterruptedCancel(sha: Bytes -> Digest): seq<Event> {
    [Served(Create(1, 0, sha([7, 7]), 2, 1, true, 1)), Served(Put(1, 0, 1, sha([7]), [7], false)), Crashed(Cancel(1), 1, 0)]
  }

  lemma StateAfter(events: seq<Event>, e: Event, sha: Bytes -> Digest)
    ensures After(events + [e], sha) == Apply(After(events, sha), e, sha)
  {
    hide Apply;
    assert (events + [e])[..|events|] == events;
  }

  /** Why a discard matters: after a crash inside a cancellation the session is still open and its receipts still
      confirm bytes that are on no file. */
  lemma InterruptedCancelLosesBytes(sha: Bytes -> Digest)
    ensures var s := After(InterruptedCancel(sha), sha);
            && IsOpen(s, 1) && s.db.uploads[1].received == 1 && s.db.uploads[1].confirmed == [7]
            && 1 in s.discarded && Temporary(1) !in s.files && Final(1) !in s.files
  {
    hide Apply, After;
    var events := InterruptedCancel(sha);
    var x := NewSession(0, sha([7, 7]), 2, 1);
    var y := Confirmed(x, 1, sha([7]), [7]);
    var s1 := EMPTY.(db := WithSession(EMPTY.db, 1, x));
    var s2 := State(WithSession(s1.db, 1, y), map[Temporary(1) := [7]], {});
    StateAfter([], events[0], sha);
    StateAfter([events[0]], events[1], sha);
    StateAfter([events[0], events[1]], events[2], sha);
    assert [] + [events[0]] == [events[0]] && [events[0]] + [events[1]] == [events[0], events[1]];
    assert [events[0], events[1]] + [events[2]] == events;
    assert After([], sha) == EMPTY by { NothingYet(sha); }
    FirstCreation(s1, x, sha);
    FirstPart(s1, x, y, sha);
    assert Apply(s1, events[1], sha) == s2 by { ServedIs(s1, events[1].request, sha); }
    CancelDies(s2, y, sha);
  }

  lemma NothingYet(sha: Bytes -> Digest)
    ensures After([], sha) == EMPTY
  {}

  lemma ServedIs(s: State, r: Request, sha: Bytes -> Digest)
    ensures Apply(s, Served(r), sha) == PerformAll(s, Plan(s, r, sha))
  {
    hide Plan;
  }

  lemma ActiveAreSessions(db: Database)
    ensures ActiveCount(db) <= |db.uploads.Keys|
  {
    var active := set u <- db.uploads | db.uploads[u].status == Open;
    SmallerSet(active, db.uploads.Keys);
  }

  lemma FirstCreation(s: State, x: Session, sha: Bytes -> Digest)
    requires x == NewSession(0, sha([7, 7]), 2, 1) && s == EMPTY.(db := WithSession(EMPTY.db, 1, x))
    ensures Apply(EMPTY, Served(Create(1, 0, sha([7, 7]), 2, 1, true, 1)), sha) == s
  {
    ActiveAreSessions(EMPTY.db);
    assert CreatePlan(EMPTY, 1, 0, sha([7, 7]), 2, 1, true, 1) == [Commit(s.db)];
    CommitLast(EMPTY, s.db);
    assert Committed(EMPTY, s.db) == s;
  }

  lemma CancelDies(s: State, y: Session, sha: Bytes -> Digest)
    requires 1 in s.db.uploads && s.db.uploads[1] == y && s.files == map[Temporary(1) := [7]]
    requires y.status == Open && y.received == 1 && y.confirmed == [7]
    ensures var t := Apply(s, Crashed(Cancel(1), 1, 0), sha);
            && t.db == s.db && 1 in t.discarded && Temporary(1) !in t.files && Final(1) !in t.files
  {
    var plan := CancelPlan(s, 1);
    assert plan[0] == Remove(Temporary(1)) && plan[1] == Remove(Final(1));
    var t := Perform(s, plan[0]);
    assert Interrupted(s, plan, 1, 0) == Interrupted(t, plan[1..], 0, 0) == t;
    assert IsStored(s, 1) && !IsStored(WithoutFile(s, Temporary(1)), 1);
  }

  lemma FirstPart(s: State, x: Session, y: Session, sha: Bytes -> Digest)
    requires x == NewSession(0, sha([7, 7]), 2, 1) && s == EMPTY.(db := WithSession(EMPTY.db, 1, x))
    requires y == Confirmed(x, 1, sha([7]), [7])
    ensures PerformAll(s, PutPlan(s, 1, 0, 1, sha([7]), [7], false, sha))
              == State(WithSession(s.db, 1, y), map[Temporary(1) := [7]], {})
  {
    var plan := [CreateFile(Temporary(1)), Extend(Temporary(1), [7]), Commit(WithSession(s.db, 1, y))];
    assert PutPlan(s, 1, 0, 1, sha([7]), [7], false, sha) == plan;
    var s1 := Perform(s, plan[0]);
    var s2 := Perform(s1, plan[1]);
    assert plan[1..] == [plan[1], plan[2]] && plan[1..][1..] == [plan[2]];
    CommitLast(s2, WithSession(s.db, 1, y));
    assert s1.files[Temporary(1)] + [7] == [7];
    assert s2.files == map[Temporary(1) := [7]];
  }

  // ---------- a commit that is wrongly reported as failed ----------

  /** The actions of a completion whose commit takes effect although the database reports an error. */
  function MisreportedPlan(s: State, u: UploadId, d: DocumentId): seq<Action>
    requires u in s.db.uploads
  {
    [Move(Temporary(u), Final(u)), Commit(CompletedDatabase(s.db, u, d)), Move(Final(u), Temporary(u))]
  }

  /** Why completion relies on an error meaning that nothing was committed: otherwise the file is moved back from
      under the new Document, and the next reconciliation removes it. */
  lemma MisreportedCommitLosesFile(s: State, u: UploadId, d: DocumentId, sha: Bytes -> Digest)
    requires IsOpen(s, u) && Temporary(u) in s.files && d !in s.db.documents
    ensures var t := PerformAll(s, MisreportedPlan(s, u, d));
            && d in t.db.documents && t.db.documents[d].file == Some(u) && !t.db.documents[d].isDeleting
            && Final(u) !in t.files
            && var r := Apply(t, Served(Reconcile([u], {})), sha);
               d in r.db.documents && Final(u) !in r.files && Temporary(u) !in r.files
  {
    hide Committed;
    var plan := MisreportedPlan(s, u, d);
    var db := CompletedDatabase(s.db, u, d);
    var t1 := Perform(s, plan[0]);
    CommittedFields(t1, db);
    var t := Perform(Committed(t1, db), plan[2]);
    assert PerformAll(s, plan) == t by {
      PerformConcat(s, [plan[0], plan[1]], [plan[2]]);
      PerformConcat(s, [plan[0]], [plan[1]]);
      assert [plan[0], plan[1]] + [plan[2]] == plan && [plan[0]] + [plan[1]] == [plan[0], plan[1]];
      OneAction(s, plan[0]);
      OneAction(t1, plan[1]);
      OneAction(Committed(t1, db), plan[2]);
    }
    CompletedRepair(t, u, sha);
  }

  lemma OneAction(s: State, a: Action)
    ensures PerformAll(s, [a]) == Perform(s, a)
  {
    hide Perform;
    assert [a][1..] == [];
  }

  lemma CompletedRepair(t: State, u: UploadId, sha: Bytes -> Digest)
    requires IsCompleted(t.db, u)
    ensures var r := Apply(t, Served(Reconcile([u], {})), sha);
            && r.db.documents == t.db.documents && r.files == t.files - {Temporary(u)}
  {
    hide Committed;
    var db := ReconciledDatabase(t, [u], {});
    assert [u][1..] == [] && AllRepairs(t, [], {}) == [];
    assert AllRepairs(t, [u], {}) == [Remove(Temporary(u))];
    assert ReconcilePlan(t, [u], {}) == [Remove(Temporary(u))] + [Commit(db)];
    PerformConcat(t, [Remove(Temporary(u))], [Commit(db)]);
    assert [Remove(Temporary(u))][1..] == [];
    var r := Perform(t, Remove(Temporary(u)));
    assert PerformAll(t, [Remove(Temporary(u))]) == r;
    CommitLast(r, db);
    CommittedFields(r, db);
  }
}
