/** What each upload request comes to when it is served: the rows and files afterwards, and the answer. */
module UploadOutcomes {
  import opened Wrappers
  import opened Uploads
  import opened UploadSafety
  import opened UploadRecovery

  // ---------- what plans leave behind ----------

  /** All sessions but this one, and all Documents, are as they were. */
  predicate OnlySession(s: State, t: State, u: UploadId) {
    t.db.documents == s.db.documents && t.db.uploads - {u} == s.db.uploads - {u}
  }

  /** No file of this upload is left, and no other file has changed. */
  predicate FilesGone(s: State, t: State, u: UploadId) { t.files == s.files - {Temporary(u), Final(u)} }

  predicate SameRowsAndFiles(s: State, t: State) { t.db == s.db && t.files == s.files }

  /** The session has failed: it has no receipts and no files, and there is no new Document. */
  predicate IsGivenUp(s: State, t: State, u: UploadId)
    requires u in s.db.uploads
  {
    var x := s.db.uploads[u];
    && OnlySession(s, t, u) && FilesGone(s, t, u)
    && u in t.db.uploads
    && t.db.uploads[u] == Session(x.kb, x.declared, x.total, x.partSize, x.received, Status.Failed, map[], x.document, x.confirmed)
  }

  lemma NothingDone(s: State)
    ensures PerformAll(s, []) == s
  {}

  lemma TwoRemovals(s: State, u: UploadId, db: Database)
    ensures var t := PerformAll(s, [Remove(Temporary(u)), Remove(Final(u)), Commit(db)]); t.db == db && FilesGone(s, t, u)
  {
    hide Committed, Discards;
    var plan := [Remove(Temporary(u)), Remove(Final(u)), Commit(db)];
    assert plan[1..] == [plan[1], plan[2]] && plan[1..][1..] == [plan[2]];
    var t := Perform(Perform(s, plan[0]), plan[1]);
    CommittedFields(t, db);
    CommitLast(t, db);
    assert PerformAll(s, plan) == PerformAll(t, [plan[2]]);
    assert s.files - {Temporary(u)} - {Final(u)} == s.files - {Temporary(u), Final(u)};
  }

  lemma FailureGivesUp(s: State, u: UploadId)
    requires u in s.db.uploads
    ensures IsGivenUp(s, PerformAll(s, FailPlan(s, u)), u)
  {
    hide PerformAll;
    TwoRemovals(s, u, WithSession(s.db, u, FailedSession(s.db.uploads[u])));
  }

  /** An expired session is deleted with its files; a completed one leaves its final file to its Document. */
  predicate IsExpiredAway(s: State, t: State, u: UploadId)
    requires u in s.db.uploads
  {
    && OnlySession(s, t, u) && u !in t.db.uploads
    && t.files == s.files - (if s.db.uploads[u].status == Status.Completed then {Temporary(u)} else {Temporary(u), Final(u)})
  }

  lemma ExpiryDeletes(s: State, u: UploadId)
    requires u in s.db.uploads
    ensures IsExpiredAway(s, PerformAll(s, ExpirePlan(s, u)), u)
  {
    hide Committed, Discards, PerformAll;
    var db := WithoutSession(s.db, u);
    if s.db.uploads[u].status == Status.Completed {
      var t := Perform(s, Remove(Temporary(u)));
      assert ExpirePlan(s, u) == [Remove(Temporary(u))] + [Commit(db)];
      PerformConcat(s, [Remove(Temporary(u))], [Commit(db)]);
      OneAction(s, Remove(Temporary(u)));
      CommitLast(t, db);
      CommittedFields(t, db);
    } else {
      assert ExpirePlan(s, u) == [Remove(Temporary(u)), Remove(Final(u)), Commit(db)];
      TwoRemovals(s, u, db);
    }
  }

  // ---------- completion ----------

  predicate IsTaken(db: Database, kb: KbId, digest: Digest) {
    exists d <- db.documents :: db.documents[d].kb == kb && db.documents[d].digest == digest
  }

  /** Something is wrong with a file that was received in full. */
  predicate HasDefect(s: State, u: UploadId, isValid: bool, isFull: bool, sha: Bytes -> Digest)
    requires u in s.db.uploads
  {
    var x := s.db.uploads[u];
    || !isValid
    || isFull
    || IsTaken(s.db, x.kb, x.declared)
    || Temporary(u) !in s.files
    || |s.files[Temporary(u)]| != x.total
    || sha(s.files[Temporary(u)]) != x.declared
  }

  lemma DefectIs(s: State, u: UploadId, isValid: bool, isFull: bool, sha: Bytes -> Digest)
    requires u in s.db.uploads
    ensures HasDefect(s, u, isValid, isFull, sha) <==>
              !FileIsDeclared(s, u, sha) || !isValid || isFull || IsDuplicate(s.db, s.db.uploads[u].kb, s.db.uploads[u].declared)
  {}

  lemma CompletionPlan(s: State, r: Request, sha: Bytes -> Digest)
    requires r.Complete?
    ensures Apply(s, Served(r), sha)
         == PerformAll(s, CompletePlan(s, r.upload, r.document, r.isValid, r.isFull, r.outcome, r.isExpired, sha))
  {
    hide CompletePlan, PerformAll, CreatePlan, PutPlan, CancelPlan, ReconcilePlan, AddDocumentPlan, PurgePlan;
  }

  predicate IsWhole(s: State, u: UploadId) { IsOpen(s, u) && s.db.uploads[u].received == s.db.uploads[u].total }

  /** A completion of a file with a defect gives the session up: there is no Document, no receipt and no file. */
  lemma DefectiveIsGivenUp(s: State, r: Request, sha: Bytes -> Digest)
    requires r.Complete? && !r.isExpired && IsWhole(s, r.upload) && HasDefect(s, r.upload, r.isValid, r.isFull, sha)
    ensures var t := Apply(s, Served(r), sha);
            && t.db.documents == s.db.documents && IsGivenUp(s, t, r.upload)
            && CompleteAnswer(s, r.upload, r.document, r.isValid, r.isFull, r.outcome, r.isExpired, sha) == Refused
  {
    hide HasDefect, FileIsDeclared, IsDuplicate, PerformAll, FailPlan;
    DefectIs(s, r.upload, r.isValid, r.isFull, sha);
    CompletionPlan(s, r, sha);
    FailureGivesUp(s, r.upload);
  }

  /** The new Document, its session, and its file in the final place. */
  predicate IsDelivered(s: State, t: State, u: UploadId, d: DocumentId)
    requires u in s.db.uploads
  {
    var x := s.db.uploads[u];
    && d !in s.db.documents
    && t.db.documents == s.db.documents[d := DocumentRow(x.kb, x.declared, x.total, Some(u), false)]
    && t.db.uploads == s.db.uploads[u := Session(
         x.kb, x.declared, x.total, x.partSize, x.received, Status.Completed, x.receipts, Some(d), x.confirmed)]
    && Temporary(u) in s.files && t.files == (s.files - {Temporary(u)})[Final(u) := s.files[Temporary(u)]]
  }

  lemma DeliveredPlan(s: State, u: UploadId, d: DocumentId)
    requires u in s.db.uploads && Temporary(u) in s.files && d !in s.db.documents
    ensures IsDelivered(s, PerformAll(s, [Move(Temporary(u), Final(u)), Commit(CompletedDatabase(s.db, u, d))]), u, d)
  {
    hide Committed, PerformAll;
    var move, db := Move(Temporary(u), Final(u)), CompletedDatabase(s.db, u, d);
    assert [move] + [Commit(db)] == [move, Commit(db)];
    PerformConcat(s, [move], [Commit(db)]);
    OneAction(s, move);
    CommitLast(Perform(s, move), db);
    CommittedFields(Perform(s, move), db);
  }

  /** A completion of a file without a defect that the database accepts makes the Document. */
  lemma FaultlessIsDelivered(s: State, r: Request, sha: Bytes -> Digest)
    requires r.Complete? && !r.isExpired && IsWhole(s, r.upload) && !HasDefect(s, r.upload, r.isValid, r.isFull, sha)
    requires r.outcome == Accepted && r.document !in s.db.documents
    ensures IsDelivered(s, Apply(s, Served(r), sha), r.upload, r.document)
    ensures CompleteAnswer(s, r.upload, r.document, r.isValid, r.isFull, r.outcome, r.isExpired, sha) == Document(r.document)
  {
    DefectIs(s, r.upload, r.isValid, r.isFull, sha);
    assert Temporary(r.upload) in s.files;
    hide HasDefect, FileIsDeclared, IsDuplicate, PerformAll, FailPlan, IsDelivered, CompletedDatabase;
    CompletionPlan(s, r, sha);
    DeliveredPlan(s, r.upload, r.document);
    assert [Move(Temporary(r.upload), Final(r.upload))] + [Commit(CompletedDatabase(s.db, r.upload, r.document))]
        == [Move(Temporary(r.upload), Final(r.upload)), Commit(CompletedDatabase(s.db, r.upload, r.document))];
  }

  lemma ThereAndBack(s: State, u: UploadId)
    requires Temporary(u) in s.files && Final(u) !in s.files
    ensures PerformAll(s, [Move(Temporary(u), Final(u)), Move(Final(u), Temporary(u))]) == s
  {
    hide PerformAll;
    var there, back := Move(Temporary(u), Final(u)), Move(Final(u), Temporary(u));
    assert [there] + [back] == [there, back];
    PerformConcat(s, [there], [back]);
    OneAction(s, there);
    OneAction(Perform(s, there), back);
    var t := Perform(Perform(s, there), back);
    assert t.files == s.files;
  }

  /** When the database is unavailable, rows and files are as before, and completion can be tried again. */
  lemma UnavailableChangesNothing(s: State, r: Request, sha: Bytes -> Digest)
    requires Inv(s, sha)
    requires r.Complete? && !r.isExpired && IsWhole(s, r.upload) && !HasDefect(s, r.upload, r.isValid, r.isFull, sha)
    requires r.outcome == Unavailable
    ensures Apply(s, Served(r), sha) == s
    ensures CompleteAnswer(s, r.upload, r.document, r.isValid, r.isFull, r.outcome, r.isExpired, sha) == Refused
  {
    assert SessionHolds(s, r.upload, sha);
    DefectIs(s, r.upload, r.isValid, r.isFull, sha);
    assert Temporary(r.upload) in s.files;
    assert Final(r.upload) !in s.files;
    hide Inv, HasDefect, FileIsDeclared, IsDuplicate, PerformAll, FailPlan, CompletedDatabase;
    var there, back := Move(Temporary(r.upload), Final(r.upload)), Move(Final(r.upload), Temporary(r.upload));
    assert [there] + ([back] + []) == [there, back];
    CompletionPlan(s, r, sha);
    ThereAndBack(s, r.upload);
  }

  /** When the database finds a conflict, or the id of the Document is taken, the session is given up. */
  lemma ConflictIsGivenUp(s: State, r: Request, sha: Bytes -> Digest)
    requires Inv(s, sha)
    requires r.Complete? && !r.isExpired && IsWhole(s, r.upload) && !HasDefect(s, r.upload, r.isValid, r.isFull, sha)
    requires r.outcome == Conflict || (r.outcome == Accepted && r.document in s.db.documents)
    ensures IsGivenUp(s, Apply(s, Served(r), sha), r.upload)
    ensures CompleteAnswer(s, r.upload, r.document, r.isValid, r.isFull, r.outcome, r.isExpired, sha) == Refused
  {
    assert SessionHolds(s, r.upload, sha);
    DefectIs(s, r.upload, r.isValid, r.isFull, sha);
    assert Temporary(r.upload) in s.files;
    assert Final(r.upload) !in s.files;
    hide Inv, HasDefect, FileIsDeclared, IsDuplicate, PerformAll, FailPlan, CompletedDatabase, IsGivenUp;
    var there, back := Move(Temporary(r.upload), Final(r.upload)), Move(Final(r.upload), Temporary(r.upload));
    assert [there] + ([back] + FailPlan(s, r.upload)) == [there, back] + FailPlan(s, r.upload);
    CompletionPlan(s, r, sha);
    ThereAndBack(s, r.upload);
    PerformConcat(s, [there, back], FailPlan(s, r.upload));
    FailureGivesUp(s, r.upload);
  }

  /** All other completions: an expired session goes; an unknown, failed, completed or unfinished one stays as it is. */
  lemma OtherCompletions(s: State, r: Request, sha: Bytes -> Digest)
    requires r.Complete? && !(IsWhole(s, r.upload) && !r.isExpired)
    ensures var t := Apply(s, Served(r), sha);
            && t.db.documents == s.db.documents
            && (if r.isExpired && r.upload in s.db.uploads && s.db.uploads[r.upload].status != Status.Completed
                then IsExpiredAway(s, t, r.upload) else t == s)
  {
    hide FileIsDeclared, IsDuplicate, PerformAll, ExpirePlan;
    CompletionPlan(s, r, sha);
    NothingDone(s);
    if r.upload in s.db.uploads { ExpiryDeletes(s, r.upload); }
  }

  /** A completion answers with a Document that was not there before exactly when it has made it: from an open session
      with everything received, not expired, without a defect, and accepted by the database. */
  lemma DeliveredExactly(s: State, r: Request, sha: Bytes -> Digest)
    requires Inv(s, sha) && r.Complete? && r.document !in s.db.documents
    ensures var t := Apply(s, Served(r), sha);
            var answer := CompleteAnswer(s, r.upload, r.document, r.isValid, r.isFull, r.outcome, r.isExpired, sha);
            && (answer == Document(r.document) <==>
                  r.document in t.db.documents && t.db.documents[r.document].file == Some(r.upload))
            && (answer == Document(r.document) <==>
                  && !r.isExpired && IsWhole(s, r.upload) && !HasDefect(s, r.upload, r.isValid, r.isFull, sha)
                  && r.outcome == Accepted)
            && (answer == Document(r.document) ==> IsDelivered(s, t, r.upload, r.document))
            && (answer != Document(r.document) ==> t.db.documents == s.db.documents)
  {
    hide Inv, HasDefect, CompleteAnswer, Apply, PerformAll;
    if IsWhole(s, r.upload) && !r.isExpired {
      if HasDefect(s, r.upload, r.isValid, r.isFull, sha) {
        DefectiveIsGivenUp(s, r, sha);
      } else if r.outcome == Accepted {
        FaultlessIsDelivered(s, r, sha);
      } else if r.outcome == Conflict {
        ConflictIsGivenUp(s, r, sha);
      } else {
        UnavailableChangesNothing(s, r, sha);
      }
    } else {
      OtherCompletions(s, r, sha);
      OtherAnswers(s, r, sha);
    }
  }

  /** A completed session answers with its Document, again and again; every other one is refused. */
  lemma OtherAnswers(s: State, r: Request, sha: Bytes -> Digest)
    requires r.Complete? && !(IsWhole(s, r.upload) && !r.isExpired)
    ensures var answer := CompleteAnswer(s, r.upload, r.document, r.isValid, r.isFull, r.outcome, r.isExpired, sha);
            if r.upload in s.db.uploads && s.db.uploads[r.upload].status == Status.Completed
               && s.db.uploads[r.upload].document.Some? && s.db.uploads[r.upload].document.value in s.db.documents
            then answer == Document(s.db.uploads[r.upload].document.value) else answer == Refused
  {
    hide FileIsDeclared, IsDuplicate;
  }

  // ---------- parts ----------

  lemma PartPlan(s: State, r: Request, sha: Bytes -> Digest)
    requires r.Put?
    ensures Apply(s, Served(r), sha)
         == PerformAll(s, PutPlan(s, r.upload, r.offset, r.length, r.digest, r.content, r.isExpired, sha))
  {
    hide CompletePlan, PerformAll, CreatePlan, PutPlan, CancelPlan, ReconcilePlan, AddDocumentPlan, PurgePlan;
  }

  function PartAnswer(s: State, r: Request, sha: Bytes -> Digest): Answer
    requires r.Put?
  {
    PutAnswer(s, r.upload, r.offset, r.length, r.digest, r.content, r.isExpired, sha)
  }

  /** The part was confirmed before, with this length and checksum. */
  predicate IsConfirmedPart(x: Session, r: Request)
    requires r.Put?
  {
    r.offset in x.receipts && x.receipts[r.offset].length == r.length && x.receipts[r.offset].digest == r.digest
  }

  /** The part starts where the confirmed bytes end, has the length that is due there, and is what its checksum says. */
  predicate IsDuePart(x: Session, r: Request, sha: Bytes -> Digest)
    requires r.Put?
  {
    && r.offset == x.received && r.offset !in x.receipts && r.length > 0
    && r.length == (if x.received + x.partSize <= x.total then x.partSize else x.total - x.received)
    && |r.content| == r.length && sha(r.content) == r.digest
  }

  lemma DuePartIs(x: Session, r: Request, sha: Bytes -> Digest)
    requires r.Put?
    ensures IsDuePart(x, r, sha) <==> IsNextPart(x, r.offset, r.length, r.digest, r.content, sha)
    ensures IsConfirmedPart(x, r) <==> IsReplay(x, r.offset, r.length, r.digest)
  {}

  /** The checkpoint file holds at least as many bytes as are confirmed; without one there must be none. */
  predicate ReachesOffset(s: State, u: UploadId)
    requires u in s.db.uploads
  {
    if Temporary(u) in s.files then |s.files[Temporary(u)]| >= s.db.uploads[u].received else s.db.uploads[u].received == 0
  }

  /** The confirmed bytes and the new ones are the checkpoint file, and the receipt says so. */
  predicate IsReceived(s: State, t: State, r: Request)
    requires r.Put? && r.upload in s.db.uploads
  {
    var x := s.db.uploads[r.upload];
    && OnlySession(s, t, r.upload)
    && r.upload in t.db.uploads
    && t.db.uploads[r.upload] == Session(x.kb, x.declared, x.total, x.partSize, x.received + r.length, Open,
                                         x.receipts[x.received := Receipt(r.length, r.digest)], x.document,
                                         x.confirmed + r.content)
    && t.files == s.files[Temporary(r.upload) := x.confirmed + r.content]
  }

  lemma ExtendedFile(s: State, u: UploadId, content: Bytes, db: Database)
    requires Temporary(u) in s.files
    ensures var t := PerformAll(s, [Extend(Temporary(u), content), Commit(db)]);
            t.db == db && t.files == s.files[Temporary(u) := s.files[Temporary(u)] + content]
  {
    hide Committed, PerformAll;
    var extend := Extend(Temporary(u), content);
    assert [extend] + [Commit(db)] == [extend, Commit(db)];
    PerformConcat(s, [extend], [Commit(db)]);
    OneAction(s, extend);
    CommitLast(Perform(s, extend), db);
    CommittedFields(Perform(s, extend), db);
  }

  /** The checkpoint file is there, empty if it was not there before. */
  lemma OpenedFile(s: State, u: UploadId)
    ensures var t := PerformAll(s, OpenPlan(s, u));
            && t.db == s.db && Temporary(u) in t.files
            && t.files == s.files[Temporary(u) := if Temporary(u) in s.files then s.files[Temporary(u)] else []]
  {
    hide PerformAll;
    NothingDone(s);
    if Temporary(u) !in s.files { OneAction(s, CreateFile(Temporary(u))); }
  }

  lemma CutFile(s: State, u: UploadId, confirmed: Bytes)
    requires Temporary(u) in s.files && confirmed <= s.files[Temporary(u)]
    ensures var cut := if |s.files[Temporary(u)]| > |confirmed| then [Truncate(Temporary(u), |confirmed|)] else [];
            PerformAll(s, cut) == s.(files := s.files[Temporary(u) := confirmed])
  {
    hide PerformAll;
    NothingDone(s);
    if |s.files[Temporary(u)]| > |confirmed| {
      OneAction(s, Truncate(Temporary(u), |confirmed|));
      assert s.files[Temporary(u)][..|confirmed|] == confirmed;
    } else {
      assert s.files[Temporary(u)] == confirmed;
      assert s.files[Temporary(u) := confirmed] == s.files;
    }
  }

  lemma GivenUpLater(s: State, s1: State, t: State, u: UploadId)
    requires u in s.db.uploads && s1.db == s.db && IsGivenUp(s1, t, u)
    requires s1.files - {Temporary(u)} == s.files - {Temporary(u)}
    ensures IsGivenUp(s, t, u)
  {
    assert s.files - {Temporary(u), Final(u)} == s.files - {Temporary(u)} - {Final(u)};
    assert s1.files - {Temporary(u), Final(u)} == s1.files - {Temporary(u)} - {Final(u)};
  }

  /** What the append of a part goes through once the checkpoint file is there. */
  function WritePlan(s: State, u: UploadId, r: Request): seq<Action>
    requires r.Put? && u in s.db.uploads && Temporary(u) in s.files
  {
    var x := s.db.uploads[u];
    (if |s.files[Temporary(u)]| > x.received then [Truncate(Temporary(u), x.received)] else [])
      + [Extend(Temporary(u), r.content), Commit(WithSession(s.db, u, Confirmed(x, r.length, r.digest, r.content)))]
  }

  lemma WrittenPart(s: State, r: Request)
    requires r.Put? && IsOpen(s, r.upload) && Temporary(r.upload) in s.files
    requires s.db.uploads[r.upload].confirmed <= s.files[Temporary(r.upload)]
    requires |s.db.uploads[r.upload].confirmed| == s.db.uploads[r.upload].received
    ensures IsReceived(s, PerformAll(s, WritePlan(s, r.upload, r)), r)
  {
    hide PerformAll;
    var u, x := r.upload, s.db.uploads[r.upload];
    var db := WithSession(s.db, u, Confirmed(x, r.length, r.digest, r.content));
    var cut := if |s.files[Temporary(u)]| > x.received then [Truncate(Temporary(u), x.received)] else [];
    var last := [Extend(Temporary(u), r.content), Commit(db)];
    PerformConcat(s, cut, last);
    CutFile(s, u, x.confirmed);
    var t := s.(files := s.files[Temporary(u) := x.confirmed]);
    ExtendedFile(t, u, r.content, db);
    assert t.files[Temporary(u) := x.confirmed + r.content] == s.files[Temporary(u) := x.confirmed + r.content];
  }

  lemma AppendIs(s: State, s1: State, r: Request)
    requires r.Put? && r.upload in s.db.uploads && s1.db == s.db && Temporary(r.upload) in s1.files
    requires |s1.files[Temporary(r.upload)]| == if Temporary(r.upload) in s.files then |s.files[Temporary(r.upload)]| else 0
    ensures AppendPlan(s, r.upload, r.length, r.digest, r.content) == OpenPlan(s, r.upload) +
              if |s1.files[Temporary(r.upload)]| < s.db.uploads[r.upload].received then FailPlan(s1, r.upload)
              else WritePlan(s1, r.upload, r)
  {}

  lemma AppendedPart(s: State, r: Request, sha: Bytes -> Digest)
    requires Inv(s, sha) && r.Put? && IsOpen(s, r.upload)
    ensures var t := PerformAll(s, AppendPlan(s, r.upload, r.length, r.digest, r.content));
            if ReachesOffset(s, r.upload) then IsReceived(s, t, r) else IsGivenUp(s, t, r.upload)
  {
    var u, x := r.upload, s.db.uploads[r.upload];
    assert SessionHolds(s, u, sha);
    assert |x.confirmed| == x.received && (Temporary(u) in s.files ==> s.files[Temporary(u)] == [] || x.confirmed <= s.files[Temporary(u)]);
    hide Inv, SessionHolds, PerformAll, FailPlan, WritePlan, OpenPlan, AppendPlan, IsGivenUp, IsReceived;
    var s1 := PerformAll(s, OpenPlan(s, u));
    OpenedFile(s, u);
    AppendIs(s, s1, r);
    assert s1.files - {Temporary(u)} == s.files - {Temporary(u)};
    if |s1.files[Temporary(u)]| < x.received {
      PerformConcat(s, OpenPlan(s, u), FailPlan(s1, u));
      FailureGivesUp(s1, u);
      GivenUpLater(s, s1, PerformAll(s1, FailPlan(s1, u)), u);
    } else {
      PerformConcat(s, OpenPlan(s, u), WritePlan(s1, u, r));
      assert x.confirmed <= s1.files[Temporary(u)];
      WrittenPart(s1, r);
      ReceivedLater(s, s1, PerformAll(s1, WritePlan(s1, u, r)), r);
    }
  }

  lemma ReceivedLater(s: State, s1: State, t: State, r: Request)
    requires r.Put? && r.upload in s.db.uploads && s1.db == s.db && IsReceived(s1, t, r)
    requires s1.files - {Temporary(r.upload)} == s.files - {Temporary(r.upload)}
    ensures IsReceived(s, t, r)
  {
    var bytes := s.db.uploads[r.upload].confirmed + r.content;
    assert s1.files[Temporary(r.upload) := bytes] == (s1.files - {Temporary(r.upload)})[Temporary(r.upload) := bytes];
    assert s.files[Temporary(r.upload) := bytes] == (s.files - {Temporary(r.upload)})[Temporary(r.upload) := bytes];
  }

  /** A part is confirmed exactly when it repeats one that was confirmed, which changes nothing, or when it is the part
      that is due and the checkpoint file reaches up to it; then its bytes follow the confirmed ones.  When the file
      does not reach, the session is given up; an expired session goes; every other part is refused and changes nothing. */
  lemma PartsExactly(s: State, r: Request, sha: Bytes -> Digest)
    requires Inv(s, sha) && r.Put?
    ensures var t, answer := Apply(s, Served(r), sha), PartAnswer(s, r, sha);
            if r.upload !in s.db.uploads then t == s && answer == Refused
            else
              var x := s.db.uploads[r.upload];
              if r.isExpired then IsExpiredAway(s, t, r.upload) && answer == Refused
              else if x.status != Open then t == s && answer == Refused
              else if IsConfirmedPart(x, r) then SameRowsAndFiles(s, t) && answer == PartConfirmed(x.received)
              else if !IsDuePart(x, r, sha) then t == s && answer == Refused
              else if !ReachesOffset(s, r.upload) then IsGivenUp(s, t, r.upload) && answer == Refused
              else IsReceived(s, t, r) && answer == PartConfirmed(x.received + r.length)
  {
    hide Inv, PerformAll, ExpirePlan, AppendPlan, IsReplay, IsNextPart, IsConfirmedPart, IsDuePart, IsGivenUp, IsReceived, IsExpiredAway;
    PartPlan(s, r, sha);
    NothingDone(s);
    if r.upload in s.db.uploads {
      DuePartIs(s.db.uploads[r.upload], r, sha);
      ExpiryDeletes(s, r.upload);
      CommitLast(s, s.db);
      CommittedFields(s, s.db);
      if IsOpen(s, r.upload) { AppendedPart(s, r, sha); }
    }
  }

  // ---------- cancellation ----------

  /** A cancelled session is gone with both its files; an unknown or completed one stays as it is. */
  lemma CancelledExactly(s: State, u: UploadId, sha: Bytes -> Digest)
    ensures var t := Apply(s, Served(Cancel(u)), sha);
            if u in s.db.uploads && s.db.uploads[u].status != Status.Completed
            then OnlySession(s, t, u) && u !in t.db.uploads && FilesGone(s, t, u)
            else t == s
  {
    hide CompletePlan, PerformAll, CreatePlan, PutPlan, ReconcilePlan, AddDocumentPlan, PurgePlan;
    NothingDone(s);
    TwoRemovals(s, u, WithoutSession(s.db, u));
  }

  // ---------- creation ----------

  /** There is an open session for the file of the request. */
  predicate IsBegun(db: Database, r: Request)
    requires r.Create?
  {
    exists v <- db.uploads :: IsSessionFor(db.uploads[v], r)
  }

  predicate IsSessionFor(x: Session, r: Request)
    requires r.Create?
  {
    x.status == Open && x.kb == r.kb && x.declared == r.declared
  }

  /** The file has some size and part size, no Document and no open session, the limit is not reached, and nothing uses
      the id. */
  predicate MayBegin(s: State, r: Request)
    requires r.Create?
  {
    && r.total > 0 && r.partSize > 0 && !IsTaken(s.db, r.kb, r.declared) && !IsBegun(s.db, r)
    && |set v <- s.db.uploads | s.db.uploads[v].status == Open| < r.limit
    && r.upload !in s.db.uploads && Temporary(r.upload) !in s.files && Final(r.upload) !in s.files
    && forall d <- s.db.documents :: s.db.documents[d].file != Some(r.upload)
  }

  /** The file has an open session of the same size and source, and no Document. */
  predicate MayGoOn(s: State, r: Request)
    requires r.Create?
  {
    && r.total > 0 && r.partSize > 0 && !IsTaken(s.db, r.kb, r.declared) && r.isSameSource
    && exists v <- s.db.uploads :: IsSessionFor(s.db.uploads[v], r) && s.db.uploads[v].total == r.total
  }

  lemma BegunIs(db: Database, r: Request)
    requires r.Create?
    ensures IsOpenElsewhere(db, r.kb, r.declared) <==> IsBegun(db, r)
    ensures Resumes(db, r.kb, r.declared, r.total) <==>
              exists v <- db.uploads :: IsSessionFor(db.uploads[v], r) && db.uploads[v].total == r.total
    ensures IsDuplicate(db, r.kb, r.declared) <==> IsTaken(db, r.kb, r.declared)
  {
    forall v | v in db.uploads ensures IsOpenFor(db, v, r.kb, r.declared) <==> IsSessionFor(db.uploads[v], r) {}
  }

  /** A creation does something exactly when it opens a session or goes on with one. */
  lemma CreationIsPlanned(s: State, r: Request)
    requires r.Create?
    ensures CreatePlan(s, r.upload, r.kb, r.declared, r.total, r.partSize, r.isSameSource, r.limit) != [] <==>
              MayBegin(s, r) || MayGoOn(s, r)
  {
    BegunIs(s.db, r);
  }

  /** A new session is opened exactly when it may be; it starts with nothing received. */
  lemma CreatedExactly(s: State, r: Request, sha: Bytes -> Digest)
    requires r.Create?
    ensures var t := Apply(s, Served(r), sha);
            if MayBegin(s, r)
            then && t.db.documents == s.db.documents && t.files == s.files
                 && t.db.uploads == s.db.uploads[r.upload := Session(
                      r.kb, r.declared, r.total, r.partSize, 0, Open, map[], None, [])]
            else SameRowsAndFiles(s, t)
  {
    hide CompletePlan, PerformAll, CancelPlan, PutPlan, ReconcilePlan, AddDocumentPlan, PurgePlan, Committed;
    BegunIs(s.db, r);
    NothingDone(s);
    CommitLast(s, s.db);
    CommittedFields(s, s.db);
    var db := WithSession(s.db, r.upload, NewSession(r.kb, r.declared, r.total, r.partSize));
    CommitLast(s, db);
    CommittedFields(s, db);
  }

  // ---------- reconciliation ----------

  /** Reconciliation gives up exactly the open sessions from which a removal has taken confirmed bytes away. */
  lemma BrokenExactly(s: State, u: UploadId, sha: Bytes -> Digest)
    requires Inv(s, sha) && IsOpen(s, u)
    ensures IsBroken(s, u) <==> u in s.discarded
  {
    hide Tiles;
    assert SessionHolds(s, u, sha);
  }

  /** Reconciliation leaves Documents alone, and the rows and files of sessions it did not go over. */
  lemma ReconciledElsewhere(s: State, picked: seq<UploadId>, expired: set<UploadId>, sha: Bytes -> Digest, u: UploadId)
    requires Inv(s, sha) && u !in picked
    ensures var t := Apply(s, Served(Reconcile(picked, expired)), sha);
            && t.db.documents == s.db.documents
            && (u in t.db.uploads <==> u in s.db.uploads)
            && (u in s.db.uploads ==> t.db.uploads[u] == s.db.uploads[u])
            && SameFiles(s, t, u)
  {
    hide Inv, Safe, PerformAll, AllRepairs, Repairs, IsBroken, CompletePlan, CreatePlan, PutPlan, CancelPlan, AddDocumentPlan, PurgePlan;
    NothingDone(s);
    SameFilesOfItself(s, u);
    if Distinct(picked) {
      forall v | v in picked ensures SameFiles(s, s, v) { SameFilesOfItself(s, v); }
      AllRepairsAreSafe(s, s, picked, expired, sha);
      var t, db := PerformAll(s, AllRepairs(s, picked, expired)), ReconciledDatabase(s, picked, expired);
      PerformConcat(s, AllRepairs(s, picked, expired), [Commit(db)]);
      CommitLast(t, db);
    }
  }

  // ---------- Documents ----------

  /** A purge removes the row of a Document that is being deleted, its file, and the link from its session. */
  lemma PurgedExactly(s: State, d: DocumentId, sha: Bytes -> Digest, u: UploadId)
    ensures var t := Apply(s, Served(PurgeDocument(d)), sha);
            if d in s.db.documents && s.db.documents[d].isDeleting
            then && t.db.documents == s.db.documents - {d}
                 && t.files == s.files - (if s.db.documents[d].file.Some? then {Final(s.db.documents[d].file.value)} else {})
                 && (u in t.db.uploads <==> u in s.db.uploads)
                 && (u in s.db.uploads ==>
                      t.db.uploads[u] == if s.db.uploads[u].document == Some(d) then s.db.uploads[u].(document := None)
                                         else s.db.uploads[u])
            else t == s
  {
    hide CompletePlan, PerformAll, CreatePlan, PutPlan, CancelPlan, ReconcilePlan, AddDocumentPlan, Discards, Committed;
    NothingDone(s);
    if d in s.db.documents && s.db.documents[d].isDeleting {
      var file := s.db.documents[d].file;
      var first := if file.Some? then [Remove(Final(file.value))] else [];
      var db := Database(map v | v in s.db.uploads ::
                           if s.db.uploads[v].document == Some(d) then s.db.uploads[v].(document := None) else s.db.uploads[v],
                         s.db.documents - {d});
      var s1 := PerformAll(s, first);
      if file.Some? { OneAction(s, first[0]); }
      PerformConcat(s, first, [Commit(db)]);
      CommitLast(s1, db);
      CommittedFields(s1, db);
    }
  }

  /** A Document that is added outside of an upload has no upload; a taken id or a known file changes nothing. */
  lemma AddedExactly(s: State, d: DocumentId, kb: KbId, digest: Digest, size: nat, sha: Bytes -> Digest)
    ensures var t := Apply(s, Served(AddDocument(d, kb, digest, size)), sha);
            if d !in s.db.documents && !IsTaken(s.db, kb, digest)
            then && t.db.documents == s.db.documents[d := DocumentRow(kb, digest, size, None, false)]
                 && t.db.uploads == s.db.uploads && t.files == s.files
            else t == s
  {
    hide CompletePlan, PerformAll, CreatePlan, PutPlan, CancelPlan, ReconcilePlan, PurgePlan, Committed;
    NothingDone(s);
    var db := s.db.(documents := s.db.documents[d := DocumentRow(kb, digest, size, None, false)]);
    CommitLast(s, db);
    CommittedFields(s, db);
  }

  /** A Document that is deleted keeps its row and its file until its purge. */
  lemma DeletedExactly(s: State, d: DocumentId, sha: Bytes -> Digest)
    ensures var t := Apply(s, Served(DeleteDocument(d)), sha);
            if d in s.db.documents
            then && t.db.documents == s.db.documents[d := s.db.documents[d].(isDeleting := true)]
                 && t.db.uploads == s.db.uploads && t.files == s.files
            else t == s
  {
    hide CompletePlan, PerformAll, CreatePlan, PutPlan, CancelPlan, ReconcilePlan, PurgePlan, Committed;
    NothingDone(s);
    if d in s.db.documents {
      var db := s.db.(documents := s.db.documents[d := s.db.documents[d].(isDeleting := true)]);
      CommitLast(s, db);
      CommittedFields(s, db);
    }
  }
}
