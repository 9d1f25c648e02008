/** The upload endpoints as the source performs them: file operations and commits one after another.  Each
    endpoint is proved to go through exactly the actions of its plan, in that order, and to keep the invariant of
    sessions, files and Documents. */
module UploadService {
  import opened Wrappers
  import opened Uploads
  import opened UploadSafety
  import opened UploadRecovery
  import opened UploadOutcomes

  class Service {
    var db: Database
    var files: map<FileKey, Bytes>
    ghost var discarded: set<UploadId>
    /** Every action so far. */
    ghost var log: seq<Action>
    const sha: Bytes -> Digest

    ghost function Contents(): State
      reads this
    {
      State(db, files, discarded)
    }

    /** The state is what the logged actions made of an empty installation. */
    ghost predicate Logged()
      reads this
    {
      Contents() == PerformAll(EMPTY, log)
    }

    /** Between requests: what is on disk and in the database fits together. */
    ghost predicate Valid()
      reads this
    {
      Logged() && Inv(Contents(), sha)
    }

    constructor (sha: Bytes -> Digest)
      ensures Valid() && Contents() == EMPTY && this.sha == sha
    {
      this.sha := sha;
      db, files, discarded, log := Database(map[], map[]), map[], {}, [];
    }

    // ---------- storage and commits ----------

    method RemoveFile(key: FileKey)
      requires Logged()
      modifies this
      ensures Logged() && log == old(log) + [Remove(key)] && Contents() == Perform(old(Contents()), Remove(key))
    {
      discarded := Removed(Contents(), key).discarded;
      files := files - {key};
      log := log + [Remove(key)];
      PerformOneMore(EMPTY, old(log), Remove(key));
    }

    /** `os.replace`; a missing source raises and changes nothing. */
    method MoveFile(source: FileKey, destination: FileKey)
      requires Logged()
      modifies this
      ensures Logged() && log == old(log) + [Move(source, destination)]
      ensures Contents() == Perform(old(Contents()), Move(source, destination))
    {
      if source in files {
        var content := files[source];
        files := files - {source};
        files := files[destination := content];
      }
      log := log + [Move(source, destination)];
      PerformOneMore(EMPTY, old(log), Move(source, destination));
    }

    method TruncateFile(key: FileKey, size: nat)
      requires Logged()
      modifies this
      ensures Logged() && log == old(log) + [Truncate(key, size)]
      ensures Contents() == Perform(old(Contents()), Truncate(key, size))
    {
      if key in files && size <= |files[key]| { files := files[key := files[key][..size]]; }
      log := log + [Truncate(key, size)];
      PerformOneMore(EMPTY, old(log), Truncate(key, size));
    }

    method CreateEmptyFile(key: FileKey)
      requires Logged()
      modifies this
      ensures Logged() && log == old(log) + [CreateFile(key)] && Contents() == Perform(old(Contents()), CreateFile(key))
    {
      files := files[key := []];
      log := log + [CreateFile(key)];
      PerformOneMore(EMPTY, old(log), CreateFile(key));
    }

    method WriteAtEnd(key: FileKey, content: Bytes)
      requires Logged()
      modifies this
      ensures Logged() && log == old(log) + [Extend(key, content)] && Contents() == Perform(old(Contents()), Extend(key, content))
    {
      if key in files { files := files[key := files[key] + content]; }
      log := log + [Extend(key, content)];
      PerformOneMore(EMPTY, old(log), Extend(key, content));
    }

    method CommitTransaction(changed: Database)
      requires Logged()
      modifies this
      ensures Logged() && log == old(log) + [Commit(changed)] && Contents() == Perform(old(Contents()), Commit(changed))
    {
      discarded := Committed(Contents(), changed).discarded;
      db := changed;
      log := log + [Commit(changed)];
      PerformOneMore(EMPTY, old(log), Commit(changed));
    }

    /** `_append_part`: false when the file is shorter than the offset. */
    method AppendPart(key: FileKey, offset: nat, content: Bytes) returns (ok: bool)
      requires Logged()
      modifies this
      ensures Logged() && db == old(db)
      ensures var size := if key in old(files) then |old(files)[key]| else 0;
              && (ok <==> size >= offset)
              && log == old(log) + (if key in old(files) then [] else [CreateFile(key)])
                          + if !ok then [] else (if size > offset then [Truncate(key, offset)] else []) + [Extend(key, content)]
    {
      if key !in files { CreateEmptyFile(key); }
      var size := |files[key]|;
      if size > offset {
        TruncateFile(key, offset);
      } else if size < offset {
        return false;
      }
      WriteAtEnd(key, content);
      return true;
    }

    // ---------- discarding ----------

    /** `_terminal_failure`, and `_fail_inconsistent_session` with the commit of its caller. */
    method FailSession(u: UploadId)
      requires Logged() && u in db.uploads
      modifies this
      ensures Logged() && log == old(log) + FailPlan(old(Contents()), u)
    {
      RemoveFile(Temporary(u));
      RemoveFile(Final(u));
      var x := db.uploads[u];
      x := x.(receipts := map[]);
      x := x.(status := Failed);
      CommitTransaction(WithSession(db, u, x));
    }

    /** `_delete_expired_upload`. */
    method DeleteExpired(u: UploadId)
      requires Logged() && u in db.uploads
      modifies this
      ensures Logged() && log == old(log) + ExpirePlan(old(Contents()), u)
    {
      RemoveFile(Temporary(u));
      if db.uploads[u].status != Completed { RemoveFile(Final(u)); }
      CommitTransaction(WithoutSession(db, u));
    }

    // ---------- the endpoints ----------

    /** `create_upload_session`: opens a new session, or resumes the one that is open for this file. */
    method CreateSession(u: UploadId, kb: KbId, declared: Digest, total: nat, partSize: nat, isSameSource: bool, limit: nat)
      returns (answer: Answer)
      requires Valid()
      modifies this
      ensures var plan := CreatePlan(old(Contents()), u, kb, declared, total, partSize, isSameSource, limit);
              && log == old(log) + plan
              && (plan == [] <==> answer == Refused)
      ensures var request := Create(u, kb, declared, total, partSize, isSameSource, limit);
              answer != Refused <==> MayBegin(old(Contents()), request) || MayGoOn(old(Contents()), request)
      ensures Valid()
      ensures Contents() == Apply(old(Contents()), Served(Create(u, kb, declared, total, partSize, isSameSource, limit)), sha)
      ensures answer != Refused ==>
                && answer.SessionOpened? && answer.upload in db.uploads && IsOpenFor(db, answer.upload, kb, declared)
                && db.uploads[answer.upload].total == total
                && (forall v <- db.uploads :: IsOpenFor(db, v, kb, declared) ==> v == answer.upload)
                && (if IsOpenElsewhere(old(db), kb, declared) then db == old(db)
                    else answer.upload == u && u !in old(db).uploads && ActiveCount(old(db)) < limit)
    {
      ghost var before := Contents();
      ghost var request := Create(u, kb, declared, total, partSize, isSameSource, limit);
      hide Inv, Committed;
      EndpointKeeps(log, before, request, sha);
      CreationIsPlanned(before, request);
      hide MayBegin, MayGoOn;
      assert log + [] == log;
      answer := Refused;
      if total == 0 || partSize == 0 || IsDuplicate(db, kb, declared) { return; }
      if existing :| existing in db.uploads && IsOpenFor(db, existing, kb, declared) {
        OneSessionPerFile(before, sha);
        if db.uploads[existing].total != total || !isSameSource { return; }
        CommittedFields(before, db);
        CommitTransaction(db);
        return SessionOpened(existing);
      }
      if ActiveCount(db) >= limit { return; }
      if u in db.uploads || Temporary(u) in files || Final(u) in files
         || exists d <- db.documents :: db.documents[d].file == Some(u)
      {
        return;
      }
      var changed := WithSession(db, u, NewSession(kb, declared, total, partSize));
      CommittedFields(before, changed);
      CommitTransaction(changed);
      OneSessionPerFile(Contents(), sha);
      return SessionOpened(u);
    }

    /** `put_upload_part`. */
    method PutPart(u: UploadId, offset: nat, length: nat, digest: Digest, content: Bytes, isExpired: bool)
      returns (answer: Answer)
      requires Valid()
      modifies this
      ensures log == old(log) + PutPlan(old(Contents()), u, offset, length, digest, content, isExpired, sha)
      ensures answer == PutAnswer(old(Contents()), u, offset, length, digest, content, isExpired, sha)
      ensures Valid()
      ensures Contents() == Apply(old(Contents()), Served(Put(u, offset, length, digest, content, isExpired)), sha)
    {
      hide Inv;
      EndpointKeeps(log, Contents(), Put(u, offset, length, digest, content, isExpired), sha);
      answer := PutPartInOrder(u, offset, length, digest, content, isExpired);
    }

    method PutPartInOrder(u: UploadId, offset: nat, length: nat, digest: Digest, content: Bytes, isExpired: bool)
      returns (answer: Answer)
      requires Logged()
      modifies this
      ensures Logged() && log == old(log) + PutPlan(old(Contents()), u, offset, length, digest, content, isExpired, sha)
      ensures answer == PutAnswer(old(Contents()), u, offset, length, digest, content, isExpired, sha)
    {
      hide PerformAll, Discards, IsStored;
      if u !in db.uploads { return Refused; }
      if isExpired { DeleteExpired(u); return Refused; }
      var x := db.uploads[u];
      if x.status != Open { return Refused; }
      if offset in x.receipts {
        if x.receipts[offset].length != length || x.receipts[offset].digest != digest { return Refused; }
        CommitTransaction(db);
        return PartConfirmed(x.received);
      }
      if offset != x.received { return Refused; }
      var expected := Min(x.partSize, x.total - offset);
      if length == 0 || length != expected || |content| != expected { return Refused; }
      if sha(content) != digest { return Refused; }
      var ok := AppendPart(Temporary(u), offset, content);
      if !ok { FailSession(u); return Refused; }
      x := x.(receipts := x.receipts[offset := Receipt(length, digest)]);
      x := x.(received := x.received + length, confirmed := x.confirmed + content);
      CommitTransaction(WithSession(db, u, x));
      return PartConfirmed(x.received);
    }

    /** `complete_upload_session`. */
    method CompleteSession(u: UploadId, d: DocumentId, isValid: bool, isFull: bool, outcome: Outcome, isExpired: bool)
      returns (answer: Answer)
      requires Valid()
      modifies this
      ensures log == old(log) + CompletePlan(old(Contents()), u, d, isValid, isFull, outcome, isExpired, sha)
      ensures answer == CompleteAnswer(old(Contents()), u, d, isValid, isFull, outcome, isExpired, sha)
      ensures Valid()
      ensures Contents() == Apply(old(Contents()), Served(Complete(u, d, isValid, isFull, outcome, isExpired)), sha)
    {
      hide Inv;
      EndpointKeeps(log, Contents(), Complete(u, d, isValid, isFull, outcome, isExpired), sha);
      answer := CompleteInOrder(u, d, isValid, isFull, outcome, isExpired);
    }

    method CompleteInOrder(u: UploadId, d: DocumentId, isValid: bool, isFull: bool, outcome: Outcome, isExpired: bool)
      returns (answer: Answer)
      requires Logged()
      modifies this
      ensures Logged() && log == old(log) + CompletePlan(old(Contents()), u, d, isValid, isFull, outcome, isExpired, sha)
      ensures answer == CompleteAnswer(old(Contents()), u, d, isValid, isFull, outcome, isExpired, sha)
    {
      hide PerformAll, Discards, IsStored, IsDuplicate;
      if u !in db.uploads { return Refused; }
      var x := db.uploads[u];
      if x.status == Completed {
        if x.document.Some? && x.document.value in db.documents { return Document(x.document.value); }
        return Refused;
      }
      if isExpired { DeleteExpired(u); return Refused; }
      if x.status != Open || x.received != x.total { return Refused; }
      if Temporary(u) !in files { FailSession(u); return Refused; }
      if |files[Temporary(u)]| != x.total || sha(files[Temporary(u)]) != x.declared { FailSession(u); return Refused; }
      if !isValid { FailSession(u); return Refused; }
      if isFull { FailSession(u); return Refused; }
      if IsDuplicate(db, x.kb, x.declared) { FailSession(u); return Refused; }
      MoveFile(Temporary(u), Final(u));
      if outcome == Accepted && d !in db.documents {
        var document := DocumentRow(x.kb, x.declared, x.total, Some(u), false);
        x := x.(status := Completed);
        x := x.(document := Some(d));
        CommitTransaction(Database(db.uploads[u := x], db.documents[d := document]));
        return Document(d);
      }
      MoveFile(Final(u), Temporary(u));
      if outcome != Unavailable { FailSession(u); }
      return Refused;
    }

    /** `cancel_upload_session`. */
    method CancelSession(u: UploadId)
      requires Valid()
      modifies this
      ensures log == old(log) + CancelPlan(old(Contents()), u)
      ensures Valid() && Contents() == Apply(old(Contents()), Served(Cancel(u)), sha)
    {
      hide Inv;
      EndpointKeeps(log, Contents(), Cancel(u), sha);
      if u !in db.uploads || db.uploads[u].status == Completed { return; }
      RemoveFile(Temporary(u));
      RemoveFile(Final(u));
      CommitTransaction(WithoutSession(db, u));
    }

    // ---------- reconciliation ----------

    /** The body of the loop of `reconcile_upload_sessions`; the result says whether the session fails. */
    method RepairSession(u: UploadId, isExpired: bool) returns (fails: bool)
      requires Logged() && u in db.uploads
      modifies this
      ensures Logged() && db == old(db) && log == old(log) + Repairs(old(Contents()), u, isExpired)
      ensures forall v :: v != u ==> SameFiles(old(Contents()), Contents(), v)
      ensures fails <==> !isExpired && IsBroken(old(Contents()), u)
    {
      hide PerformAll, Discards, IsStored;
      var x := db.uploads[u];
      if isExpired {
        RemoveFile(Temporary(u));
        if x.status != Completed { RemoveFile(Final(u)); }
        return false;
      }
      if x.status != Open {
        RemoveFile(Temporary(u));
        if x.status == Failed { RemoveFile(Final(u)); }
        return false;
      }
      fails := RepairOpenSession(u);
    }

    /** An open session: put a stray final file back, cut the checkpoint file, or give the session up. */
    method RepairOpenSession(u: UploadId) returns (fails: bool)
      requires Logged() && IsOpen(Contents(), u)
      modifies this
      ensures Logged() && db == old(db) && log == old(log) + Repairs(old(Contents()), u, false)
      ensures forall v :: v != u ==> SameFiles(old(Contents()), Contents(), v)
      ensures fails <==> IsBroken(old(Contents()), u)
    {
      hide PerformAll, Discards, IsStored;
      var x := db.uploads[u];
      var temporarySize := if Temporary(u) in files then Some(|files[Temporary(u)]|) else None;
      var finalSize := if Final(u) in files then Some(|files[Final(u)]|) else None;
      if temporarySize.None? && finalSize.Some? {
        MoveFile(Final(u), Temporary(u));
        temporarySize := finalSize;
      } else if temporarySize.Some? && finalSize.Some? {
        RemoveFile(Final(u));
      }
      assert temporarySize == StoredSize(old(Contents()), u);
      fails := if temporarySize.None? then x.received > 0 else temporarySize.value < x.received;
      if fails {
        RemoveFile(Temporary(u));
        RemoveFile(Final(u));
      } else if temporarySize.Some? && temporarySize.value > x.received {
        TruncateFile(Temporary(u), x.received);
      }
    }

    /** `reconcile_upload_sessions`: all file repairs, then one commit. */
    method ReconcileSessions(picked: seq<UploadId>, expired: set<UploadId>)
      requires Valid() && Distinct(picked) && forall u <- picked :: u in db.uploads
      modifies this
      ensures log == old(log) + ReconcilePlan(old(Contents()), picked, expired)
      ensures Valid() && Contents() == Apply(old(Contents()), Served(Reconcile(picked, expired)), sha)
    {
      hide Inv;
      EndpointKeeps(log, Contents(), Reconcile(picked, expired), sha);
      ReconcileInOrder(picked, expired);
    }

    method ReconcileInOrder(picked: seq<UploadId>, expired: set<UploadId>)
      requires Logged() && Distinct(picked) && forall u <- picked :: u in db.uploads
      modifies this
      ensures Logged() && log == old(log) + ReconcilePlan(old(Contents()), picked, expired)
    {
      hide Repairs, AllRepairs, IsBroken, ReconciledDatabase, SameFiles;
      ghost var before := Contents();
      var uploads := db.uploads;
      assert uploads == ReconciledDatabase(before, [], expired).uploads by { NothingMarked(before, expired); }
      forall u ensures SameFiles(before, before, u) { SameFilesOfItself(before, u); }
      var i := 0;
      while i < |picked|
        invariant 0 <= i <= |picked| && Logged() && db == old(db)
        invariant forall u :: u !in picked[..i] ==> SameFiles(before, Contents(), u)
        invariant log + AllRepairs(before, picked[i..], expired) == old(log) + AllRepairs(before, picked, expired)
        invariant uploads == ReconciledDatabase(before, picked[..i], expired).uploads
      {
        var u := picked[i];
        RepairsFromHere(before, picked, expired, i);
        MarkNext(before, picked, expired, i);
        assert u !in picked[..i];
        RepairsAreLocal(before, Contents(), u, u in expired);
        label Turn:
        var fails := RepairSession(u, u in expired);
        forall v | v !in picked[..i + 1] ensures SameFiles(before, Contents(), v) {
          assert v != u && v !in picked[..i];
          SameFilesAgain(before, old@Turn(Contents()), Contents(), v);
        }
        if u in expired {
          uploads := uploads - {u};
        } else if fails {
          uploads := uploads[u := uploads[u].(receipts := map[], status := Failed)];
        }
        i := i + 1;
      }
      assert picked[..|picked|] == picked;
      EndOfRepairs(before, picked, expired, uploads);
      assert log == old(log) + AllRepairs(before, picked, expired) by {
        assert picked[i..] == picked[|picked|..] && log + [] == log;
      }
      CommitTransaction(db.(uploads := uploads));
    }
  }

  lemma {:induction false} PerformOneMore(s: State, plan: seq<Action>, a: Action)
    ensures PerformAll(s, plan + [a]) == Perform(PerformAll(s, plan), a)
  {
    hide Perform;
    PerformConcat(s, plan, [a]);
    assert [a][1..] == [];
  }

  /** An endpoint that goes through its plan ends where the request ends, and the invariant holds there. */
  lemma EndpointKeeps(log: seq<Action>, s: State, r: Request, sha: Bytes -> Digest)
    requires s == PerformAll(EMPTY, log) && Inv(s, sha)
    ensures PerformAll(EMPTY, log + Plan(s, r, sha)) == Apply(s, Served(r), sha)
    ensures Inv(Apply(s, Served(r), sha), sha)
  {
    hide Inv, Plan;
    PerformConcat(EMPTY, log, Plan(s, r, sha));
    ApplyKeeps(s, Served(r), sha);
  }

  lemma OneSessionPerFile(s: State, sha: Bytes -> Digest)
    requires Inv(s, sha)
    ensures OpenSessionsDiffer(s.db)
  {}

  lemma RepairsFromHere(s: State, picked: seq<UploadId>, expired: set<UploadId>, i: nat)
    requires i < |picked|
    ensures AllRepairs(s, picked[i..], expired)
              == Repairs(s, picked[i], picked[i] in expired) + AllRepairs(s, picked[i + 1..], expired)
  {
    assert picked[i..][0] == picked[i] && picked[i..][1..] == picked[i + 1..];
  }

  /** What the next picked session adds to the changes that the commit will make. */
  lemma MarkNext(s: State, picked: seq<UploadId>, expired: set<UploadId>, i: nat)
    requires i < |picked| && Distinct(picked) && picked[i] in s.db.uploads
    ensures var u := picked[i];
            var uploads := ReconciledDatabase(s, picked[..i], expired).uploads;
            && u in uploads
            && ReconciledDatabase(s, picked[..i + 1], expired).uploads
                 == if u in expired then uploads - {u}
                    else if IsBroken(s, u) then uploads[u := FailedSession(uploads[u])] else uploads
  {
    hide IsBroken;
    assert picked[..i + 1] == picked[..i] + [picked[i]];
  }

  lemma NothingMarked(s: State, expired: set<UploadId>)
    ensures ReconciledDatabase(s, [], expired) == s.db
  {}

  lemma EndOfRepairs(s: State, picked: seq<UploadId>, expired: set<UploadId>, uploads: map<UploadId, Session>)
    requires Distinct(picked) && uploads == ReconciledDatabase(s, picked, expired).uploads
    ensures AllRepairs(s, picked[|picked|..], expired) == []
    ensures ReconcilePlan(s, picked, expired) == AllRepairs(s, picked, expired) + [Commit(s.db.(uploads := uploads))]
  {}
}
