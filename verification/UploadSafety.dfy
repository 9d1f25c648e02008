/** What every action of every upload request keeps, wherever a crash falls, and what follows for whole runs. */
module UploadSafety {
  import opened Wrappers
  import opened Uploads

  // ---------- the invariant ----------

  /** The receipts tile the confirmed bytes in steps of the part size; only the last part may be shorter. */
  predicate Tiles(x: Session, sha: Bytes -> Digest) {
    && x.partSize > 0 && (x.received == x.total || x.received % x.partSize == 0)
    && (forall offset <- x.receipts :: offset < x.received && offset % x.partSize == 0)
    && (forall offset: nat :: offset < x.received && offset % x.partSize == 0 ==> offset in x.receipts)
    && (forall offset <- x.receipts :: ReceiptHolds(x, offset, sha))
  }

  /** A receipt confirms one part: its length and the checksum of its bytes. */
  predicate ReceiptHolds(x: Session, offset: nat, sha: Bytes -> Digest)
    requires offset in x.receipts
  {
    && x.receipts[offset].length == Min(x.partSize, x.total - offset)
    && offset + x.receipts[offset].length <= |x.confirmed|
    && x.receipts[offset].digest == sha(x.confirmed[offset..offset + x.receipts[offset].length])
  }

  predicate SessionHolds(s: State, u: UploadId, sha: Bytes -> Digest)
    requires u in s.db.uploads
  {
    var x := s.db.uploads[u];
    && x.total > 0 && x.received <= x.total && |x.confirmed| == x.received
    && (x.status == Open ==> Tiles(x, sha) && CheckpointHolds(s, u))
    && (x.status == Completed ==> |x.confirmed| == x.total && sha(x.confirmed) == x.declared)
    && (x.document.Some? ==> x.document.value in s.db.documents && s.db.documents[x.document.value].file == Some(u))
    && (forall d <- s.db.documents :: s.db.documents[d].file == Some(u) ==>
          && x.status == Completed && x.document == Some(d) && s.db.documents[d].kb == x.kb
          && (!s.db.documents[d].isDeleting ==> Final(u) in s.files && s.files[Final(u)] == x.confirmed))
  }

  /** The files of an open session.  A final file is there only after a crash in the middle of completion; the bytes
      of a session with receipts are stored exactly when no removal has taken them away. */
  predicate CheckpointHolds(s: State, u: UploadId)
    requires u in s.db.uploads
  {
    var x := s.db.uploads[u];
    && (Final(u) in s.files ==> Temporary(u) !in s.files && s.files[Final(u)] == x.confirmed && x.received == x.total)
    && (Temporary(u) in s.files ==> s.files[Temporary(u)] == [] || x.confirmed <= s.files[Temporary(u)])
    && (Temporary(u) in s.files && x.received == x.total && x.confirmed <= s.files[Temporary(u)] ==>
         s.files[Temporary(u)] == x.confirmed)
    && (u in s.discarded ==> x.received > 0)
    && (x.received > 0 ==> (IsStored(s, u) <==> u !in s.discarded))
  }

  /** A Document that came from an upload and is not being deleted has its declared file. */
  predicate DocumentHolds(s: State, d: DocumentId, sha: Bytes -> Digest)
    requires d in s.db.documents
  {
    var x := s.db.documents[d];
    x.file.Some? && !x.isDeleting ==>
      && Final(x.file.value) in s.files && |s.files[Final(x.file.value)]| == x.size
      && sha(s.files[Final(x.file.value)]) == x.digest
  }

  predicate DocumentsDiffer(db: Database) {
    forall d, e :: d in db.documents && e in db.documents && d != e ==>
      && (db.documents[d].kb != db.documents[e].kb || db.documents[d].digest != db.documents[e].digest)
      && (db.documents[d].file.None? || db.documents[d].file != db.documents[e].file)
  }

  /** A file has at most one open session. */
  predicate OpenSessionsDiffer(db: Database) {
    forall u, v :: u in db.uploads && v in db.uploads && u != v && db.uploads[u].status == Open ==>
      !IsOpenFor(db, v, db.uploads[u].kb, db.uploads[u].declared)
  }

  predicate Inv(s: State, sha: Bytes -> Digest) {
    && (forall u <- s.db.uploads :: SessionHolds(s, u, sha))
    && (forall d <- s.db.documents :: DocumentHolds(s, d, sha))
    && DocumentsDiffer(s.db) && OpenSessionsDiffer(s.db)
    && (forall u <- s.discarded :: IsOpen(s, u))
  }

  // ---------- single actions ----------

  predicate HasDocument(s: State, u: UploadId) {
    exists d <- s.db.documents :: s.db.documents[d].file == Some(u) && !s.db.documents[d].isDeleting
  }

  /** The file actions that the invariant tolerates. */
  predicate Allowed(s: State, a: Action, sha: Bytes -> Digest) {
    match a
    case CreateFile(key) =>
      key.Temporary? && IsOpen(s, key.upload) && key !in s.files && Final(key.upload) !in s.files
    case Extend(key, _) =>
      key.Temporary? && IsOpen(s, key.upload) && key in s.files && s.db.uploads[key.upload].confirmed <= s.files[key]
      && Final(key.upload) !in s.files && s.db.uploads[key.upload].received < s.db.uploads[key.upload].total
    case Truncate(key, size) =>
      key.Temporary? && IsOpen(s, key.upload) && key in s.files && s.db.uploads[key.upload].confirmed <= s.files[key]
      && size == s.db.uploads[key.upload].received
    case Move(source, destination) =>
      && source.upload == destination.upload && IsOpen(s, source.upload) && source in s.files && destination !in s.files
      && source != destination && s.files[source] == s.db.uploads[source.upload].confirmed
      && s.db.uploads[source.upload].received == s.db.uploads[source.upload].total
    case Remove(key) => key.Final? ==> !HasDocument(s, key.upload)
    case Commit(db) => Inv(Committed(s, db), sha)
  }

  function Touched(a: Action): UploadId
    requires !a.Commit?
  {
    if a.Move? then a.source.upload else a.key.upload
  }

  /** A file action on one upload leaves what holds of all others. */
  lemma Elsewhere(s: State, a: Action, sha: Bytes -> Digest, u: UploadId)
    requires !a.Commit? && Allowed(s, a, sha) && u != Touched(a) && u in s.db.uploads && SessionHolds(s, u, sha)
    ensures SessionHolds(Perform(s, a), u, sha)
  {
    hide Tiles, Inv;
  }

  lemma Here(s: State, a: Action, sha: Bytes -> Digest)
    requires !a.Commit? && Allowed(s, a, sha) && Touched(a) in s.db.uploads && SessionHolds(s, Touched(a), sha)
    ensures SessionHolds(Perform(s, a), Touched(a), sha)
  {
    hide Tiles, Inv;
    var u, s' := Touched(a), Perform(s, a);
    var x := s.db.uploads[u];
    if a.Truncate? {
      assert s.files[a.key][..x.received] == x.confirmed;
    }
    if a.Extend? {
      assert x.confirmed <= s.files[a.key] + a.content;
    }
  }

  lemma AllowedKeeps(s: State, a: Action, sha: Bytes -> Digest)
    requires Inv(s, sha) && Allowed(s, a, sha)
    ensures Inv(Perform(s, a), sha)
  {
    hide Tiles, CheckpointHolds;
    if !a.Commit? {
      hide Allowed;
      var s' := Perform(s, a);
      forall u | u in s'.db.uploads ensures SessionHolds(s', u, sha) {
        assert SessionHolds(s, u, sha);
        if u == Touched(a) { Here(s, a, sha); } else { Elsewhere(s, a, sha, u); }
      }
      forall d | d in s'.db.documents ensures DocumentHolds(s', d, sha) { DocumentStays(s, a, sha, d); }
    }
  }

  lemma DocumentStays(s: State, a: Action, sha: Bytes -> Digest, d: DocumentId)
    requires Inv(s, sha) && !a.Commit? && Allowed(s, a, sha) && d in s.db.documents
    ensures DocumentHolds(Perform(s, a), d, sha)
  {
    hide Tiles, CheckpointHolds;
    assert DocumentHolds(s, d, sha);
    var file := s.db.documents[d].file;
    if file.Some? && file.value in s.db.uploads { assert SessionHolds(s, file.value, sha); }
  }

  // ---------- plans ----------

  /** Every action of a plan is allowed when its turn comes. */
  predicate Safe(s: State, plan: seq<Action>, sha: Bytes -> Digest)
    decreases |plan|
  {
    plan == [] || (Allowed(s, plan[0], sha) && Safe(Perform(s, plan[0]), plan[1..], sha))
  }

  /** A safe plan keeps the invariant, to its end and wherever it is cut off. */
  lemma {:induction false} SafePlanKeeps(s: State, plan: seq<Action>, sha: Bytes -> Digest, done: nat, torn: nat)
    requires Inv(s, sha) && Safe(s, plan, sha)
    ensures Inv(PerformAll(s, plan), sha) && Inv(Interrupted(s, plan, done, torn), sha)
    decreases |plan|
  {
    hide Inv, Perform;
    if plan != [] {
      AllowedKeeps(s, plan[0], sha);
      SafePlanKeeps(Perform(s, plan[0]), plan[1..], sha, if done > 0 then done - 1 else 0, torn);
      if done == 0 && plan[0].Extend? && torn <= |plan[0].content| {
        AllowedKeeps(s, Extend(plan[0].key, plan[0].content[..torn]), sha);
      }
    }
  }

  lemma {:induction false} SafeConcat(s: State, a: seq<Action>, b: seq<Action>, sha: Bytes -> Digest)
    requires Safe(s, a, sha) && Safe(PerformAll(s, a), b, sha)
    ensures Safe(s, a + b, sha)
    decreases |a|
  {
    hide Allowed, Perform;
    if a == [] {
      assert a + b == b;
    } else {
      assert (a + b)[1..] == a[1..] + b;
      SafeConcat(Perform(s, a[0]), a[1..], b, sha);
    }
  }

  lemma {:induction false} PerformConcat(s: State, a: seq<Action>, b: seq<Action>)
    ensures PerformAll(s, a + b) == PerformAll(PerformAll(s, a), b)
    decreases |a|
  {
    hide Perform;
    if a == [] {
      assert a + b == b;
    } else {
      assert (a + b)[1..] == a[1..] + b;
      PerformConcat(Perform(s, a[0]), a[1..], b);
    }
  }

  // ---------- commits ----------

  /** Sessions that are open afterwards were open before, for the same file. */
  predicate OnlyCloses(db: Database, after: Database) {
    forall u <- after.uploads :: after.uploads[u].status == Open ==>
      u in db.uploads && IsOpenFor(db, u, after.uploads[u].kb, after.uploads[u].declared)
  }

  lemma StillDiffer(db: Database, after: Database)
    requires OpenSessionsDiffer(db) && OnlyCloses(db, after)
    ensures OpenSessionsDiffer(after)
  {}

  lemma CommittedFields(s: State, db: Database)
    ensures Committed(s, db).db == db && Committed(s, db).files == s.files
    ensures forall u :: u in Committed(s, db).discarded <==> u in s.discarded && u in db.uploads && db.uploads[u].status == Open
  {}

  /** Failing a session is always safe once it has no Document. */
  lemma FailCommits(s: State, u: UploadId, sha: Bytes -> Digest)
    requires Inv(s, sha) && u in s.db.uploads && s.db.uploads[u].status != Completed
    ensures Inv(Committed(s, WithSession(s.db, u, FailedSession(s.db.uploads[u]))), sha)
  {
    hide Tiles, CheckpointHolds, Committed;
    var db := WithSession(s.db, u, FailedSession(s.db.uploads[u]));
    var s' := Committed(s, db);
    CommittedFields(s, db);
    StillDiffer(s.db, db);
    forall v | v in s'.db.uploads ensures SessionHolds(s', v, sha) {
      assert SessionHolds(s, v, sha);
      if v != u && s.db.uploads[v].status == Open { SameCheckpoint(s, s', v); }
    }
    forall d | d in s'.db.documents ensures DocumentHolds(s', d, sha) { assert DocumentHolds(s, d, sha); }
  }

  lemma SameCheckpoint(s: State, s': State, u: UploadId)
    requires u in s.db.uploads && u in s'.db.uploads && s'.db.uploads[u] == s.db.uploads[u]
    requires s'.files == s.files && (u in s'.discarded <==> u in s.discarded) && CheckpointHolds(s, u)
    ensures CheckpointHolds(s', u)
  {}

  lemma RemovalCommits(s: State, u: UploadId, sha: Bytes -> Digest)
    requires Inv(s, sha)
    ensures Inv(Committed(s, WithoutSession(s.db, u)), sha)
  {
    hide Tiles, CheckpointHolds, Committed;
    var s' := Committed(s, WithoutSession(s.db, u));
    CommittedFields(s, WithoutSession(s.db, u));
    StillDiffer(s.db, WithoutSession(s.db, u));
    forall v | v in s'.db.uploads ensures SessionHolds(s', v, sha) {
      assert SessionHolds(s, v, sha);
      if s.db.uploads[v].status == Open { SameCheckpoint(s, s', v); }
    }
    forall d | d in s'.db.documents ensures DocumentHolds(s', d, sha) { assert DocumentHolds(s, d, sha); }
  }

  // ---------- discarding an upload ----------

  lemma NoDocumentYet(s: State, u: UploadId, sha: Bytes -> Digest)
    requires Inv(s, sha) && u in s.db.uploads && s.db.uploads[u].status != Completed
    ensures forall d <- s.db.documents :: s.db.documents[d].file != Some(u)
    ensures !HasDocument(s, u)
  {
    hide Tiles, CheckpointHolds;
    assert SessionHolds(s, u, sha);
  }

  /** Throwing away both files of an upload without a Document. */
  lemma DiscardIsSafe(s: State, u: UploadId, sha: Bytes -> Digest)
    requires Inv(s, sha) && u in s.db.uploads && s.db.uploads[u].status != Completed
    ensures var plan := [Remove(Temporary(u)), Remove(Final(u))];
            Safe(s, plan, sha) && Inv(PerformAll(s, plan), sha)
            && PerformAll(s, plan).db == s.db && PerformAll(s, plan).files == s.files - {Temporary(u)} - {Final(u)}
  {
    hide Inv, Safe;
    NoDocumentYet(s, u, sha);
    OneActionIsSafe(s, Remove(Temporary(u)), sha);
    var s1 := Perform(s, Remove(Temporary(u)));
    OneActionIsSafe(s1, Remove(Final(u)), sha);
    SafeConcat(s, [Remove(Temporary(u))], [Remove(Final(u))], sha);
    PerformConcat(s, [Remove(Temporary(u))], [Remove(Final(u))]);
    assert [Remove(Temporary(u))] + [Remove(Final(u))] == [Remove(Temporary(u)), Remove(Final(u))];
  }

  lemma CommitIsSafe(s: State, db: Database, sha: Bytes -> Digest)
    requires Inv(Committed(s, db), sha)
    ensures Safe(s, [Commit(db)], sha)
  {
    hide Inv;
    var plan := [Commit(db)];
    assert plan[1..] == [];
    assert Allowed(s, plan[0], sha);
  }

  lemma FailIsSafe(s: State, u: UploadId, sha: Bytes -> Digest)
    requires Inv(s, sha) && u in s.db.uploads && s.db.uploads[u].status != Completed
    ensures Safe(s, FailPlan(s, u), sha)
  {
    hide Inv, Safe;
    var discard, db := [Remove(Temporary(u)), Remove(Final(u))], WithSession(s.db, u, FailedSession(s.db.uploads[u]));
    DiscardIsSafe(s, u, sha);
    FailCommits(PerformAll(s, discard), u, sha);
    CommitIsSafe(PerformAll(s, discard), db, sha);
    SafeConcat(s, discard, [Commit(db)], sha);
    assert discard + [Commit(db)] == FailPlan(s, u);
  }

  lemma CancelIsSafe(s: State, u: UploadId, sha: Bytes -> Digest)
    requires Inv(s, sha)
    ensures Safe(s, CancelPlan(s, u), sha)
  {
    hide Inv;
    if u in s.db.uploads && s.db.uploads[u].status != Completed {
      hide Safe;
      var discard, db := [Remove(Temporary(u)), Remove(Final(u))], WithoutSession(s.db, u);
      DiscardIsSafe(s, u, sha);
      RemovalCommits(PerformAll(s, discard), u, sha);
      CommitIsSafe(PerformAll(s, discard), db, sha);
      SafeConcat(s, discard, [Commit(db)], sha);
      assert discard + [Commit(db)] == CancelPlan(s, u);
    }
  }

  lemma ExpireIsSafe(s: State, u: UploadId, sha: Bytes -> Digest)
    requires Inv(s, sha) && u in s.db.uploads
    ensures Safe(s, ExpirePlan(s, u), sha)
  {
    hide Inv, Safe;
    if s.db.uploads[u].status != Completed {
      CancelIsSafe(s, u, sha);
      assert ExpirePlan(s, u) == CancelPlan(s, u);
    } else {
      RemoveTemporaryIsSafe(s, u, sha);
      RemovalCommits(PerformAll(s, [Remove(Temporary(u))]), u, sha);
      CommitIsSafe(PerformAll(s, [Remove(Temporary(u))]), WithoutSession(s.db, u), sha);
      SafeConcat(s, [Remove(Temporary(u))], [Commit(WithoutSession(s.db, u))], sha);
      assert [Remove(Temporary(u))] + [Commit(WithoutSession(s.db, u))] == ExpirePlan(s, u);
    }
  }

  lemma OneActionIsSafe(s: State, a: Action, sha: Bytes -> Digest)
    requires Inv(s, sha) && Allowed(s, a, sha)
    ensures Safe(s, [a], sha) && PerformAll(s, [a]) == Perform(s, a) && Inv(Perform(s, a), sha)
  {
    hide Inv, Allowed;
    assert [a][1..] == [];
    AllowedKeeps(s, a, sha);
  }

  lemma RemoveTemporaryIsSafe(s: State, u: UploadId, sha: Bytes -> Digest)
    requires Inv(s, sha)
    ensures Safe(s, [Remove(Temporary(u))], sha) && Inv(PerformAll(s, [Remove(Temporary(u))]), sha)
    ensures PerformAll(s, [Remove(Temporary(u))]).db == s.db
    ensures PerformAll(s, [Remove(Temporary(u))]).files == s.files - {Temporary(u)}
  {
    hide Inv;
    OneActionIsSafe(s, Remove(Temporary(u)), sha);
  }

  // ---------- parts ----------

  lemma RestIsUnique(x: nat, n: nat, q: nat, r: nat)
    requires r < n && x == q * n + r
    ensures x % n == r
  {
    var k := x / n;
    if q > k {
      ScaledApart(k, q, n);
    } else if q < k {
      ScaledApart(q, k, n);
    }
  }

  lemma ScaledApart(a: nat, b: nat, n: nat)
    requires a < b
    ensures a * n + n <= b * n
  {
    assert (b - a - 1) * n >= 0;
    assert b * n == a * n + n + (b - a - 1) * n;
  }

  /** After a whole number of parts, one more part is a whole number of parts, with none in between. */
  lemma StepsOfParts(offset: nat, received: nat, partSize: nat)
    requires partSize > 0 && received % partSize == 0
    ensures (received + partSize) % partSize == 0
    ensures offset % partSize == 0 && offset < received + partSize ==> offset <= received
  {
    var q := received / partSize;
    assert received == q * partSize;
    assert received + partSize == (q + 1) * partSize + 0 by { assert (q + 1) * partSize == q * partSize + partSize; }
    RestIsUnique(received + partSize, partSize, q + 1, 0);
    if received < offset < received + partSize {
      RestIsUnique(offset, partSize, q, offset - received);
    }
  }

  lemma TilesGrow(x: Session, length: nat, digest: Digest, content: Bytes, sha: Bytes -> Digest)
    requires Tiles(x, sha) && |x.confirmed| == x.received && x.received < x.total
    requires length == Min(x.partSize, x.total - x.received) && |content| == length && sha(content) == digest
    ensures Tiles(Confirmed(x, length, digest, content), sha)
  {
    var y := Confirmed(x, length, digest, content);
    OffsetsGrow(x, length, digest, content, sha);
    forall offset | offset in y.receipts ensures ReceiptHolds(y, offset, sha) {
      ReceiptStays(x, length, digest, content, sha, offset);
    }
    hide ReceiptHolds, Confirmed;
    assert y.partSize == x.partSize && y.total == x.total by { UnchangedFields(x, length, digest, content); }
  }

  lemma UnchangedFields(x: Session, length: nat, digest: Digest, content: Bytes)
    ensures var y := Confirmed(x, length, digest, content); y.partSize == x.partSize && y.total == x.total
  {}

  lemma OffsetsGrow(x: Session, length: nat, digest: Digest, content: Bytes, sha: Bytes -> Digest)
    requires Tiles(x, sha) && x.received < x.total && length == Min(x.partSize, x.total - x.received)
    ensures var y := Confirmed(x, length, digest, content);
            && (y.received == y.total || y.received % y.partSize == 0)
            && (forall offset: nat :: offset < y.received && offset % y.partSize == 0 <==> offset in y.receipts)
  {
    var y := Confirmed(x, length, digest, content);
    StepsOfParts(0, x.received, x.partSize);
    forall offset: nat ensures offset < y.received && offset % y.partSize == 0 <==> offset in y.receipts {
      StepsOfParts(offset, x.received, x.partSize);
    }
  }

  lemma ReceiptStays(x: Session, length: nat, digest: Digest, content: Bytes, sha: Bytes -> Digest, offset: nat)
    requires Tiles(x, sha) && |x.confirmed| == x.received && x.received < x.total
    requires length == Min(x.partSize, x.total - x.received) && |content| == length && sha(content) == digest
    requires offset in x.receipts || offset == x.received
    ensures ReceiptHolds(Confirmed(x, length, digest, content), offset, sha)
  {
    var y := Confirmed(x, length, digest, content);
    var end := offset + y.receipts[offset].length;
    if offset != x.received { assert ReceiptHolds(x, offset, sha); }
    if offset == x.received {
      assert y.confirmed[offset..end] == content;
    } else {
      assert y.confirmed[offset..end] == x.confirmed[offset..end];
    }
  }

  lemma PartCommits(s: State, u: UploadId, length: nat, digest: Digest, content: Bytes, sha: Bytes -> Digest)
    requires Inv(s, sha) && IsOpen(s, u)
    requires IsNextPart(s.db.uploads[u], s.db.uploads[u].received, length, digest, content, sha)
    requires Temporary(u) in s.files && s.files[Temporary(u)] == s.db.uploads[u].confirmed + content
    requires Final(u) !in s.files
    ensures Inv(Committed(s, WithSession(s.db, u, Confirmed(s.db.uploads[u], length, digest, content))), sha)
  {
    hide Tiles, Committed;
    var x := s.db.uploads[u];
    var db := WithSession(s.db, u, Confirmed(x, length, digest, content));
    var s' := Committed(s, db);
    CommittedFields(s, db);
    StillDiffer(s.db, db);
    assert SessionHolds(s, u, sha);
    TilesGrow(x, length, digest, content, sha);
    StoredNow(s, u);
    forall v | v in s'.db.uploads ensures SessionHolds(s', v, sha) { assert SessionHolds(s, v, sha); }
    forall d | d in s'.db.documents ensures DocumentHolds(s', d, sha) { assert DocumentHolds(s, d, sha); }
  }

  lemma StoredNow(s: State, u: UploadId)
    requires u in s.db.uploads && Temporary(u) in s.files && s.db.uploads[u].confirmed <= s.files[Temporary(u)]
    ensures IsStored(s, u)
  {}

  /** Writing the next part to a checkpoint file that holds at least the confirmed bytes. */
  lemma WriteIsSafe(s: State, u: UploadId, length: nat, digest: Digest, content: Bytes, sha: Bytes -> Digest)
    requires Inv(s, sha) && IsOpen(s, u)
    requires IsNextPart(s.db.uploads[u], s.db.uploads[u].received, length, digest, content, sha)
    requires Temporary(u) in s.files && s.db.uploads[u].confirmed <= s.files[Temporary(u)] && Final(u) !in s.files
    ensures var x := s.db.uploads[u];
            var cut := if |s.files[Temporary(u)]| > x.received then [Truncate(Temporary(u), x.received)] else [];
            Safe(s, cut + [Extend(Temporary(u), content), Commit(WithSession(s.db, u, Confirmed(x, length, digest, content)))], sha)
  {
    var x, db := s.db.uploads[u], WithSession(s.db, u, Confirmed(s.db.uploads[u], length, digest, content));
    assert SessionHolds(s, u, sha);
    hide Inv, Safe;
    var cut := if |s.files[Temporary(u)]| > x.received then [Truncate(Temporary(u), x.received)] else [];
    var s1 := PerformAll(s, cut);
    assert Safe(s, cut, sha) && Inv(s1, sha) && s1.files[Temporary(u)] == x.confirmed && s1.db == s.db && s1.discarded == s.discarded by {
      if cut != [] { OneActionIsSafe(s, cut[0], sha); } else { NothingIsSafe(s, sha); }
    }
    OneActionIsSafe(s1, Extend(Temporary(u), content), sha);
    var s2 := Perform(s1, Extend(Temporary(u), content));
    PartCommits(s2, u, length, digest, content, sha);
    CommitIsSafe(s2, db, sha);
    SafeConcat(s1, [Extend(Temporary(u), content)], [Commit(db)], sha);
    SafeConcat(s, cut, [Extend(Temporary(u), content)] + [Commit(db)], sha);
    assert [Extend(Temporary(u), content)] + [Commit(db)] == [Extend(Temporary(u), content), Commit(db)];
  }

  lemma NothingIsSafe(s: State, sha: Bytes -> Digest)
    ensures Safe(s, [], sha) && PerformAll(s, []) == s
  {}

  /** The checkpoint file is created when there is none. */
  function OpenPlan(s: State, u: UploadId): seq<Action> {
    if Temporary(u) in s.files then [] else [CreateFile(Temporary(u))]
  }

  lemma OpeningIsSafe(s: State, u: UploadId, sha: Bytes -> Digest)
    requires Inv(s, sha) && IsOpen(s, u) && s.db.uploads[u].received < s.db.uploads[u].total
    ensures Safe(s, OpenPlan(s, u), sha)
    ensures var s1 := PerformAll(s, OpenPlan(s, u));
            && Inv(s1, sha) && s1.db == s.db && Temporary(u) in s1.files && Final(u) !in s1.files
            && (s1.files[Temporary(u)] == [] || s.db.uploads[u].confirmed <= s1.files[Temporary(u)])
            && |s1.files[Temporary(u)]| == if Temporary(u) in s.files then |s.files[Temporary(u)]| else 0
  {
    assert SessionHolds(s, u, sha);
    hide Inv, Safe, Tiles;
    if Temporary(u) !in s.files {
      OneActionIsSafe(s, CreateFile(Temporary(u)), sha);
    } else {
      NothingIsSafe(s, sha);
    }
  }

  lemma AppendIsSafe(s: State, u: UploadId, length: nat, digest: Digest, content: Bytes, sha: Bytes -> Digest)
    requires Inv(s, sha) && IsOpen(s, u)
    requires IsNextPart(s.db.uploads[u], s.db.uploads[u].received, length, digest, content, sha)
    ensures Safe(s, AppendPlan(s, u, length, digest, content), sha)
  {
    var x := s.db.uploads[u];
    assert SessionHolds(s, u, sha);
    hide Inv, Safe, Tiles;
    var open := OpenPlan(s, u);
    var s1 := PerformAll(s, open);
    OpeningIsSafe(s, u, sha);
    var rest := AppendPlan(s1, u, length, digest, content);
    if |s1.files[Temporary(u)]| < x.received {
      FailIsSafe(s1, u, sha);
      assert rest == FailPlan(s1, u);
    } else {
      WriteIsSafe(s1, u, length, digest, content, sha);
      var cut := if |s1.files[Temporary(u)]| > x.received then [Truncate(Temporary(u), x.received)] else [];
      assert rest == cut + [Extend(Temporary(u), content), Commit(WithSession(s1.db, u, Confirmed(x, length, digest, content)))];
    }
    SafeConcat(s, open, rest, sha);
    assert open + rest == AppendPlan(s, u, length, digest, content);
  }

  /** A commit that changes no row changes nothing at all. */
  lemma SameCommits(s: State, sha: Bytes -> Digest)
    requires Inv(s, sha)
    ensures Committed(s, s.db) == s && Inv(Committed(s, s.db), sha)
  {
    hide SessionHolds, DocumentHolds;
    CommittedFields(s, s.db);
    assert Committed(s, s.db).discarded == s.discarded;
  }

  lemma PutIsSafe(s: State, u: UploadId, offset: nat, length: nat, digest: Digest, content: Bytes, isExpired: bool,
                  sha: Bytes -> Digest)
    requires Inv(s, sha)
    ensures Safe(s, PutPlan(s, u, offset, length, digest, content, isExpired, sha), sha)
  {
    hide Inv, Safe, AppendPlan, ExpirePlan;
    NothingIsSafe(s, sha);
    if u in s.db.uploads {
      if isExpired {
        ExpireIsSafe(s, u, sha);
      } else if s.db.uploads[u].status == Open {
        if IsReplay(s.db.uploads[u], offset, length, digest) {
          SameCommits(s, sha);
          CommitIsSafe(s, s.db, sha);
        } else if IsNextPart(s.db.uploads[u], offset, length, digest, content, sha) {
          AppendIsSafe(s, u, length, digest, content, sha);
        }
      }
    }
  }

  // ---------- completion ----------

  lemma CompletionCommits(s: State, u: UploadId, d: DocumentId, sha: Bytes -> Digest)
    requires Inv(s, sha) && IsOpen(s, u) && d !in s.db.documents
    requires !IsDuplicate(s.db, s.db.uploads[u].kb, s.db.uploads[u].declared)
    requires Final(u) in s.files && s.files[Final(u)] == s.db.uploads[u].confirmed
    requires |s.files[Final(u)]| == s.db.uploads[u].total && sha(s.files[Final(u)]) == s.db.uploads[u].declared
    ensures Inv(Committed(s, CompletedDatabase(s.db, u, d)), sha)
  {
    hide Tiles, CheckpointHolds, Committed;
    NoDocumentYet(s, u, sha);
    var db := CompletedDatabase(s.db, u, d);
    var s' := Committed(s, db);
    CommittedFields(s, db);
    StillDiffer(s.db, db);
    forall v | v in s'.db.uploads ensures SessionHolds(s', v, sha) {
      assert SessionHolds(s, v, sha);
      if v != u && s.db.uploads[v].status == Open { SameCheckpoint(s, s', v); }
    }
    forall e | e in s'.db.documents ensures DocumentHolds(s', e, sha) {
      if e != d { assert DocumentHolds(s, e, sha); }
    }
  }

  lemma CompleteIsSafe(s: State, u: UploadId, d: DocumentId, isValid: bool, isFull: bool, outcome: Outcome,
                       isExpired: bool, sha: Bytes -> Digest)
    requires Inv(s, sha)
    ensures Safe(s, CompletePlan(s, u, d, isValid, isFull, outcome, isExpired, sha), sha)
  {
    NothingIsSafe(s, sha);
    if u in s.db.uploads && s.db.uploads[u].status != Completed {
      hide Inv, Safe, Tiles;
      if isExpired {
        ExpireIsSafe(s, u, sha);
      } else if s.db.uploads[u].status == Open && s.db.uploads[u].received == s.db.uploads[u].total {
        if !FileIsDeclared(s, u, sha) || !isValid || isFull
           || IsDuplicate(s.db, s.db.uploads[u].kb, s.db.uploads[u].declared)
        {
          FailIsSafe(s, u, sha);
        } else {
          MoveIsSafe(s, u, d, outcome, sha);
        }
      }
    }
  }

  lemma MoveIsSafe(s: State, u: UploadId, d: DocumentId, outcome: Outcome, sha: Bytes -> Digest)
    requires Inv(s, sha) && IsOpen(s, u) && s.db.uploads[u].received == s.db.uploads[u].total
    requires FileIsDeclared(s, u, sha) && !IsDuplicate(s.db, s.db.uploads[u].kb, s.db.uploads[u].declared)
    ensures Safe(s, CompletePlan(s, u, d, true, false, outcome, false, sha), sha)
  {
    var x := s.db.uploads[u];
    assert SessionHolds(s, u, sha);
    assert s.files[Temporary(u)] == x.confirmed;
    hide Inv, Safe, Tiles;
    OneActionIsSafe(s, Move(Temporary(u), Final(u)), sha);
    var s1 := Perform(s, Move(Temporary(u), Final(u)));
    var rest := if outcome == Accepted && d !in s.db.documents then [Commit(CompletedDatabase(s.db, u, d))]
                else [Move(Final(u), Temporary(u))] + if outcome == Unavailable then [] else FailPlan(s, u);
    assert Safe(s1, rest, sha) by {
      if outcome == Accepted && d !in s.db.documents {
        CompletionCommits(s1, u, d, sha);
        CommitIsSafe(s1, CompletedDatabase(s.db, u, d), sha);
      } else {
        OneActionIsSafe(s1, Move(Final(u), Temporary(u)), sha);
        var s2 := Perform(s1, Move(Final(u), Temporary(u)));
        NothingIsSafe(s2, sha);
        FailIsSafe(s2, u, sha);
        SafeConcat(s1, [Move(Final(u), Temporary(u))], if outcome == Unavailable then [] else FailPlan(s, u), sha);
      }
    }
    SafeConcat(s, [Move(Temporary(u), Final(u))], rest, sha);
  }

  // ---------- states that agree on one upload ----------

  /** Two states agree on the files of an upload. */
  predicate SameFiles(s: State, t: State, u: UploadId) {
    && (Temporary(u) in s.files <==> Temporary(u) in t.files)
    && (Temporary(u) in s.files ==> s.files[Temporary(u)] == t.files[Temporary(u)])
    && (Final(u) in s.files <==> Final(u) in t.files)
    && (Final(u) in s.files ==> s.files[Final(u)] == t.files[Final(u)])
  }

  lemma SameFilesOfItself(s: State, u: UploadId)
    ensures SameFiles(s, s, u)
  {}

  lemma SameFilesAgain(s: State, t: State, r: State, u: UploadId)
    requires SameFiles(s, t, u) && SameFiles(t, r, u)
    ensures SameFiles(s, r, u)
  {}

  lemma RepairsAreLocal(s: State, t: State, u: UploadId, isExpired: bool)
    requires t.db == s.db && SameFiles(s, t, u)
    ensures Repairs(t, u, isExpired) == Repairs(s, u, isExpired)
    ensures u in s.db.uploads ==> IsBroken(t, u) == IsBroken(s, u)
  {}
}
