/** What a cached answer was computed from, and exactly when a hit is the answer that a fresh computation would give. */
module RetrievalHistory {
  import opened Wrappers
  import opened Lifecycle
  import opened RetrievalCache

  // ---------- the view behind a reader and behind an entry ----------

  /** What the Knowledge Base showed when the reader last computed its answer. */
  function ReaderView(steps: seq<Step>, setting: Setting, r: int): Option<set<Row>>
    decreases |steps|
  {
    if steps == [] then None
    else
      var init, step := steps[..|steps| - 1], steps[|steps| - 1];
      var y := Reached(init, setting);
      if step == Compute(r) && r in y.readers then Some(View(y.db, y.readers[r].kb))
      else if step.Begin? && step.reader == r then None
      else ReaderView(init, setting, r)
  }

  /** The step puts the reader's answer under this key. */
  predicate Stores(y: System, setting: Setting, step: Step, key: CacheKey) {
    step.Write? && step.reader in y.readers && y.readers[step.reader].result.Some? && key == KeyOf(y.readers[step.reader], setting)
  }

  /** What the Knowledge Base showed when the answer in the entry was computed; none without an entry. */
  function EntryView(steps: seq<Step>, setting: Setting, key: CacheKey): Option<set<Row>>
    decreases |steps|
  {
    if steps == [] then None
    else
      var init, step := steps[..|steps| - 1], steps[|steps| - 1];
      if Stores(Reached(init, setting), setting, step, key) then ReaderView(init, setting, step.reader)
      else if step == Evict(key) then None
      else EntryView(init, setting, key)
  }

  lemma ReachedStep(steps: seq<Step>, setting: Setting)
    requires steps != []
    ensures Reached(steps, setting) == Next(Reached(steps[..|steps| - 1], setting), steps[|steps| - 1], setting)
  {
    hide Next;
  }

  lemma ReaderViewStep(steps: seq<Step>, setting: Setting, r: int)
    requires steps != []
    ensures var init, step := steps[..|steps| - 1], steps[|steps| - 1];
            var y := Reached(init, setting);
            ReaderView(steps, setting, r) ==
              if step == Compute(r) && r in y.readers then Some(View(y.db, y.readers[r].kb))
              else if step.Begin? && step.reader == r then None
              else ReaderView(init, setting, r)
  {
    hide Reached, View;
  }

  lemma EntryViewStep(steps: seq<Step>, setting: Setting, key: CacheKey)
    requires steps != []
    ensures var init, step := steps[..|steps| - 1], steps[|steps| - 1];
            EntryView(steps, setting, key) ==
              if Stores(Reached(init, setting), setting, step, key) then ReaderView(init, setting, step.reader)
              else if step == Evict(key) then None
              else EntryView(init, setting, key)
  {
    hide Reached, Stores, ReaderView;
  }

  // ---------- the history is the truth ----------

  /** A reader has a result exactly when there is a view behind it, and it is the answer computed from that view. */
  predicate ReaderHolds(y: System, setting: Setting, r: int, view: Option<set<Row>>) {
    && (view.Some? <==> r in y.readers && y.readers[r].result.Some?)
    && (view.Some? ==> y.readers[r].result.value == setting.pipeline(view.value, y.readers[r].query))
  }

  lemma {:induction false} ReaderHistory(steps: seq<Step>, setting: Setting, r: int)
    ensures ReaderHolds(Reached(steps, setting), setting, r, ReaderView(steps, setting, r))
    decreases |steps|
  {
    hide Reached, ReaderView, View, Apply, Generation;
    if steps == [] {
      NothingRead(setting, r);
    } else {
      ReaderHistory(steps[..|steps| - 1], setting, r);
      ReachedStep(steps, setting);
      ReaderViewStep(steps, setting, r);
    }
  }

  lemma NothingRead(setting: Setting, r: int)
    ensures ReaderHolds(Reached([], setting), setting, r, ReaderView([], setting, r))
  {}

  ghost predicate IsAnswerFrom(e: Entry, setting: Setting, digest: int, view: set<Row>) {
    exists asked: Query :: setting.digest(asked) == digest && e == Written(setting.pipeline(view, asked))
  }

  /** There is an entry exactly when there is a view behind it, and the entry is the answer that was computed from that
      view for a request with its digest. */
  ghost predicate EntryHolds(y: System, setting: Setting, key: CacheKey, view: Option<set<Row>>) {
    && (view.Some? <==> key in y.cache)
    && (view.Some? ==> IsAnswerFrom(y.cache[key], setting, key.digest, view.value))
  }

  lemma {:induction false} EntryHistory(steps: seq<Step>, setting: Setting, key: CacheKey)
    ensures EntryHolds(Reached(steps, setting), setting, key, EntryView(steps, setting, key))
    decreases |steps|
  {
    hide Reached, ReaderView, EntryView, View, Apply, Generation, Written;
    if steps == [] {
      NothingCached(setting, key);
    } else {
      var init, step := steps[..|steps| - 1], steps[|steps| - 1];
      EntryHistory(init, setting, key);
      ReachedStep(steps, setting);
      EntryViewStep(steps, setting, key);
      if Stores(Reached(init, setting), setting, step, key) {
        ReaderHistory(init, setting, step.reader);
        var reader := Reached(init, setting).readers[step.reader];
        assert setting.digest(reader.query) == key.digest;
      }
    }
  }

  lemma NothingCached(setting: Setting, key: CacheKey)
    ensures EntryHolds(Reached([], setting), setting, key, EntryView([], setting, key))
  {}

  // ---------- the pipeline does not steer the protocol ----------

  /** The same reader, apart from what its result is. */
  predicate SameReader(a: Reader, b: Reader) { a.(result := None) == b.(result := None) && a.result.Some? == b.result.Some? }

  predicate SameProtocol(y: System, z: System) {
    && y.db == z.db && y.cache.Keys == z.cache.Keys && y.readers.Keys == z.readers.Keys
    && forall r <- y.readers :: SameReader(y.readers[r], z.readers[r])
  }

  lemma NextSameProtocol(y: System, z: System, step: Step, setting: Setting, p: Pipeline)
    requires SameProtocol(y, z)
    ensures SameProtocol(Next(y, step, setting), Next(z, step, setting.(pipeline := p)))
  {
    hide Apply, View, Generation, Written;
  }

  lemma {:induction false} ReachedSameProtocol(steps: seq<Step>, setting: Setting, p: Pipeline)
    ensures SameProtocol(Reached(steps, setting), Reached(steps, setting.(pipeline := p)))
    decreases |steps|
  {
    hide Next;
    if steps != [] {
      var init := steps[..|steps| - 1];
      ReachedSameProtocol(init, setting, p);
      NextSameProtocol(Reached(init, setting), Reached(init, setting.(pipeline := p)), steps[|steps| - 1], setting, p);
    }
  }

  lemma {:induction false} SameReaderView(steps: seq<Step>, setting: Setting, p: Pipeline, r: int)
    ensures ReaderView(steps, setting.(pipeline := p), r) == ReaderView(steps, setting, r)
    decreases |steps|
  {
    hide Reached, View;
    if steps != [] {
      var init := steps[..|steps| - 1];
      SameReaderView(init, setting, p, r);
      ReachedSameProtocol(init, setting, p);
    }
  }

  /** What is behind an entry depends on the run only, not on the pipeline. */
  lemma {:induction false} SameEntryView(steps: seq<Step>, setting: Setting, p: Pipeline, key: CacheKey)
    ensures EntryView(steps, setting.(pipeline := p), key) == EntryView(steps, setting, key)
    decreases |steps|
  {
    hide Reached, ReaderView;
    if steps != [] {
      var init, step := steps[..|steps| - 1], steps[|steps| - 1];
      SameEntryView(init, setting, p, key);
      ReachedSameProtocol(init, setting, p);
      if step.Write? { SameReaderView(init, setting, p, step.reader); }
    }
  }

  // ---------- exactly when hits are fresh ----------

  /** A hit on an entry whose view is the view of now is the fresh answer to a request with the same digest. */
  lemma HitFromCurrentView(steps: seq<Step>, setting: Setting, kb: KbId, q: Query) returns (asked: Query)
    requires setting.maxAttempts > 0 && Selects(setting.pipeline)
    requires var y := Reached(steps, setting);
             EntryView(steps, setting, CurrentKey(y, setting, kb, q)) == Some(View(y.db, kb))
    requires Served(Reached(steps, setting), setting, kb, q).Some?
    ensures setting.digest(asked) == setting.digest(q)
    ensures Served(Reached(steps, setting), setting, kb, q)
              == Some(setting.pipeline(View(Reached(steps, setting).db, kb), asked))
  {
    hide Reached, EntryView, LoadCached, Written, View, Generation;
    var y := Reached(steps, setting);
    var key := CurrentKey(y, setting, kb, q);
    EntryHistory(steps, setting, key);
    DatabaseHolds(steps, setting);
    asked :| setting.digest(asked) == key.digest && y.cache[key] == Written(setting.pipeline(View(y.db, kb), asked));
    WrittenIsReadBack(y.db, setting.maxAttempts, kb, q, setting.pipeline(View(y.db, kb), asked));
  }

  /** A hit, if there is one, is the answer that a fresh computation would give now. */
  predicate HitIsFresh(steps: seq<Step>, setting: Setting, kb: KbId, q: Query) {
    var y := Reached(steps, setting);
    Served(y, setting, kb, q).Some? ==> Served(y, setting, kb, q) == Some(setting.pipeline(View(y.db, kb), q))
  }

  /** A pipeline that answers with chunks of the view, the same for requests with the same digest. */
  ghost predicate IsProper(setting: Setting) { Selects(setting.pipeline) && RespectsDigest(setting) }

  ghost predicate AlwaysFresh(steps: seq<Step>, setting: Setting, kb: KbId, q: Query) {
    forall p: Pipeline :: IsProper(setting.(pipeline := p)) ==> HitIsFresh(steps, setting.(pipeline := p), kb, q)
  }

  /** There is no entry under the current key, or what was shown when it was computed is what is shown now. */
  predicate EntryIsCurrent(steps: seq<Step>, setting: Setting, kb: KbId, q: Query) {
    var y := Reached(steps, setting);
    var view := EntryView(steps, setting, CurrentKey(y, setting, kb, q));
    view.None? || view.value == View(y.db, kb)
  }

  lemma SameEntryIsCurrent(steps: seq<Step>, setting: Setting, p: Pipeline, kb: KbId, q: Query)
    ensures EntryIsCurrent(steps, setting.(pipeline := p), kb, q) == EntryIsCurrent(steps, setting, kb, q)
  {
    hide Reached, EntryView, View, Generation;
    ReachedSameProtocol(steps, setting, p);
    SameEntryView(steps, setting, p, CurrentKey(Reached(steps, setting), setting, kb, q));
  }

  lemma CurrentIsFresh(steps: seq<Step>, setting: Setting, kb: KbId, q: Query)
    requires setting.maxAttempts > 0 && IsProper(setting) && EntryIsCurrent(steps, setting, kb, q)
    ensures HitIsFresh(steps, setting, kb, q)
  {
    hide Reached, EntryView, LoadCached, View, Generation;
    var y := Reached(steps, setting);
    EntryHistory(steps, setting, CurrentKey(y, setting, kb, q));
    if Served(y, setting, kb, q).Some? {
      var asked := HitFromCurrentView(steps, setting, kb, q);
    }
  }

  /** A pipeline that only tells whether it sees what is shown in the end. */
  function Telling(view: set<Row>): Pipeline { (v: set<Row>, q: Query) => Answer([], v == view) }

  lemma OutdatedIsStale(steps: seq<Step>, setting: Setting, kb: KbId, q: Query)
    requires !EntryIsCurrent(steps, setting, kb, q)
    ensures var told := setting.(pipeline := Telling(View(Reached(steps, setting).db, kb)));
            IsProper(told) && !HitIsFresh(steps, told, kb, q)
  {
    hide Reached, EntryView, View, Generation;
    var p := Telling(View(Reached(steps, setting).db, kb));
    var told := setting.(pipeline := p);
    var y := Reached(steps, told);
    ReachedSameProtocol(steps, setting, p);
    SameEntryIsCurrent(steps, setting, p, kb, q);
    var key := CurrentKey(y, told, kb, q);
    EntryHistory(steps, told, key);
    assert y.cache[key] == Entry([], false);
    assert LoadCached(y.db, kb, q, Entry([], false)).value.sufficient == false;
  }

  /** In every run of readers, writers, evictions and transactions: a hit at the current generation is fresh, for every
      pipeline whose answers the digest determines, if and only if what the Knowledge Base showed when the entry was
      computed is what it shows now. */
  lemma HitsAreFreshExactly(steps: seq<Step>, setting: Setting, kb: KbId, q: Query)
    requires setting.maxAttempts > 0
    ensures AlwaysFresh(steps, setting, kb, q) <==> EntryIsCurrent(steps, setting, kb, q)
  {
    hide HitIsFresh, IsProper, EntryIsCurrent;
    if EntryIsCurrent(steps, setting, kb, q) {
      forall p: Pipeline | IsProper(setting.(pipeline := p)) ensures HitIsFresh(steps, setting.(pipeline := p), kb, q) {
        SameEntryIsCurrent(steps, setting, p, kb, q);
        CurrentIsFresh(steps, setting.(pipeline := p), kb, q);
      }
    } else {
      OutdatedIsStale(steps, setting, kb, q);
    }
  }

  // ---------- undisturbed runs ----------

  /** Behind everything of the current generation is what is shown now. */
  ghost predicate AllCurrent(steps: seq<Step>, setting: Setting, kb: KbId) {
    var y := Reached(steps, setting);
    && (forall key: CacheKey :: key.kb == kb && key.generation == Generation(y.db, kb) ==>
          IsNow(EntryView(steps, setting, key), y, kb))
    && (forall r <- y.readers :: y.readers[r].kb == kb && y.readers[r].generation == Generation(y.db, kb) ==>
          IsNow(ReaderView(steps, setting, r), y, kb))
  }

  predicate IsNow(view: Option<set<Row>>, y: System, kb: KbId) { view.None? || view.value == View(y.db, kb) }

  lemma {:induction false} UndisturbedIsCurrent(steps: seq<Step>, setting: Setting, kb: KbId)
    requires !Disturbed(steps, setting, kb)
    ensures AllCurrent(steps, setting, kb)
    decreases |steps|
  {
    hide Reached, ReaderView, EntryView, View, Generation, Next, AllCurrent, Disturbed;
    if steps == [] {
      NothingIsCurrent(setting, kb);
    } else {
      var init := steps[..|steps| - 1];
      DisturbedStep(steps, setting, kb);
      if Generation(Reached(steps, setting).db, kb) == Generation(Reached(init, setting).db, kb) {
        UndisturbedIsCurrent(init, setting, kb);
        CurrentStays(steps, setting, kb);
      } else {
        NewGenerationIsCurrent(steps, setting, kb);
      }
    }
  }

  lemma NothingIsCurrent(setting: Setting, kb: KbId)
    ensures AllCurrent([], setting, kb)
  {}

  lemma DisturbedStep(steps: seq<Step>, setting: Setting, kb: KbId)
    requires steps != [] && !Disturbed(steps, setting, kb)
    ensures var before, after := Reached(steps[..|steps| - 1], setting).db, Reached(steps, setting).db;
            Generation(after, kb) == Generation(before, kb) ==>
              !Disturbed(steps[..|steps| - 1], setting, kb) && View(after, kb) == View(before, kb)
  {
    hide Reached, View, Generation;
  }

  lemma CurrentStays(steps: seq<Step>, setting: Setting, kb: KbId)
    requires steps != [] && AllCurrent(steps[..|steps| - 1], setting, kb)
    requires var before, after := Reached(steps[..|steps| - 1], setting).db, Reached(steps, setting).db;
             Generation(after, kb) == Generation(before, kb) && View(after, kb) == View(before, kb)
    ensures AllCurrent(steps, setting, kb)
  {
    hide Reached, ReaderView, EntryView, View, Generation, Apply, Written;
    var init, step := steps[..|steps| - 1], steps[|steps| - 1];
    var x, y := Reached(init, setting), Reached(steps, setting);
    ReachedStep(steps, setting);
    forall r | r in y.readers && y.readers[r].kb == kb && y.readers[r].generation == Generation(y.db, kb)
      ensures IsNow(ReaderView(steps, setting, r), y, kb)
    {
      ReaderViewStep(steps, setting, r);
    }
    forall key: CacheKey | key.kb == kb && key.generation == Generation(y.db, kb)
      ensures IsNow(EntryView(steps, setting, key), y, kb)
    {
      EntryViewStep(steps, setting, key);
    }
  }

  /** When the generation has just moved, nothing is behind it yet. */
  lemma NewGenerationIsCurrent(steps: seq<Step>, setting: Setting, kb: KbId)
    requires steps != []
    requires Generation(Reached(steps, setting).db, kb) != Generation(Reached(steps[..|steps| - 1], setting).db, kb)
    ensures AllCurrent(steps, setting, kb)
  {
    hide ReaderView, EntryView, View, Generation, Apply, Written;
    var init, step := steps[..|steps| - 1], steps[|steps| - 1];
    var x, y := Reached(init, setting), Reached(steps, setting);
    hide Reached;
    assert y == x.(db := y.db) && step.Database?;
    GenerationGrows(x.db, step.event, setting.maxAttempts, kb);
    NeverAhead(init, setting, kb);
    forall key: CacheKey | key.kb == kb && key.generation == Generation(y.db, kb)
      ensures IsNow(EntryView(steps, setting, key), y, kb)
    {
      EntryHistory(steps, setting, key);
      assert key in x.cache ==> key.generation <= Generation(x.db, kb);
    }
  }

  /** Transparency: unless a re-index claim has changed what the Knowledge Base shows since its generation last
      moved, a hit at the current generation serves the answer that a fresh computation would give now to a
      request with the same digest, however slow the readers were that wrote entries. */
  lemma HitsAreTransparent(steps: seq<Step>, setting: Setting, kb: KbId, q: Query)
    requires setting.maxAttempts > 0 && Selects(setting.pipeline)
    requires !Disturbed(steps, setting, kb)
    requires Served(Reached(steps, setting), setting, kb, q).Some?
    ensures exists asked: Query :: setting.digest(asked) == setting.digest(q) &&
              Served(Reached(steps, setting), setting, kb, q)
                == Some(setting.pipeline(View(Reached(steps, setting).db, kb), asked))
  {
    hide Reached, EntryView, ReaderView, LoadCached, Disturbed, View, Generation;
    var y := Reached(steps, setting);
    UndisturbedIsCurrent(steps, setting, kb);
    EntryHistory(steps, setting, CurrentKey(y, setting, kb, q));
    var asked := HitFromCurrentView(steps, setting, kb, q);
  }

  /** For a pipeline that respects the digest, an undisturbed hit is the fresh answer to the request itself. */
  lemma HitsAreFresh(steps: seq<Step>, setting: Setting, kb: KbId, q: Query)
    requires setting.maxAttempts > 0 && Selects(setting.pipeline) && RespectsDigest(setting)
    requires !Disturbed(steps, setting, kb)
    requires Served(Reached(steps, setting), setting, kb, q).Some?
    ensures Served(Reached(steps, setting), setting, kb, q)
              == Some(setting.pipeline(View(Reached(steps, setting).db, kb), q))
  {
    hide Reached, EntryView, ReaderView, LoadCached, Disturbed, View, Generation;
    UndisturbedIsCurrent(steps, setting, kb);
    CurrentIsFresh(steps, setting, kb, q);
  }

  // ---------- a disturbance that does no harm ----------

  /** A reader's answer is cached, the document is claimed for re-indexing, the claim is reset as stale. */
  const HARMLESS: seq<Step> := [
    Database(AddDocumentEvent(1, 0)),
    Database(ClaimDocumentEvent(1, 1, Legacy, false)),
    Database(PublishEvent(1, [CHUNK])),
    Database(CreateJobEvent(1, Hierarchical, 1, {1})),
    Begin(1, 0, Query(0, {})),
    Compute(1),
    Write(1),
    Database(ClaimBatchEvent(1, [], [1])),
    Database(ClaimBatchEvent(1, [1], []))]

  lemma BeforeReading()
    ensures Reached(HARMLESS[..4], PEEK) == System(QUEUED, map[], map[])
  {
    hide Apply, Reached;
    FirstIngestion();
    Queueing();
    assert Reached(HARMLESS[..0], PEEK) == System(EMPTY, map[], map[]) by { assert HARMLESS[..0] == []; EmptyReached(PEEK); }
    NextOf(HARMLESS, PEEK, 0);
    NextOf(HARMLESS, PEEK, 1);
    NextOf(HARMLESS, PEEK, 2);
    NextOf(HARMLESS, PEEK, 3);
  }

  lemma ChunkIsShown()
    ensures View(QUEUED, 0) == {CHUNK} && View(CLAIMED, 0) == {} && View(RELEASED, 0) == {CHUNK}
  {
    assert CHUNK in QUEUED.chunks && CHUNK in RELEASED.chunks;
  }

  const READ_CACHE: map<CacheKey, Entry> := map[CacheKey(0, 1, 0) := Entry([], true)]

  const READERS: map<int, Reader> := map[1 := Reader(0, 1, Query(0, {}), Some(Answer([], true)))]

  lemma AfterReading()
    ensures Reached(HARMLESS[..5], PEEK) == System(QUEUED, map[], map[1 := Reader(0, 1, Query(0, {}), None)])
    ensures Reached(HARMLESS[..6], PEEK) == System(QUEUED, map[], READERS)
    ensures Reached(HARMLESS[..7], PEEK) == System(QUEUED, READ_CACHE, READERS)
  {
    hide Apply, Reached, View;
    BeforeReading();
    ChunkIsShown();
    NextOf(HARMLESS, PEEK, 4);
    NextOf(HARMLESS, PEEK, 5);
    NextOf(HARMLESS, PEEK, 6);
  }

  lemma AfterReleasing()
    ensures Reached(HARMLESS[..8], PEEK) == System(CLAIMED, READ_CACHE, READERS)
    ensures Reached(HARMLESS, PEEK) == System(RELEASED, READ_CACHE, READERS)
  {
    hide Apply, Reached, View;
    AfterReading();
    Claiming();
    Releasing();
    NextOf(HARMLESS, PEEK, 7);
    NextOf(HARMLESS, PEEK, 8);
    assert HARMLESS[..9] == HARMLESS;
  }

  lemma EntryBehindReading()
    ensures EntryView(HARMLESS, PEEK, CacheKey(0, 1, 0)) == Some({CHUNK})
  {
    hide Reached, View, EntryView, ReaderView;
    AfterReading();
    ChunkIsShown();
    assert HARMLESS[..9] == HARMLESS && HARMLESS[..9][..8] == HARMLESS[..8] && HARMLESS[..8][..7] == HARMLESS[..7];
    assert HARMLESS[..7][..6] == HARMLESS[..6] && HARMLESS[..6][..5] == HARMLESS[..5];
    EntryViewStep(HARMLESS[..9], PEEK, CacheKey(0, 1, 0));
    EntryViewStep(HARMLESS[..8], PEEK, CacheKey(0, 1, 0));
    EntryViewStep(HARMLESS[..7], PEEK, CacheKey(0, 1, 0));
    ReaderViewStep(HARMLESS[..6], PEEK, 1);
  }

  /** A disturbance need not do harm: here a claim hid a document and its release showed it again, so the view behind
      the entry is the view of now, and the hit is the fresh answer. */
  lemma DisturbedHitsCanBeFresh()
    ensures Disturbed(HARMLESS, PEEK, 0) && EntryIsCurrent(HARMLESS, PEEK, 0, Query(0, {}))
    ensures var y := Reached(HARMLESS, PEEK);
            Served(y, PEEK, 0, Query(0, {})) == Some(Answer([], true)) == Some(PEEK.pipeline(View(y.db, 0), Query(0, {})))
  {
    hide Reached, EntryView, View;
    AfterReleasing();
    EntryBehindReading();
    ChunkIsShown();
    assert HARMLESS[..|HARMLESS| - 1] == HARMLESS[..8];
    assert LoadCached(RELEASED, 0, Query(0, {}), Entry([], true)).value.candidates == [];
  }

  // ---------- the cache serves what was written ----------

  lemma OneMoreStep(steps: seq<Step>, step: Step, setting: Setting)
    ensures Reached(steps + [step], setting) == Next(Reached(steps, setting), step, setting)
  {
    hide Next;
    assert (steps + [step])[..|steps|] == steps;
  }

  /** The three steps of a reader that finds no entry. */
  function Reading(r: int, kb: KbId, q: Query): seq<Step> { [Begin(r, kb, q), Compute(r), Write(r)] }

  lemma AfterOneReading(steps: seq<Step>, setting: Setting, r: int, kb: KbId, q: Query)
    ensures var y, z := Reached(steps, setting), Reached(steps + Reading(r, kb, q), setting);
            && z.db == y.db && CurrentKey(y, setting, kb, q) in z.cache
            && z.cache[CurrentKey(y, setting, kb, q)] == Written(setting.pipeline(View(y.db, kb), q))
  {
    hide Reached, View, Generation, Written;
    var s1, s2 := steps + [Begin(r, kb, q)], steps + [Begin(r, kb, q)] + [Compute(r)];
    OneMoreStep(steps, Begin(r, kb, q), setting);
    OneMoreStep(s1, Compute(r), setting);
    OneMoreStep(s2, Write(r), setting);
    assert s2 + [Write(r)] == steps + Reading(r, kb, q);
  }

  /** In every run: right after a reader has written its answer, the cache serves exactly this answer, if it has at most a
      hundred candidates and none of them twice. */
  lemma WrittenIsServed(steps: seq<Step>, setting: Setting, r: int, kb: KbId, q: Query)
    requires setting.maxAttempts > 0 && Selects(setting.pipeline)
    requires var a := setting.pipeline(View(Reached(steps, setting).db, kb), q);
             && |a.candidates| <= 100
             && forall i, j :: 0 <= i < j < |a.candidates| ==> IdOf(a.candidates[i].row) != IdOf(a.candidates[j].row)
    ensures Served(Reached(steps + Reading(r, kb, q), setting), setting, kb, q)
              == Some(setting.pipeline(View(Reached(steps, setting).db, kb), q))
  {
    hide Reached, View, Generation, LoadCached;
    var y := Reached(steps, setting);
    var a := setting.pipeline(View(y.db, kb), q);
    AfterOneReading(steps, setting, r, kb, q);
    DatabaseHolds(steps, setting);
    var e := Written(a);
    forall c | c in e.candidates ensures exists row <- View(y.db, kb) :: IdOf(row) == c.id && Matches(q, row) {
      var i :| 0 <= i < |e.candidates| && e.candidates[i] == c;
      assert a.candidates[i] in a.candidates;
    }
    ServedChunksAreReady(y.db, kb, q, e);
    WrittenIsReadBack(y.db, setting.maxAttempts, kb, q, a);
  }
}
