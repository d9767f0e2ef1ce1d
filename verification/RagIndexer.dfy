/** The indexing cycle as it runs: loops over vectors, flags and tables, one database call at a
    time, any of which may fail and abandon the cycle. */
module RagIndexer {
  import opened Wrappers
  import opened RagIndexing
  import opened RagWatermarks

  datatype CycleReport = CycleReport(
    sourcesScanned: nat,
    sourcesUpdated: nat,
    chunksIndexed: nat,
    sourcesFailed: nat)

  lemma {:induction false} InsertsPrefix(env: Env, todo: seq<Scanned>, entries: seq<Entry>, failing: set<nat>, k: nat)
    requires k <= |entries|
    requires forall e <- entries :: e.idx < |todo|
    ensures Inserts(env, todo, entries, failing, k) <= Inserts(env, todo, entries, failing, |entries|)
    decreases |entries| - k
  {
    if k < |entries| {
      InsertsPrefix(env, todo, entries, failing, k + 1);
    }
  }

  /** The database, how many more of its calls will succeed, and whether the one that then fails
      gets as far as its second statement. */
  class Store {
    var rows: seq<IndexRow>
    var hashes: map<Source, string>
    var marks: map<Kind, int>
    var budget: nat
    const half: bool

    constructor (db: Db, budget: nat, half: bool)
      ensures Snapshot() == db && this.budget == budget && this.half == half
    {
      rows, hashes, marks := db.rows, db.hashes, db.marks;
      this.budget := budget;
      this.half := half;
    }

    function Snapshot(): Db
      reads this
    {
      Db(rows, hashes, marks)
    }

    /** One database call of one or two autocommitting statements. */
    method Issue(w: Write) returns (ok: bool)
      modifies this
      ensures ok <==> old(budget) > 0
      ensures Snapshot() == if ok then ApplyWrite(old(Snapshot()), w) else Cut(old(Snapshot()), w, half)
      ensures budget == if ok then old(budget) - 1 else 0
    {
      ok := budget > 0;
      if !ok && !half {
        return;
      }
      match w {
        case Delete(s) =>
          rows := Bared(rows, s);
          if ok {
            BaredThenGone(rows, old(rows), s);
            rows := Without(rows, s);
          }
        case Insert(row) =>
          rows := rows + [row.(vector := None)];
          if ok {
            rows := rows[|rows| - 1 := row];
          }
        case SetHash(s, h) =>
          if ok {
            hashes := hashes[s := h];
          }
        case SetMark(kind, t) =>
          if ok {
            marks := marks[kind := t];
          }
      }
      if ok {
        budget := budget - 1;
      }
    }
  }

  /** What the store holds after the cycle issued `issued` and `left` calls remain. */
  ghost predicate Progress(store: Store, base: Db, budget: nat, issued: seq<Write>)
    reads store
  {
    && store.Snapshot() == ApplyAll(base, issued)
    && |issued| <= budget && store.budget == budget - |issued|
  }

  /** What a failing call leaves. */
  function Cut(db: Db, w: Write, half: bool): Db {
    if half then ApplyHalf(db, w) else db
  }

  lemma {:induction false} BaredThenGone(bared: seq<IndexRow>, rows: seq<IndexRow>, s: Source)
    requires bared == Bared(rows, s)
    ensures Without(bared, s) == Without(rows, s)
    decreases |rows|
  {
    if rows != [] {
      var n := |rows| - 1;
      BaredThenGone(Bared(rows[..n], s), rows[..n], s);
      assert bared[..|bared| - 1] == Bared(rows[..n], s);
    }
  }

  /** The calls stopped at the first one the budget did not cover, and this is what it left. */
  ghost predicate Stopped(store: Store, base: Db, budget: nat, issued: seq<Write>, ws: seq<Write>)
    reads store
  {
    && issued < ws && |issued| == budget
    && store.Snapshot() == Cut(ApplyAll(base, issued), ws[|issued|], store.half)
  }

  lemma Issued(base: Db, issued: seq<Write>, w: Write)
    ensures ApplyAll(base, issued + [w]) == ApplyWrite(ApplyAll(base, issued), w)
  {
    assert (issued + [w])[..|issued|] == issued;
  }

  /** Issues `ws` in order and stops at the first failing call. */
  method IssueAll(store: Store, ws: seq<Write>, ghost base: Db, ghost budget: nat, ghost before: seq<Write>)
    returns (ok: bool, ghost issued: seq<Write>)
    requires Progress(store, base, budget, before)
    modifies store
    ensures ok ==> Progress(store, base, budget, issued) && issued == before + ws
    ensures !ok ==> Stopped(store, base, budget, issued, before + ws)
  {
    issued := before;
    for i := 0 to |ws|
      invariant Progress(store, base, budget, issued)
      invariant issued == before + ws[..i]
    {
      ok := store.Issue(ws[i]);
      if !ok {
        return;
      }
      Issued(base, issued, ws[i]);
      issued := issued + [ws[i]];
    }
    ok := true;
  }

  method ScanFileList(env: Env, base: Db, files: seq<(string, FileRecord)>) returns (sources: seq<Scanned>, fileMax: int)
    ensures sources == ScanFiles(env, files) && fileMax == MaxTime(MarkEpoch(base, Markdown), sources)
  {
    sources := [];
    fileMax := MarkEpoch(base, Markdown);
    for i := 0 to |files|
      invariant sources == ScanFiles(env, files)[..i]
      invariant fileMax == MaxTime(MarkEpoch(base, Markdown), sources)
    {
      var s := ScanFile(env, files[i].0, files[i].1);
      assert (sources + [s])[..i] == sources;
      if s.modTime > fileMax {
        fileMax := s.modTime;
      }
      sources := sources + [s];
    }
  }

  method ScanRowList(env: Env, base: Db, rows: seq<(string, ContextRow)>) returns (sources: seq<Scanned>, ctxMax: int)
    ensures sources == ScanContext(env, base, rows) && ctxMax == MaxTime(MarkEpoch(base, Context), sources)
  {
    sources := [];
    ctxMax := MarkEpoch(base, Context);
    for i := 0 to |rows|
      invariant sources == ScanContext(env, base, rows[..i])
      invariant ctxMax == MaxTime(MarkEpoch(base, Context), sources)
    {
      assert rows[..i + 1][..i] == rows[..i];
      if AtOrBelow(rows[i].1.stamp, base) {
        continue;
      }
      var s := ScanRow(env, rows[i].0, rows[i].1);
      assert (sources + [s])[..|sources|] == sources;
      if s.modTime > ctxMax {
        ctxMax := s.modTime;
      }
      sources := sources + [s];
    }
    assert rows[..|rows|] == rows;
  }

  method FilterUnchanged(base: Db, sources: seq<Scanned>) returns (todo: seq<Scanned>)
    ensures todo == Todo(base, sources)
  {
    todo := [];
    for i := 0 to |sources|
      invariant todo == Todo(base, sources[..i])
    {
      assert sources[..i + 1][..i] == sources[..i];
      var s := sources[i];
      if !(s.source in base.hashes && base.hashes[s.source] == s.hash) {
        todo := todo + [s];
      }
    }
    assert sources[..|sources|] == sources;
  }

  method ChunkSources(env: Env, todo: seq<Scanned>) returns (entries: seq<Entry>)
    ensures entries == Entries(env, todo)
  {
    entries := [];
    for idx := 0 to |todo|
      invariant entries == Entries(env, todo[..idx])
    {
      var chunks := env.chunks(todo[idx].text);
      ghost var before := entries;
      for j := 0 to |chunks|
        invariant entries == before + Tag(idx, NonBlank(env, chunks[..j]))
      {
        assert chunks[..j + 1][..j] == chunks[..j];
        if Blank(env, chunks[j]) {
          continue;
        }
        entries := entries + [Entry(idx, chunks[j])];
      }
      assert chunks[..|chunks|] == chunks;
      assert todo[..idx + 1][..idx] == todo[..idx];
    }
    assert todo[..|todo|] == todo;
  }

  /** The embedding endpoint: it fails, or returns one vector per text. */
  method EmbedBatch(env: Env, texts: seq<string>, fails: bool) returns (vectors: Option<seq<Vector>>)
    ensures vectors.None? <==> fails
    ensures vectors.Some? ==> |vectors.value| == |texts|
                              && forall i :: 0 <= i < |texts| ==> vectors.value[i] == env.embed(texts[i])
  {
    if fails {
      return None;
    }
    return Some(seq(|texts|, i requires 0 <= i < |texts| => env.embed(texts[i])));
  }

  /** Embeds the work list in batches of 50; a failed batch leaves its entries without a vector. */
  method EmbedAll(env: Env, entries: seq<Entry>, failing: set<nat>) returns (embeddings: seq<Option<Vector>>)
    ensures |embeddings| == |entries|
    ensures forall j :: 0 <= j < |entries| ==>
              embeddings[j] == if Embedded(failing, j) then Some(env.embed(entries[j].text)) else None
  {
    embeddings := seq(|entries|, _ => None);
    var start := 0;
    while start < |entries|
      invariant start % EMBED_BATCH_SIZE == 0
      invariant |embeddings| == |entries|
      invariant forall j :: 0 <= j < |entries| ==>
                  embeddings[j] == if j < start && Embedded(failing, j) then Some(env.embed(entries[j].text)) else None
    {
      var end := if start + EMBED_BATCH_SIZE < |entries| then start + EMBED_BATCH_SIZE else |entries|;
      var texts := seq(end - start, i requires 0 <= i < end - start => entries[start + i].text);
      var vectors := EmbedBatch(env, texts, start / EMBED_BATCH_SIZE in failing);
      assert forall j :: start <= j < end ==> j / EMBED_BATCH_SIZE == start / EMBED_BATCH_SIZE;
      match vectors {
        case Some(vs) =>
          for i := 0 to |vs|
            invariant |embeddings| == |entries|
            invariant forall j :: 0 <= j < |entries| ==>
                        embeddings[j] == if (j < start && Embedded(failing, j)) || start <= j < start + i
                                         then Some(env.embed(entries[j].text)) else None
          {
            embeddings := embeddings[start + i := Some(vs[i])];
          }
        case None =>
      }
      start := start + EMBED_BATCH_SIZE;
    }
  }

  method FlagFailures(entries: seq<Entry>, embeddings: seq<Option<Vector>>, n: nat, ghost failing: set<nat>)
    returns (sourceFailed: seq<bool>)
    requires |embeddings| == |entries| && forall e <- entries :: e.idx < n
    requires forall j :: 0 <= j < |entries| ==> (embeddings[j].Some? <==> Embedded(failing, j))
    ensures |sourceFailed| == n
    ensures forall i :: 0 <= i < n ==> sourceFailed[i] == SourceFailed(entries, failing, i)
  {
    sourceFailed := seq(n, _ => false);
    for j := 0 to |entries|
      invariant |sourceFailed| == n
      invariant forall i :: 0 <= i < n ==>
                  (sourceFailed[i] <==> exists k :: 0 <= k < j && entries[k].idx == i && !Embedded(failing, k))
    {
      if embeddings[j].None? {
        sourceFailed := sourceFailed[entries[j].idx := true];
      }
    }
  }

  /** Inserts the embedded chunks one call at a time. */
  method InsertChunks(env: Env, store: Store, todo: seq<Scanned>, entries: seq<Entry>, embeddings: seq<Option<Vector>>,
                      ghost failing: set<nat>, ghost base: Db, ghost budget: nat, ghost before: seq<Write>)
    returns (ok: bool, indexed: nat, ghost issued: seq<Write>)
    requires forall e <- entries :: e.idx < |todo|
    requires |embeddings| == |entries|
    requires forall j :: 0 <= j < |entries| ==>
               embeddings[j] == if Embedded(failing, j) then Some(env.embed(entries[j].text)) else None
    requires Progress(store, base, budget, before)
    modifies store
    ensures ok ==> Progress(store, base, budget, issued)
                   && issued == before + Inserts(env, todo, entries, failing, |entries|)
                   && indexed == |Inserts(env, todo, entries, failing, |entries|)|
    ensures !ok ==> Stopped(store, base, budget, issued, before + Inserts(env, todo, entries, failing, |entries|))
  {
    issued, indexed := before, 0;
    for k := 0 to |entries|
      invariant Progress(store, base, budget, issued)
      invariant issued == before + Inserts(env, todo, entries, failing, k)
      invariant indexed == |Inserts(env, todo, entries, failing, k)|
    {
      match embeddings[k] {
        case None =>
        case Some(vector) =>
          var row := IndexRow(todo[entries[k].idx].source, entries[k].text, Some(vector));
          InsertsPrefix(env, todo, entries, failing, k + 1);
          ok := store.Issue(Insert(row));
          if !ok {
            ghost var all := before + Inserts(env, todo, entries, failing, |entries|);
            assert issued + [Insert(row)] == before + Inserts(env, todo, entries, failing, k + 1) <= all;
            return;
          }
          Issued(base, issued, Insert(row));
          issued := issued + [Insert(row)];
          indexed := indexed + 1;
      }
    }
    ok := true;
  }

  /** Groups the new hashes of one type's fully embedded sources. */
  method GroupHashes(todo: seq<Scanned>, sourceFailed: seq<bool>, kind: Kind, ghost entries: seq<Entry>, ghost failing: set<nat>)
    returns (ws: seq<Write>)
    requires |sourceFailed| == |todo|
    requires forall i :: 0 <= i < |todo| ==> sourceFailed[i] == SourceFailed(entries, failing, i)
    ensures ws == HashWrites(todo, entries, failing, kind, |todo|)
  {
    ws := [];
    for i := 0 to |todo|
      invariant ws == HashWrites(todo, entries, failing, kind, i)
    {
      if todo[i].source.kind == kind && !sourceFailed[i] {
        ws := ws + [SetHash(todo[i].source, todo[i].hash)];
      }
    }
  }

  method CollectRefs(todo: seq<Scanned>, sourceFailed: seq<bool>, failed: bool, ghost entries: seq<Entry>, ghost failing: set<nat>)
    returns (refs: seq<(Kind, int)>)
    requires |sourceFailed| == |todo|
    requires forall i :: 0 <= i < |todo| ==> sourceFailed[i] == SourceFailed(entries, failing, i)
    ensures refs == Outcomes(todo, entries, failing, failed, |todo|)
  {
    refs := [];
    for i := 0 to |todo|
      invariant refs == Outcomes(todo, entries, failing, failed, i)
    {
      if sourceFailed[i] == failed {
        refs := refs + [(todo[i].source.kind, todo[i].modTime)];
      }
    }
  }

  /** Caps both watermarks below the earliest same-type failure and writes them. */
  method AdvanceWatermarks(env: Env, store: Store, disabled: bool, fileMax: int, ctxMax: int, base: Db,
                           failed: seq<(Kind, int)>, embedded: seq<(Kind, int)>,
                           ghost plan: Plan, ghost budget: nat, ghost before: seq<Write>)
    returns (ok: bool, ghost issued: seq<Write>)
    requires plan.base == base && plan.disabled == disabled && plan.fileMax == fileMax && plan.ctxMax == ctxMax
    requires var entries := Entries(env, plan.todo);
             failed == Outcomes(plan.todo, entries, plan.failing, true, |plan.todo|)
             && embedded == Outcomes(plan.todo, entries, plan.failing, false, |plan.todo|)
    requires Progress(store, base, budget, before)
    modifies store
    ensures ok ==> Progress(store, base, budget, issued) && issued == before + MarkWrites(env, plan)
    ensures !ok ==> Stopped(store, base, budget, issued, before + MarkWrites(env, plan))
  {
    var marks := [SetMark(Context, WatermarkAfterFailures(MarkEpoch(base, Context), ctxMax, Context, failed, embedded))];
    if !disabled {
      marks := [SetMark(Markdown, WatermarkAfterFailures(MarkEpoch(base, Markdown), fileMax, Markdown, failed, embedded))] + marks;
    }
    assert marks == MarkWrites(env, plan);
    ok, issued := IssueAll(store, marks, base, budget, before);
  }

  /** Deletes, embeds and re-inserts the rows of every source to process. */
  method ReplaceRows(env: Env, store: Store, todo: seq<Scanned>, failing: set<nat>, ghost base: Db, ghost budget: nat)
    returns (ok: bool, indexed: nat, ghost entries: seq<Entry>, sourceFailed: seq<bool>, ghost issued: seq<Write>)
    requires Progress(store, base, budget, [])
    modifies store
    ensures entries == Entries(env, todo)
    ensures var ws := Deletes(todo) + Inserts(env, todo, entries, failing, |entries|);
            if ok then Progress(store, base, budget, issued) && issued == ws
                       && indexed == |Inserts(env, todo, entries, failing, |entries|)|
            else Stopped(store, base, budget, issued, ws)
    ensures ok ==> |sourceFailed| == |todo|
                   && forall i :: 0 <= i < |todo| ==> sourceFailed[i] == SourceFailed(entries, failing, i)
  {
    hide ApplyAll, Progress, Stopped, Inserts, Embedded, SourceFailed;
    var dels := seq(|todo|, i requires 0 <= i < |todo| => Delete(todo[i].source));
    assert dels == Deletes(todo) && [] + dels == dels;
    entries := Entries(env, todo);
    indexed, sourceFailed := 0, [];
    ok, issued := IssueAll(store, dels, base, budget, []);
    if !ok {
      StoppedLonger(store, base, budget, issued, dels, Inserts(env, todo, entries, failing, |entries|));
      return;
    }
    var work := ChunkSources(env, todo);
    var embeddings := EmbedAll(env, work, failing);
    sourceFailed := FlagFailures(work, embeddings, |todo|, failing);
    ok, indexed, issued := InsertChunks(env, store, todo, work, embeddings, failing, base, budget, issued);
  }

  /** Records the new hash of every fully embedded source. */
  method RecordHashes(env: Env, store: Store, todo: seq<Scanned>, sourceFailed: seq<bool>, ctxFirst: bool,
                      ghost plan: Plan, ghost budget: nat, ghost before: seq<Write>)
    returns (ok: bool, ghost issued: seq<Write>)
    requires plan.todo == todo && plan.ctxFirst == ctxFirst && |sourceFailed| == |todo|
    requires forall i :: 0 <= i < |todo| ==> sourceFailed[i] == SourceFailed(Entries(env, todo), plan.failing, i)
    requires Progress(store, plan.base, budget, before)
    modifies store
    ensures ok ==> Progress(store, plan.base, budget, issued) && issued == before + AllHashWrites(env, plan)
    ensures !ok ==> Stopped(store, plan.base, budget, issued, before + AllHashWrites(env, plan))
  {
    ghost var entries := Entries(env, todo);
    var first := GroupHashes(todo, sourceFailed, if ctxFirst then Context else Markdown, entries, plan.failing);
    var second := GroupHashes(todo, sourceFailed, if ctxFirst then Markdown else Context, entries, plan.failing);
    assert AllHashWrites(env, plan) == first + second;
    ok, issued := IssueAll(store, first + second, plan.base, budget, before);
  }

  ghost predicate ReportMatches(env: Env, plan: Plan, r: CycleReport) {
    var entries := Entries(env, plan.todo);
    r == CycleReport(|plan.scanned|, |plan.todo|,
                     |Inserts(env, plan.todo, entries, plan.failing, |entries|)|,
                     |Outcomes(plan.todo, entries, plan.failing, true, |plan.todo|)|)
  }

  /** What a report counts: the sources scanned and those processed, the chunks embedded, and the
      sources of which a chunk was not. */
  lemma ReportCounts(env: Env, plan: Plan, r: CycleReport)
    requires ReportMatches(env, plan, r)
    ensures var entries := Entries(env, plan.todo);
            && r.sourcesScanned == |plan.scanned| && r.sourcesUpdated == |plan.todo|
            && r.chunksIndexed == |set j: nat | j < |entries| && Embedded(plan.failing, j)|
            && r.sourcesFailed == |set i: nat | i < |plan.todo| && SourceFailed(entries, plan.failing, i)|
  {
    var entries := Entries(env, plan.todo);
    InsertCount(env, plan.todo, entries, plan.failing, |entries|);
    OutcomeCount(plan.todo, entries, plan.failing, true, |plan.todo|);
    assert (set i: nat | i < |plan.todo| && SourceFailed(entries, plan.failing, i) == true)
        == (set i: nat | i < |plan.todo| && SourceFailed(entries, plan.failing, i));
  }

  lemma {:induction false} InsertCount(env: Env, todo: seq<Scanned>, entries: seq<Entry>, failing: set<nat>, k: nat)
    requires k <= |entries| && forall e <- entries :: e.idx < |todo|
    ensures |Inserts(env, todo, entries, failing, k)| == |set j: nat | j < k && Embedded(failing, j)|
  {
    if k == 0 {
      assert (set j: nat | j < k && Embedded(failing, j)) == {};
    } else {
      InsertCount(env, todo, entries, failing, k - 1);
      assert (set j: nat | j < k && Embedded(failing, j))
          == (set j: nat | j < k - 1 && Embedded(failing, j)) + if Embedded(failing, k - 1) then {k - 1} else {};
    }
  }

  lemma {:induction false} OutcomeCount(todo: seq<Scanned>, entries: seq<Entry>, failing: set<nat>, failed: bool, k: nat)
    requires k <= |todo|
    ensures |Outcomes(todo, entries, failing, failed, k)| == |set i: nat | i < k && SourceFailed(entries, failing, i) == failed|
  {
    hide SourceFailed;
    if k == 0 {
      assert (set i: nat | i < k && SourceFailed(entries, failing, i) == failed) == {};
    } else {
      OutcomeCount(todo, entries, failing, failed, k - 1);
      assert (set i: nat | i < k && SourceFailed(entries, failing, i) == failed)
          == (set i: nat | i < k - 1 && SourceFailed(entries, failing, i) == failed)
             + if SourceFailed(entries, failing, k - 1) == failed then {k - 1} else {};
    }
  }

  /** Everything after the scan: all the database calls of the cycle, in order. */
  method ProcessSources(env: Env, store: Store, disabled: bool, fileMax: int, ctxMax: int, todo: seq<Scanned>,
                        base: Db, failing: set<nat>, ctxFirst: bool, ghost plan: Plan, ghost budget: nat)
    returns (ok: bool, indexed: nat, failures: nat, ghost issued: seq<Write>)
    requires plan == Plan(base, disabled, plan.scanned, fileMax, ctxMax, todo, failing, ctxFirst)
    requires Progress(store, base, budget, [])
    modifies store
    ensures ok ==> Progress(store, base, budget, issued) && issued == Writes(env, plan)
    ensures !ok ==> Stopped(store, base, budget, issued, Writes(env, plan))
    ensures ok ==> ReportMatches(env, plan, CycleReport(|plan.scanned|, |todo|, indexed, failures))
  {
    hide ApplyAll, Inserts, HashWrites, MarkWrites, Capped, Outcomes, SourceFailed, Progress;
    ghost var r, h, m := RowWrites(env, plan), AllHashWrites(env, plan), MarkWrites(env, plan);
    assert Writes(env, plan) == r + h + m;
    indexed, failures := 0, 0;
    var sourceFailed;
    ghost var entries;
    ok, indexed, entries, sourceFailed, issued := ReplaceRows(env, store, todo, failing, base, budget);
    if !ok {
      StoppedLonger(store, base, budget, issued, r, h + m);
      assert r + (h + m) == r + h + m;
      return;
    }
    ok, issued := RecordHashes(env, store, todo, sourceFailed, ctxFirst, plan, budget, issued);
    if !ok {
      StoppedLonger(store, base, budget, issued, r + h, m);
      return;
    }
    var failed := CollectRefs(todo, sourceFailed, true, entries, failing);
    var embedded := CollectRefs(todo, sourceFailed, false, entries, failing);
    failures := |failed|;
    ok, issued := AdvanceWatermarks(env, store, disabled, fileMax, ctxMax, base, failed, embedded, plan, budget, issued);
  }

  lemma StoppedLonger(store: Store, base: Db, budget: nat, issued: seq<Write>, a: seq<Write>, b: seq<Write>)
    requires Stopped(store, base, budget, issued, a)
    ensures Stopped(store, base, budget, issued, a + b)
  {
  }

  /** One indexing cycle over the files and rows it finds, on a database whose first `budget` calls
      succeed. Whatever happens, the database holds exactly the first calls of the cycle's list, and
      what the failing call left; a report comes back exactly when all of them succeeded. */
  method RunIndexingCycle(env: Env, store: Store, disabled: bool, files: seq<(string, FileRecord)>,
                          rows: seq<(string, ContextRow)>, failing: set<nat>, ctxFirst: bool)
    returns (report: Option<CycleReport>)
    modifies store
    ensures var plan := MakePlan(env, old(store.Snapshot()), disabled, files, rows, failing, ctxFirst);
            var ws := Writes(env, plan);
            && (report.Some? <==> |ws| <= old(store.budget))
            && store.Snapshot() ==
               (if |ws| <= old(store.budget) then ApplyAll(plan.base, ws)
                else Cut(ApplyAll(plan.base, ws[..old(store.budget)]), ws[old(store.budget)], store.half))
            && (report.Some? ==> ReportMatches(env, plan, report.value))
    ensures report.Some? && failing == {} && DistinctRefs(files) && DistinctRefs(rows) ==>
              AllIndexed(env, old(store.Snapshot()), store.Snapshot(), disabled, files, rows)
  {
    hide ApplyAll, Writes, Todo, ReportMatches, ScanContext, MaxTime, AllIndexed;
    if failing == {} && DistinctRefs(files) && DistinctRefs(rows) {
      CycleIndexesAll(env, store.Snapshot(), disabled, files, rows, ctxFirst);
    }
    hide DistinctRefs;
    var base := store.Snapshot();
    ghost var plan := MakePlan(env, base, disabled, files, rows, failing, ctxFirst);
    ghost var ws := Writes(env, plan);
    ghost var budget := store.budget;
    var sources: seq<Scanned>, fileMax := [], MarkEpoch(base, Markdown);
    if !disabled {
      sources, fileMax := ScanFileList(env, base, files);
    } else {
      NoTimes(fileMax);
    }
    var ctx, ctxMax := ScanRowList(env, base, rows);
    sources := sources + ctx;
    var todo := FilterUnchanged(base, sources);
    assert plan == Plan(base, disabled, sources, fileMax, ctxMax, todo, failing, ctxFirst);
    NothingIssued(base);
    if |todo| == 0 {
      EmptyWork(env, plan);
      var done, issued := AdvanceWatermarks(env, store, disabled, fileMax, ctxMax, base, [], [], plan, budget, []);
      assert issued == ws[..|issued|];
      return if done then Some(CycleReport(|sources|, 0, 0, 0)) else None;
    }
    var ok, indexed, failures, issued :=
      ProcessSources(env, store, disabled, fileMax, ctxMax, todo, base, failing, ctxFirst, plan, budget);
    assert issued == ws[..|issued|];
    return if ok then Some(CycleReport(|sources|, |todo|, indexed, failures)) else None;
  }

  lemma NoTimes(init: int)
    ensures MaxTime(init, []) == init
  {
  }

  lemma NothingIssued(base: Db)
    ensures ApplyAll(base, []) == base
  {
  }

  lemma EmptyWork(env: Env, plan: Plan)
    requires plan.todo == []
    ensures Writes(env, plan) == MarkWrites(env, plan) == [] + MarkWrites(env, plan)
    ensures ReportMatches(env, plan, CycleReport(|plan.scanned|, 0, 0, 0))
    ensures forall failed, k | k == |plan.todo| :: Outcomes(plan.todo, Entries(env, plan.todo), plan.failing, failed, k) == []
  {
  }
}
