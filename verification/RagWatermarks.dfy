/** What the failure-capped watermarks guarantee about one completed cycle, and the fixpoint a
    failure-free cycle reaches. */
module RagWatermarks {
  import opened Wrappers
  import opened RagIndexing

  lemma {:induction false} LatestBelowBounds(kind: Kind, bound: int, init: int, refs: seq<(Kind, int)>, max: int)
    requires init <= max
    requires forall r <- refs :: r.0 == kind ==> r.1 <= max
    ensures init <= LatestBelow(kind, bound, init, refs) <= max
    ensures LatestBelow(kind, bound, init, refs) == init || LatestBelow(kind, bound, init, refs) < bound
  {
    if refs != [] {
      LatestBelowBounds(kind, bound, init, refs[..|refs| - 1], max);
      assert refs[|refs| - 1] in refs;
    }
  }

  /** The capped watermark never moves back, never passes the uncapped maximum, and lies strictly
      below every same-type failure unless it did not move at all. */
  lemma CapBounds(last: int, max: int, kind: Kind, failed: seq<(Kind, int)>, embedded: seq<(Kind, int)>)
    requires last <= max
    requires forall r <- embedded :: r.0 == kind ==> r.1 <= max
    ensures var w := WatermarkAfterFailures(last, max, kind, failed, embedded);
            && last <= w <= max
            && forall f <- failed :: f.0 == kind ==> w < f.1 || w == last
    ensures (forall f <- failed :: f.0 == kind ==> last < f.1) ==>
              forall f <- failed :: f.0 == kind ==> WatermarkAfterFailures(last, max, kind, failed, embedded) < f.1
    ensures (forall f <- failed :: f.0 != kind) ==> WatermarkAfterFailures(last, max, kind, failed, embedded) == max
  {
    var earliest := EarliestFailed(kind, failed);
    if earliest.Some? {
      LatestBelowBounds(kind, earliest.value, last, embedded, max);
      assert (kind, earliest.value) in failed;
    }
  }

  lemma {:induction false} OutcomeMember(todo: seq<Scanned>, entries: seq<Entry>, failing: set<nat>, failed: bool, k: nat, i: nat)
    requires i < k <= |todo|
    requires SourceFailed(entries, failing, i) == failed
    ensures (todo[i].source.kind, todo[i].modTime) in Outcomes(todo, entries, failing, failed, k)
  {
    if i < k - 1 {
      OutcomeMember(todo, entries, failing, failed, k - 1, i);
    }
  }

  lemma {:induction false} OutcomesComeFromTodo(todo: seq<Scanned>, entries: seq<Entry>, failing: set<nat>, failed: bool, k: nat)
    requires k <= |todo|
    ensures forall r <- Outcomes(todo, entries, failing, failed, k) ::
              exists s <- todo :: r == (s.source.kind, s.modTime)
  {
    if k > 0 {
      OutcomesComeFromTodo(todo, entries, failing, failed, k - 1);
      assert todo[k - 1] in todo;
    }
  }

  function PlanMax(plan: Plan, kind: Kind): int {
    if kind == Markdown then plan.fileMax else plan.ctxMax
  }

  /** The arithmetic facts every plan made by a scan has. */
  ghost predicate TimesFit(plan: Plan) {
    && (forall kind :: MarkEpoch(plan.base, kind) <= PlanMax(plan, kind))
    && (forall s <- plan.todo :: s.modTime <= PlanMax(plan, s.source.kind))
  }

  lemma CappedBounds(env: Env, plan: Plan, kind: Kind)
    requires TimesFit(plan)
    ensures MarkEpoch(plan.base, kind) <= Capped(env, plan, kind) <= PlanMax(plan, kind)
    ensures forall i :: 0 <= i < |plan.todo| && plan.todo[i].source.kind == kind
                        && SourceFailed(Entries(env, plan.todo), plan.failing, i) ==>
              Capped(env, plan, kind) < plan.todo[i].modTime || Capped(env, plan, kind) == MarkEpoch(plan.base, kind)
  {
    var entries := Entries(env, plan.todo);
    var n := |plan.todo|;
    var failed := Outcomes(plan.todo, entries, plan.failing, true, n);
    var embedded := Outcomes(plan.todo, entries, plan.failing, false, n);
    OutcomesComeFromTodo(plan.todo, entries, plan.failing, false, n);
    forall r <- embedded | r.0 == kind ensures r.1 <= PlanMax(plan, kind) {
      var s :| s in plan.todo && r == (s.source.kind, s.modTime);
    }
    CapBounds(MarkEpoch(plan.base, kind), PlanMax(plan, kind), kind, failed, embedded);
    forall i | 0 <= i < n && plan.todo[i].source.kind == kind && SourceFailed(entries, plan.failing, i)
      ensures Capped(env, plan, kind) < plan.todo[i].modTime || Capped(env, plan, kind) == MarkEpoch(plan.base, kind)
    {
      OutcomeMember(plan.todo, entries, plan.failing, true, n, i);
    }
  }

  lemma {:induction false} LatestBelowIs(kind: Kind, bound: int, init: int, refs: seq<(Kind, int)>)
    ensures var w := LatestBelow(kind, bound, init, refs);
            && init <= w && (w == init || ((kind, w) in refs && w < bound))
            && forall r <- refs :: r.0 == kind && r.1 < bound ==> r.1 <= w
  {
    if refs != [] {
      var n := |refs| - 1;
      LatestBelowIs(kind, bound, init, refs[..n]);
      assert refs == refs[..n] + [refs[n]];
    }
  }

  /** Whether the `i`th source processed is of this type and failed, or was embedded whole. */
  ghost predicate FailedAt(env: Env, plan: Plan, kind: Kind, i: int) {
    0 <= i < |plan.todo| && plan.todo[i].source.kind == kind && SourceFailed(Entries(env, plan.todo), plan.failing, i)
  }

  ghost predicate EmbeddedAt(env: Env, plan: Plan, kind: Kind, i: int) {
    0 <= i < |plan.todo| && plan.todo[i].source.kind == kind && !SourceFailed(Entries(env, plan.todo), plan.failing, i)
  }

  /** `t` lies below every failure of the type. */
  ghost predicate BelowFailures(env: Env, plan: Plan, kind: Kind, t: int) {
    forall i :: FailedAt(env, plan, kind, i) ==> t < plan.todo[i].modTime
  }

  /** Which watermark a cycle computes. Without a failure of the type it is the newest time scanned.
      Else it is the latest of the old one and the times, below every failure, of the sources of the
      type that were embedded whole. */
  lemma CappedIs(env: Env, plan: Plan, kind: Kind)
    ensures var w := Capped(env, plan, kind);
            var last := MarkEpoch(plan.base, kind);
            if exists i :: FailedAt(env, plan, kind, i) then
              && last <= w
              && (w == last || (BelowFailures(env, plan, kind, w) && exists i :: EmbeddedAt(env, plan, kind, i) && plan.todo[i].modTime == w))
              && (forall i :: EmbeddedAt(env, plan, kind, i) && BelowFailures(env, plan, kind, plan.todo[i].modTime) ==> plan.todo[i].modTime <= w)
            else w == PlanMax(plan, kind)
  {
    hide SourceFailed, Entries, Outcomes;
    var entries := Entries(env, plan.todo);
    var n := |plan.todo|;
    var failed := Outcomes(plan.todo, entries, plan.failing, true, n);
    var embedded := Outcomes(plan.todo, entries, plan.failing, false, n);
    OutcomesAre(plan.todo, entries, plan.failing, true, n);
    OutcomesAre(plan.todo, entries, plan.failing, false, n);
    forall i | FailedAt(env, plan, kind, i) ensures (kind, plan.todo[i].modTime) in failed {
      assert OutcomeAt(plan.todo, entries, plan.failing, true, n, i, (kind, plan.todo[i].modTime));
    }
    forall i | EmbeddedAt(env, plan, kind, i) ensures (kind, plan.todo[i].modTime) in embedded {
      assert OutcomeAt(plan.todo, entries, plan.failing, false, n, i, (kind, plan.todo[i].modTime));
    }
    var earliest := EarliestFailed(kind, failed);
    if earliest.Some? {
      var j: int :| OutcomeAt(plan.todo, entries, plan.failing, true, n, j, (kind, earliest.value));
      assert FailedAt(env, plan, kind, j);
      FirstFailure(env, plan, kind, earliest.value, failed);
      LatestBelowIs(kind, earliest.value, MarkEpoch(plan.base, kind), embedded);
      var w := Capped(env, plan, kind);
      if w != MarkEpoch(plan.base, kind) {
        var i: int :| OutcomeAt(plan.todo, entries, plan.failing, false, n, i, (kind, w));
        assert EmbeddedAt(env, plan, kind, i);
      }
    }
  }

  lemma FirstFailure(env: Env, plan: Plan, kind: Kind, earliest: int, failed: seq<(Kind, int)>)
    requires failed == Outcomes(plan.todo, Entries(env, plan.todo), plan.failing, true, |plan.todo|)
    requires (kind, earliest) in failed && forall f <- failed :: f.0 == kind ==> earliest <= f.1
    ensures forall t :: BelowFailures(env, plan, kind, t) <==> t < earliest
  {
    hide SourceFailed, Entries, Outcomes;
    var entries := Entries(env, plan.todo);
    OutcomesAre(plan.todo, entries, plan.failing, true, |plan.todo|);
    var j: int :| OutcomeAt(plan.todo, entries, plan.failing, true, |plan.todo|, j, (kind, earliest));
    assert FailedAt(env, plan, kind, j);
    forall i | FailedAt(env, plan, kind, i) ensures earliest <= plan.todo[i].modTime {
      assert OutcomeAt(plan.todo, entries, plan.failing, true, |plan.todo|, i, (kind, plan.todo[i].modTime));
      assert (kind, plan.todo[i].modTime) in failed;
    }
  }

  ghost predicate OutcomeAt(todo: seq<Scanned>, entries: seq<Entry>, failing: set<nat>, failed: bool, k: nat, i: int, r: (Kind, int)) {
    0 <= i < k && i < |todo| && SourceFailed(entries, failing, i) == failed && r == (todo[i].source.kind, todo[i].modTime)
  }

  lemma {:induction false} OutcomesAre(todo: seq<Scanned>, entries: seq<Entry>, failing: set<nat>, failed: bool, k: nat)
    requires k <= |todo|
    ensures forall r :: r in Outcomes(todo, entries, failing, failed, k) <==> exists i: int :: OutcomeAt(todo, entries, failing, failed, k, i, r)
  {
    hide SourceFailed;
    if k > 0 {
      var m := k - 1;
      OutcomesAre(todo, entries, failing, failed, m);
      forall r ensures r in Outcomes(todo, entries, failing, failed, k) <==> exists i: int :: OutcomeAt(todo, entries, failing, failed, k, i, r) {
        if i: int :| OutcomeAt(todo, entries, failing, failed, m, i, r) {
          assert OutcomeAt(todo, entries, failing, failed, k, i, r);
        }
        if SourceFailed(entries, failing, k - 1) == failed && r == (todo[k - 1].source.kind, todo[k - 1].modTime) {
          assert OutcomeAt(todo, entries, failing, failed, k, k - 1, r);
        }
        if i: int :| OutcomeAt(todo, entries, failing, failed, k, i, r) {
          assert i < m ==> OutcomeAt(todo, entries, failing, failed, m, i, r);
        }
      }
    }
  }

  /** When the old watermark lies strictly below every same-type failure, so does the new one. */
  lemma CappedBelowFailures(env: Env, plan: Plan, kind: Kind)
    requires TimesFit(plan)
    requires forall i :: 0 <= i < |plan.todo| && plan.todo[i].source.kind == kind
                         && SourceFailed(Entries(env, plan.todo), plan.failing, i) ==>
               MarkEpoch(plan.base, kind) < plan.todo[i].modTime
    ensures var end := ApplyAll(plan.base, Writes(env, plan));
            forall i :: 0 <= i < |plan.todo| && plan.todo[i].source.kind == kind
                        && SourceFailed(Entries(env, plan.todo), plan.failing, i) ==>
              MarkEpoch(end, kind) < plan.todo[i].modTime
  {
    CappedBounds(env, plan, kind);
    FinalParts(env, plan);
  }

  // ---------------------------------------------------------------- facts about a scan

  lemma {:induction false} TodoMembers(db: Db, ss: seq<Scanned>)
    ensures forall x :: x in Todo(db, ss) <==> x in ss && !(x.source in db.hashes && db.hashes[x.source] == x.hash)
  {
    if ss != [] {
      var n := |ss| - 1;
      TodoMembers(db, ss[..n]);
      assert ss == ss[..n] + [ss[n]];
    }
  }

  lemma {:induction false} TodoDistinct(db: Db, ss: seq<Scanned>)
    requires DistinctSources(ss)
    ensures DistinctSources(Todo(db, ss))
  {
    if ss != [] {
      var n := |ss| - 1;
      TodoDistinct(db, ss[..n]);
      TodoMembers(db, ss[..n]);
      var rest := Todo(db, ss[..n]);
      forall i | 0 <= i < |rest| ensures rest[i].source != ss[n].source {
        assert rest[i] in rest;
        var j :| 0 <= j < n && ss[j] == rest[i];
      }
    }
  }

  lemma {:induction false} ScanContextMembers(env: Env, db: Db, rows: seq<(string, ContextRow)>)
    ensures forall x :: x in ScanContext(env, db, rows) <==>
              exists r <- rows :: x == ScanRow(env, r.0, r.1) && !AtOrBelow(r.1.stamp, db)
  {
    if rows != [] {
      var n := |rows| - 1;
      ScanContextMembers(env, db, rows[..n]);
      assert rows == rows[..n] + [rows[n]];
    }
  }

  ghost predicate DistinctRefs<T>(xs: seq<(string, T)>) {
    forall i, j :: 0 <= i < j < |xs| ==> xs[i].0 != xs[j].0
  }

  lemma {:induction false} ScanContextDistinct(env: Env, db: Db, rows: seq<(string, ContextRow)>)
    requires DistinctRefs(rows)
    ensures DistinctSources(ScanContext(env, db, rows))
  {
    if rows != [] {
      var n := |rows| - 1;
      ScanContextDistinct(env, db, rows[..n]);
      ScanContextMembers(env, db, rows[..n]);
      var rest := ScanContext(env, db, rows[..n]);
      forall i | 0 <= i < |rest| ensures rest[i].source != Source(Context, rows[n].0) {
        assert rest[i] in rest;
        var r :| r in rows[..n] && rest[i] == ScanRow(env, r.0, r.1);
        var j :| 0 <= j < n && rows[j] == r;
      }
    }
  }

  lemma PlanDistinct(env: Env, base: Db, md: seq<Scanned>, files: seq<(string, FileRecord)>, rows: seq<(string, ContextRow)>)
    requires DistinctRefs(files) && DistinctRefs(rows)
    requires md == [] || md == ScanFiles(env, files)
    ensures DistinctSources(md + ScanContext(env, base, rows))
    ensures DistinctSources(Todo(base, md + ScanContext(env, base, rows)))
  {
    hide Todo, AtOrBelow;
    var ctx := ScanContext(env, base, rows);
    ScanContextMembers(env, base, rows);
    ScanContextDistinct(env, base, rows);
    forall j | 0 <= j < |ctx| ensures ctx[j].source.kind == Context {
      assert ctx[j] in ctx;
    }
    TodoDistinct(base, md + ctx);
  }

  /** Where the sources to process come from. */
  ghost predicate Origin(env: Env, base: Db, files: seq<(string, FileRecord)>, rows: seq<(string, ContextRow)>, x: Scanned) {
    if x.source.kind == Context
    then exists r <- rows :: x == ScanRow(env, r.0, r.1) && !AtOrBelow(r.1.stamp, base)
    else exists f <- files :: x == ScanFile(env, f.0, f.1)
  }

  lemma ScannedOrigin(env: Env, base: Db, md: seq<Scanned>, files: seq<(string, FileRecord)>, rows: seq<(string, ContextRow)>)
    requires md == [] || md == ScanFiles(env, files)
    ensures forall x <- md + ScanContext(env, base, rows) :: Origin(env, base, files, rows, x)
    ensures forall x <- md + ScanContext(env, base, rows) ::
              x.modTime <= if x.source.kind == Context
                           then MaxTime(MarkEpoch(base, Context), ScanContext(env, base, rows))
                           else MaxTime(MarkEpoch(base, Markdown), md)
  {
    hide ScanContext, AtOrBelow;
    var ctx := ScanContext(env, base, rows);
    ScanContextMembers(env, base, rows);
    forall x <- md + ctx
      ensures Origin(env, base, files, rows, x)
      ensures x.modTime <= if x.source.kind == Context then MaxTime(MarkEpoch(base, Context), ctx)
                           else MaxTime(MarkEpoch(base, Markdown), md)
    {
      if x in md {
        var j :| 0 <= j < |md| && md[j] == x;
        assert files[j] in files;
      } else {
        assert x in ctx;
      }
    }
  }

  lemma PlanCoverage(env: Env, base: Db, md: seq<Scanned>, rows: seq<(string, ContextRow)>)
    ensures forall r <- rows :: AtOrBelow(r.1.stamp, base)
              || (Source(Context, r.0) in base.hashes && base.hashes[Source(Context, r.0)] == env.hash(r.1.text))
              || ScanRow(env, r.0, r.1) in Todo(base, md + ScanContext(env, base, rows))
  {
    hide ScanContext, Todo, AtOrBelow;
    var ctx := ScanContext(env, base, rows);
    TodoMembers(base, md + ctx);
    ScanContextMembers(env, base, rows);
    forall r <- rows
      ensures AtOrBelow(r.1.stamp, base)
              || (Source(Context, r.0) in base.hashes && base.hashes[Source(Context, r.0)] == env.hash(r.1.text))
              || ScanRow(env, r.0, r.1) in Todo(base, md + ctx)
    {
      if !AtOrBelow(r.1.stamp, base) {
        assert ScanRow(env, r.0, r.1) in ctx;
        assert ScanRow(env, r.0, r.1) in md + ctx;
      }
    }
  }

  lemma PlanFacts(env: Env, base: Db, disabled: bool, files: seq<(string, FileRecord)>,
                  rows: seq<(string, ContextRow)>, failing: set<nat>, ctxFirst: bool)
    requires DistinctRefs(files) && DistinctRefs(rows)
    ensures var plan := MakePlan(env, base, disabled, files, rows, failing, ctxFirst);
            && DistinctSources(plan.scanned) && DistinctSources(plan.todo)
            && TimesFit(plan)
            && (forall x <- plan.todo :: Origin(env, base, files, rows, x)
                  && !(x.source in base.hashes && base.hashes[x.source] == x.hash))
            && (forall r <- rows :: AtOrBelow(r.1.stamp, base)
                  || (Source(Context, r.0) in base.hashes && base.hashes[Source(Context, r.0)] == env.hash(r.1.text))
                  || ScanRow(env, r.0, r.1) in plan.todo)
            && (if disabled then forall x <- plan.todo :: x.source.kind == Context
                else forall f <- files ::
                       || (Source(Markdown, f.0) in base.hashes && base.hashes[Source(Markdown, f.0)] == env.hash(f.1.text))
                       || Scanned(Source(Markdown, f.0), f.1.text, f.1.mtime, env.hash(f.1.text)) in plan.todo)
  {
    hide ScanContext, Todo, AtOrBelow, Origin, DistinctSources, MaxTime;
    var md: seq<Scanned> := if disabled then [] else ScanFiles(env, files);
    var ctx := ScanContext(env, base, rows);
    PlanDistinct(env, base, md, files, rows);
    ScannedOrigin(env, base, md, files, rows);
    PlanCoverage(env, base, md, rows);
    TodoMembers(base, md + ctx);
    if disabled {
      ScannedKinds(env, base, rows);
    } else {
      FileCoverage(env, base, files, ctx);
    }
  }

  lemma ScannedKinds(env: Env, base: Db, rows: seq<(string, ContextRow)>)
    ensures forall x <- ScanContext(env, base, rows) :: x.source.kind == Context
  {
    ScanContextMembers(env, base, rows);
  }

  lemma FileCoverage(env: Env, base: Db, files: seq<(string, FileRecord)>, ctx: seq<Scanned>)
    ensures forall f <- files ::
              || (Source(Markdown, f.0) in base.hashes && base.hashes[Source(Markdown, f.0)] == env.hash(f.1.text))
              || Scanned(Source(Markdown, f.0), f.1.text, f.1.mtime, env.hash(f.1.text)) in Todo(base, ScanFiles(env, files) + ctx)
  {
    hide Todo;
    var md := ScanFiles(env, files);
    TodoMembers(base, md + ctx);
    forall f <- files
      ensures || (Source(Markdown, f.0) in base.hashes && base.hashes[Source(Markdown, f.0)] == env.hash(f.1.text))
              || Scanned(Source(Markdown, f.0), f.1.text, f.1.mtime, env.hash(f.1.text)) in Todo(base, md + ctx)
    {
      var j :| 0 <= j < |files| && files[j] == f;
      assert md[j] in md + ctx;
    }
  }

  // ---------------------------------------------------------------- a cycle without failures

  /** The source's text is recorded, and unless it was before the cycle, it has the rows of that text. */
  ghost predicate IndexedAs(env: Env, base: Db, end: Db, s: Source, text: string) {
    && s in end.hashes && end.hashes[s] == env.hash(text)
    && (!(s in base.hashes && base.hashes[s] == env.hash(text)) ==> RowsOf(end.rows, s) == FullRows(env, s, text))
  }

  /** Every file, unless files are not looked at, and every row above the watermark is indexed. */
  ghost predicate AllIndexed(env: Env, base: Db, end: Db, disabled: bool, files: seq<(string, FileRecord)>, rows: seq<(string, ContextRow)>) {
    && (!disabled ==> forall f <- files :: IndexedAs(env, base, end, Source(Markdown, f.0), f.1.text))
    && (forall r <- rows :: AtOrBelow(r.1.stamp, base) || IndexedAs(env, base, end, Source(Context, r.0), r.1.text))
  }

  /** What a cycle is for: when no batch fails, everything there is to index is indexed. */
  lemma CycleIndexesAll(env: Env, base: Db, disabled: bool, files: seq<(string, FileRecord)>,
                        rows: seq<(string, ContextRow)>, ctxFirst: bool)
    requires DistinctRefs(files) && DistinctRefs(rows)
    ensures var plan := MakePlan(env, base, disabled, files, rows, {}, ctxFirst);
            AllIndexed(env, base, ApplyAll(base, Writes(env, plan)), disabled, files, rows)
  {
    hide ScanContext, Todo, Writes, ApplyAll, AtOrBelow, MaxTime, TimesFit, DistinctSources, FullRows, RowsOf, IndexedAs, Origin;
    var plan := MakePlan(env, base, disabled, files, rows, {}, ctxFirst);
    PlanFacts(env, base, disabled, files, rows, {}, ctxFirst);
    OnePerSource(env, base, disabled, files, rows, {}, ctxFirst);
    if !disabled {
      forall f <- files ensures IndexedAs(env, base, ApplyAll(base, Writes(env, plan)), Source(Markdown, f.0), f.1.text) {
        SourceIndexed(env, plan, Scanned(Source(Markdown, f.0), f.1.text, f.1.mtime, env.hash(f.1.text)));
      }
    }
    forall r <- rows | !AtOrBelow(r.1.stamp, base)
      ensures IndexedAs(env, base, ApplyAll(base, Writes(env, plan)), Source(Context, r.0), r.1.text)
    {
      SourceIndexed(env, plan, ScanRow(env, r.0, r.1));
    }
  }

  /** Anything in the work that is about a listed file or row is that file or row. */
  lemma OnePerSource(env: Env, base: Db, disabled: bool, files: seq<(string, FileRecord)>,
                     rows: seq<(string, ContextRow)>, failing: set<nat>, ctxFirst: bool)
    requires DistinctRefs(files) && DistinctRefs(rows)
    ensures var plan := MakePlan(env, base, disabled, files, rows, failing, ctxFirst);
            && (forall f, x :: f in files && x in plan.todo && x.source == Source(Markdown, f.0) ==> x == ScanFile(env, f.0, f.1))
            && (forall r, x :: r in rows && x in plan.todo && x.source == Source(Context, r.0) ==> x == ScanRow(env, r.0, r.1))
            && (forall x <- plan.todo :: !(x.source in base.hashes && base.hashes[x.source] == x.hash))
  {
    hide ScanContext, Todo, AtOrBelow, DistinctSources, MaxTime;
    PlanFacts(env, base, disabled, files, rows, failing, ctxFirst);
  }

  lemma SourceIndexed(env: Env, plan: Plan, x: Scanned)
    requires DistinctSources(plan.todo) && plan.failing == {} && x.hash == env.hash(x.text)
    requires (x.source in plan.base.hashes && plan.base.hashes[x.source] == x.hash) || x in plan.todo
    requires forall y <- plan.todo :: y.source == x.source ==>
               y == x && !(x.source in plan.base.hashes && plan.base.hashes[x.source] == x.hash)
    ensures IndexedAs(env, plan.base, ApplyAll(plan.base, Writes(env, plan)), x.source, x.text)
  {
    hide Writes, ApplyAll, RowsOf, FullRows, Entries;
    if x in plan.todo {
      var i :| 0 <= i < |plan.todo| && plan.todo[i] == x;
      ProcessedSource(env, plan, i);
      assert forall m :: 0 <= m < |Pieces(env, x.text)| ==> ChunkEmbedded({}, Offset(env, plan.todo, i), m);
    } else {
      UntouchedSource(env, plan, x.source);
    }
  }

  // ---------------------------------------------------------------- fixpoint

  lemma {:induction false} TodoEmpty(db: Db, ss: seq<Scanned>)
    requires forall s <- ss :: s.source in db.hashes && db.hashes[s.source] == s.hash
    ensures Todo(db, ss) == []
  {
    if ss != [] {
      assert ss[|ss| - 1] in ss;
      TodoEmpty(db, ss[..|ss| - 1]);
    }
  }

  lemma NoWork(env: Env, plan: Plan)
    requires plan.todo == []
    ensures ApplyAll(plan.base, Writes(env, plan)) ==
            plan.base.(marks := (if plan.disabled then plan.base.marks else plan.base.marks[Markdown := plan.fileMax])
                                [Context := plan.ctxMax])
  {
    FinalParts(env, plan);
    assert RowWrites(env, plan) == [];
    assert AllHashWrites(env, plan) == [];
  }

  ghost predicate RowRecorded(env: Env, db: Db, r: (string, ContextRow)) {
    Source(Context, r.0) in db.hashes && db.hashes[Source(Context, r.0)] == env.hash(r.1.text)
  }

  /** No context watermark is stored, no row is stamped after the first second of 1970, and an
      unrecorded one is stamped inside it. The default watermark covers that row and the one the
      cycle stores does not. */
  ghost predicate OnlyFirstSecond(env: Env, base: Db, rows: seq<(string, ContextRow)>) {
    && Context !in base.marks
    && (forall r <- rows :: r.1.stamp.sec <= 0)
    && exists r <- rows :: r.1.stamp.sec == 0 && r.1.stamp.frac > 0 && !RowRecorded(env, base, r)
  }

  /** A second cycle leaves rows, hashes and watermarks as they are, whatever its batches would do. */
  ghost predicate Settles(env: Env, end: Db, disabled: bool, files: seq<(string, FileRecord)>, rows: seq<(string, ContextRow)>) {
    forall failing, ctxFirst :: ApplyAll(end, Writes(env, MakePlan(env, end, disabled, files, rows, failing, ctxFirst))) == end
  }

  /** After a cycle in which no source failed, a second one over the same files and rows changes
      nothing, except exactly when all the rows there are come from the first second of 1970. */
  lemma FailureFreeCycleIsFixpoint(env: Env, base: Db, disabled: bool, files: seq<(string, FileRecord)>,
                                   rows: seq<(string, ContextRow)>, failing: set<nat>, ctxFirst: bool)
    requires DistinctRefs(files) && DistinctRefs(rows)
    requires var plan := MakePlan(env, base, disabled, files, rows, failing, ctxFirst);
             forall i :: 0 <= i < |plan.todo| ==> !SourceFailed(Entries(env, plan.todo), failing, i)
    ensures var plan := MakePlan(env, base, disabled, files, rows, failing, ctxFirst);
            Settles(env, ApplyAll(base, Writes(env, plan)), disabled, files, rows) <==> !OnlyFirstSecond(env, base, rows)
  {
    hide ScanContext, Todo, Writes, ApplyAll, SourceFailed, AtOrBelow, MaxTime, TimesFit, RowRecorded, OnlyFirstSecond;
    var plan := MakePlan(env, base, disabled, files, rows, failing, ctxFirst);
    var end := ApplyAll(base, Writes(env, plan));
    PlanFacts(env, base, disabled, files, rows, failing, ctxFirst);
    AfterCleanCycle(env, plan);
    CoveredRowsKept(env, base, disabled, files, rows, failing, ctxFirst);
    if OnlyFirstSecond(env, base, rows) {
      FirstSecondIsWork(env, base, end, disabled, files, rows);
    } else {
      forall failing', ctxFirst' ensures ApplyAll(end, Writes(env, MakePlan(env, end, disabled, files, rows, failing', ctxFirst'))) == end {
        var plan' := MakePlan(env, end, disabled, files, rows, failing', ctxFirst');
        SecondPlan(env, base, end, disabled, files, rows, failing', ctxFirst');
        NoWork(env, plan');
        assert end.marks == (if disabled then end.marks else end.marks[Markdown := plan'.fileMax])[Context := plan'.ctxMax];
        assert end == end.(marks := (if disabled then end.marks else end.marks[Markdown := plan'.fileMax])[Context := plan'.ctxMax]);
      }
    }
  }

  /** A row at or below the old watermark is recorded after the cycle exactly if it was before. */
  lemma CoveredRowsKept(env: Env, base: Db, disabled: bool, files: seq<(string, FileRecord)>,
                        rows: seq<(string, ContextRow)>, failing: set<nat>, ctxFirst: bool)
    requires DistinctRefs(files) && DistinctRefs(rows)
    ensures var plan := MakePlan(env, base, disabled, files, rows, failing, ctxFirst);
            forall r <- rows :: AtOrBelow(r.1.stamp, base) ==>
              (RowRecorded(env, ApplyAll(base, Writes(env, plan)), r) <==> RowRecorded(env, base, r))
  {
    hide ScanContext, Todo, Writes, ApplyAll, AtOrBelow, MaxTime, TimesFit;
    var plan := MakePlan(env, base, disabled, files, rows, failing, ctxFirst);
    PlanFacts(env, base, disabled, files, rows, failing, ctxFirst);
    forall r <- rows | AtOrBelow(r.1.stamp, base)
      ensures RowRecorded(env, ApplyAll(base, Writes(env, plan)), r) <==> RowRecorded(env, base, r)
    {
      forall x <- plan.todo ensures x.source != Source(Context, r.0) {
        if x.source.kind == Context {
          var q :| q in rows && x == ScanRow(env, q.0, q.1) && !AtOrBelow(q.1.stamp, base);
        }
      }
      UntouchedSource(env, plan, Source(Context, r.0));
    }
  }

  /** The second scan picks the row up and records it. */
  lemma FirstSecondIsWork(env: Env, base: Db, end: Db, disabled: bool, files: seq<(string, FileRecord)>, rows: seq<(string, ContextRow)>)
    requires DistinctRefs(files) && DistinctRefs(rows) && OnlyFirstSecond(env, base, rows)
    requires Context in end.marks && end.marks[Context] == MaxTime(MarkEpoch(base, Context), ScanContext(env, base, rows))
    requires forall r <- rows :: AtOrBelow(r.1.stamp, base) ==> (RowRecorded(env, end, r) <==> RowRecorded(env, base, r))
    ensures !Settles(env, end, disabled, files, rows)
  {
    hide Todo, Writes, ApplyAll, SourceFailed, TimesFit, DistinctSources, ScanContext, MaxTime, RowRecorded, Entries;
    var plan := MakePlan(env, end, disabled, files, rows, {}, false);
    NothingScanned(env, base, rows);
    var r :| r in rows && r.1.stamp.sec == 0 && r.1.stamp.frac > 0 && !RowRecorded(env, base, r);
    assert AtOrBelow(r.1.stamp, base) && !AtOrBelow(r.1.stamp, end);
    hide AtOrBelow, MakePlan;
    RowInPlan(env, end, disabled, files, rows, r);
    RowIsProcessed(env, plan, r);
  }

  lemma RowInPlan(env: Env, base: Db, disabled: bool, files: seq<(string, FileRecord)>, rows: seq<(string, ContextRow)>,
                  r: (string, ContextRow))
    requires DistinctRefs(files) && DistinctRefs(rows) && r in rows
    ensures var plan := MakePlan(env, base, disabled, files, rows, {}, false);
            && plan.base == base && plan.failing == {} && DistinctSources(plan.todo)
            && (AtOrBelow(r.1.stamp, base) || RowRecorded(env, base, r) || ScanRow(env, r.0, r.1) in plan.todo)
  {
    hide ScanContext, Todo, AtOrBelow, MaxTime, DistinctSources;
    PlanFacts(env, base, disabled, files, rows, {}, false);
  }

  lemma NothingScanned(env: Env, base: Db, rows: seq<(string, ContextRow)>)
    requires OnlyFirstSecond(env, base, rows)
    ensures MaxTime(MarkEpoch(base, Context), ScanContext(env, base, rows)) == 0
  {
    ScanContextMembers(env, base, rows);
  }

  lemma RowIsProcessed(env: Env, plan: Plan, r: (string, ContextRow))
    requires DistinctSources(plan.todo) && plan.failing == {}
    requires RowRecorded(env, plan.base, r) || ScanRow(env, r.0, r.1) in plan.todo
    ensures RowRecorded(env, ApplyAll(plan.base, Writes(env, plan)), r) || RowRecorded(env, plan.base, r)
  {
    hide Writes, ApplyAll, SourceFailed, Entries;
    if !RowRecorded(env, plan.base, r) {
      var i :| 0 <= i < |plan.todo| && plan.todo[i] == ScanRow(env, r.0, r.1);
      NoneFailing(Entries(env, plan.todo), i);
      ProcessedHash(env, plan, i);
    }
  }

  lemma NoneFailing(entries: seq<Entry>, i: nat)
    ensures !SourceFailed(entries, {}, i)
  {
  }

  lemma AfterCleanCycle(env: Env, plan: Plan)
    requires DistinctSources(plan.scanned) && DistinctSources(plan.todo)
    requires plan.todo == Todo(plan.base, plan.scanned)
    requires TimesFit(plan)
    requires forall i :: 0 <= i < |plan.todo| ==> !SourceFailed(Entries(env, plan.todo), plan.failing, i)
    ensures var end := ApplyAll(plan.base, Writes(env, plan));
            && (forall s <- plan.scanned :: s.source in end.hashes && end.hashes[s.source] == s.hash)
            && end.marks == (if plan.disabled then plan.base.marks else plan.base.marks[Markdown := plan.fileMax])
                            [Context := plan.ctxMax]
  {
    var end := ApplyAll(plan.base, Writes(env, plan));
    FinalParts(env, plan);
    UncappedMarks(env, plan);
    forall s <- plan.scanned ensures s.source in end.hashes && end.hashes[s.source] == s.hash {
      ScannedIsRecorded(env, plan, s);
    }
  }

  /** A scan made once everything scanned before is recorded finds no work and no later time. */
  lemma SecondPlan(env: Env, base: Db, end: Db, disabled: bool, files: seq<(string, FileRecord)>,
                   rows: seq<(string, ContextRow)>, failing: set<nat>, ctxFirst: bool)
    requires !OnlyFirstSecond(env, base, rows)
    requires forall s <- (if disabled then [] else ScanFiles(env, files)) + ScanContext(env, base, rows) ::
               s.source in end.hashes && end.hashes[s.source] == s.hash
    requires forall r <- rows :: AtOrBelow(r.1.stamp, base) ==> (RowRecorded(env, end, r) <==> RowRecorded(env, base, r))
    requires Context in end.marks
    requires end.marks[Context] == MaxTime(MarkEpoch(base, Context), ScanContext(env, base, rows))
    requires !disabled ==> Markdown in end.marks
                           && end.marks[Markdown] == MaxTime(MarkEpoch(base, Markdown), ScanFiles(env, files))
    ensures var plan := MakePlan(env, end, disabled, files, rows, failing, ctxFirst);
            && plan.todo == []
            && plan.ctxMax == end.marks[Context]
            && (!disabled ==> plan.fileMax == end.marks[Markdown])
  {
    hide ScanContext, OnlyFirstSecond, AtOrBelow, RowRecorded;
    var plan := MakePlan(env, end, disabled, files, rows, failing, ctxFirst);
    var md: seq<Scanned> := if disabled then [] else ScanFiles(env, files);
    RescanFindsRecorded(env, base, end, rows);
    forall s <- plan.scanned ensures s.source in end.hashes && end.hashes[s.source] == s.hash {
      if s in md {
        assert s in md + ScanContext(env, base, rows);
      } else {
        assert s in ScanContext(env, end, rows);
      }
    }
    TodoEmpty(end, plan.scanned);
  }

  lemma ScannedWithinMark(env: Env, base: Db, rows: seq<(string, ContextRow)>)
    ensures forall q <- rows :: AtOrBelow(q.1.stamp, base) || q.1.stamp.sec <= MaxTime(MarkEpoch(base, Context), ScanContext(env, base, rows))
  {
    ScanContextMembers(env, base, rows);
    forall q <- rows | !AtOrBelow(q.1.stamp, base)
      ensures q.1.stamp.sec <= MaxTime(MarkEpoch(base, Context), ScanContext(env, base, rows))
    {
      assert ScanRow(env, q.0, q.1) in ScanContext(env, base, rows);
    }
  }

  /** What the second scan finds among the rows is recorded and no later than the watermark. */
  lemma RescanFindsRecorded(env: Env, base: Db, end: Db, rows: seq<(string, ContextRow)>)
    requires !OnlyFirstSecond(env, base, rows)
    requires forall s <- ScanContext(env, base, rows) :: s.source in end.hashes && end.hashes[s.source] == s.hash
    requires forall r <- rows :: AtOrBelow(r.1.stamp, base) ==> (RowRecorded(env, end, r) <==> RowRecorded(env, base, r))
    requires Context in end.marks && end.marks[Context] == MaxTime(MarkEpoch(base, Context), ScanContext(env, base, rows))
    ensures forall x <- ScanContext(env, end, rows) ::
              x.source in end.hashes && end.hashes[x.source] == x.hash && x.modTime <= end.marks[Context]
  {
    ScanContextMembers(env, base, rows);
    ScanContextMembers(env, end, rows);
    forall x <- ScanContext(env, end, rows)
      ensures x.source in end.hashes && end.hashes[x.source] == x.hash && x.modTime <= end.marks[Context]
    {
      var r :| r in rows && x == ScanRow(env, r.0, r.1) && !AtOrBelow(r.1.stamp, end);
      if AtOrBelow(r.1.stamp, base) {
        assert Context !in base.marks && r.1.stamp.sec == 0 && r.1.stamp.frac > 0 && end.marks[Context] == 0;
        ScannedWithinMark(env, base, rows);
        assert RowRecorded(env, base, r);
      }
    }
  }

  lemma UncappedMarks(env: Env, plan: Plan)
    requires TimesFit(plan)
    requires forall i :: 0 <= i < |plan.todo| ==> !SourceFailed(Entries(env, plan.todo), plan.failing, i)
    ensures Capped(env, plan, Markdown) == plan.fileMax && Capped(env, plan, Context) == plan.ctxMax
  {
    NoOutcomes(plan.todo, Entries(env, plan.todo), plan.failing, |plan.todo|);
  }

  lemma {:induction false} NoOutcomes(todo: seq<Scanned>, entries: seq<Entry>, failing: set<nat>, k: nat)
    requires k <= |todo|
    requires forall i :: 0 <= i < k ==> !SourceFailed(entries, failing, i)
    ensures Outcomes(todo, entries, failing, true, k) == []
  {
    if k > 0 {
      NoOutcomes(todo, entries, failing, k - 1);
    }
  }

  lemma ScannedIsRecorded(env: Env, plan: Plan, s: Scanned)
    requires DistinctSources(plan.todo) && s in plan.scanned
    requires plan.todo == Todo(plan.base, plan.scanned) && DistinctSources(plan.scanned)
    requires forall i :: 0 <= i < |plan.todo| ==> !SourceFailed(Entries(env, plan.todo), plan.failing, i)
    ensures var end := ApplyAll(plan.base, Writes(env, plan));
            s.source in end.hashes && end.hashes[s.source] == s.hash
  {
    TodoMembers(plan.base, plan.scanned);
    if s in plan.todo {
      var i :| 0 <= i < |plan.todo| && plan.todo[i] == s;
      ProcessedHash(env, plan, i);
    } else {
      forall x <- plan.todo ensures x.source != s.source {
        var i :| 0 <= i < |plan.scanned| && plan.scanned[i] == x;
        var j :| 0 <= j < |plan.scanned| && plan.scanned[j] == s;
      }
      UntouchedSource(env, plan, s.source);
    }
  }
}
