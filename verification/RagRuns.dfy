/** Runs of the indexing loop: edits at any moment, cycles whose embedding batches fail at will,
    and cycles abandoned between any two database calls or inside one. */
module RagRuns {
  import opened Wrappers
  import opened RagIndexing
  import opened RagWatermarks

  /** `seen` and `seenLast` record, for the proofs only, the context table and the newest stamp at
      the moment the cycle listed the table. */
  datatype Cycle =
    | Idle
    | Scanning(base: Db, disabled: bool, files: seq<(string, FileRecord)>)
    | Writing(plan: Plan, done: nat, seen: map<string, ContextRow>, seenLast: Stamp)

  /** `last` and `lastFile` are the newest context stamp and file time ever written; `dirty` holds
      the sources whose rows were deleted since their hash was last recorded. */
  datatype World = World(
    db: Db,
    rows: map<string, ContextRow>,
    files: map<string, FileRecord>,
    last: Stamp,
    lastFile: int,
    dirty: set<Source>,
    cycle: Cycle)

  datatype Event =
    | EditContext(ref: string, text: string, stamp: Stamp)
    | EditFile(ref: string, file: FileRecord)
    | RemoveFile(ref: string)
    | Begin(disabled: bool)
    | ReadFile(ref: string)
    | ListContext(order: seq<string>, failing: set<nat>, ctxFirst: bool)
    | WriteNext
    | HalfWrite
    | Abort

  const Start := World(Db([], map[], map[]), map[], map[], Stamp(0, 0), 0, {}, Idle)

  /** `order` lists every key of the table once. */
  ghost predicate Lists<T>(order: seq<string>, table: map<string, T>) {
    && (forall i, j :: 0 <= i < j < |order| ==> order[i] != order[j])
    && (forall k :: k in order <==> k in table)
  }

  ghost predicate Enabled(w: World, e: Event) {
    match e
    case EditContext(_, _, stamp) => w.last.Before(stamp) && 1 <= stamp.sec
    case EditFile(_, _) => true
    case RemoveFile(_) => true
    case Begin(_) => w.cycle.Idle?
    case ReadFile(ref) => w.cycle.Scanning? && !w.cycle.disabled && ref in w.files
                          && forall f <- w.cycle.files :: f.0 != ref
    case ListContext(order, _, _) => w.cycle.Scanning? && Lists(order, w.rows)
    case WriteNext => w.cycle.Writing?
    case HalfWrite => w.cycle.Writing?
    case Abort => !w.cycle.Idle?
  }

  function Listing(order: seq<string>, rows: map<string, ContextRow>): (xs: seq<(string, ContextRow)>)
    requires forall k <- order :: k in rows
    ensures |xs| == |order|
    ensures forall i :: 0 <= i < |xs| ==> xs[i] == (order[i], rows[order[i]])
  {
    seq(|order|, i requires 0 <= i < |order| => (order[i], rows[order[i]]))
  }

  function Touch(dirty: set<Source>, write: Write): set<Source> {
    match write
    case Delete(s) => dirty + {s}
    case SetHash(s, _) => dirty - {s}
    case _ => dirty
  }

  ghost function Apply(env: Env, w: World, e: Event): World
    requires Enabled(w, e)
    requires w.cycle.Writing? ==> w.cycle.done < |Writes(env, w.cycle.plan)|
  {
    match e
    case EditContext(ref, text, stamp) => w.(rows := w.rows[ref := ContextRow(text, stamp)], last := stamp)
    case EditFile(ref, file) =>
      w.(files := w.files[ref := file], lastFile := if file.mtime > w.lastFile then file.mtime else w.lastFile)
    case RemoveFile(ref) => w.(files := w.files - {ref})
    case Begin(disabled) => w.(cycle := Scanning(w.db, disabled, []))
    case ReadFile(ref) => w.(cycle := w.cycle.(files := w.cycle.files + [(ref, w.files[ref])]))
    case ListContext(order, failing, ctxFirst) =>
      var plan := MakePlan(env, w.cycle.base, w.cycle.disabled, w.cycle.files, Listing(order, w.rows), failing, ctxFirst);
      w.(cycle := Writing(plan, 0, w.rows, w.last))
    case WriteNext =>
      var write := Writes(env, w.cycle.plan)[w.cycle.done];
      w.(db := ApplyWrite(w.db, write), dirty := Touch(w.dirty, write),
         cycle := if w.cycle.done + 1 == |Writes(env, w.cycle.plan)| then Idle
                  else w.cycle.(done := w.cycle.done + 1))
    case HalfWrite =>
      var write := Writes(env, w.cycle.plan)[w.cycle.done];
      w.(db := ApplyHalf(w.db, write), dirty := if write.Delete? then Touch(w.dirty, write) else w.dirty, cycle := Idle)
    case Abort => w.(cycle := Idle)
  }

  // ---------------------------------------------------------------- invariant

  ghost predicate Recorded(env: Env, db: Db, ref: string, text: string) {
    Source(Context, ref) in db.hashes && db.hashes[Source(Context, ref)] == env.hash(text)
  }

  /** Every context row at or below the stored watermark has its current text's hash recorded. */
  ghost predicate RecordedBelow(env: Env, rows: map<string, ContextRow>, db: Db) {
    forall ref <- rows :: AtOrBelow(rows[ref].stamp, db) ==> Recorded(env, db, ref, rows[ref].text)
  }

  /** A source not touched since its hash was recorded has exactly the rows of the hashed text. */
  ghost predicate CleanRows(env: Env, db: Db, dirty: set<Source>) {
    forall s, text :: s in db.hashes && s !in dirty && db.hashes[s] == env.hash(text) ==>
                        RowsOf(db.rows, s) == FullRows(env, s, text)
  }

  ghost predicate StampsOk(w: World) {
    && 0 <= w.last.sec && 0 <= w.lastFile
    && (forall ref <- w.rows :: 1 <= w.rows[ref].stamp.sec && !w.last.Before(w.rows[ref].stamp))
    && (forall ref <- w.files :: w.files[ref].mtime <= w.lastFile)
    && MarkEpoch(w.db, Context) <= w.last.sec
    && MarkEpoch(w.db, Markdown) <= w.lastFile
  }

  /** What the scan leaves behind for the write phase. */
  ghost predicate PlanOk(env: Env, plan: Plan, seen: map<string, ContextRow>, seenLast: Stamp) {
    && DistinctSources(plan.todo) && TimesFit(plan)
    && plan.ctxMax <= seenLast.sec
    && (forall ref <- seen :: 1 <= seen[ref].stamp.sec && !seenLast.Before(seen[ref].stamp))
    && (forall x <- plan.todo :: x.hash == env.hash(x.text))
    && (forall x <- plan.todo :: x.source.kind == Context ==>
          x.source.ref in seen && x == ScanRow(env, x.source.ref, seen[x.source.ref])
          && !AtOrBelow(seen[x.source.ref].stamp, plan.base)
          && !Recorded(env, plan.base, x.source.ref, x.text))
    && (forall ref <- seen :: Recorded(env, plan.base, ref, seen[ref].text) || ScanRow(env, ref, seen[ref]) in plan.todo)
  }

  ghost predicate SameMark(a: Db, b: Db, kind: Kind) {
    (kind in a.marks <==> kind in b.marks) && (kind in a.marks ==> a.marks[kind] == b.marks[kind])
  }

  ghost predicate SeenOrNewer(rows: map<string, ContextRow>, seen: map<string, ContextRow>, seenLast: Stamp) {
    forall ref <- rows :: seenLast.Before(rows[ref].stamp) || (ref in seen && seen[ref] == rows[ref])
  }

  ghost predicate OutsideTodo(plan: Plan, s: Source) {
    forall x <- plan.todo :: x.source != s
  }

  ghost predicate WritingOk(env: Env, w: World)
    requires w.cycle.Writing?
  {
    var Writing(plan, done, seen, seenLast) := w.cycle;
    && done < |Writes(env, plan)|
    && PlanOk(env, plan, seen, seenLast)
    && w.db == ApplyAll(plan.base, Writes(env, plan)[..done])
    && SameMark(w.db, plan.base, Context)
    && plan.fileMax <= w.lastFile
    && !w.last.Before(seenLast)
    && SeenOrNewer(w.rows, seen, seenLast)
    && (forall s :: OutsideTodo(plan, s) ==> SameHash(w.db, plan.base, s))
    && (done <= |RowWrites(env, plan)| ==> forall i :: 0 <= i < done && i < |plan.todo| ==> plan.todo[i].source in w.dirty)
    && (|RowWrites(env, plan)| <= done ==> w.db.rows == ApplyAll(plan.base, RowWrites(env, plan)).rows)
  }

  ghost predicate CycleOk(env: Env, w: World) {
    match w.cycle
    case Idle => true
    case Scanning(base, disabled, files) =>
      base == w.db && DistinctRefs(files) && forall f <- files :: f.1.mtime <= w.lastFile
    case Writing(_, _, _, _) => WritingOk(env, w)
  }

  ghost predicate Inv(env: Env, w: World) {
    && StampsOk(w)
    && RecordedBelow(env, w.rows, w.db)
    && (HashIsInjective(env) ==> CleanRows(env, w.db, w.dirty))
    && CycleOk(env, w)
  }

  ghost predicate HashIsInjective(env: Env) {
    forall a, b :: env.hash(a) == env.hash(b) ==> a == b
  }

  // ---------------------------------------------------------------- the shape of each write

  lemma {:induction false} InsertShape(env: Env, todo: seq<Scanned>, entries: seq<Entry>, failing: set<nat>, k: nat)
    requires k <= |entries|
    requires forall e <- entries :: e.idx < |todo|
    ensures forall x <- Inserts(env, todo, entries, failing, k) ::
              x.Insert? && exists i :: 0 <= i < |todo| && todo[i].source == x.row.source
  {
    if k > 0 {
      InsertShape(env, todo, entries, failing, k - 1);
    }
  }

  lemma WriteShape(env: Env, plan: Plan, k: nat)
    requires k < |Writes(env, plan)|
    ensures var r := |RowWrites(env, plan)|;
            var h := |AllHashWrites(env, plan)|;
            var x := Writes(env, plan)[k];
            && |plan.todo| <= r
            && (k < |plan.todo| ==> x == Delete(plan.todo[k].source))
            && (|plan.todo| <= k < r ==>
                  x.Insert? && exists i :: 0 <= i < |plan.todo| && plan.todo[i].source == x.row.source)
            && (r <= k < r + h ==> Justified(x, plan.todo, Entries(env, plan.todo), plan.failing))
            && (r + h <= k < |Writes(env, plan)| - 1 ==> x == SetMark(Markdown, Capped(env, plan, Markdown)))
            && (k == |Writes(env, plan)| - 1 ==> r + h <= k && x == SetMark(Context, Capped(env, plan, Context)))
  {
    hide HashWrites, Inserts, Capped, Entries, SourceFailed, Justified;
    var entries := Entries(env, plan.todo);
    InsertShape(env, plan.todo, entries, plan.failing, |entries|);
    AllHashWritesMembers(env, plan);
    var r := |RowWrites(env, plan)|;
    var h := |AllHashWrites(env, plan)|;
    if |plan.todo| <= k < r {
      assert Writes(env, plan)[k] == Inserts(env, plan.todo, entries, plan.failing, |entries|)[k - |plan.todo|];
    } else if r <= k < r + h {
      assert Writes(env, plan)[k] == AllHashWrites(env, plan)[k - r];
    }
  }

  // ---------------------------------------------------------------- the write phase keeps the invariant

  /** A row at or below the watermark is one the scan saw, and was already recorded. */
  lemma BelowMeansSettled(env: Env, w: World, ref: string)
    requires Inv(env, w) && w.cycle.Writing?
    requires ref in w.rows && AtOrBelow(w.rows[ref].stamp, w.db)
    ensures OutsideTodo(w.cycle.plan, Source(Context, ref))
  {
    var Writing(plan, done, seen, seenLast) := w.cycle;
    assert AtOrBelow(w.rows[ref].stamp, plan.base);
    assert MarkEpoch(plan.base, Context) <= seenLast.sec;
  }

  lemma InRange(env: Env, w: World)
    requires Inv(env, w) && w.cycle.Writing?
    ensures w.cycle.done < |Writes(env, w.cycle.plan)|
  {
  }

  lemma StepPrefix(env: Env, plan: Plan, done: nat)
    requires done < |Writes(env, plan)|
    ensures ApplyAll(plan.base, Writes(env, plan)[..done + 1]) ==
            ApplyWrite(ApplyAll(plan.base, Writes(env, plan)[..done]), Writes(env, plan)[done])
  {
    assert Writes(env, plan)[..done + 1][..done] == Writes(env, plan)[..done];
  }

  lemma RowsAfterRowWrites(env: Env, plan: Plan, done: nat)
    requires done == |RowWrites(env, plan)| <= |Writes(env, plan)|
    ensures Writes(env, plan)[..done] == RowWrites(env, plan)
  {
  }

  lemma RowWriteKeepsClean(env: Env, db: Db, dirty: set<Source>, x: Write)
    requires CleanRows(env, db, dirty)
    requires x.Delete? || (x.Insert? && x.row.source in dirty)
    ensures CleanRows(env, ApplyWrite(db, x), Touch(dirty, x))
  {
    var db' := ApplyWrite(db, x);
    forall s, text | s in db'.hashes && s !in Touch(dirty, x) && db'.hashes[s] == env.hash(text)
      ensures RowsOf(db'.rows, s) == FullRows(env, s, text)
    {
      if x.Delete? {
        RowsOfWithout(db.rows, x.source, s);
      } else {
        RowsOfAppend(db.rows, [x.row], s);
        assert [x.row][..0] == [];
      }
    }
  }

  lemma RowWriteKeepsPhase(env: Env, w: World)
    requires Inv(env, w) && w.cycle.Writing?
    requires w.cycle.done < |RowWrites(env, w.cycle.plan)|
    ensures var w' := Apply(env, w, WriteNext);
            var x := Writes(env, w.cycle.plan)[w.cycle.done];
            && (x.Delete? || (x.Insert? && x.row.source in w.dirty))
            && w'.cycle.Writing? && WritingOk(env, w')
  {
    hide Writes, RowWrites, AllHashWrites, ApplyAll, RecordedBelow, CleanRows, PlanOk, Capped;
    var Writing(plan, done, seen, seenLast) := w.cycle;
    var x := Writes(env, plan)[done];
    WriteShape(env, plan, done);
    StepPrefix(env, plan, done);
    WriteShape(env, plan, |Writes(env, plan)| - 1);
    if done + 1 == |RowWrites(env, plan)| {
      RowsAfterRowWrites(env, plan, done + 1);
    }
  }

  lemma StepRowWrite(env: Env, w: World)
    requires Inv(env, w) && w.cycle.Writing?
    requires w.cycle.done < |RowWrites(env, w.cycle.plan)|
    ensures Inv(env, Apply(env, w, WriteNext))
  {
    hide Writes, RowWrites, AllHashWrites, ApplyAll, RecordedBelow, CleanRows, WritingOk;
    InRange(env, w);
    var x := Writes(env, w.cycle.plan)[w.cycle.done];
    RowWriteKeepsPhase(env, w);
    if HashIsInjective(env) {
      RowWriteKeepsClean(env, w.db, w.dirty, x);
    }
    RowWriteKeepsRecorded(env, w.rows, w.db, x);
  }

  lemma RowWriteKeepsRecorded(env: Env, rows: map<string, ContextRow>, db: Db, x: Write)
    requires RecordedBelow(env, rows, db)
    requires x.Delete? || x.Insert?
    ensures RecordedBelow(env, rows, ApplyWrite(db, x))
    ensures ApplyWrite(db, x).marks == db.marks
  {
    forall ref <- rows | AtOrBelow(rows[ref].stamp, ApplyWrite(db, x))
      ensures Recorded(env, ApplyWrite(db, x), ref, rows[ref].text)
    {
      assert AtOrBelow(rows[ref].stamp, db);
    }
  }

  lemma HashWriteKeepsPhase(env: Env, w: World, i: nat)
    requires Inv(env, w) && w.cycle.Writing?
    requires var r := |RowWrites(env, w.cycle.plan)|;
             r <= w.cycle.done < r + |AllHashWrites(env, w.cycle.plan)|
    requires ForSource(Writes(env, w.cycle.plan)[w.cycle.done], w.cycle.plan.todo,
                       Entries(env, w.cycle.plan.todo), w.cycle.plan.failing, i)
    ensures var w' := Apply(env, w, WriteNext);
            && w'.cycle.Writing? && WritingOk(env, w')
  {
    hide Writes, RowWrites, AllHashWrites, ApplyAll, RecordedBelow, CleanRows, PlanOk, SourceFailed;
    var Writing(plan, done, seen, seenLast) := w.cycle;
    InRange(env, w);
    StepPrefix(env, plan, done);
    WriteShape(env, plan, |Writes(env, plan)| - 1);
    assert plan.todo[i] in plan.todo;
  }

  /** When a hash is recorded, the source's rows are already those of the hashed text. */
  lemma RowsAreInPlace(env: Env, w: World, i: nat)
    requires w.cycle.Writing? && WritingOk(env, w)
    requires |RowWrites(env, w.cycle.plan)| <= w.cycle.done
    requires i < |w.cycle.plan.todo| && !SourceFailed(Entries(env, w.cycle.plan.todo), w.cycle.plan.failing, i)
    ensures var s := w.cycle.plan.todo[i];
            s.hash == env.hash(s.text) && RowsOf(w.db.rows, s.source) == FullRows(env, s.source, s.text)
  {
    hide Writes, RowWrites, AllHashWrites, Entries, RowsOf, FullRows, SourceFailed, ApplyAll;
    var plan := w.cycle.plan;
    FinalParts(env, plan);
    ProcessedSource(env, plan, i);
    SourceFailedIff(env, plan.todo, plan.failing, i);
    assert plan.todo[i] in plan.todo;
  }

  lemma HashWriteKeepsClean(env: Env, w: World, i: nat)
    requires HashIsInjective(env)
    requires CleanRows(env, w.db, w.dirty) && w.cycle.Writing? && WritingOk(env, w)
    requires |RowWrites(env, w.cycle.plan)| <= w.cycle.done
    requires i < |w.cycle.plan.todo| && !SourceFailed(Entries(env, w.cycle.plan.todo), w.cycle.plan.failing, i)
    ensures var s := w.cycle.plan.todo[i];
            CleanRows(env, w.db.(hashes := w.db.hashes[s.source := s.hash]), w.dirty - {s.source})
  {
    RowsAreInPlace(env, w, i);
    hide WritingOk, RowsOf, FullRows, SourceFailed;
    var s := w.cycle.plan.todo[i];
    var hashes := w.db.hashes[s.source := s.hash];
    forall t, text | t in hashes && t !in w.dirty - {s.source} && hashes[t] == env.hash(text)
      ensures RowsOf(w.db.rows, t) == FullRows(env, t, text)
    {
      if t == s.source {
        assert text == s.text;
      }
    }
  }

  lemma StepHashWrite(env: Env, w: World)
    requires Inv(env, w) && w.cycle.Writing?
    requires var r := |RowWrites(env, w.cycle.plan)|;
             r <= w.cycle.done < r + |AllHashWrites(env, w.cycle.plan)|
    ensures Inv(env, Apply(env, w, WriteNext))
  {
    hide Writes, RowWrites, AllHashWrites, ApplyAll, CleanRows, WritingOk, SourceFailed;
    InRange(env, w);
    var plan := w.cycle.plan;
    var x := Writes(env, plan)[w.cycle.done];
    var w' := Apply(env, w, WriteNext);
    WriteShape(env, plan, w.cycle.done);
    var i: nat :| ForSource(x, plan.todo, Entries(env, plan.todo), plan.failing, i);
    HashWriteKeepsPhase(env, w, i);
    if HashIsInjective(env) {
      HashWriteKeepsClean(env, w, i);
    }
    forall ref <- w'.rows | AtOrBelow(w'.rows[ref].stamp, w'.db)
      ensures Recorded(env, w'.db, ref, w'.rows[ref].text)
    {
      assert AtOrBelow(w.rows[ref].stamp, w.db);
      BelowMeansSettled(env, w, ref);
      assert plan.todo[i] in plan.todo;
    }
  }

  lemma StepFileMark(env: Env, w: World)
    requires Inv(env, w) && w.cycle.Writing?
    requires |RowWrites(env, w.cycle.plan)| + |AllHashWrites(env, w.cycle.plan)| <= w.cycle.done < |Writes(env, w.cycle.plan)| - 1
    ensures Inv(env, Apply(env, w, WriteNext))
  {
    hide Writes, RowWrites, AllHashWrites, ApplyAll, Capped, SourceFailed, Entries;
    InRange(env, w);
    var Writing(plan, done, seen, seenLast) := w.cycle;
    var w' := Apply(env, w, WriteNext);
    WriteShape(env, plan, done);
    StepPrefix(env, plan, done);
    CappedBounds(env, plan, Markdown);
    assert w'.db == w.db.(marks := w.db.marks[Markdown := Capped(env, plan, Markdown)]);
    forall ref <- w'.rows | AtOrBelow(w'.rows[ref].stamp, w'.db)
      ensures Recorded(env, w'.db, ref, w'.rows[ref].text)
    {
      assert AtOrBelow(w.rows[ref].stamp, w.db);
    }
    assert WritingOk(env, w');
  }

  /** The step that moves the context watermark: everything it comes to cover is recorded. */
  lemma StepContextMark(env: Env, w: World)
    requires Inv(env, w) && w.cycle.Writing?
    requires w.cycle.done == |Writes(env, w.cycle.plan)| - 1
    ensures Inv(env, Apply(env, w, WriteNext))
  {
    var Writing(plan, done, seen, seenLast) := w.cycle;
    var w' := Apply(env, w, WriteNext);
    WriteShape(env, plan, done);
    StepPrefix(env, plan, done);
    CappedBounds(env, plan, Context);
    assert Writes(env, plan)[..done + 1] == Writes(env, plan);
    assert w'.db == ApplyAll(plan.base, Writes(env, plan));
    assert w'.db == w.db.(marks := w.db.marks[Context := Capped(env, plan, Context)]);
    forall ref <- w'.rows | AtOrBelow(w'.rows[ref].stamp, w'.db)
      ensures Recorded(env, w'.db, ref, w'.rows[ref].text)
    {
      assert ref in seen && seen[ref] == w.rows[ref];
      CoveredIsRecorded(env, plan, seen, seenLast, ref);
    }
  }

  lemma CoveredIsRecorded(env: Env, plan: Plan, seen: map<string, ContextRow>, seenLast: Stamp, ref: string)
    requires PlanOk(env, plan, seen, seenLast)
    requires ref in seen
    requires var end := ApplyAll(plan.base, Writes(env, plan));
             AtOrBelow(seen[ref].stamp, end) && Context in end.marks && end.marks[Context] == Capped(env, plan, Context)
    ensures Recorded(env, ApplyAll(plan.base, Writes(env, plan)), ref, seen[ref].text)
  {
    CappedBounds(env, plan, Context);
    var x := ScanRow(env, ref, seen[ref]);
    if x in plan.todo {
      var i :| 0 <= i < |plan.todo| && plan.todo[i] == x;
      ProcessedHash(env, plan, i);
    } else {
      assert OutsideTodo(plan, Source(Context, ref));
      UntouchedSource(env, plan, Source(Context, ref));
    }
  }

  lemma StepWrite(env: Env, w: World)
    requires Inv(env, w) && w.cycle.Writing?
    ensures Inv(env, Apply(env, w, WriteNext))
  {
    var plan := w.cycle.plan;
    WriteShape(env, plan, w.cycle.done);
    if w.cycle.done < |RowWrites(env, plan)| {
      StepRowWrite(env, w);
    } else if w.cycle.done < |RowWrites(env, plan)| + |AllHashWrites(env, plan)| {
      StepHashWrite(env, w);
    } else if w.cycle.done < |Writes(env, plan)| - 1 {
      StepFileMark(env, w);
    } else {
      StepContextMark(env, w);
    }
  }

  // ---------------------------------------------------------------- the other steps

  lemma StepEdit(env: Env, w: World, e: Event)
    requires Inv(env, w) && Enabled(w, e)
    requires e.EditContext? || e.EditFile? || e.RemoveFile?
    ensures Inv(env, Apply(env, w, e))
  {
    hide Writes, RowWrites, AllHashWrites, ApplyAll, CleanRows, PlanOk;
    var w' := Apply(env, w, e);
    forall ref <- w'.rows | AtOrBelow(w'.rows[ref].stamp, w'.db)
      ensures Recorded(env, w'.db, ref, w'.rows[ref].text)
    {
      assert ref in w.rows && w.rows[ref] == w'.rows[ref];
    }
    if w.cycle.Writing? {
      assert WritingOk(env, w');
    }
  }

  /** A call that stops between its statements abandons the cycle. */
  lemma StepHalf(env: Env, w: World)
    requires Inv(env, w) && w.cycle.Writing?
    ensures Inv(env, Apply(env, w, HalfWrite))
  {
    hide Writes, RowWrites, AllHashWrites, ApplyAll, PlanOk, Capped, RowsOf, FullRows;
    InRange(env, w);
    var plan := w.cycle.plan;
    var x := Writes(env, plan)[w.cycle.done];
    var w' := Apply(env, w, HalfWrite);
    WriteShape(env, plan, w.cycle.done);
    assert w'.db.hashes == w.db.hashes && w'.db.marks == w.db.marks;
    forall ref <- w'.rows | AtOrBelow(w'.rows[ref].stamp, w'.db)
      ensures Recorded(env, w'.db, ref, w'.rows[ref].text)
    {
      assert AtOrBelow(w.rows[ref].stamp, w.db);
    }
    if HashIsInjective(env) {
      forall s, text | s in w'.db.hashes && s !in w'.dirty && w'.db.hashes[s] == env.hash(text)
        ensures RowsOf(w'.db.rows, s) == FullRows(env, s, text)
      {
        HalfWriteElsewhere(w.db, x, s);
      }
    }
  }

  lemma HalfWriteElsewhere(db: Db, x: Write, s: Source)
    requires x.Delete? ==> x.source != s
    requires x.Insert? ==> x.row.source != s
    ensures RowsOf(ApplyHalf(db, x).rows, s) == RowsOf(db.rows, s)
    ensures ApplyHalf(db, x).hashes == db.hashes && ApplyHalf(db, x).marks == db.marks
  {
    match x
    case Delete(t) => RowsOfBared(db.rows, t, s);
    case Insert(row) =>
      RowsOfAppend(db.rows, [row.(vector := None)], s);
      assert [row.(vector := None)][..0] == [];
    case _ =>
  }

  lemma FileMaxBound(env: Env, base: Db, files: seq<(string, FileRecord)>, bound: int)
    requires MarkEpoch(base, Markdown) <= bound
    requires forall f <- files :: f.1.mtime <= bound
    ensures MaxTime(MarkEpoch(base, Markdown), ScanFiles(env, files)) <= bound
  {
    var md := ScanFiles(env, files);
    forall s <- md ensures s.modTime <= bound {
      var j :| 0 <= j < |md| && md[j] == s;
      assert files[j] in files;
    }
  }

  lemma ContextMaxBound(env: Env, base: Db, rows: seq<(string, ContextRow)>, bound: int)
    requires MarkEpoch(base, Context) <= bound
    requires forall r <- rows :: r.1.stamp.sec <= bound
    ensures MaxTime(MarkEpoch(base, Context), ScanContext(env, base, rows)) <= bound
  {
    ScanContextMembers(env, base, rows);
    forall s <- ScanContext(env, base, rows) ensures s.modTime <= bound {
      var r :| r in rows && s == ScanRow(env, r.0, r.1);
    }
  }

  lemma ListingMembers(order: seq<string>, rows: map<string, ContextRow>)
    requires Lists(order, rows)
    ensures forall r <- Listing(order, rows) :: r.0 in rows && rows[r.0] == r.1
    ensures forall ref <- rows :: (ref, rows[ref]) in Listing(order, rows)
    ensures DistinctRefs(Listing(order, rows))
  {
    var xs := Listing(order, rows);
    forall r <- xs ensures r.0 in rows && rows[r.0] == r.1 {
      var i :| 0 <= i < |xs| && xs[i] == r;
      assert order[i] in order;
    }
    forall ref <- rows ensures (ref, rows[ref]) in xs {
      assert ref in order;
      var i :| 0 <= i < |order| && order[i] == ref;
      assert xs[i] in xs;
    }
  }

  lemma ListedTodo(env: Env, w: World, rows: seq<(string, ContextRow)>, plan: Plan)
    requires RecordedBelow(env, w.rows, w.db) && w.cycle.Scanning? && w.cycle.base == w.db
    requires forall r <- rows :: r.0 in w.rows && w.rows[r.0] == r.1
    requires forall ref <- w.rows :: (ref, w.rows[ref]) in rows
    requires DistinctRefs(rows) && DistinctRefs(w.cycle.files)
    requires plan == MakePlan(env, w.cycle.base, w.cycle.disabled, w.cycle.files, rows, plan.failing, plan.ctxFirst)
    ensures forall x <- plan.todo :: x.source.kind == Context ==>
              x.source.ref in w.rows && x == ScanRow(env, x.source.ref, w.rows[x.source.ref])
              && !AtOrBelow(w.rows[x.source.ref].stamp, plan.base)
              && !Recorded(env, plan.base, x.source.ref, x.text)
    ensures forall x <- plan.todo :: x.hash == env.hash(x.text)
    ensures forall ref <- w.rows :: Recorded(env, plan.base, ref, w.rows[ref].text) || ScanRow(env, ref, w.rows[ref]) in plan.todo
    ensures DistinctSources(plan.todo) && TimesFit(plan)
  {
    PlanFacts(env, w.cycle.base, w.cycle.disabled, w.cycle.files, rows, plan.failing, plan.ctxFirst);
    forall ref <- w.rows
      ensures Recorded(env, plan.base, ref, w.rows[ref].text) || ScanRow(env, ref, w.rows[ref]) in plan.todo
    {
      assert (ref, w.rows[ref]) in rows;
    }
  }

  lemma FreshPhase(env: Env, w: World, plan: Plan)
    requires w.cycle == Writing(plan, 0, w.rows, w.last) && plan.base == w.db
    requires PlanOk(env, plan, w.rows, w.last) && plan.fileMax <= w.lastFile
    ensures WritingOk(env, w)
  {
    hide PlanOk, AllHashWrites, Entries, Inserts, Capped;
    assert Writes(env, plan)[..0] == [];
    assert 0 < |Writes(env, plan)|;
    if |RowWrites(env, plan)| == 0 {
      assert RowWrites(env, plan) == [];
    }
  }

  lemma ListedPlan(env: Env, w: World, e: Event)
    requires Inv(env, w) && Enabled(w, e) && e.ListContext?
    ensures var w' := Apply(env, w, e);
            var plan := w'.cycle.plan;
            && w'.cycle == Writing(plan, 0, w.rows, w.last) && plan.base == w.db
            && PlanOk(env, plan, w.rows, w.last) && plan.fileMax <= w.lastFile
  {
    hide RecordedBelow, CleanRows, WritingOk, Writes, ScanContext, Todo, MaxTime;
    var rows := Listing(e.order, w.rows);
    var plan := Apply(env, w, e).cycle.plan;
    ListingMembers(e.order, w.rows);
    ListedTodo(env, w, rows, plan);
    FileMaxBound(env, w.db, if w.cycle.disabled then [] else w.cycle.files, w.lastFile);
    ContextMaxBound(env, w.db, rows, w.last.sec);
    assert ScanFiles(env, []) == [];
  }

  lemma StepList(env: Env, w: World, e: Event)
    requires Inv(env, w) && Enabled(w, e) && e.ListContext?
    ensures Inv(env, Apply(env, w, e))
  {
    hide PlanOk, MakePlan, WritingOk, CleanRows, RecordedBelow, Writes;
    ListedPlan(env, w, e);
    FreshPhase(env, Apply(env, w, e), Apply(env, w, e).cycle.plan);
  }

  lemma Step(env: Env, w: World, e: Event)
    requires Inv(env, w) && Enabled(w, e)
    ensures Inv(env, Apply(env, w, e))
  {
    match e
    case EditContext(_, _, _) => StepEdit(env, w, e);
    case EditFile(_, _) => StepEdit(env, w, e);
    case RemoveFile(_) => StepEdit(env, w, e);
    case ListContext(_, _, _) => StepList(env, w, e);
    case WriteNext => StepWrite(env, w);
    case HalfWrite => StepHalf(env, w);
    case ReadFile(ref) =>
      var w' := Apply(env, w, e);
      assert w'.cycle.files == w.cycle.files + [(ref, w.files[ref])];
    case _ =>
  }

  // ---------------------------------------------------------------- whole runs

  ghost predicate CanStep(env: Env, w: World, e: Event) {
    Enabled(w, e) && (w.cycle.Writing? ==> w.cycle.done < |Writes(env, w.cycle.plan)|)
  }

  ghost predicate ValidRun(env: Env, w: World, es: seq<Event>)
    decreases |es|
  {
    es == [] || (CanStep(env, w, es[0]) && ValidRun(env, Apply(env, w, es[0]), es[1..]))
  }

  ghost function Run(env: Env, w: World, es: seq<Event>): World
    requires ValidRun(env, w, es)
    decreases |es|
  {
    if es == [] then w else Run(env, Apply(env, w, es[0]), es[1..])
  }

  lemma {:induction false} RunKeepsInv(env: Env, w: World, es: seq<Event>)
    requires Inv(env, w) && ValidRun(env, w, es)
    ensures Inv(env, Run(env, w, es))
    decreases |es|
  {
    if es != [] {
      Step(env, w, es[0]);
      RunKeepsInv(env, Apply(env, w, es[0]), es[1..]);
    }
  }

  lemma StartOk(env: Env)
    ensures Inv(env, Start)
  {
  }

  /** On every run, every context row at or below the stored context watermark has the hash of its
      current text recorded. */
  lemma WatermarkCoversOnlyRecordedRows(env: Env, es: seq<Event>)
    requires ValidRun(env, Start, es)
    ensures var w := Run(env, Start, es);
            forall ref <- w.rows :: AtOrBelow(w.rows[ref].stamp, w.db) ==>
              Source(Context, ref) in w.db.hashes
              && w.db.hashes[Source(Context, ref)] == env.hash(w.rows[ref].text)
  {
    StartOk(env);
    RunKeepsInv(env, Start, es);
    var w := Run(env, Start, es);
    assert RecordedBelow(env, w.rows, w.db);
    forall ref <- w.rows | AtOrBelow(w.rows[ref].stamp, w.db) ensures Recorded(env, w.db, ref, w.rows[ref].text) {}
  }

  /** So a row that is not recorded (its embedding failed, or the cycle was abandoned) is
      re-processed by whichever cycle next lists the table. */
  lemma UnrecordedRowIsReprocessed(env: Env, es: seq<Event>, e: Event, ref: string)
    requires ValidRun(env, Start, es) && CanStep(env, Run(env, Start, es), e) && e.ListContext?
    requires ref in Run(env, Start, es).rows
    requires var w := Run(env, Start, es);
             !Recorded(env, w.db, ref, w.rows[ref].text)
    ensures var w := Run(env, Start, es);
            ScanRow(env, ref, w.rows[ref]) in Apply(env, w, e).cycle.plan.todo
  {
    StartOk(env);
    RunKeepsInv(env, Start, es);
    var w := Run(env, Start, es);
    var rows := Listing(e.order, w.rows);
    ListingMembers(e.order, w.rows);
    ListedTodo(env, w, rows, Apply(env, w, e).cycle.plan);
  }

  /** The same for files: one that the scan has read and that is not recorded, as it was read. */
  lemma UnrecordedFileIsReprocessed(env: Env, es: seq<Event>, e: Event, f: (string, FileRecord))
    requires ValidRun(env, Start, es) && CanStep(env, Run(env, Start, es), e) && e.ListContext?
    requires f in Run(env, Start, es).cycle.files && !Run(env, Start, es).cycle.disabled
    requires var w := Run(env, Start, es);
             !(Source(Markdown, f.0) in w.db.hashes && w.db.hashes[Source(Markdown, f.0)] == env.hash(f.1.text))
    ensures Scanned(Source(Markdown, f.0), f.1.text, f.1.mtime, env.hash(f.1.text))
            in Apply(env, Run(env, Start, es), e).cycle.plan.todo
  {
    hide ScanContext, Todo, MaxTime, Writes;
    StartOk(env);
    RunKeepsInv(env, Start, es);
    var w := Run(env, Start, es);
    ListingMembers(e.order, w.rows);
    PlanFacts(env, w.cycle.base, w.cycle.disabled, w.cycle.files, Listing(e.order, w.rows), e.failing, e.ctxFirst);
  }

  /** On every run, a source whose rows were not disturbed since its hash was recorded has exactly
      the rows of the text that hash belongs to. */
  lemma UndisturbedRowsMatchHash(env: Env, es: seq<Event>, s: Source, text: string)
    requires HashIsInjective(env)
    requires ValidRun(env, Start, es)
    requires var w := Run(env, Start, es);
             s in w.db.hashes && w.db.hashes[s] == env.hash(text) && s !in w.dirty
    ensures RowsOf(Run(env, Start, es).db.rows, s) == FullRows(env, s, text)
  {
    StartOk(env);
    RunKeepsInv(env, Start, es);
  }

  lemma StepMarks(env: Env, w: World, e: Event)
    requires Inv(env, w) && CanStep(env, w, e)
    ensures forall kind :: MarkEpoch(w.db, kind) <= MarkEpoch(Apply(env, w, e).db, kind)
    ensures w.lastFile <= Apply(env, w, e).lastFile && w.last.sec <= Apply(env, w, e).last.sec
  {
    hide Inv, Writes, MakePlan, Lists, Without, Bared;
    match e
    case WriteNext => MarkWriteGrows(env, w);
    case HalfWrite => assert Apply(env, w, e).db.marks == w.db.marks;
    case EditContext(_, _, stamp) => assert w.last.sec <= stamp.sec;
    case _ => assert Apply(env, w, e).db == w.db;
  }

  lemma MarkWriteGrows(env: Env, w: World)
    requires Inv(env, w) && w.cycle.Writing?
    requires w.cycle.done < |Writes(env, w.cycle.plan)|
    ensures var x := Writes(env, w.cycle.plan)[w.cycle.done];
            x.SetMark? ==> MarkEpoch(w.db, x.kind) <= x.time
  {
    hide Writes, RowWrites, AllHashWrites, RecordedBelow, CleanRows, Capped;
    var Writing(plan, done, seen, seenLast) := w.cycle;
    WriteShape(env, plan, done);
    CappedBounds(env, plan, Context);
    CappedBounds(env, plan, Markdown);
    MarksBeforeMarkWrites(env, plan, done);
  }

  /** Before the context watermark is written only the file watermark can have moved. */
  lemma {:induction false} MarksBeforeMarkWrites(env: Env, plan: Plan, done: nat)
    requires done < |Writes(env, plan)|
    ensures var marks := ApplyAll(plan.base, Writes(env, plan)[..done]).marks;
            if done <= |RowWrites(env, plan)| + |AllHashWrites(env, plan)| then marks == plan.base.marks
            else marks == plan.base.marks[Markdown := Capped(env, plan, Markdown)]
  {
    hide Capped, AllHashWrites, RowWrites;
    if done > 0 {
      MarksBeforeMarkWrites(env, plan, done - 1);
      StepPrefix(env, plan, done - 1);
      WriteShape(env, plan, done - 1);
    } else {
      assert Writes(env, plan)[..0] == [];
    }
  }

  /** On every run neither watermark ever moves back, and neither passes the newest time written. */
  lemma {:induction false} WatermarksGrow(env: Env, w: World, es: seq<Event>)
    requires Inv(env, w) && ValidRun(env, w, es)
    ensures forall kind :: MarkEpoch(w.db, kind) <= MarkEpoch(Run(env, w, es).db, kind)
    ensures MarkEpoch(Run(env, w, es).db, Context) <= Run(env, w, es).last.sec
    ensures MarkEpoch(Run(env, w, es).db, Markdown) <= Run(env, w, es).lastFile
    decreases |es|
  {
    if es != [] {
      Step(env, w, es[0]);
      StepMarks(env, w, es[0]);
      WatermarksGrow(env, Apply(env, w, es[0]), es[1..]);
    }
  }

  // ---------------------------------------------------------------- completing a cycle

  function TouchAll(dirty: set<Source>, ws: seq<Write>): set<Source> {
    if ws == [] then dirty else Touch(TouchAll(dirty, ws[..|ws| - 1]), ws[|ws| - 1])
  }

  ghost function Repeat(n: nat): (es: seq<Event>)
    ensures |es| == n && forall i :: 0 <= i < n ==> es[i] == WriteNext
  {
    seq(n, i => WriteNext)
  }

  /** Left alone, the write phase ends with every write applied. */
  lemma {:induction false} WritePhaseCompletes(env: Env, w: World, n: nat, before: set<Source>)
    requires w.cycle.Writing? && w.cycle.done < |Writes(env, w.cycle.plan)|
    requires n == |Writes(env, w.cycle.plan)| - w.cycle.done
    requires var ws := Writes(env, w.cycle.plan)[..w.cycle.done];
             w.db == ApplyAll(w.cycle.plan.base, ws) && w.dirty == TouchAll(before, ws)
    ensures ValidRun(env, w, Repeat(n))
    ensures var ws := Writes(env, w.cycle.plan);
            var w' := Run(env, w, Repeat(n));
            w' == w.(cycle := Idle, db := ApplyAll(w.cycle.plan.base, ws), dirty := TouchAll(before, ws))
    decreases n
  {
    hide Writes;
    var plan, done := w.cycle.plan, w.cycle.done;
    var ws := Writes(env, plan);
    var w1 := Apply(env, w, WriteNext);
    assert Repeat(n)[1..] == Repeat(n - 1);
    assert ws[..done + 1][..done] == ws[..done];
    if n == 1 {
      assert ws[..done + 1] == ws;
      assert Repeat(0) == [];
    } else {
      WritePhaseCompletes(env, w1, n - 1, before);
    }
  }

  lemma {:induction false} TouchAllAppend(dirty: set<Source>, a: seq<Write>, b: seq<Write>)
    ensures TouchAll(dirty, a + b) == TouchAll(TouchAll(dirty, a), b)
  {
    if b == [] {
      assert a + b == a;
    } else {
      assert (a + b)[..|a + b| - 1] == a + b[..|b| - 1];
      TouchAllAppend(dirty, a, b[..|b| - 1]);
    }
  }

  lemma {:induction false} TouchDeletes(dirty: set<Source>, todo: seq<Scanned>, k: nat, s: Source)
    requires k <= |todo|
    ensures s in TouchAll(dirty, Deletes(todo)[..k]) <==> s in dirty || exists i :: 0 <= i < k && todo[i].source == s
  {
    if k > 0 {
      assert Deletes(todo)[..k][..k - 1] == Deletes(todo)[..k - 1];
      TouchDeletes(dirty, todo, k - 1, s);
    }
  }

  lemma {:induction false} TouchNeutral(dirty: set<Source>, ws: seq<Write>)
    requires forall x <- ws :: x.Insert? || x.SetMark?
    ensures TouchAll(dirty, ws) == dirty
  {
    if ws != [] {
      assert ws[|ws| - 1] in ws;
      TouchNeutral(dirty, ws[..|ws| - 1]);
    }
  }

  lemma {:induction false} TouchHashes(dirty: set<Source>, ws: seq<Write>, s: Source)
    requires HashOnly(ws)
    ensures s in TouchAll(dirty, ws) <==> s in dirty && forall x <- ws :: x.source != s
  {
    if ws != [] {
      assert ws[|ws| - 1] in ws;
      TouchHashes(dirty, ws[..|ws| - 1], s);
      assert ws == ws[..|ws| - 1] + [ws[|ws| - 1]];
    }
  }

  lemma TouchParts(env: Env, plan: Plan, before: set<Source>)
    ensures TouchAll(before, Writes(env, plan)) ==
            TouchAll(TouchAll(before, Deletes(plan.todo)), AllHashWrites(env, plan))
  {
    hide HashWrites, Capped, AllHashWrites;
    var entries := Entries(env, plan.todo);
    var dels, ins := Deletes(plan.todo), Inserts(env, plan.todo, entries, plan.failing, |entries|);
    var hs, ms := AllHashWrites(env, plan), MarkWrites(env, plan);
    assert Writes(env, plan) == dels + ins + hs + ms;
    TouchAllAppend(before, dels, ins);
    TouchAllAppend(before, dels + ins, hs);
    TouchAllAppend(before, dels + ins + hs, ms);
    InsertShape(env, plan.todo, entries, plan.failing, |entries|);
    TouchNeutral(TouchAll(before, dels), ins);
    TouchNeutral(TouchAll(before, dels + ins + hs), ms);
  }

  /** A completed cycle leaves dirty the sources it processed and failed, and no other processed
      source. */
  lemma DirtyAfterCycle(env: Env, plan: Plan, before: set<Source>, s: Source)
    requires DistinctSources(plan.todo)
    ensures s in TouchAll(before, Writes(env, plan)) <==>
              if OutsideTodo(plan, s) then s in before
              else exists i :: 0 <= i < |plan.todo| && plan.todo[i].source == s
                               && SourceFailed(Entries(env, plan.todo), plan.failing, i)
  {
    hide AllHashWrites, Writes, TouchAll, SourceFailed, Entries;
    var dels, hs := Deletes(plan.todo), AllHashWrites(env, plan);
    TouchParts(env, plan, before);
    assert dels[..|plan.todo|] == dels;
    TouchDeletes(before, plan.todo, |plan.todo|, s);
    AllHashWritesMembers(env, plan);
    TouchHashes(TouchAll(before, dels), hs, s);
    HashesNamed(env, plan, s);
  }

  lemma HashesNamed(env: Env, plan: Plan, s: Source)
    requires DistinctSources(plan.todo)
    ensures (exists x <- AllHashWrites(env, plan) :: x.SetHash? && x.source == s) <==>
            exists i :: 0 <= i < |plan.todo| && plan.todo[i].source == s
                        && !SourceFailed(Entries(env, plan.todo), plan.failing, i)
  {
    hide AllHashWrites, SourceFailed;
    AllHashWritesMembers(env, plan);
    if x :| x in AllHashWrites(env, plan) && x.SetHash? && x.source == s {
      var j: nat :| ForSource(x, plan.todo, Entries(env, plan.todo), plan.failing, j);
    }
    if i :| 0 <= i < |plan.todo| && plan.todo[i].source == s && !SourceFailed(Entries(env, plan.todo), plan.failing, i) {
      var x := SetHash(s, plan.todo[i].hash);
      assert x in AllHashWrites(env, plan) && x.source == s;
    }
  }

  /** What can go on while a cycle writes. */
  predicate WritesOrEdits(e: Event) {
    e.WriteNext? || e.EditContext? || e.EditFile? || e.RemoveFile?
  }

  /** The database and the disturbed sources are as far as the cycle has come; once it is over they
      are those of the whole list. */
  ghost predicate CameTo(env: Env, w: World, plan: Plan, before: set<Source>) {
    var ws := Writes(env, plan);
    match w.cycle
    case Idle => w.db == ApplyAll(plan.base, ws) && w.dirty == TouchAll(before, ws)
    case Scanning(_, _, _) => false
    case Writing(p, done, _, _) =>
      p == plan && done < |ws| && w.db == ApplyAll(plan.base, ws[..done]) && w.dirty == TouchAll(before, ws[..done])
  }

  lemma StepCameTo(env: Env, w: World, e: Event, plan: Plan, before: set<Source>)
    requires CanStep(env, w, e) && WritesOrEdits(e) && CameTo(env, w, plan, before)
    ensures CameTo(env, Apply(env, w, e), plan, before)
  {
    hide Writes;
    if e.WriteNext? {
      var ws, done := Writes(env, plan), w.cycle.done;
      assert ws[..done + 1][..done] == ws[..done];
      assert done + 1 == |ws| ==> ws[..done + 1] == ws;
    }
  }

  /** However edits come between its writes, a cycle that reaches its end has applied them all. */
  lemma {:induction false} CycleReachesItsEnd(env: Env, w: World, es: seq<Event>, plan: Plan, before: set<Source>)
    requires ValidRun(env, w, es) && (forall e <- es :: WritesOrEdits(e)) && CameTo(env, w, plan, before)
    ensures CameTo(env, Run(env, w, es), plan, before)
    decreases |es|
  {
    hide CameTo;
    if es != [] {
      assert es[0] in es;
      StepCameTo(env, w, es[0], plan, before);
      CycleReachesItsEnd(env, Apply(env, w, es[0]), es[1..], plan, before);
    }
  }

  /** The worlds before a reachable listing step, after it, and at the end of its cycle. */
  ghost predicate Completes(env: Env, es: seq<Event>, e: Event, more: seq<Event>) {
    && ValidRun(env, Start, es) && CanStep(env, Run(env, Start, es), e) && e.ListContext?
    && var w1 := Apply(env, Run(env, Start, es), e);
    && ValidRun(env, w1, more) && (forall x <- more :: WritesOrEdits(x))
    && Run(env, w1, more).cycle.Idle?
  }

  lemma CompletedDatabase(env: Env, es: seq<Event>, e: Event, more: seq<Event>)
    requires Completes(env, es, e, more)
    ensures var w := Run(env, Start, es);
            var w1 := Apply(env, w, e);
            var w2 := Run(env, w1, more);
            var plan := w1.cycle.plan;
            && w1.cycle == Writing(plan, 0, w.rows, w.last) && plan.base == w.db && PlanOk(env, plan, w.rows, w.last)
            && w2.db == ApplyAll(w.db, Writes(env, plan)) && w2.dirty == TouchAll(w.dirty, Writes(env, plan))
  {
    hide Writes, Inv, MakePlan, TouchAll, ApplyAll, PlanOk;
    StartOk(env);
    RunKeepsInv(env, Start, es);
    var w := Run(env, Start, es);
    var w1 := Apply(env, w, e);
    var plan := w1.cycle.plan;
    ListedPlan(env, w, e);
    WriteCount(env, plan);
    NothingWritten(plan.base, w.dirty);
    assert Writes(env, plan)[..0] == [];
    CycleReachesItsEnd(env, w1, more, plan, w.dirty);
  }

  /** From any reachable listing step, and whatever edits come between its writes, the cycle run to
      its end does to every source exactly one of three things: re-embeds it whole and records its
      new hash, keeps the chunks whose batch succeeded under its old hash, or does not touch it. */
  lemma CompletedCycle(env: Env, es: seq<Event>, e: Event, more: seq<Event>, s: Source)
    requires Completes(env, es, e, more)
    ensures var w := Run(env, Start, es);
            var w1 := Apply(env, w, e);
            var plan := w1.cycle.plan;
            var w2 := Run(env, w1, more);
            && (OutsideTodo(plan, s) ==>
                  RowsOf(w2.db.rows, s) == RowsOf(w.db.rows, s) && SameHash(w2.db, w.db, s)
                  && (s in w2.dirty <==> s in w.dirty))
            && (forall i :: 0 <= i < |plan.todo| && plan.todo[i].source == s ==>
                  if SourceFailed(Entries(env, plan.todo), plan.failing, i)
                  then RowsOf(w2.db.rows, s) ==
                         SurvivingRows(env, s, Pieces(env, plan.todo[i].text), Offset(env, plan.todo, i), plan.failing)
                       && SameHash(w2.db, w.db, s) && s in w2.dirty
                  else RowsOf(w2.db.rows, s) == FullRows(env, s, plan.todo[i].text)
                       && s in w2.db.hashes && w2.db.hashes[s] == plan.todo[i].hash && s !in w2.dirty)
  {
    hide Writes, SourceFailed, SurvivingRows, RowsOf, FullRows, Entries, TouchAll, Pieces, ApplyAll, PlanOk, Run, ValidRun, Apply;
    CompletedDatabase(env, es, e, more);
    var w := Run(env, Start, es);
    var plan := Apply(env, w, e).cycle.plan;
    TodoIsDistinct(env, plan, w.rows, w.last);
    DirtyAfterCycle(env, plan, w.dirty, s);
    if OutsideTodo(plan, s) {
      UntouchedSource(env, plan, s);
    }
    forall i | 0 <= i < |plan.todo| && plan.todo[i].source == s
      ensures if SourceFailed(Entries(env, plan.todo), plan.failing, i)
              then RowsOf(ApplyAll(plan.base, Writes(env, plan)).rows, s) ==
                     SurvivingRows(env, s, Pieces(env, plan.todo[i].text), Offset(env, plan.todo, i), plan.failing)
                   && SameHash(ApplyAll(plan.base, Writes(env, plan)), plan.base, s)
              else RowsOf(ApplyAll(plan.base, Writes(env, plan)).rows, s) == FullRows(env, s, plan.todo[i].text)
                   && s in ApplyAll(plan.base, Writes(env, plan)).hashes
                   && ApplyAll(plan.base, Writes(env, plan)).hashes[s] == plan.todo[i].hash
    {
      ProcessedSource(env, plan, i);
      ProcessedHash(env, plan, i);
      SourceFailedIff(env, plan.todo, plan.failing, i);
    }
  }

  /** Over the same cycles, a watermark that was below a source's time is below it still when the
      source failed. */
  lemma CompletedWatermark(env: Env, es: seq<Event>, e: Event, more: seq<Event>, i: nat)
    requires Completes(env, es, e, more)
    requires var plan := Apply(env, Run(env, Start, es), e).cycle.plan;
             i < |plan.todo| && SourceFailed(Entries(env, plan.todo), plan.failing, i)
    ensures var w := Run(env, Start, es);
            var w1 := Apply(env, w, e);
            var x := w1.cycle.plan.todo[i];
            MarkEpoch(w.db, x.source.kind) < x.modTime ==>
              MarkEpoch(Run(env, w1, more).db, x.source.kind) < x.modTime
  {
    hide Writes, SourceFailed, Entries, TouchAll, ApplyAll, Capped, Run, ValidRun, Apply;
    CompletedDatabase(env, es, e, more);
    var plan := Apply(env, Run(env, Start, es), e).cycle.plan;
    CappedBounds(env, plan, plan.todo[i].source.kind);
    FinalParts(env, plan);
  }

  lemma NothingWritten(base: Db, dirty: set<Source>)
    ensures ApplyAll(base, []) == base && TouchAll(dirty, []) == dirty
  {
  }

  lemma TodoIsDistinct(env: Env, plan: Plan, seen: map<string, ContextRow>, seenLast: Stamp)
    requires PlanOk(env, plan, seen, seenLast)
    ensures DistinctSources(plan.todo)
  {
  }

  lemma WriteCount(env: Env, plan: Plan)
    ensures 0 < |Writes(env, plan)|
  {
  }
}
