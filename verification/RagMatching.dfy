/** When a matching hash can be relied on: over runs in which no edit takes a source whose
    re-embedding is under way or has failed back to the text its hash was taken of. */
module RagMatching {
  import opened Wrappers
  import opened RagIndexing
  import opened RagWatermarks
  import opened RagRuns

  /** The text a source has now. */
  function CurrentText(w: World, s: Source): Option<string> {
    match s.kind
    case Context => if s.ref in w.rows then Some(w.rows[s.ref].text) else None
    case Markdown => if s.ref in w.files then Some(w.files[s.ref].text) else None
  }

  /** The source an event writes, and the text it writes. */
  function EditOf(e: Event): Option<(Source, string)> {
    match e
    case EditContext(ref, text, _) => Some((Source(Context, ref), text))
    case EditFile(ref, file) => Some((Source(Markdown, ref), file.text))
    case _ => None
  }

  predicate Edits(e: Event, s: Source) {
    (EditOf(e).Some? && EditOf(e).value.0 == s) || (e.RemoveFile? && s == Source(Markdown, e.ref))
  }

  predicate RecordedText(env: Env, db: Db, s: Source, text: string) {
    s in db.hashes && db.hashes[s] == env.hash(text)
  }

  /** The source's rows were taken away since its hash was recorded and not put back whole, or the
      cycle under way is going to take them: it has read another text than the recorded one. */
  ghost predicate Unsettled(env: Env, w: World, s: Source) {
    || s in w.dirty
    || (w.cycle.Scanning? && s.kind == Markdown
        && exists f <- w.cycle.files :: f.0 == s.ref && !RecordedText(env, w.db, s, f.1.text))
    || (w.cycle.Writing? && w.cycle.done < |w.cycle.plan.todo| && !OutsideTodo(w.cycle.plan, s))
  }

  /** An edit takes an unsettled source back to its recorded text. */
  ghost predicate Restores(env: Env, w: World, e: Event) {
    EditOf(e).Some? && RecordedText(env, w.db, EditOf(e).value.0, EditOf(e).value.1) && Unsettled(env, w, EditOf(e).value.0)
  }

  ghost predicate NeverRestores(env: Env, w: World, es: seq<Event>)
    requires ValidRun(env, w, es)
    decreases |es|
  {
    es == [] || (!Restores(env, w, es[0]) && NeverRestores(env, Apply(env, w, es[0]), es[1..]))
  }

  // ---------------------------------------------------------------- an unsettled source is not recorded

  ghost predicate Unmatched(env: Env, w: World) {
    forall s :: Unsettled(env, w, s) && CurrentText(w, s).Some? ==> !RecordedText(env, w.db, s, CurrentText(w, s).value)
  }

  /** A step that unsettles no source, and leaves text and hash of the unsettled ones alone. */
  lemma UnmatchedKept(env: Env, w: World, w': World)
    requires Unmatched(env, w)
    requires forall s :: Unsettled(env, w', s) ==>
               Unsettled(env, w, s) && SameHash(w'.db, w.db, s) && CurrentText(w', s) in {None, CurrentText(w, s)}
    ensures Unmatched(env, w')
  {
    hide Unsettled, CurrentText;
  }

  /** What a listed cycle is going to process: unrecorded texts, those of the rows as they are and
      those of the files as they were read. */
  lemma ListedTexts(env: Env, w: World, e: Event)
    requires Inv(env, w) && CanStep(env, w, e) && e.ListContext?
    ensures var w' := Apply(env, w, e);
            && w'.cycle.Writing? && w'.db == w.db && w'.dirty == w.dirty && w'.rows == w.rows && w'.files == w.files
            && forall x <- w'.cycle.plan.todo ::
                 && !RecordedText(env, w.db, x.source, x.text)
                 && (x.source.kind == Context ==> CurrentText(w, x.source) == Some(x.text))
                 && (x.source.kind == Markdown ==> exists f <- w.cycle.files :: f.0 == x.source.ref && f.1.text == x.text)
  {
    hide Writes, ScanContext, Todo, MaxTime, Inv;
    var w' := Apply(env, w, e);
    var plan := w'.cycle.plan;
    ListedPlan(env, w, e);
    ListedFiles(env, w);
    ListingMembers(e.order, w.rows);
    PlanFacts(env, w.cycle.base, w.cycle.disabled, w.cycle.files, Listing(e.order, w.rows), e.failing, e.ctxFirst);
    forall x <- plan.todo | x.source.kind == Markdown ensures exists f <- w.cycle.files :: f.0 == x.source.ref && f.1.text == x.text {
      var f :| f in w.cycle.files && x == ScanFile(env, f.0, f.1);
    }
  }

  lemma ListedFiles(env: Env, w: World)
    requires Inv(env, w) && w.cycle.Scanning?
    ensures DistinctRefs(w.cycle.files) && w.cycle.base == w.db
  {
  }

  lemma ListedUnmatched(env: Env, w: World, e: Event)
    requires Inv(env, w) && CanStep(env, w, e) && e.ListContext? && Unmatched(env, w)
    ensures Unmatched(env, Apply(env, w, e))
  {
    hide Apply, Inv, Enabled, Writes;
    var w' := Apply(env, w, e);
    ListedTexts(env, w, e);
    Scans(env, w, e);
    forall s | Unsettled(env, w', s) && CurrentText(w', s).Some?
      ensures !RecordedText(env, w'.db, s, CurrentText(w', s).value)
    {
      SameTexts(w, w', s);
      if s in w.dirty {
        assert Unsettled(env, w, s);
      } else {
        var x :| x in w'.cycle.plan.todo && x.source == s;
        if s.kind == Markdown {
          assert Unsettled(env, w, s);
        }
      }
    }
  }

  lemma Scans(env: Env, w: World, e: Event)
    requires CanStep(env, w, e) && e.ListContext?
    ensures w.cycle.Scanning?
  {
  }

  lemma WriteUnmatched(env: Env, w: World, e: Event)
    requires Inv(env, w) && CanStep(env, w, e) && (e.WriteNext? || e.HalfWrite?) && Unmatched(env, w)
    ensures Unmatched(env, Apply(env, w, e))
  {
    hide Writes, RowWrites, AllHashWrites, Capped, SourceFailed, CurrentText, Inv, Without, Bared;
    var plan, done := w.cycle.plan, w.cycle.done;
    var w' := Apply(env, w, e);
    WriteShape(env, plan, done);
    assert done < |plan.todo| ==> plan.todo[done] in plan.todo;
    forall s | Unsettled(env, w', s) ensures Unsettled(env, w, s) && SameHash(w'.db, w.db, s) && CurrentText(w', s) == CurrentText(w, s) {
      SameTexts(w, w', s);
    }
    hide Unsettled;
    UnmatchedKept(env, w, w');
  }

  lemma SameTexts(w: World, w': World, s: Source)
    requires w'.rows == w.rows && w'.files == w.files
    ensures CurrentText(w', s) == CurrentText(w, s)
  {
  }

  lemma EditUnmatched(env: Env, w: World, e: Event)
    requires CanStep(env, w, e) && (EditOf(e).Some? || e.RemoveFile?) && Unmatched(env, w) && !Restores(env, w, e)
    ensures Unmatched(env, Apply(env, w, e))
  {
    hide Unsettled, Writes;
    var w' := Apply(env, w, e);
    forall s ensures Unsettled(env, w', s) <==> Unsettled(env, w, s) {
      SameCycle(env, w, w', s);
    }
  }

  lemma SameCycle(env: Env, w: World, w': World, s: Source)
    requires w'.db == w.db && w'.dirty == w.dirty && w'.cycle == w.cycle
    ensures Unsettled(env, w', s) <==> Unsettled(env, w, s)
  {
  }

  lemma StepUnmatched(env: Env, w: World, e: Event)
    requires Inv(env, w) && CanStep(env, w, e) && Unmatched(env, w) && !Restores(env, w, e)
    ensures Unmatched(env, Apply(env, w, e))
  {
    match e
    case ListContext(_, _, _) => ListedUnmatched(env, w, e);
    case WriteNext => WriteUnmatched(env, w, e);
    case HalfWrite => WriteUnmatched(env, w, e);
    case ReadFile(ref) => ReadUnmatched(env, w, ref);
    case Begin(_) => UnmatchedKept(env, w, Apply(env, w, e));
    case Abort => UnmatchedKept(env, w, Apply(env, w, e));
    case _ => EditUnmatched(env, w, e);
  }

  lemma ReadUnmatched(env: Env, w: World, ref: string)
    requires CanStep(env, w, ReadFile(ref)) && Unmatched(env, w)
    ensures Unmatched(env, Apply(env, w, ReadFile(ref)))
  {
    var w' := Apply(env, w, ReadFile(ref));
    forall s | Unsettled(env, w', s) && CurrentText(w', s).Some?
      ensures !RecordedText(env, w'.db, s, CurrentText(w', s).value)
    {
      if !Unsettled(env, w, s) {
        var f :| f in w'.cycle.files && f.0 == s.ref && !RecordedText(env, w.db, s, f.1.text);
        assert f == (ref, w.files[ref]);
      }
    }
  }

  lemma {:induction false} RunUnmatched(env: Env, w: World, es: seq<Event>)
    requires Inv(env, w) && ValidRun(env, w, es) && NeverRestores(env, w, es) && Unmatched(env, w)
    ensures Inv(env, Run(env, w, es)) && Unmatched(env, Run(env, w, es))
    decreases |es|
  {
    hide Inv, Unmatched, Restores, Enabled, Writes, Apply;
    if es != [] {
      Step(env, w, es[0]);
      StepUnmatched(env, w, es[0]);
      RunUnmatched(env, Apply(env, w, es[0]), es[1..]);
    }
  }

  /** On every run of edits, cycles with any batches failing, and stops between and inside database
      calls, in which no edit takes an unsettled source back to its recorded text: a source, row or
      file, whose current text has the recorded hash has exactly the index rows of that text. */
  lemma MatchingHashMeansMatchingRows(env: Env, es: seq<Event>, s: Source)
    requires HashIsInjective(env) && ValidRun(env, Start, es) && NeverRestores(env, Start, es)
    ensures var w := Run(env, Start, es);
            CurrentText(w, s).Some? && RecordedText(env, w.db, s, CurrentText(w, s).value) ==>
              RowsOf(w.db.rows, s) == FullRows(env, s, CurrentText(w, s).value)
  {
    hide Run, ValidRun, NeverRestores, RowsOf, FullRows, WritingOk;
    StartOk(env);
    RunUnmatched(env, Start, es);
    var w := Run(env, Start, es);
    assert Unsettled(env, w, s) || s !in w.dirty;
  }

  // ---------------------------------------------------------------- a condition on the edits alone

  /** Every edit leaves the text as it is or writes one whose hash is not the recorded one. */
  ghost predicate TextsMoveOn(env: Env, w: World, es: seq<Event>)
    requires ValidRun(env, w, es)
    decreases |es|
  {
    es == [] ||
    (var edit := EditOf(es[0]);
     && (edit.Some? ==> CurrentText(w, edit.value.0) == Some(edit.value.1) || !RecordedText(env, w.db, edit.value.0, edit.value.1))
     && TextsMoveOn(env, Apply(env, w, es[0]), es[1..]))
  }

  /** Edits that never write a recorded text anew never restore one. */
  lemma {:induction false} MovingOnNeverRestores(env: Env, w: World, es: seq<Event>)
    requires Inv(env, w) && ValidRun(env, w, es) && TextsMoveOn(env, w, es) && Unmatched(env, w)
    ensures NeverRestores(env, w, es)
    decreases |es|
  {
    hide Inv, Enabled, Writes, Apply, Unsettled;
    if es != [] {
      assert !Restores(env, w, es[0]);
      hide Restores, Unmatched;
      Step(env, w, es[0]);
      StepUnmatched(env, w, es[0]);
      MovingOnNeverRestores(env, Apply(env, w, es[0]), es[1..]);
    }
  }

  /** The same conclusion from a condition that can be checked at each edit. */
  lemma MovingTextsMatch(env: Env, es: seq<Event>, s: Source)
    requires HashIsInjective(env) && ValidRun(env, Start, es) && TextsMoveOn(env, Start, es)
    ensures var w := Run(env, Start, es);
            CurrentText(w, s).Some? && RecordedText(env, w.db, s, CurrentText(w, s).value) ==>
              RowsOf(w.db.rows, s) == FullRows(env, s, CurrentText(w, s).value)
  {
    hide Run, TextsMoveOn, NeverRestores, ValidRun;
    StartOk(env);
    assert Unmatched(env, Start);
    MovingOnNeverRestores(env, Start, es);
    MatchingHashMeansMatchingRows(env, es, s);
  }

  // ---------------------------------------------------------------- a recorded source is left alone

  /** The source's recorded text is its current one, and no cycle under way has read another. */
  ghost predicate AtRest(env: Env, w: World, s: Source, text: string) {
    && CurrentText(w, s) == Some(text) && RecordedText(env, w.db, s, text)
    && (w.cycle.Scanning? ==> forall f <- w.cycle.files :: s == Source(Markdown, f.0) ==> RecordedText(env, w.db, s, f.1.text))
    && (w.cycle.Writing? ==> OutsideTodo(w.cycle.plan, s))
  }

  lemma ListedAtRest(env: Env, w: World, e: Event, s: Source, text: string)
    requires Inv(env, w) && CanStep(env, w, e) && e.ListContext? && AtRest(env, w, s, text)
    ensures AtRest(env, Apply(env, w, e), s, text)
  {
    hide Apply, Inv, Enabled, Writes;
    var w' := Apply(env, w, e);
    ListedTexts(env, w, e);
    Scans(env, w, e);
    SameTexts(w, w', s);
  }

  lemma WriteAtRest(env: Env, w: World, e: Event, s: Source, text: string)
    requires Inv(env, w) && CanStep(env, w, e) && (e.WriteNext? || e.HalfWrite?) && AtRest(env, w, s, text)
    ensures var w' := Apply(env, w, e);
            AtRest(env, w', s, text) && RowsOf(w'.db.rows, s) == RowsOf(w.db.rows, s)
  {
    hide Writes, RowWrites, AllHashWrites, Capped, SourceFailed, CurrentText, Inv, Without, Bared, RowsOf;
    var plan, done := w.cycle.plan, w.cycle.done;
    var x := Writes(env, plan)[done];
    WriteShape(env, plan, done);
    assert done < |plan.todo| ==> plan.todo[done] in plan.todo;
    assert x.Delete? ==> x.source != s;
    assert x.SetHash? ==> x.source != s;
    assert x.Insert? ==> x.row.source != s;
    SameTexts(w, Apply(env, w, e), s);
    if e.WriteNext? {
      WriteElsewhere(w.db, x, s);
    } else {
      HalfWriteElsewhere(w.db, x, s);
    }
  }

  lemma WriteElsewhere(db: Db, x: Write, s: Source)
    requires x.Delete? || x.SetHash? ==> x.source != s
    requires x.Insert? ==> x.row.source != s
    ensures RowsOf(ApplyWrite(db, x).rows, s) == RowsOf(db.rows, s) && SameHash(ApplyWrite(db, x), db, s)
  {
    match x
    case Delete(t) => RowsOfWithout(db.rows, t, s);
    case Insert(row) =>
      RowsOfAppend(db.rows, [row], s);
      assert [row][..0] == [];
    case _ =>
  }

  lemma StepAtRest(env: Env, w: World, e: Event, s: Source, text: string)
    requires Inv(env, w) && CanStep(env, w, e) && AtRest(env, w, s, text) && !Edits(e, s)
    ensures var w' := Apply(env, w, e);
            AtRest(env, w', s, text) && RowsOf(w'.db.rows, s) == RowsOf(w.db.rows, s)
  {
    hide Inv, RowsOf, Writes, Lists, MakePlan;
    match e
    case ListContext(_, _, _) => ListedAtRest(env, w, e, s, text);
    case WriteNext => WriteAtRest(env, w, e, s, text);
    case HalfWrite => WriteAtRest(env, w, e, s, text);
    case ReadFile(ref) => assert Apply(env, w, e).cycle.files == w.cycle.files + [(ref, w.files[ref])];
    case _ =>
  }

  /** Whatever cycles come, and wherever they stop: as long as it is not edited, a source whose
      current text is recorded keeps the rows it has, those of that text or not. */
  lemma {:induction false} RecordedSourceIsLeftAlone(env: Env, w: World, es: seq<Event>, s: Source, text: string)
    requires Inv(env, w) && ValidRun(env, w, es) && AtRest(env, w, s, text)
    requires forall e <- es :: !Edits(e, s)
    ensures var w' := Run(env, w, es);
            AtRest(env, w', s, text) && RowsOf(w'.db.rows, s) == RowsOf(w.db.rows, s)
    decreases |es|
  {
    hide Inv, AtRest, Enabled, Writes, Apply, RowsOf, Edits;
    if es != [] {
      assert es[0] in es;
      Step(env, w, es[0]);
      StepAtRest(env, w, es[0], s, text);
      RecordedSourceIsLeftAlone(env, Apply(env, w, es[0]), es[1..], s, text);
    }
  }

  // ---------------------------------------------------------------- the case that fails

  /** A reachable cycle, with any edits between its writes, in which a source recorded for `a` fails.
      If its text is `a` when the cycle is over, then whatever cycles follow, and for as long as it is
      not edited, its hash matches its text and its rows are what survived of the text that failed. */
  lemma RevertedSourceStaysStale(env: Env, es: seq<Event>, e: Event, more: seq<Event>, later: seq<Event>, i: nat, a: string)
    requires Completes(env, es, e, more)
    requires var w := Run(env, Start, es);
             var w1 := Apply(env, w, e);
             var plan := w1.cycle.plan;
             && i < |plan.todo| && SourceFailed(Entries(env, plan.todo), plan.failing, i)
             && RecordedText(env, w.db, plan.todo[i].source, a)
             && CurrentText(Run(env, w1, more), plan.todo[i].source) == Some(a)
             && ValidRun(env, Run(env, w1, more), later)
             && forall x <- later :: !Edits(x, plan.todo[i].source)
    ensures var w1 := Apply(env, Run(env, Start, es), e);
            var plan := w1.cycle.plan;
            var x := plan.todo[i];
            var w3 := Run(env, Run(env, w1, more), later);
            && CurrentText(w3, x.source) == Some(a) && RecordedText(env, w3.db, x.source, a)
            && RowsOf(w3.db.rows, x.source) ==
               SurvivingRows(env, x.source, Pieces(env, x.text), Offset(env, plan.todo, i), plan.failing)
  {
    hide Inv, Writes, SourceFailed, SurvivingRows, RowsOf, FullRows, Pieces, Run, ValidRun, Apply, CurrentText, Edits;
    CompletedDatabase(env, es, e, more);
    var w1 := Apply(env, Run(env, Start, es), e);
    var w2 := Run(env, w1, more);
    var s := w1.cycle.plan.todo[i].source;
    ReachableCycle(env, es, e, more);
    CompletedCycle(env, es, e, more, s);
    RecordedSourceIsLeftAlone(env, w2, later, s, a);
  }

  lemma ReachableCycle(env: Env, es: seq<Event>, e: Event, more: seq<Event>)
    requires Completes(env, es, e, more)
    ensures Inv(env, Run(env, Apply(env, Run(env, Start, es), e), more))
  {
    hide Inv, Apply, Run, ValidRun;
    StartOk(env);
    RunKeepsInv(env, Start, es);
    var w := Run(env, Start, es);
    Step(env, w, e);
    RunKeepsInv(env, Apply(env, w, e), more);
  }

  lemma {:induction false} RunAppend(env: Env, w: World, a: seq<Event>, b: seq<Event>)
    requires ValidRun(env, w, a) && ValidRun(env, Run(env, w, a), b)
    ensures ValidRun(env, w, a + b) && Run(env, w, a + b) == Run(env, Run(env, w, a), b)
    decreases |a|
  {
    if a == [] {
      assert a + b == b;
    } else {
      hide Apply, Enabled, Writes;
      assert (a + b)[1..] == a[1..] + b;
      RunAppend(env, Apply(env, w, a[0]), a[1..], b);
    }
  }

  /** A cycle run from a reachable listing step to its end with nothing in between. */
  lemma QuietCycle(env: Env, es: seq<Event>, e: Event) returns (more: seq<Event>)
    requires ValidRun(env, Start, es) && CanStep(env, Run(env, Start, es), e) && e.ListContext?
    ensures Completes(env, es, e, more)
    ensures var w := Run(env, Start, es);
            var w2 := Run(env, Apply(env, w, e), more);
            && w2.rows == w.rows && w2.files == w.files && w2.last == w.last
            && ValidRun(env, Start, es + ([e] + more)) && Run(env, Start, es + ([e] + more)) == w2
  {
    hide Inv, Writes, PlanOk, TouchAll, ApplyAll, MakePlan;
    StartOk(env);
    RunKeepsInv(env, Start, es);
    var w := Run(env, Start, es);
    var w1 := Apply(env, w, e);
    ListedPlan(env, w, e);
    WriteCount(env, w1.cycle.plan);
    NothingWritten(w.db, w.dirty);
    assert Writes(env, w1.cycle.plan)[..0] == [];
    more := Repeat(|Writes(env, w1.cycle.plan)|);
    WritePhaseCompletes(env, w1, |Writes(env, w1.cycle.plan)|, w.dirty);
    assert ([e] + more)[1..] == more;
    RunAppend(env, Start, es, [e] + more);
  }

  /** Texts are their own hashes and one chunk each. */
  const WordEnv := Env(t => t, t => [t], t => [], c => c == ' ')

  const Row := Source(Context, "r")

  lemma WordFacts(text: string)
    requires text != "" && text[0] != ' '
    ensures HashIsInjective(WordEnv) && Pieces(WordEnv, text) == [text] && |FullRows(WordEnv, Row, text)| == 1
  {
    assert [text][..0] == [];
    assert text[0] in text;
    assert NonBlank(WordEnv, []) == [];
  }

  lemma NothingSurvives(text: string)
    ensures SurvivingRows(WordEnv, Row, [text], 0, {0}) == [] && !ChunkEmbedded({0}, 0, 0)
  {
    assert [text][..0] == [];
    assert SurvivingRows(WordEnv, Row, [], 0, {0}) == [];
  }

  lemma RunTwo(env: Env, w: World, a: Event, b: Event)
    requires CanStep(env, w, a) && CanStep(env, Apply(env, w, a), b)
    ensures ValidRun(env, w, [a, b]) && Run(env, w, [a, b]) == Apply(env, Apply(env, w, a), b)
  {
    var w1 := Apply(env, w, a);
    hide Apply, Enabled, Writes;
    assert [a, b][1..] == [b] && [b][1..] == [];
    assert ValidRun(env, Apply(env, w1, b), []);
    assert ValidRun(env, w1, [b]) && Run(env, w1, [b]) == Apply(env, w1, b);
  }

  /** One round of the example: the row is given a text and a cycle begins with no files. */
  lemma EditAndBegin(es: seq<Event>, text: string, stamp: Stamp) returns (es': seq<Event>)
    requires ValidRun(WordEnv, Start, es)
    requires var w := Run(WordEnv, Start, es);
             w.cycle.Idle? && w.last.Before(stamp) && 1 <= stamp.sec && w.rows.Keys <= {"r"}
    ensures ValidRun(WordEnv, Start, es')
    ensures var w := Run(WordEnv, Start, es);
            var w' := Run(WordEnv, Start, es');
            w' == w.(rows := map["r" := ContextRow(text, stamp)], last := stamp, cycle := Scanning(w.db, true, []))
  {
    var w := Run(WordEnv, Start, es);
    var a, b := EditContext("r", text, stamp), Begin(true);
    RunTwo(WordEnv, w, a, b);
    RunAppend(WordEnv, Start, es, [a, b]);
    assert w.rows["r" := ContextRow(text, stamp)] == map["r" := ContextRow(text, stamp)];
    es' := es + [a, b];
  }

  /** The listing then finds the row, and nothing else, to process. */
  lemma OneRowToProcess(es: seq<Event>, failing: set<nat>)
    requires ValidRun(WordEnv, Start, es)
    requires var w := Run(WordEnv, Start, es);
             && w.cycle.Scanning? && w.cycle.files == [] && w.rows.Keys == {"r"}
             && !RecordedText(WordEnv, w.db, Row, w.rows["r"].text)
    ensures var w := Run(WordEnv, Start, es);
            var e := ListContext(["r"], failing, true);
            && CanStep(WordEnv, w, e)
            && var plan := Apply(WordEnv, w, e).cycle.plan;
            0 < |plan.todo| && plan.todo[0] == ScanRow(WordEnv, "r", w.rows["r"]) && plan.failing == failing && plan.base == w.db
  {
    hide Run, ValidRun, Inv, Todo, ScanContext;
    var w := Run(WordEnv, Start, es);
    var e := ListContext(["r"], failing, true);
    assert forall k :: k in ["r"] <==> k in w.rows;
    StartOk(WordEnv);
    RunKeepsInv(WordEnv, Start, es);
    UnrecordedRowIsReprocessed(WordEnv, es, e, "r");
    ListedTexts(WordEnv, w, e);
    ListedPlan(WordEnv, w, e);
    var todo := Apply(WordEnv, w, e).cycle.plan.todo;
    var i :| 0 <= i < |todo| && todo[i] == ScanRow(WordEnv, "r", w.rows["r"]);
    assert todo[0] in todo;
    assert todo[0].source == Row;
  }

  /** A run from the start on which a matching hash misleads: a row is embedded as `a`, edited to `b`,
      fails, and is edited back. Its text has the recorded hash and a chunk, and the index none. */
  lemma StaleRun() returns (es: seq<Event>)
    ensures HashIsInjective(WordEnv) && ValidRun(WordEnv, Start, es)
    ensures var w := Run(WordEnv, Start, es);
            && CurrentText(w, Row) == Some("a") && RecordedText(WordEnv, w.db, Row, "a")
            && RowsOf(w.db.rows, Row) == [] && |FullRows(WordEnv, Row, "a")| == 1
  {
    hide Run, ValidRun, RowsOf, FullRows;
    WordFacts("a");
    StartRun();
    es := Round([], "a", Stamp(1, 0), {});
    es := Round(es, "b", Stamp(2, 0), {0});
    es := EditAndBegin(es, "a", Stamp(3, 0));
  }

  /** The row is given a text, and a cycle processes it: in full, or with its one batch failing. */
  lemma Round(es: seq<Event>, text: string, stamp: Stamp, failing: set<nat>) returns (es': seq<Event>)
    requires ValidRun(WordEnv, Start, es) && text in {"a", "b"} && (failing == {} || failing == {0})
    requires var w := Run(WordEnv, Start, es);
             && w.cycle.Idle? && w.last.Before(stamp) && 1 <= stamp.sec && w.rows.Keys <= {"r"}
             && !RecordedText(WordEnv, w.db, Row, text)
    ensures ValidRun(WordEnv, Start, es')
    ensures var w := Run(WordEnv, Start, es);
            var w' := Run(WordEnv, Start, es');
            && w'.cycle.Idle? && w'.last == stamp && w'.rows.Keys == {"r"}
            && (if failing == {} then RecordedText(WordEnv, w'.db, Row, text)
                else SameHash(w'.db, w.db, Row) && RowsOf(w'.db.rows, Row) == [])
  {
    hide Run, ValidRun, RowsOf, FullRows, SurvivingRows, Apply, SourceFailed, Entries, Pieces, Writes;
    var begun := EditAndBegin(es, text, stamp);
    OneRowToProcess(begun, failing);
    var e := ListContext(["r"], failing, true);
    var more := QuietCycle(WordEnv, begun, e);
    CompletedDatabase(WordEnv, begun, e, more);
    CompletedCycle(WordEnv, begun, e, more, Row);
    var todo := Apply(WordEnv, Run(WordEnv, Start, begun), e).cycle.plan.todo;
    if failing == {} {
      NothingFails(Entries(WordEnv, todo), 0);
    } else {
      FirstFails(todo);
      WordFacts(text);
      NothingSurvives(text);
    }
    es' := begun + ([e] + more);
  }

  lemma StartRun()
    ensures ValidRun(WordEnv, Start, []) && Run(WordEnv, Start, []) == Start
  {
  }

  lemma NothingFails(entries: seq<Entry>, i: nat)
    ensures !SourceFailed(entries, {}, i)
  {
  }

  lemma {:induction false} FirstFails(todo: seq<Scanned>)
    requires 0 < |todo| && todo[0].text in {"a", "b"}
    ensures SourceFailed(Entries(WordEnv, todo), {0}, 0) && Offset(WordEnv, todo, 0) == 0
  {
    hide SourceFailed, Entries, ChunkEmbedded, Pieces;
    WordFacts(todo[0].text);
    NothingSurvives(todo[0].text);
    SourceFailedIff(WordEnv, todo, {0}, 0);
    assert 0 < |Pieces(WordEnv, todo[0].text)|;
    assert Offset(WordEnv, todo, 0) == 0;
    assert !ChunkEmbedded({0}, Offset(WordEnv, todo, 0), 0);
  }
}
