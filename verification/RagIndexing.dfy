/** The periodic retrieval-index cycle as pure data: what one cycle scans, what it decides to
    re-embed, and the exact list of database writes it then issues. */
module RagIndexing {
  import opened Wrappers

  const EMBED_BATCH_SIZE := 50

  datatype Kind = Markdown | Context

  datatype Source = Source(kind: Kind, ref: string)

  /** A row's `updated_at`: whole second and fraction. */
  datatype Stamp = Stamp(sec: int, frac: nat) {
    predicate Before(other: Stamp) {
      sec < other.sec || (sec == other.sec && frac < other.frac)
    }
  }

  datatype ContextRow = ContextRow(text: string, stamp: Stamp)

  datatype FileRecord = FileRecord(text: string, mtime: int)

  type Vector = seq<real>

  /** A chunk row; it has no vector when a database call stopped between its two statements. */
  datatype IndexRow = IndexRow(source: Source, text: string, vector: Option<Vector>)

  /** The part of the database the cycle owns: chunk rows in insertion order (each with its
      vector), the `hash_<type>_<ref>` table, and the two `last_indexed_<type>` watermarks. */
  datatype Db = Db(rows: seq<IndexRow>, hashes: map<Source, string>, marks: map<Kind, int>)

  /** What the cycle calls but does not define: hash, chunker, embedding model, white space. */
  datatype Env = Env(
    hash: string -> string,
    chunks: string -> seq<string>,
    embed: string -> Vector,
    space: char -> bool)

  datatype Scanned = Scanned(source: Source, text: string, modTime: int, hash: string)

  datatype Entry = Entry(idx: nat, text: string)

  datatype Write =
    | Delete(source: Source)
    | Insert(row: IndexRow)
    | SetHash(source: Source, hash: string)
    | SetMark(kind: Kind, time: int)

  /** Everything a cycle has decided once its scan is over. `base` is the database at that point
      and `failing` the embedding batches that will fail. */
  datatype Plan = Plan(
    base: Db,
    disabled: bool,
    scanned: seq<Scanned>,
    fileMax: int,
    ctxMax: int,
    todo: seq<Scanned>,
    failing: set<nat>,
    ctxFirst: bool)

  // ---------------------------------------------------------------- scanning

  function MarkEpoch(db: Db, kind: Kind): int {
    if kind in db.marks then db.marks[kind] else 0
  }

  /** The textual comparison `updated_at <= last_ctx_watermark`. A stored watermark has no
      fraction; the default one ends in `Z`, which sorts after every fraction of second 0. */
  predicate AtOrBelow(stamp: Stamp, db: Db) {
    if Context in db.marks then
      stamp.sec < db.marks[Context] || (stamp.sec == db.marks[Context] && stamp.frac == 0)
    else
      stamp.sec <= 0
  }

  function ScanFile(env: Env, ref: string, f: FileRecord): Scanned {
    Scanned(Source(Markdown, ref), f.text, f.mtime, env.hash(f.text))
  }

  function ScanRow(env: Env, ref: string, r: ContextRow): Scanned {
    Scanned(Source(Context, ref), r.text, r.stamp.sec, env.hash(r.text))
  }

  function ScanFiles(env: Env, files: seq<(string, FileRecord)>): (ss: seq<Scanned>)
    ensures |ss| == |files|
    ensures forall j :: 0 <= j < |ss| ==> ss[j] == ScanFile(env, files[j].0, files[j].1)
  {
    seq(|files|, j requires 0 <= j < |files| => ScanFile(env, files[j].0, files[j].1))
  }

  function ScanContext(env: Env, db: Db, rows: seq<(string, ContextRow)>): seq<Scanned> {
    if rows == [] then []
    else
      var n := |rows| - 1;
      var rest := ScanContext(env, db, rows[..n]);
      if AtOrBelow(rows[n].1.stamp, db) then rest else rest + [ScanRow(env, rows[n].0, rows[n].1)]
  }

  function MaxTime(init: int, ss: seq<Scanned>): (m: int)
    ensures init <= m
    ensures forall s <- ss :: s.modTime <= m
    ensures m == init || exists s <- ss :: s.modTime == m
  {
    if ss == [] then init
    else
      var n := |ss| - 1;
      var m := MaxTime(init, ss[..n]);
      assert ss == ss[..n] + [ss[n]];
      if ss[n].modTime > m then ss[n].modTime else m
  }

  function Todo(db: Db, ss: seq<Scanned>): seq<Scanned> {
    if ss == [] then []
    else
      var n := |ss| - 1;
      var s := ss[n];
      if s.source in db.hashes && db.hashes[s.source] == s.hash then Todo(db, ss[..n])
      else Todo(db, ss[..n]) + [s]
  }

  function MakePlan(env: Env, base: Db, disabled: bool, files: seq<(string, FileRecord)>,
                    rows: seq<(string, ContextRow)>, failing: set<nat>, ctxFirst: bool): Plan {
    var md := if disabled then [] else ScanFiles(env, files);
    var ctx := ScanContext(env, base, rows);
    Plan(base, disabled, md + ctx,
         MaxTime(MarkEpoch(base, Markdown), md), MaxTime(MarkEpoch(base, Context), ctx),
         Todo(base, md + ctx), failing, ctxFirst)
  }

  // ---------------------------------------------------------------- chunks and batches

  predicate Blank(env: Env, s: string) {
    forall c <- s :: env.space(c)
  }

  function NonBlank(env: Env, cs: seq<string>): seq<string> {
    if cs == [] then []
    else
      var n := |cs| - 1;
      if Blank(env, cs[n]) then NonBlank(env, cs[..n]) else NonBlank(env, cs[..n]) + [cs[n]]
  }

  function Pieces(env: Env, text: string): seq<string> {
    NonBlank(env, env.chunks(text))
  }

  function Tag(idx: nat, cs: seq<string>): (es: seq<Entry>)
    ensures |es| == |cs|
    ensures forall j :: 0 <= j < |cs| ==> es[j] == Entry(idx, cs[j])
  {
    seq(|cs|, j requires 0 <= j < |cs| => Entry(idx, cs[j]))
  }

  /** The flat work list: every non-blank chunk of every source, in order. */
  function Entries(env: Env, todo: seq<Scanned>): (es: seq<Entry>)
    ensures forall e <- es :: e.idx < |todo|
  {
    if todo == [] then []
    else
      var n := |todo| - 1;
      Entries(env, todo[..n]) + Tag(n, Pieces(env, todo[n].text))
  }

  predicate Embedded(failing: set<nat>, j: nat) {
    j / EMBED_BATCH_SIZE !in failing
  }

  /** Whether the `m`th chunk of a source starting at position `first` was embedded. */
  predicate ChunkEmbedded(failing: set<nat>, first: nat, m: nat) {
    Embedded(failing, first + m)
  }

  predicate SourceFailed(entries: seq<Entry>, failing: set<nat>, i: nat) {
    exists j :: 0 <= j < |entries| && entries[j].idx == i && !Embedded(failing, j)
  }

  // ---------------------------------------------------------------- watermarks

  /** The minimum over the failed sources of one type; `None` stands for infinity. */
  function EarliestFailed(kind: Kind, failed: seq<(Kind, int)>): (t: Option<int>)
    ensures t.None? ==> forall f <- failed :: f.0 != kind
    ensures t.Some? ==> (kind, t.value) in failed
    ensures t.Some? ==> forall f <- failed :: f.0 == kind ==> t.value <= f.1
  {
    if failed == [] then None
    else
      var n := |failed| - 1;
      var rest := EarliestFailed(kind, failed[..n]);
      assert failed == failed[..n] + [failed[n]];
      if failed[n].0 != kind || (rest.Some? && rest.value <= failed[n].1) then rest
      else Some(failed[n].1)
  }

  function LatestBelow(kind: Kind, bound: int, init: int, refs: seq<(Kind, int)>): int {
    if refs == [] then init
    else
      var n := |refs| - 1;
      var rest := LatestBelow(kind, bound, init, refs[..n]);
      if refs[n].0 == kind && refs[n].1 < bound && refs[n].1 > rest then refs[n].1 else rest
  }

  function WatermarkAfterFailures(last: int, max: int, kind: Kind,
                                  failed: seq<(Kind, int)>, embedded: seq<(Kind, int)>): int {
    var earliest := EarliestFailed(kind, failed);
    if earliest.None? then max else LatestBelow(kind, earliest.value, last, embedded)
  }

  /** `(type, mod_time)` of the sources that failed (or did not), in order. */
  function Outcomes(todo: seq<Scanned>, entries: seq<Entry>, failing: set<nat>, failed: bool, k: nat)
    : (refs: seq<(Kind, int)>)
    requires k <= |todo|
  {
    if k == 0 then []
    else
      var rest := Outcomes(todo, entries, failing, failed, k - 1);
      if SourceFailed(entries, failing, k - 1) == failed
      then rest + [(todo[k - 1].source.kind, todo[k - 1].modTime)] else rest
  }

  function Capped(env: Env, plan: Plan, kind: Kind): int {
    var entries := Entries(env, plan.todo);
    WatermarkAfterFailures(
      MarkEpoch(plan.base, kind), if kind == Markdown then plan.fileMax else plan.ctxMax, kind,
      Outcomes(plan.todo, entries, plan.failing, true, |plan.todo|),
      Outcomes(plan.todo, entries, plan.failing, false, |plan.todo|))
  }

  // ---------------------------------------------------------------- the writes of one cycle

  function Deletes(todo: seq<Scanned>): (ws: seq<Write>)
    ensures |ws| == |todo|
    ensures forall i :: 0 <= i < |ws| ==> ws[i] == Delete(todo[i].source)
  {
    seq(|todo|, i requires 0 <= i < |todo| => Delete(todo[i].source))
  }

  function RowOf(env: Env, source: Source, text: string): IndexRow {
    IndexRow(source, text, Some(env.embed(text)))
  }

  function Inserts(env: Env, todo: seq<Scanned>, entries: seq<Entry>, failing: set<nat>, k: nat): seq<Write>
    requires k <= |entries|
    requires forall e <- entries :: e.idx < |todo|
  {
    if k == 0 then []
    else
      var rest := Inserts(env, todo, entries, failing, k - 1);
      var e := entries[k - 1];
      if Embedded(failing, k - 1) then rest + [Insert(RowOf(env, todo[e.idx].source, e.text))] else rest
  }

  function HashWrites(todo: seq<Scanned>, entries: seq<Entry>, failing: set<nat>, kind: Kind, k: nat): seq<Write>
    requires k <= |todo|
  {
    if k == 0 then []
    else
      var rest := HashWrites(todo, entries, failing, kind, k - 1);
      var s := todo[k - 1];
      if s.source.kind == kind && !SourceFailed(entries, failing, k - 1)
      then rest + [SetHash(s.source, s.hash)] else rest
  }

  function FirstKind(plan: Plan): Kind { if plan.ctxFirst then Context else Markdown }

  function SecondKind(plan: Plan): Kind { if plan.ctxFirst then Markdown else Context }

  function AllHashWrites(env: Env, plan: Plan): seq<Write> {
    var entries := Entries(env, plan.todo);
    var n := |plan.todo|;
    HashWrites(plan.todo, entries, plan.failing, FirstKind(plan), n)
    + HashWrites(plan.todo, entries, plan.failing, SecondKind(plan), n)
  }

  function RowWrites(env: Env, plan: Plan): seq<Write> {
    var entries := Entries(env, plan.todo);
    Deletes(plan.todo) + Inserts(env, plan.todo, entries, plan.failing, |entries|)
  }

  function MarkWrites(env: Env, plan: Plan): seq<Write> {
    (if plan.disabled then [] else [SetMark(Markdown, Capped(env, plan, Markdown))])
    + [SetMark(Context, Capped(env, plan, Context))]
  }

  /** Every database write of the cycle, in the order they are issued. */
  function Writes(env: Env, plan: Plan): seq<Write> {
    RowWrites(env, plan) + AllHashWrites(env, plan) + MarkWrites(env, plan)
  }

  // ---------------------------------------------------------------- effect of writes

  function Without(rows: seq<IndexRow>, s: Source): seq<IndexRow> {
    if rows == [] then []
    else
      var n := |rows| - 1;
      if rows[n].source == s then Without(rows[..n], s) else Without(rows[..n], s) + [rows[n]]
  }

  function RowsOf(rows: seq<IndexRow>, s: Source): seq<IndexRow> {
    if rows == [] then []
    else
      var n := |rows| - 1;
      if rows[n].source == s then RowsOf(rows[..n], s) + [rows[n]] else RowsOf(rows[..n], s)
  }

  function ApplyWrite(db: Db, w: Write): Db {
    match w
    case Delete(s) => db.(rows := Without(db.rows, s))
    case Insert(row) => db.(rows := db.rows + [row])
    case SetHash(s, h) => db.(hashes := db.hashes[s := h])
    case SetMark(kind, t) => db.(marks := db.marks[kind := t])
  }

  /** The rows of one source without their vectors. */
  function Bared(rows: seq<IndexRow>, s: Source): seq<IndexRow> {
    if rows == [] then []
    else
      var n := |rows| - 1;
      Bared(rows[..n], s) + [if rows[n].source == s then rows[n].(vector := None) else rows[n]]
  }

  /** What a call leaves that fails behind the first of its statements: a deletion takes the vectors
      first, an insertion puts the chunk first, the others have one statement only. */
  function ApplyHalf(db: Db, w: Write): Db {
    match w
    case Delete(s) => db.(rows := Bared(db.rows, s))
    case Insert(row) => db.(rows := db.rows + [row.(vector := None)])
    case _ => db
  }

  function ApplyAll(db: Db, ws: seq<Write>): Db {
    if ws == [] then db
    else ApplyWrite(ApplyAll(db, ws[..|ws| - 1]), ws[|ws| - 1])
  }

  // ---------------------------------------------------------------- reference results

  /** Position in the flat work list at which source `i` starts. */
  function Offset(env: Env, todo: seq<Scanned>, i: nat): nat
    requires i <= |todo|
  {
    if i == 0 then 0 else Offset(env, todo, i - 1) + |Pieces(env, todo[i - 1].text)|
  }

  /** What a fully embedded source has in the index. */
  function FullRows(env: Env, source: Source, text: string): (rows: seq<IndexRow>)
  {
    var cs := Pieces(env, text);
    seq(|cs|, j requires 0 <= j < |cs| => RowOf(env, source, cs[j]))
  }

  /** The chunks among `cs`, the first of which has position `first`, whose batch succeeded. */
  function SurvivingRows(env: Env, source: Source, cs: seq<string>, first: nat, failing: set<nat>): seq<IndexRow> {
    if cs == [] then []
    else
      var n := |cs| - 1;
      var rest := SurvivingRows(env, source, cs[..n], first, failing);
      if Embedded(failing, first + n) then rest + [RowOf(env, source, cs[n])] else rest
  }

  predicate DistinctSources(ss: seq<Scanned>) {
    forall i, j :: 0 <= i < j < |ss| ==> ss[i].source != ss[j].source
  }

  // ---------------------------------------------------------------- lemmas on rows

  lemma {:induction false} RowsOfAppend(a: seq<IndexRow>, b: seq<IndexRow>, s: Source)
    ensures RowsOf(a + b, s) == RowsOf(a, s) + RowsOf(b, s)
  {
    if b == [] {
      assert a + b == a;
    } else {
      var n := |b| - 1;
      assert (a + b)[..|a + b| - 1] == a + b[..n];
      RowsOfAppend(a, b[..n], s);
    }
  }

  lemma {:induction false} RowsOfWithout(rows: seq<IndexRow>, s: Source, t: Source)
    ensures RowsOf(Without(rows, s), t) == if s == t then [] else RowsOf(rows, t)
  {
    if rows != [] {
      var n := |rows| - 1;
      RowsOfWithout(rows[..n], s, t);
      RowsOfAppend(Without(rows[..n], s), [rows[n]], t);
      assert [rows[n]][..0] == [];
    }
  }

  /** A deletion that stops half-way leaves the source its chunks, in order, and none of their vectors. */
  lemma {:induction false} OwnRowsBared(rows: seq<IndexRow>, s: Source)
    ensures |RowsOf(Bared(rows, s), s)| == |RowsOf(rows, s)|
    ensures forall i :: 0 <= i < |RowsOf(rows, s)| ==>
              RowsOf(Bared(rows, s), s)[i] == IndexRow(s, RowsOf(rows, s)[i].text, None)
  {
    if rows != [] {
      var n := |rows| - 1;
      OwnRowsBared(rows[..n], s);
      var row := if rows[n].source == s then rows[n].(vector := None) else rows[n];
      RowsOfAppend(Bared(rows[..n], s), [row], s);
      assert [row][..0] == [];
    }
  }

  lemma {:induction false} RowsOfBared(rows: seq<IndexRow>, s: Source, t: Source)
    requires s != t
    ensures RowsOf(Bared(rows, s), t) == RowsOf(rows, t)
  {
    if rows != [] {
      var n := |rows| - 1;
      var row := if rows[n].source == s then rows[n].(vector := None) else rows[n];
      RowsOfBared(rows[..n], s, t);
      RowsOfAppend(Bared(rows[..n], s), [row], t);
      assert [row][..0] == [];
    }
  }

  lemma {:induction false} ApplyAllAppend(db: Db, a: seq<Write>, b: seq<Write>)
    ensures ApplyAll(db, a + b) == ApplyAll(ApplyAll(db, a), b)
  {
    if b == [] {
      assert a + b == a;
    } else {
      var n := |b| - 1;
      assert (a + b)[..|a + b| - 1] == a + b[..n];
      ApplyAllAppend(db, a, b[..n]);
    }
  }

  lemma {:induction false} DeletesEffect(db: Db, todo: seq<Scanned>, k: nat, s: Source)
    requires k <= |todo|
    ensures var d := ApplyAll(db, Deletes(todo)[..k]);
            && d.hashes == db.hashes && d.marks == db.marks
            && RowsOf(d.rows, s) ==
               if exists i :: 0 <= i < k && todo[i].source == s then [] else RowsOf(db.rows, s)
  {
    hide RowsOf, Without;
    if k > 0 {
      var ws := Deletes(todo)[..k];
      assert ws[..|ws| - 1] == Deletes(todo)[..k - 1];
      DeletesEffect(db, todo, k - 1, s);
      RowsOfWithout(ApplyAll(db, Deletes(todo)[..k - 1]).rows, todo[k - 1].source, s);
    }
  }

  // ---------------------------------------------------------------- what is processed, and in which order

  /** A source is processed exactly when its recorded hash is not the one of its text, one by one and in
      the order of the scan. */
  lemma TodoOne(db: Db, s: Scanned)
    ensures Todo(db, [s]) == if s.source in db.hashes && db.hashes[s.source] == s.hash then [] else [s]
    ensures Todo(db, []) == []
  {
    assert [s][..0] == [];
  }

  lemma {:induction false} TodoConcat(db: Db, a: seq<Scanned>, b: seq<Scanned>)
    ensures Todo(db, a + b) == Todo(db, a) + Todo(db, b)
  {
    if b == [] {
      assert a + b == a;
    } else {
      var n := |b| - 1;
      TodoConcat(db, a, b[..n]);
      assert (a + b)[..|a + b| - 1] == a + b[..n];
    }
  }

  /** A scan holds the files as they were read, in their order, unless they are switched off, and behind
      them the rows above the watermark in theirs. */
  lemma ScanOrder(env: Env, base: Db, disabled: bool, files: seq<(string, FileRecord)>,
                  rows: seq<(string, ContextRow)>, failing: set<nat>, ctxFirst: bool)
    ensures var plan := MakePlan(env, base, disabled, files, rows, failing, ctxFirst);
            var n := if disabled then 0 else |files|;
            && plan.todo == Todo(base, plan.scanned) && n <= |plan.scanned|
            && (forall i :: 0 <= i < n ==>
                  plan.scanned[i] == Scanned(Source(Markdown, files[i].0), files[i].1.text, files[i].1.mtime, env.hash(files[i].1.text)))
            && plan.scanned[n..] == ScanContext(env, base, rows)
  {
  }

  lemma ScanOne(env: Env, db: Db, ref: string, r: ContextRow)
    ensures ScanContext(env, db, [(ref, r)]) ==
            if AtOrBelow(r.stamp, db) then [] else [Scanned(Source(Context, ref), r.text, r.stamp.sec, env.hash(r.text))]
  {
    assert [(ref, r)][..0] == [];
  }

  lemma {:induction false} ScanConcat(env: Env, db: Db, a: seq<(string, ContextRow)>, b: seq<(string, ContextRow)>)
    ensures ScanContext(env, db, a + b) == ScanContext(env, db, a) + ScanContext(env, db, b)
  {
    hide AtOrBelow;
    if b == [] {
      assert a + b == a;
    } else {
      var n := |b| - 1;
      ScanConcat(env, db, a, b[..n]);
      assert (a + b)[..|a + b| - 1] == a + b[..n];
    }
  }

  // ---------------------------------------------------------------- what is embedded

  /** Batches hold fifty chunks each, in the order of the work list. */
  lemma BatchesOfFifty(failing: set<nat>, first: nat, m: nat)
    ensures ChunkEmbedded(failing, first, m) <==> (first + m) / 50 !in failing
  {
  }

  /** The pieces of a text are its chunks that hold a character other than white space, in order:
      chunk by chunk, each is kept or dropped on its own. */
  lemma NonBlankOne(env: Env, c: string)
    ensures NonBlank(env, [c]) == if exists i :: 0 <= i < |c| && !env.space(c[i]) then [c] else []
    ensures NonBlank(env, []) == []
  {
    assert [c][..0] == [];
    assert Blank(env, c) <==> forall i :: 0 <= i < |c| ==> env.space(c[i]);
  }

  lemma {:induction false} NonBlankConcat(env: Env, a: seq<string>, b: seq<string>)
    ensures NonBlank(env, a + b) == NonBlank(env, a) + NonBlank(env, b)
  {
    hide Blank;
    if b == [] {
      assert a + b == a;
    } else {
      var n := |b| - 1;
      NonBlankConcat(env, a, b[..n]);
      assert (a + b)[..|a + b| - 1] == a + b[..n];
    }
  }

  /** A whole source has one row for each of its pieces, in order, with the piece's own vector. */
  lemma FullRowsAre(env: Env, source: Source, text: string)
    ensures |FullRows(env, source, text)| == |NonBlank(env, env.chunks(text))|
    ensures forall j :: 0 <= j < |FullRows(env, source, text)| ==>
              var c := NonBlank(env, env.chunks(text))[j];
              FullRows(env, source, text)[j] == IndexRow(source, c, Some(env.embed(c)))
  {
  }

  // ---------------------------------------------------------------- lemmas on the work list

  lemma {:induction false} EntriesPrefix(env: Env, todo: seq<Scanned>, i: nat)
    requires i <= |todo|
    ensures |Entries(env, todo[..i])| == Offset(env, todo, i) <= |Entries(env, todo)|
    ensures Entries(env, todo)[..Offset(env, todo, i)] == Entries(env, todo[..i])
    decreases |todo| - i, i
  {
    if i == |todo| {
      assert todo[..i] == todo;
      EntriesLength(env, todo, i);
    } else {
      EntriesPrefix(env, todo, i + 1);
      EntriesLength(env, todo, i);
      assert todo[..i + 1][..i] == todo[..i];
      assert Entries(env, todo[..i + 1]) == Entries(env, todo[..i]) + Tag(i, Pieces(env, todo[i].text));
    }
  }

  lemma {:induction false} EntriesLength(env: Env, todo: seq<Scanned>, i: nat)
    requires i <= |todo|
    ensures |Entries(env, todo[..i])| == Offset(env, todo, i)
  {
    if i > 0 {
      EntriesLength(env, todo, i - 1);
      assert todo[..i][..i - 1] == todo[..i - 1];
    }
  }

  lemma {:induction false} EntryAt(env: Env, todo: seq<Scanned>, i: nat, m: nat)
    requires i < |todo| && m < |Pieces(env, todo[i].text)|
    ensures Offset(env, todo, i) + m < |Entries(env, todo)|
    ensures Entries(env, todo)[Offset(env, todo, i) + m] == Entry(i, Pieces(env, todo[i].text)[m])
  {
    EntriesPrefix(env, todo, i);
    EntriesPrefix(env, todo, i + 1);
    assert todo[..i + 1][..i] == todo[..i];
    var p := Offset(env, todo, i) + m;
    assert Entries(env, todo)[p] == Entries(env, todo)[..Offset(env, todo, i + 1)][p];
  }

  lemma {:induction false} EntryOwner(env: Env, todo: seq<Scanned>, p: nat)
    requires p < |Entries(env, todo)|
    ensures var i := Entries(env, todo)[p].idx;
            Offset(env, todo, i) <= p < Offset(env, todo, i) + |Pieces(env, todo[i].text)|
  {
    var n := |todo| - 1;
    EntriesPrefix(env, todo, n);
    EntriesLength(env, todo, n);
    if p < Offset(env, todo, n) {
      EntryOwner(env, todo[..n], p);
      OffsetPrefix(env, todo, n, Entries(env, todo)[p].idx);
    }
  }

  lemma {:induction false} OffsetPrefix(env: Env, todo: seq<Scanned>, n: nat, i: nat)
    requires i <= n <= |todo|
    ensures Offset(env, todo[..n], i) == Offset(env, todo, i)
  {
    if i > 0 {
      OffsetPrefix(env, todo, n, i - 1);
    }
  }

  /** A source fails exactly when one of its own chunks lies in a failing batch, wherever the
      batches of 50 happen to cut the sources. */
  lemma {:induction false} SourceFailedIff(env: Env, todo: seq<Scanned>, failing: set<nat>, i: nat)
    requires i < |todo|
    ensures SourceFailed(Entries(env, todo), failing, i) <==>
            exists m :: 0 <= m < |Pieces(env, todo[i].text)|
                        && !ChunkEmbedded(failing, Offset(env, todo, i), m)
  {
    hide Entries, Pieces, Offset;
    var entries := Entries(env, todo);
    if SourceFailed(entries, failing, i) {
      var j :| 0 <= j < |entries| && entries[j].idx == i && !Embedded(failing, j);
      EntryOwner(env, todo, j);
      var m := j - Offset(env, todo, i);
      assert !ChunkEmbedded(failing, Offset(env, todo, i), m);
    }
    if m :| 0 <= m < |Pieces(env, todo[i].text)| && !ChunkEmbedded(failing, Offset(env, todo, i), m) {
      EntryAt(env, todo, i, m);
      assert !Embedded(failing, Offset(env, todo, i) + m);
    }
  }

  function InsertedRows(env: Env, todo: seq<Scanned>, entries: seq<Entry>, failing: set<nat>, k: nat): seq<IndexRow>
    requires k <= |entries|
    requires forall e <- entries :: e.idx < |todo|
  {
    if k == 0 then []
    else
      var rest := InsertedRows(env, todo, entries, failing, k - 1);
      var e := entries[k - 1];
      if Embedded(failing, k - 1) then rest + [RowOf(env, todo[e.idx].source, e.text)] else rest
  }

  lemma {:induction false} InsertsEffect(env: Env, db: Db, todo: seq<Scanned>, entries: seq<Entry>, failing: set<nat>, k: nat)
    requires k <= |entries|
    requires forall e <- entries :: e.idx < |todo|
    ensures ApplyAll(db, Inserts(env, todo, entries, failing, k)) ==
            db.(rows := db.rows + InsertedRows(env, todo, entries, failing, k))
  {
    if k > 0 {
      InsertsEffect(env, db, todo, entries, failing, k - 1);
      var ws := Inserts(env, todo, entries, failing, k);
      if Embedded(failing, k - 1) {
        assert ws[..|ws| - 1] == Inserts(env, todo, entries, failing, k - 1);
      }
    } else {
      assert db.rows + [] == db.rows;
    }
  }

  /** The rows inserted for the first `m` chunks of source `t` follow those of earlier sources. */
  lemma {:induction false} InsertedSegment(env: Env, todo: seq<Scanned>, entries: seq<Entry>, failing: set<nat>,
                                           t: nat, cs: seq<string>, first: nat)
    requires t < |todo| && first + |cs| <= |entries|
    requires forall e <- entries :: e.idx < |todo|
    requires forall m :: 0 <= m < |cs| ==> entries[first + m] == Entry(t, cs[m])
    ensures InsertedRows(env, todo, entries, failing, first + |cs|) ==
            InsertedRows(env, todo, entries, failing, first)
            + SurvivingRows(env, todo[t].source, cs, first, failing)
  {
    if cs != [] {
      var n := |cs| - 1;
      InsertedSegment(env, todo, entries, failing, t, cs[..n], first);
      assert entries[first + n] == Entry(t, cs[n]);
    }
  }

  lemma {:induction false} RowsOfSurviving(env: Env, source: Source, cs: seq<string>, first: nat, failing: set<nat>, s: Source)
    ensures var rows := SurvivingRows(env, source, cs, first, failing);
            RowsOf(rows, s) == if s == source then rows else []
  {
    if cs != [] {
      var n := |cs| - 1;
      RowsOfSurviving(env, source, cs[..n], first, failing, s);
      RowsOfAppend(SurvivingRows(env, source, cs[..n], first, failing), [RowOf(env, source, cs[n])], s);
    }
  }

  lemma InsertedRowsStep(env: Env, todo: seq<Scanned>, failing: set<nat>, t: nat)
    requires t < |todo|
    ensures Offset(env, todo, t) <= Offset(env, todo, t + 1) <= |Entries(env, todo)|
    ensures InsertedRows(env, todo, Entries(env, todo), failing, Offset(env, todo, t + 1)) ==
            InsertedRows(env, todo, Entries(env, todo), failing, Offset(env, todo, t))
            + SurvivingRows(env, todo[t].source, Pieces(env, todo[t].text), Offset(env, todo, t), failing)
  {
    hide Entries, Pieces, InsertedRows, SurvivingRows;
    EntriesPrefix(env, todo, t + 1);
    var cs := Pieces(env, todo[t].text);
    var first := Offset(env, todo, t);
    forall m | 0 <= m < |cs| ensures Entries(env, todo)[first + m] == Entry(t, cs[m]) {
      EntryAt(env, todo, t, m);
    }
    InsertedSegment(env, todo, Entries(env, todo), failing, t, cs, first);
  }

  lemma NoRows(s: Source)
    ensures RowsOf([], s) == []
  {
  }

  lemma {:induction false} InsertedRowsOfSource(env: Env, todo: seq<Scanned>, entries: seq<Entry>, failing: set<nat>, i: nat, t: nat)
    requires DistinctSources(todo)
    requires i < |todo| && t <= |todo|
    requires entries == Entries(env, todo)
    ensures Offset(env, todo, t) <= |entries|
    ensures RowsOf(InsertedRows(env, todo, entries, failing, Offset(env, todo, t)), todo[i].source) ==
            if i < t then SurvivingRows(env, todo[i].source, Pieces(env, todo[i].text), Offset(env, todo, i), failing) else []
  {
    hide Entries, Pieces, RowsOf, SurvivingRows;
    NoRows(todo[i].source);
    if t > 0 {
      var r := todo[t - 1].source;
      InsertedRowsOfSource(env, todo, entries, failing, i, t - 1);
      InsertedRowsStep(env, todo, failing, t - 1);
      var first := Offset(env, todo, t - 1);
      var more := SurvivingRows(env, r, Pieces(env, todo[t - 1].text), first, failing);
      RowsOfAppend(InsertedRows(env, todo, entries, failing, first), more, todo[i].source);
      RowsOfSurviving(env, r, Pieces(env, todo[t - 1].text), first, failing, todo[i].source);
    } else {
      EntriesPrefix(env, todo, 0);
    }
  }

  lemma {:induction false} InsertedRowsElsewhere(env: Env, todo: seq<Scanned>, entries: seq<Entry>, failing: set<nat>, k: nat, s: Source)
    requires k <= |entries|
    requires forall e <- entries :: e.idx < |todo|
    requires forall x <- todo :: x.source != s
    ensures RowsOf(InsertedRows(env, todo, entries, failing, k), s) == []
  {
    if k > 0 {
      InsertedRowsElsewhere(env, todo, entries, failing, k - 1, s);
    }
  }

  lemma {:induction false} SurvivingIsFull(env: Env, source: Source, cs: seq<string>, first: nat, failing: set<nat>)
    requires forall m :: 0 <= m < |cs| ==> ChunkEmbedded(failing, first, m)
    ensures SurvivingRows(env, source, cs, first, failing) ==
            seq(|cs|, j requires 0 <= j < |cs| => RowOf(env, source, cs[j]))
  {
    if cs != [] {
      SurvivingIsFull(env, source, cs[..|cs| - 1], first, failing);
      assert ChunkEmbedded(failing, first, |cs| - 1);
    }
  }

  // ---------------------------------------------------------------- lemmas on hashes and marks

  predicate HashOnly(ws: seq<Write>) {
    forall w <- ws :: w.SetHash?
  }

  predicate RowOnly(ws: seq<Write>) {
    forall w <- ws :: w.Delete? || w.Insert?
  }

  lemma {:induction false} RowWritesAreRowOnly(env: Env, todo: seq<Scanned>, entries: seq<Entry>, failing: set<nat>, k: nat)
    requires k <= |entries|
    requires forall e <- entries :: e.idx < |todo|
    ensures RowOnly(Inserts(env, todo, entries, failing, k))
  {
    if k > 0 {
      RowWritesAreRowOnly(env, todo, entries, failing, k - 1);
    }
  }

  lemma {:induction false} RowOnlyFrame(db: Db, ws: seq<Write>)
    requires RowOnly(ws)
    ensures ApplyAll(db, ws).hashes == db.hashes && ApplyAll(db, ws).marks == db.marks
  {
    if ws != [] {
      RowOnlyFrame(db, ws[..|ws| - 1]);
    }
  }

  lemma {:induction false} HashOnlyFrame(db: Db, ws: seq<Write>)
    requires HashOnly(ws)
    ensures ApplyAll(db, ws).rows == db.rows && ApplyAll(db, ws).marks == db.marks
  {
    if ws != [] {
      HashOnlyFrame(db, ws[..|ws| - 1]);
      assert ws[|ws| - 1] in ws;
    }
  }

  /** Which source and hash a hash write may carry. */
  ghost predicate ForSource(w: Write, todo: seq<Scanned>, entries: seq<Entry>, failing: set<nat>, i: nat) {
    i < |todo| && w == SetHash(todo[i].source, todo[i].hash) && !SourceFailed(entries, failing, i)
  }

  ghost predicate Justified(w: Write, todo: seq<Scanned>, entries: seq<Entry>, failing: set<nat>) {
    exists i: nat :: ForSource(w, todo, entries, failing, i)
  }

  lemma {:induction false} HashWritesMembers(todo: seq<Scanned>, entries: seq<Entry>, failing: set<nat>, kind: Kind, k: nat)
    requires k <= |todo|
    ensures HashOnly(HashWrites(todo, entries, failing, kind, k))
    ensures forall w <- HashWrites(todo, entries, failing, kind, k) :: Justified(w, todo, entries, failing)
    ensures forall i: nat {:trigger todo[i]} :: i < k && todo[i].source.kind == kind && !SourceFailed(entries, failing, i) ==>
              SetHash(todo[i].source, todo[i].hash) in HashWrites(todo, entries, failing, kind, k)
  {
    if k > 0 {
      HashWritesMembers(todo, entries, failing, kind, k - 1);
      if todo[k - 1].source.kind == kind && !SourceFailed(entries, failing, k - 1) {
        assert ForSource(SetHash(todo[k - 1].source, todo[k - 1].hash), todo, entries, failing, k - 1);
      }
    }
  }

  /** Hash writes that agree with each other set exactly the hashes they name. */
  lemma {:induction false} HashEffect(db: Db, ws: seq<Write>, s: Source)
    requires HashOnly(ws)
    ensures (forall w <- ws :: w.source != s) ==>
              (s in ApplyAll(db, ws).hashes <==> s in db.hashes)
              && (s in db.hashes ==> ApplyAll(db, ws).hashes[s] == db.hashes[s])
    ensures (exists w <- ws :: w.source == s) ==>
              s in ApplyAll(db, ws).hashes && SetHash(s, ApplyAll(db, ws).hashes[s]) in ws
  {
    if ws != [] {
      var n := |ws| - 1;
      HashEffect(db, ws[..n], s);
      assert ws == ws[..n] + [ws[n]];
    }
  }

  lemma AllHashWritesMembers(env: Env, plan: Plan)
    ensures HashOnly(AllHashWrites(env, plan))
    ensures forall w <- AllHashWrites(env, plan) :: Justified(w, plan.todo, Entries(env, plan.todo), plan.failing)
    ensures forall i: nat {:trigger plan.todo[i]} :: i < |plan.todo| && !SourceFailed(Entries(env, plan.todo), plan.failing, i) ==>
              SetHash(plan.todo[i].source, plan.todo[i].hash) in AllHashWrites(env, plan)
  {
    var entries := Entries(env, plan.todo);
    HashWritesMembers(plan.todo, entries, plan.failing, FirstKind(plan), |plan.todo|);
    HashWritesMembers(plan.todo, entries, plan.failing, SecondKind(plan), |plan.todo|);
    forall i: nat | i < |plan.todo| && !SourceFailed(entries, plan.failing, i)
      ensures SetHash(plan.todo[i].source, plan.todo[i].hash) in AllHashWrites(env, plan)
    {
      assert plan.todo[i].source.kind == FirstKind(plan) || plan.todo[i].source.kind == SecondKind(plan);
    }
  }

  // ---------------------------------------------------------------- a completed cycle

  lemma RowWritesAll(env: Env, plan: Plan)
    ensures RowOnly(RowWrites(env, plan))
    ensures |Writes(env, plan)| == |RowWrites(env, plan)| + |AllHashWrites(env, plan)| + |MarkWrites(env, plan)|
  {
    var entries := Entries(env, plan.todo);
    RowWritesAreRowOnly(env, plan.todo, entries, plan.failing, |entries|);
  }

  /** The state once the row writes are done, and what the later writes leave of it. */
  lemma FinalParts(env: Env, plan: Plan)
    ensures var mid := ApplyAll(plan.base, RowWrites(env, plan));
            var hashed := ApplyAll(mid, AllHashWrites(env, plan));
            var end := ApplyAll(plan.base, Writes(env, plan));
            && mid.hashes == plan.base.hashes && mid.marks == plan.base.marks
            && hashed.rows == mid.rows && hashed.marks == plan.base.marks
            && hashed == ApplyAll(plan.base, RowWrites(env, plan) + AllHashWrites(env, plan))
            && end == ApplyAll(hashed, MarkWrites(env, plan))
            && end.rows == mid.rows && end.hashes == hashed.hashes
            && end.marks ==
               (if plan.disabled then plan.base.marks else plan.base.marks[Markdown := Capped(env, plan, Markdown)])
               [Context := Capped(env, plan, Context)]
  {
    RowWritesAll(env, plan);
    RowOnlyFrame(plan.base, RowWrites(env, plan));
    AllHashWritesMembers(env, plan);
    var mid := ApplyAll(plan.base, RowWrites(env, plan));
    HashOnlyFrame(mid, AllHashWrites(env, plan));
    ApplyAllAppend(plan.base, RowWrites(env, plan), AllHashWrites(env, plan));
    ApplyAllAppend(plan.base, RowWrites(env, plan) + AllHashWrites(env, plan), MarkWrites(env, plan));
    var hashed := ApplyAll(mid, AllHashWrites(env, plan));
    var c := SetMark(Context, Capped(env, plan, Context));
    if plan.disabled {
      assert MarkWrites(env, plan) == [c];
      assert ApplyAll(hashed, [c]) == ApplyWrite(hashed, c) by { assert [c][..0] == []; }
    } else {
      var m := SetMark(Markdown, Capped(env, plan, Markdown));
      assert MarkWrites(env, plan)[..1] == [m];
      assert [m][..0] == [];
      assert ApplyAll(hashed, [m]) == ApplyWrite(hashed, m);
    }
  }

  lemma RowsAfterCycle(env: Env, plan: Plan, s: Source)
    ensures var entries := Entries(env, plan.todo);
            RowsOf(ApplyAll(plan.base, Writes(env, plan)).rows, s) ==
            (if exists i :: 0 <= i < |plan.todo| && plan.todo[i].source == s then [] else RowsOf(plan.base.rows, s))
            + RowsOf(InsertedRows(env, plan.todo, entries, plan.failing, |entries|), s)
  {
    FinalParts(env, plan);
    var entries := Entries(env, plan.todo);
    var dels := Deletes(plan.todo);
    var d := ApplyAll(plan.base, dels);
    assert dels[..|plan.todo|] == dels;
    DeletesEffect(plan.base, plan.todo, |plan.todo|, s);
    ApplyAllAppend(plan.base, dels, Inserts(env, plan.todo, entries, plan.failing, |entries|));
    InsertsEffect(env, d, plan.todo, entries, plan.failing, |entries|);
    RowsOfAppend(d.rows, InsertedRows(env, plan.todo, entries, plan.failing, |entries|), s);
  }

  ghost predicate SameHash(a: Db, b: Db, s: Source) {
    (s in a.hashes <==> s in b.hashes) && (s in a.hashes ==> a.hashes[s] == b.hashes[s])
  }

  lemma UniqueHash(env: Env, plan: Plan, s: Source, i: nat)
    requires DistinctSources(plan.todo)
    requires i < |plan.todo| && plan.todo[i].source == s
    ensures forall h :: SetHash(s, h) in AllHashWrites(env, plan) ==> h == plan.todo[i].hash
  {
    AllHashWritesMembers(env, plan);
    forall h | SetHash(s, h) in AllHashWrites(env, plan) ensures h == plan.todo[i].hash {
      var j: nat :| ForSource(SetHash(s, h), plan.todo, Entries(env, plan.todo), plan.failing, j);
      assert j == i;
    }
  }

  lemma ProcessedRows(env: Env, plan: Plan, i: nat)
    requires DistinctSources(plan.todo)
    requires i < |plan.todo|
    ensures RowsOf(ApplyAll(plan.base, Writes(env, plan)).rows, plan.todo[i].source) ==
            SurvivingRows(env, plan.todo[i].source, Pieces(env, plan.todo[i].text), Offset(env, plan.todo, i), plan.failing)
  {
    RowsAfterCycle(env, plan, plan.todo[i].source);
    EntriesPrefix(env, plan.todo, |plan.todo|);
    assert plan.todo[..|plan.todo|] == plan.todo;
    InsertedRowsOfSource(env, plan.todo, Entries(env, plan.todo), plan.failing, i, |plan.todo|);
  }

  lemma ProcessedHash(env: Env, plan: Plan, i: nat)
    requires DistinctSources(plan.todo)
    requires i < |plan.todo|
    ensures var s := plan.todo[i];
            var end := ApplyAll(plan.base, Writes(env, plan));
            if SourceFailed(Entries(env, plan.todo), plan.failing, i) then SameHash(end, plan.base, s.source)
            else s.source in end.hashes && end.hashes[s.source] == s.hash
  {
    var s := plan.todo[i];
    FinalParts(env, plan);
    AllHashWritesMembers(env, plan);
    HashEffect(ApplyAll(plan.base, RowWrites(env, plan)), AllHashWrites(env, plan), s.source);
    if SourceFailed(Entries(env, plan.todo), plan.failing, i) {
      forall w <- AllHashWrites(env, plan) ensures w.source != s.source {
        var j: nat :| ForSource(w, plan.todo, Entries(env, plan.todo), plan.failing, j);
      }
    } else {
      assert SetHash(s.source, s.hash) in AllHashWrites(env, plan);
      UniqueHash(env, plan, s.source, i);
    }
  }

  /** After a completed cycle each re-processed source has exactly the chunks whose batch
      succeeded, in order. If none of its batches failed that is all of them and its new hash is
      recorded; otherwise its old hash stands. */
  lemma ProcessedSource(env: Env, plan: Plan, i: nat)
    requires DistinctSources(plan.todo)
    requires i < |plan.todo|
    ensures var s := plan.todo[i];
            var end := ApplyAll(plan.base, Writes(env, plan));
            var first := Offset(env, plan.todo, i);
            var cs := Pieces(env, s.text);
            && RowsOf(end.rows, s.source) == SurvivingRows(env, s.source, cs, first, plan.failing)
            && (if (forall m :: 0 <= m < |cs| ==> ChunkEmbedded(plan.failing, first, m))
                then RowsOf(end.rows, s.source) == FullRows(env, s.source, s.text)
                     && s.source in end.hashes && end.hashes[s.source] == s.hash
                else SameHash(end, plan.base, s.source))
  {
    ProcessedRows(env, plan, i);
    ProcessedHash(env, plan, i);
    SourceFailedIff(env, plan.todo, plan.failing, i);
    var cs := Pieces(env, plan.todo[i].text);
    var first := Offset(env, plan.todo, i);
    if forall m :: 0 <= m < |cs| ==> ChunkEmbedded(plan.failing, first, m) {
      SurvivingIsFull(env, plan.todo[i].source, cs, first, plan.failing);
    }
  }

  /** A completed cycle leaves every source it did not re-process exactly as it was. */
  lemma UntouchedSource(env: Env, plan: Plan, s: Source)
    requires forall x <- plan.todo :: x.source != s
    ensures var end := ApplyAll(plan.base, Writes(env, plan));
            RowsOf(end.rows, s) == RowsOf(plan.base.rows, s) && SameHash(end, plan.base, s)
  {
    var entries := Entries(env, plan.todo);
    RowsAfterCycle(env, plan, s);
    InsertedRowsElsewhere(env, plan.todo, entries, plan.failing, |entries|, s);
    FinalParts(env, plan);
    AllHashWritesMembers(env, plan);
    forall w <- AllHashWrites(env, plan) ensures w.source != s {
      var j: nat :| ForSource(w, plan.todo, entries, plan.failing, j);
    }
    HashEffect(ApplyAll(plan.base, RowWrites(env, plan)), AllHashWrites(env, plan), s);
  }
}
