/** Mirroring the registry file of running sessions into the session table, sweep by sweep. */
module Registry {
  import opened Wrappers

  /** A session as the registry file describes it; `text` is the whole entry. */
  datatype Data = Data(pid: int, parentPid: int, workingDirectory: Option<string>, lastActivity: Option<string>, text: string)

  datatype Status = Detected | Active | Inactive

  datatype Row = Row(pid: int, parentPid: int, firstDetected: string, lastActivity: string, workingDirectory: Option<string>, status: Status, metadata: string)

  /** What a sweep finds: no file, or one with this modification time that does not read, does not
      parse, or lists sessions. */
  datatype File = Missing | Broken(mtime: nat) | Listing(mtime: nat, sessions: map<string, Data>)

  /** One sweep: the file, the time, and which writes about a session succeed. */
  datatype Sweep = Sweep(file: File, now: string, ok: string -> bool, auditOk: string -> bool)

  datatype State = State(lastModified: Option<nat>, known: map<string, Data>, rows: map<string, Row>, audits: multiset<string>)

  const Empty := State(None, map[], map[], multiset{})

  function Lookup<T>(m: map<string, T>, id: string): Option<T> {
    if id in m then Some(m[id]) else None
  }

  /** The file is looked into only when it is newer than the last one looked into. */
  predicate Stale(s: State, f: File) {
    f.Missing? || (s.lastModified.Some? && f.mtime <= s.lastModified.value)
  }

  function NewRow(d: Data, now: string): Row {
    Row(d.pid, d.parentPid, now, if d.lastActivity.Some? then d.lastActivity.value else now, d.workingDirectory, Detected, d.text)
  }

  /** A session's row after the sweep. */
  function RowAfter(s: State, w: Sweep, id: string): Option<Row>
    requires w.file.Listing?
  {
    var row := Lookup(s.rows, id);
    if id in w.file.sessions then
      var d := w.file.sessions[id];
      if id !in s.known then if w.ok(id) then Some(NewRow(d, w.now)) else row
      else if w.ok(id) && row.Some? then
        Some(row.value.(lastActivity := if d.lastActivity.Some? then d.lastActivity.value else w.now, metadata := d.text, status := Active))
      else row
    else if id in s.known && w.ok(id) && row.Some? then Some(row.value.(status := Inactive, lastActivity := w.now))
    else row
  }

  /** The sessions a sweep records as newly detected. */
  function Audited(s: State, w: Sweep): set<string>
    requires w.file.Listing?
  {
    set id | id in w.file.sessions && id !in s.known && w.ok(id) && w.auditOk(id)
  }

  function Swept(s: State, w: Sweep): State {
    if Stale(s, w.file) then s
    else if w.file.Broken? then s.(lastModified := Some(w.file.mtime))
    else
      State(Some(w.file.mtime), w.file.sessions,
            map id | id in s.rows.Keys + w.file.sessions.Keys && RowAfter(s, w, id).Some? :: RowAfter(s, w, id).value,
            s.audits + multiset(Audited(s, w)))
  }

  // ---------------------------------------------------------------- as it runs

  class Monitor {
    var lastModified: Option<nat>
    var known: map<string, Data>
    var rows: map<string, Row>
    var audits: multiset<string>

    constructor ()
      ensures Contents() == Empty
    {
      lastModified, known, rows, audits := None, map[], map[], multiset{};
    }

    ghost function Contents(): State
      reads this
    {
      State(lastModified, known, rows, audits)
    }

    method RegisterOrUpdate(id: string, d: Data, w: Sweep)
      requires w.file.Listing? && id in w.file.sessions && w.file.sessions[id] == d
      modifies this`rows, this`audits
      ensures forall j :: Lookup(rows, j) == if j == id then RowAfter(old(Contents()), w, id) else Lookup(old(rows), j)
      ensures audits == old(audits) + if id in Audited(old(Contents()), w) then multiset{id} else multiset{}
    {
      if id in known {
        if w.ok(id) && id in rows {
          rows := rows[id := rows[id].(lastActivity := if d.lastActivity.Some? then d.lastActivity.value else w.now, metadata := d.text, status := Active)];
        }
      } else if w.ok(id) {
        rows := rows[id := NewRow(d, w.now)];
        if w.auditOk(id) {
          audits := audits + multiset{id};
        }
      }
    }

    method MarkInactive(id: string, w: Sweep)
      requires w.file.Listing? && id in known && id !in w.file.sessions
      modifies this`rows
      ensures forall j :: Lookup(rows, j) == if j == id then RowAfter(old(Contents()), w, id) else Lookup(old(rows), j)
    {
      if w.ok(id) && id in rows {
        rows := rows[id := rows[id].(status := Inactive, lastActivity := w.now)];
      }
    }

    method SyncOne(id: string, w: Sweep, ghost s: State, ghost done: set<string>)
      requires w.file.Listing? && id in w.file.sessions && id !in done
      requires known == s.known && Synced(rows, audits, s, w, done)
      modifies this`rows, this`audits
      ensures Synced(rows, audits, s, w, done + {id})
    {
      hide RowAfter, Audited, RowsDone, Lookup;
      ghost var t := Contents();
      RegisterOrUpdate(id, w.file.sessions[id], w);
      OneMoreDone(rows, t, s, w, done, id);
      AuditStep(s.audits, Audited(s, w), done, id);
    }

    method SyncListed(listed: set<string>, w: Sweep, ghost s: State)
      requires w.file.Listing? && s == Contents() && listed == w.file.sessions.Keys
      modifies this`rows, this`audits
      ensures Synced(rows, audits, s, w, listed)
    {
      ghost var gone: set<string> := {};
      var left := listed;
      NoneSynced(s, w);
      hide Synced;
      while left != {}
        invariant left == listed - gone && gone <= listed
        invariant Synced(rows, audits, s, w, gone)
      {
        var id :| id in left;
        SyncOne(id, w, s, gone);
        gone := gone + {id};
        left := left - {id};
      }
      assert gone == listed;
    }

    method MarkStale(stale: set<string>, w: Sweep, ghost s: State)
      requires w.file.Listing? && known == s.known && stale == known.Keys - w.file.sessions.Keys
      requires RowsDone(rows, s, w, w.file.sessions.Keys)
      modifies this`rows
      ensures RowsDone(rows, s, w, w.file.sessions.Keys + stale)
    {
      ghost var gone: set<string> := {};
      var left := stale;
      assert w.file.sessions.Keys + gone == w.file.sessions.Keys;
      hide RowAfter;
      while left != {}
        invariant left == stale - gone && gone <= stale
        invariant RowsDone(rows, s, w, w.file.sessions.Keys + gone)
      {
        var id :| id in left;
        RowAfterLocal(s, Contents(), w, id);
        MarkInactive(id, w);
        gone := gone + {id};
        left := left - {id};
      }
      assert gone == stale;
    }

    method CheckRegistryChanges(w: Sweep)
      modifies this
      ensures Contents() == Swept(old(Contents()), w)
    {
      if w.file.Missing? || (lastModified.Some? && w.file.mtime <= lastModified.value) {
        return;
      }
      ghost var s := Contents();
      lastModified := Some(w.file.mtime);
      if w.file.Broken? {
        return;
      }
      var stale := known.Keys - w.file.sessions.Keys;
      ghost var t := Contents();
      hide RowAfter, Audited, Swept, Synced;
      SyncListed(w.file.sessions.Keys, w, t);
      AllSynced(rows, audits, t, w);
      MarkStale(stale, w, t);
      known := w.file.sessions;
      SameAfterStamp(s, t, w);
      AllRowsDone(rows, t, w);
      SweptParts(s, w);
      SameRows(rows, s, w);
    }
  }

  /** The rows are those after the sweep for the sessions done, those before it for the others. */
  ghost predicate RowsDone(rows: map<string, Row>, s: State, w: Sweep, done: set<string>)
    requires w.file.Listing?
  {
    forall j :: Lookup(rows, j) == if j in done then RowAfter(s, w, j) else Lookup(s.rows, j)
  }

  /** A row after the sweep depends on the row before it and on what was known. */
  lemma RowAfterLocal(s: State, t: State, w: Sweep, id: string)
    requires w.file.Listing? && t.known == s.known && Lookup(t.rows, id) == Lookup(s.rows, id)
    ensures RowAfter(t, w, id) == RowAfter(s, w, id)
    ensures id in Audited(t, w) <==> id in Audited(s, w)
  {
  }

  /** The rows and the audits are those of a sweep that has come as far as `done`. */
  ghost predicate Synced(rows: map<string, Row>, audits: multiset<string>, s: State, w: Sweep, done: set<string>)
    requires w.file.Listing?
  {
    RowsDone(rows, s, w, done) && audits == s.audits + multiset(Audited(s, w) * done)
  }

  lemma NoneSynced(s: State, w: Sweep)
    requires w.file.Listing?
    ensures Synced(s.rows, s.audits, s, w, {})
  {
    assert Audited(s, w) * {} == {};
  }

  lemma OneMoreDone(rows: map<string, Row>, t: State, s: State, w: Sweep, done: set<string>, id: string)
    requires w.file.Listing? && id !in done && t.known == s.known && RowsDone(t.rows, s, w, done)
    requires forall j :: Lookup(rows, j) == if j == id then RowAfter(t, w, id) else Lookup(t.rows, j)
    ensures RowsDone(rows, s, w, done + {id})
    ensures id in Audited(t, w) <==> id in Audited(s, w)
  {
    RowAfterLocal(s, t, w, id);
    hide RowAfter, Lookup;
  }

  lemma AuditStep(base: multiset<string>, audited: set<string>, done: set<string>, id: string)
    requires id !in done
    ensures base + multiset(audited * (done + {id}))
         == base + multiset(audited * done) + if id in audited then multiset{id} else multiset{}
  {
    var now, next := multiset(audited * done), multiset(audited * (done + {id}));
    assert next == now + if id in audited then multiset{id} else multiset{};
  }

  lemma AllSynced(rows: map<string, Row>, audits: multiset<string>, s: State, w: Sweep)
    requires w.file.Listing? && Synced(rows, audits, s, w, w.file.sessions.Keys)
    ensures RowsDone(rows, s, w, w.file.sessions.Keys) && audits == s.audits + multiset(Audited(s, w))
  {
    assert Audited(s, w) * w.file.sessions.Keys == Audited(s, w);
    hide RowsDone;
  }

  lemma SameAfterStamp(s: State, t: State, w: Sweep)
    requires w.file.Listing? && t == s.(lastModified := t.lastModified)
    ensures Audited(t, w) == Audited(s, w) && forall id :: RowAfter(t, w, id) == RowAfter(s, w, id)
  {
  }

  lemma AllRowsDone(rows: map<string, Row>, s: State, w: Sweep)
    requires w.file.Listing? && RowsDone(rows, s, w, w.file.sessions.Keys + (s.known.Keys - w.file.sessions.Keys))
    ensures forall id :: Lookup(rows, id) == RowAfter(s, w, id)
  {
  }

  lemma SweptParts(s: State, w: Sweep)
    requires w.file.Listing? && !Stale(s, w.file)
    ensures Swept(s, w) == State(Some(w.file.mtime), w.file.sessions, Swept(s, w).rows, s.audits + multiset(Audited(s, w)))
  {
  }

  lemma SameRows(rows: map<string, Row>, s: State, w: Sweep)
    requires w.file.Listing? && !Stale(s, w.file)
    requires forall j :: Lookup(rows, j) == RowAfter(s, w, j)
    ensures rows == Swept(s, w).rows
  {
    var rows' := Swept(s, w).rows;
    forall j ensures Lookup(rows, j) == Lookup(rows', j) {
      RowSwept(s, w, j);
    }
    assert forall j :: j in rows <==> Lookup(rows, j).Some?;
    assert forall j :: j in rows' <==> Lookup(rows', j).Some?;
    assert forall j :: j in rows ==> Lookup(rows, j) == Some(rows[j]) && Lookup(rows', j) == Some(rows'[j]);
  }

  lemma RowSwept(s: State, w: Sweep, id: string)
    requires w.file.Listing? && !Stale(s, w.file)
    ensures Lookup(Swept(s, w).rows, id) == RowAfter(s, w, id)
  {
  }

  /** What a successful write leaves in a session's row: for a new session all that its entry says,
      detected now; for one that stays its entry and activity, active, the rest as it was; for one that
      is gone the time, inactive, the rest as it was. Without activity in the entry the time stands in. */
  lemma SweptRowIs(s: State, w: Sweep, id: string)
    requires w.file.Listing? && !Stale(s, w.file) && w.ok(id)
    ensures var row := Lookup(Swept(s, w).rows, id);
            && (id in w.file.sessions && id !in s.known ==>
                  var d := w.file.sessions[id];
                  && row.Some? && row.value.pid == d.pid && row.value.parentPid == d.parentPid
                  && row.value.workingDirectory == d.workingDirectory && row.value.metadata == d.text
                  && row.value.firstDetected == w.now && row.value.status == Detected
                  && row.value.lastActivity == (if d.lastActivity == None then w.now else d.lastActivity.value))
            && (id in w.file.sessions && id in s.known && id in s.rows ==>
                  var d := w.file.sessions[id];
                  && row.Some? && row.value.metadata == d.text && row.value.status == Active
                  && row.value.lastActivity == (if d.lastActivity == None then w.now else d.lastActivity.value)
                  && row.value == s.rows[id].(metadata := d.text, status := Active, lastActivity := row.value.lastActivity))
            && (id !in w.file.sessions && id in s.known && id in s.rows ==>
                  row == Some(s.rows[id].(status := Inactive, lastActivity := w.now)))
  {
    RowSwept(s, w, id);
  }

  /** A session neither listed nor known, or one whose write fails, keeps its row. */
  lemma OtherRowsKept(s: State, w: Sweep, id: string)
    requires w.file.Listing? && !Stale(s, w.file)
    requires !w.ok(id) || (id !in w.file.sessions && id !in s.known)
    ensures Lookup(Swept(s, w).rows, id) == Lookup(s.rows, id)
  {
    RowSwept(s, w, id);
  }

  /** A file that is missing, or no newer than the last one looked into, changes nothing; one that does
      not read or parse only counts as looked into. */
  lemma QuietSweeps(s: State, w: Sweep)
    ensures w.file == Missing ==> Swept(s, w) == s
    ensures !w.file.Missing? && s.lastModified.Some? && w.file.mtime <= s.lastModified.value ==> Swept(s, w) == s
    ensures w.file.Broken? && (s.lastModified == None || s.lastModified.value < w.file.mtime) ==>
              Swept(s, w) == s.(lastModified := Some(w.file.mtime))
    ensures w.file.Listing? && (s.lastModified == None || s.lastModified.value < w.file.mtime) ==>
              Swept(s, w).lastModified == Some(w.file.mtime) && Swept(s, w).known == w.file.sessions
  {
  }

  // ---------------------------------------------------------------- runs

  function After(ws: seq<Sweep>): State {
    if ws == [] then Empty else Swept(After(ws[..|ws| - 1]), ws[|ws| - 1])
  }

  predicate TakesEffect(ws: seq<Sweep>, i: nat)
    requires i < |ws|
  {
    ws[i].file.Listing? && !Stale(After(ws[..i]), ws[i].file)
  }

  /** The sessions of the last listing that was looked into. */
  function LastListing(ws: seq<Sweep>): map<string, Data> {
    if ws == [] then map[]
    else if TakesEffect(ws, |ws| - 1) then ws[|ws| - 1].file.sessions
    else LastListing(ws[..|ws| - 1])
  }

  /** How often the session came up in a listing after not being in the one before. */
  function Appearances(ws: seq<Sweep>, id: string): nat {
    if ws == [] then 0
    else
      var n := |ws| - 1;
      Appearances(ws[..n], id)
      + if TakesEffect(ws, n) && id in ws[n].file.sessions && id !in LastListing(ws[..n]) then 1 else 0
  }

  ghost predicate NoErrors(ws: seq<Sweep>) {
    forall i, id :: 0 <= i < |ws| ==> ws[i].ok(id) && ws[i].auditOk(id)
  }

  /** What is known is the last listing, with or without write errors. */
  lemma {:induction false} KnownIsLastListing(ws: seq<Sweep>)
    ensures After(ws).known == LastListing(ws)
  {
    if ws != [] {
      KnownIsLastListing(ws[..|ws| - 1]);
      assert ws[..|ws| - 1] == ws[..|ws| - 1][..|ws| - 1];
    }
  }

  /** Without write errors a session has a row once it was ever seen, inactive exactly when the last
      listing does not name it, and one audit for each time it appeared. */
  lemma {:induction false} TableMirrorsRegistry(ws: seq<Sweep>, id: string)
    requires NoErrors(ws)
    ensures var s := After(ws);
            && (id in s.rows <==> Appearances(ws, id) > 0)
            && (id in LastListing(ws) ==> id in s.rows)
            && (id in s.rows ==> (s.rows[id].status.Inactive? <==> id !in LastListing(ws)))
            && s.audits[id] == Appearances(ws, id)
  {
    if ws != [] {
      var n := |ws| - 1;
      var front, w := ws[..n], ws[n];
      assert NoErrors(front) by {
        forall i, j | 0 <= i < n ensures front[i].ok(j) && front[i].auditOk(j) {
          assert ws[i].ok(j) && ws[i].auditOk(j);
        }
      }
      TableMirrorsRegistry(front, id);
      KnownIsLastListing(front);
      if TakesEffect(ws, n) {
        assert w.ok(id) && w.auditOk(id);
        RowSwept(After(front), w, id);
      }
    }
  }

  /** With write errors: a session whose registration fails stays without a row for as long as the
      listings name it, whatever succeeds later. */
  lemma {:induction false} FailedRegistrationSticks(ws: seq<Sweep>, m: nat, id: string)
    requires m < |ws| && TakesEffect(ws, m) && id in ws[m].file.sessions && !ws[m].ok(id)
    requires id !in After(ws[..m]).known && id !in After(ws[..m]).rows
    requires forall i :: m < i < |ws| && TakesEffect(ws, i) ==> id in ws[i].file.sessions
    ensures id in After(ws).known && id !in After(ws).rows
    decreases |ws|
  {
    hide Swept, Stale;
    var n := |ws| - 1;
    var front := ws[..n];
    if m < n {
      assert front[..m] == ws[..m];
      forall i | m < i < n && TakesEffect(front, i) ensures id in front[i].file.sessions {
        assert front[..i] == ws[..i];
      }
      assert TakesEffect(front, m);
      FailedRegistrationSticks(front, m, id);
      UnregisteredStays(After(front), ws[n], id);
    } else {
      SweptKnown(After(front), ws[n]);
      RowSwept(After(front), ws[n], id);
    }
  }

  lemma SweptKnown(s: State, w: Sweep)
    requires w.file.Listing? && !Stale(s, w.file)
    ensures Swept(s, w).known == w.file.sessions
  {
  }

  lemma UnregisteredStays(s: State, w: Sweep, id: string)
    requires id in s.known && id !in s.rows
    requires w.file.Listing? && !Stale(s, w.file) ==> id in w.file.sessions
    ensures id in Swept(s, w).known && id !in Swept(s, w).rows
  {
  }

  /** When a sweep leaves a row that tells whether its session runs: the write about it succeeded,
      or there was none to make, or it told so before. A session found new needs the write, one
      that stays needs a row for it to land on. */
  lemma SweepLeavesRowRightIff(s: State, w: Sweep, id: string)
    requires w.file.Listing? && !Stale(s, w.file)
    ensures RowTells(Swept(s, w), id) <==>
              if id in w.file.sessions then
                if id in s.known then id in s.rows && (w.ok(id) || !s.rows[id].status.Inactive?)
                else w.ok(id) || (id in s.rows && !s.rows[id].status.Inactive?)
              else id in s.rows ==> s.rows[id].status.Inactive? || (id in s.known && w.ok(id))
  {
    RowSwept(s, w, id);
  }

  /** The session's row says inactive, or is missing, exactly when the session is not known. */
  predicate RowTells(s: State, id: string) {
    id in s.known <==> id in s.rows && !s.rows[id].status.Inactive?
  }
}
