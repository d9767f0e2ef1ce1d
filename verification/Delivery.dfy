/** Delivering one frame: choosing the view, and correcting the choice when the host refuses it. */
module Delivery {
  import opened Redact
  import opened Routing
  import opened Strings
  import opened Wrappers

  const MAX_DETAIL_CHARS := 200
  const LIVENESS_TTL_MS := 5000

  // ---------------------------------------------------------------- the host's answer

  /** The host's answer to one injection, its body as sent. */
  datatype Answer = Accepted(http: nat) | Rejected(http: nat, raw: string) | NoResponse

  function ClipDetail(s: string): string {
    var t := Trim(s);
    if |t| <= MAX_DETAIL_CHARS then t else t[..MAX_DETAIL_CHARS] + "\U{2026}"
  }

  /** The body as captured: redacted, trimmed and clipped. */
  function ErrorBody(raw: string): string {
    if Trim(raw) == "" then "<no body>" else ClipDetail(Redacted(raw))
  }

  /** What the host's answer says about the mode it was given. */
  function Classify(mode: Mode, autoMode: bool, a: Answer): MismatchAction {
    match a
    case Rejected(http, raw) => OnRefusal(mode, autoMode, http, ErrorBody(raw))
    case _ => Nothing
  }

  // ---------------------------------------------------------------- what the bridge knows

  /** The cached session list with the time it was read, and the modes the host itself stated. */
  datatype Knowledge = Knowledge(at: Option<int>, cache: map<string, Liveness>, learned: map<string, Mode>)

  function Seeded(k: Knowledge, now: int, live: map<string, Liveness>): Knowledge {
    if live == map[] then k else k.(at := Some(now), cache := live)
  }

  function Fresh(k: Knowledge, now: int): bool {
    k.at.Some? && now - k.at.value < LIVENESS_TTL_MS
  }

  function Lookup<T>(m: map<string, T>, key: string): Option<T> {
    if key in m then Some(m[key]) else None
  }

  /** The knowledge after a read of the session list, and the record read; `fetched` is what a
      request would return, empty when it fails. */
  function Refreshed(k: Knowledge, now: int, fetched: map<string, Liveness>): Knowledge {
    if Fresh(k, now) then k else Seeded(k, now, fetched)
  }

  function Resolved(route: Route, k: Knowledge, now: int, fetched: map<string, Liveness>): (Knowledge, Mode) {
    if !route.autoMode then (k, route.mode)
    else
      var k' := Refreshed(k, now, fetched);
      (k', EffectiveMode(route, Lookup(k'.cache, route.sessionId), Lookup(k'.learned, route.sessionId)))
  }

  /** What became of one frame: the modes tried, in order, and the answer to the last. */
  datatype Handled = Handled(known: Knowledge, attempts: seq<Mode>, last: Answer)

  function HandleFrame(route: Route, k: Knowledge, now: int, fetched: map<string, Liveness>, answer: Mode -> Answer): Handled {
    var (k', mode) := Resolved(route, k, now, fetched);
    var first := answer(mode);
    match Classify(mode, route.autoMode, first)
    case Retry(correct) =>
      Handled(k'.(learned := k'.learned[route.sessionId := correct]), [mode, correct], answer(correct))
    case _ => Handled(k', [mode], first)
  }

  // ---------------------------------------------------------------- as it runs

  class RuntimeModes {
    var at: Option<int>
    var cache: map<string, Liveness>
    var learned: map<string, Mode>

    constructor ()
      ensures Known() == Knowledge(None, map[], map[])
    {
      at, cache, learned := None, map[], map[];
    }

    function Known(): Knowledge
      reads this
    {
      Knowledge(at, cache, learned)
    }

    /** An empty read never replaces what was known. */
    method Seed(now: int, live: map<string, Liveness>)
      modifies this
      ensures Known() == Seeded(old(Known()), now, live)
    {
      if live == map[] {
        return;
      }
      at, cache := Some(now), live;
    }

    method LivenessFor(now: int, fetched: map<string, Liveness>, session: string) returns (r: Option<Liveness>)
      modifies this
      ensures Known() == Refreshed(old(Known()), now, fetched)
      ensures r == Lookup(Known().cache, session)
    {
      if at.Some? && now - at.value < LIVENESS_TTL_MS {
        return Lookup(cache, session);
      }
      Seed(now, fetched);
      if fetched == map[] {
        return Lookup(cache, session);
      }
      return Lookup(fetched, session);
    }

    method InjectMode(route: Route, now: int, fetched: map<string, Liveness>) returns (mode: Mode)
      modifies this
      ensures (Known(), mode) == Resolved(route, old(Known()), now, fetched)
    {
      if !route.autoMode {
        return route.mode;
      }
      var record := LivenessFor(now, fetched, route.sessionId);
      mode := EffectiveMode(route, record, Lookup(learned, route.sessionId));
    }

    method Learn(session: string, mode: Mode)
      modifies this
      ensures Known() == old(Known()).(learned := old(learned)[session := mode])
    {
      learned := learned[session := mode];
    }

    /** One frame, from the choice of the mode to the answer that is recorded. */
    method Handle(route: Route, now: int, fetched: map<string, Liveness>, answer: Mode -> Answer)
      returns (attempts: seq<Mode>, last: Answer)
      modifies this
      ensures Handled(Known(), attempts, last) == HandleFrame(route, old(Known()), now, fetched, answer)
    {
      var mode := InjectMode(route, now, fetched);
      last := answer(mode);
      attempts := [mode];
      if last.Rejected? {
        match OnRefusal(mode, route.autoMode, last.http, ErrorBody(last.raw)) {
          case Retry(correct) =>
            Learn(route.sessionId, correct);
            last := answer(correct);
            attempts := attempts + [correct];
          case TellOperator(_) =>
          case Nothing =>
        }
      }
    }
  }

  // ---------------------------------------------------------------- recognising a refusal

  function Other(m: Mode): Mode { if m == Terminal then Structured else Terminal }

  /** How the host refuses an injection in a mode that is not the session's view: a status and a
      marker somewhere in the body. */
  function RefusalCode(m: Mode): nat { if m == Terminal then 400 else 404 }

  function RefusalMarker(m: Mode): string { if m == Terminal then TERMINAL_REFUSED else STRUCTURED_REFUSED }

  /** The host's answer, as sent, says that the mode was wrong. */
  predicate Refused(m: Mode, a: Answer) {
    a.Rejected? && a.http == RefusalCode(m) && Contains(a.raw, RefusalMarker(m))
  }

  /** The two refusals, in the host's words. */
  lemma RefusalsAre()
    ensures forall a: Answer :: Refused(Terminal, a) <==> a.Rejected? && a.http == 400 && Contains(a.raw, "acp_mode_unsupported")
    ensures forall a: Answer :: Refused(Structured, a) <==> a.Rejected? && a.http == 404 && Contains(a.raw, "no running structured view")
  {
    hide Contains;
  }

  /** The marker stands in the redacted and trimmed body, in front of where the body is clipped. */
  ghost predicate Visible(raw: string, marker: string) {
    var t := Trim(Redacted(raw));
    && Trim(raw) != ""
    && exists i: nat :: (|t| <= 200 || i + |marker| <= 200) && At(t, marker, i)
  }

  /** A marker is recognised in a captured body exactly when it is visible. */
  lemma MarkerSeenIff(raw: string, marker: string)
    requires |marker| > |"<no body>"| && forall c <- marker :: c < '\U{80}'
    ensures Contains(ErrorBody(raw), marker) <==> Visible(raw, marker)
  {
    hide Redacted, Trim;
    var t := Trim(Redacted(raw));
    var b := ErrorBody(raw);
    if Trim(raw) != "" && |t| > MAX_DETAIL_CHARS {
      forall i: nat | At(b, marker, i) ensures i + |marker| <= MAX_DETAIL_CHARS && At(t, marker, i) {
        NoEllipsis(t[..MAX_DETAIL_CHARS], marker, i);
        assert t[i..i + |marker|] == b[i..i + |marker|];
      }
      forall i: nat | i + |marker| <= MAX_DETAIL_CHARS && At(t, marker, i) ensures At(b, marker, i) {
        assert b[i..i + |marker|] == t[i..i + |marker|];
      }
    }
    if Visible(raw, marker) {
      var i: nat :| (|t| <= MAX_DETAIL_CHARS || i + |marker| <= MAX_DETAIL_CHARS) && At(t, marker, i);
      assert At(b, marker, i);
    }
  }

  /** What is captured of a body, and shown: all of the redacted and trimmed text, or its first 200
      characters and an ellipsis; for a blank body a text that says so. */
  lemma CapturedBody(raw: string, t: string)
    requires Stripped(Redacted(raw), t, White)
    ensures All(raw, White) ==> ErrorBody(raw) == "<no body>"
    ensures !All(raw, White) && |t| <= 200 ==> ErrorBody(raw) == t
    ensures !All(raw, White) && |t| > 200 ==> ErrorBody(raw) == t[..200] + ['\U{2026}']
  {
    hide White, Redacted, Stripped, Trim;
    TrimIff(Redacted(raw), t);
    TrimEmptyIff(raw);
  }

  lemma NoEllipsis(t: string, marker: string, i: nat)
    requires marker != "" && forall c <- marker :: c < '\U{80}'
    requires At(t + "\U{2026}", marker, i)
    ensures i + |marker| <= |t|
  {
    var b := t + "\U{2026}";
    assert marker[|marker| - 1] in marker;
    assert b[i..i + |marker|][|marker| - 1] == b[i + |marker| - 1];
    assert b[|t|] == '\U{2026}';
  }

  lemma {:induction false} FrontIsPart(s: string, w: string)
    requires Contains(DropFront(s, White), w)
    ensures Contains(s, w)
  {
    if s != [] && White(s[0]) {
      FrontIsPart(s[1..], w);
      var i :| 0 <= i <= |s[1..]| && At(s[1..], w, i);
      assert s[i + 1..i + 1 + |w|] == s[1..][i..i + |w|];
      assert At(s, w, i + 1);
    }
  }

  lemma {:induction false} BackIsPart(s: string, w: string)
    requires Contains(DropBack(s, White), w)
    ensures Contains(s, w)
  {
    if s != [] && White(s[|s| - 1]) {
      BackIsPart(s[..|s| - 1], w);
      var i :| 0 <= i <= |s| - 1 && At(s[..|s| - 1], w, i);
      assert s[i..i + |w|] == s[..|s| - 1][i..i + |w|];
      assert At(s, w, i);
    }
  }

  /** What is recognised was sent: neither redaction nor trimming makes a marker. */
  lemma VisibleWasSent(raw: string, marker: string)
    requires marker != "" && NoStar(marker) && Visible(raw, marker)
    ensures Contains(raw, marker)
  {
    hide Redacted, DropFront, DropBack;
    var r := Redacted(raw);
    var i: nat :| At(Trim(r), marker, i);
    assert Contains(Trim(r), marker);
    BackIsPart(DropFront(r, White), marker);
    FrontIsPart(r, marker);
    RedactionAddsNoWord(raw, marker);
  }

  lemma Markers(m: Mode)
    ensures |RefusalMarker(m)| > |"<no body>"| && NoStar(RefusalMarker(m)) && forall c <- RefusalMarker(m) :: c < '\U{80}'
  {
  }

  /** What is concluded from an answer: the other mode, exactly when the answer has the status of a
      refusal and its marker is visible. */
  lemma ClassifyIff(m: Mode, autoMode: bool, a: Answer)
    ensures Classify(m, autoMode, a) ==
            if a.Rejected? && a.http == RefusalCode(m) && Visible(a.raw, RefusalMarker(m))
            then (if autoMode then Retry(Other(m)) else TellOperator(Other(m))) else Nothing
  {
    Markers(m);
    hide Visible, ErrorBody, Contains, NoStar;
    if a.Rejected? {
      MarkerSeenIff(a.raw, RefusalMarker(m));
    }
  }

  /** A mode is given up only when the host said it was wrong. */
  lemma OnlyRefusalsCorrect(m: Mode, autoMode: bool, a: Answer)
    ensures Classify(m, autoMode, a) != Nothing ==> Refused(m, a)
  {
    hide Visible, Classify, Contains, NoStar;
    ClassifyIff(m, autoMode, a);
    Markers(m);
    if Classify(m, autoMode, a) != Nothing {
      VisibleWasSent(a.raw, RefusalMarker(m));
    }
  }

  /** In a short body that holds no key a marker is visible exactly when it was sent. */
  lemma PlainRefusalIsSeen(raw: string, marker: string)
    requires forall i :: 0 <= i < |raw| ==> KeyAt(raw[i..]) == None
    requires Trim(raw) != "" && |Trim(raw)| <= 200
    ensures Visible(raw, marker) <==> Contains(Trim(raw), marker)
  {
    hide Redacted, Trim;
    KeyFreeUnchanged(raw);
  }

  // ---------------------------------------------------------------- the cache

  /** A cache read less than five seconds ago is used as it is. Else the list is fetched again: what
      comes back takes its place, and if nothing does it stays, however old. What was learned stays in
      any case. */
  lemma CacheUse(k: Knowledge, now: int, fetched: map<string, Liveness>)
    ensures (exists t :: k.at == Some(t) && now - t < 5000) ==> Refreshed(k, now, fetched) == k
    ensures (forall t :: k.at == Some(t) ==> now - t >= 5000) && fetched != map[] ==>
              Refreshed(k, now, fetched) == Knowledge(Some(now), fetched, k.learned)
    ensures fetched == map[] ==> Refreshed(k, now, fetched) == k
    ensures forall live: map<string, Liveness> :: Seeded(k, now, live) == if live == map[] then k else Knowledge(Some(now), live, k.learned)
  {
  }

  // ---------------------------------------------------------------- one frame

  /** A frame for an `auto` row, before a host that accepts the session's view and refuses the other
      one. Whatever is cached and whatever was learned, the frame is delivered exactly when the right
      mode was chosen at once or the refusal is visible; it takes one attempt or two, and after two
      the view is learned. A refusal that is not visible leaves everything as it was. */
  lemma AutoFrameIsDelivered(route: Route, k: Knowledge, now: int, fetched: map<string, Liveness>,
                             answer: Mode -> Answer, view: Mode)
    requires route.autoMode && answer(view).Accepted? && Refused(Other(view), answer(Other(view)))
    ensures var (k', mode) := Resolved(route, k, now, fetched);
            var h := HandleFrame(route, k, now, fetched, answer);
            var seen := Visible(answer(Other(view)).raw, RefusalMarker(Other(view)));
            && (h.last.Accepted? <==> mode == view || seen)
            && h.attempts == (if mode == view then [view] else if seen then [mode, view] else [mode])
            && h.known == (if mode != view && seen then k'.(learned := k'.learned[route.sessionId := view]) else k')
  {
    hide Resolved, Classify, Visible, Contains;
    var mode := Resolved(route, k, now, fetched).1;
    ClassifyIff(mode, true, answer(mode));
  }

  /** A pinned row makes one attempt, on its pin, and teaches nothing. */
  lemma PinnedFrame(route: Route, k: Knowledge, now: int, fetched: map<string, Liveness>, answer: Mode -> Answer)
    requires !route.autoMode
    ensures HandleFrame(route, k, now, fetched, answer) == Handled(k, [route.mode], answer(route.mode))
  {
    hide Contains, ErrorBody;
  }

  /** A row of the settings that says "terminal" or "structured": its route is there, and every frame
      makes its one attempt in that mode, whatever the session's view, the cache and the answers. */
  lemma PinnedRowAttempts(settings: Settings, live: map<string, Liveness>, e: SessionEntry, pin: Mode,
                          k: Knowledge, now: int, fetched: map<string, Liveness>, answer: Mode -> Answer)
    requires e in settings.sessions && !All(settings.agentMcpBase, White)
    requires !All(e.sessionId, White) && !All(e.token, White) && !All(e.project, White)
    requires Says(e.mode, if pin == Terminal then "terminal" else "structured")
    ensures exists r <- ResolvedRoutes(settings, live) ::
              && r.sessionId == e.sessionId && r.token == e.token
              && HandleFrame(r, k, now, fetched, answer) == Handled(k, [pin], answer(pin))
  {
    hide HandleFrame, RouteFor, Usable, White, Says, Trim;
    var base := Trim(settings.agentMcpBase);
    TrimEmptyIff(settings.agentMcpBase);
    UsableIff(e);
    RoutesForMembers(base, settings.sessions, live);
    RowPinsMode(base, e, live);
    RowGivesAddresses(base, e, live);
    PinnedFrame(RouteFor(base, e, live), k, now, fetched, answer);
  }

  /** And a usable row that says neither: before a host that accepts the session's view and names the
      other as wrong, visibly, every frame is delivered. */
  lemma AutomaticRowDelivers(settings: Settings, live: map<string, Liveness>, e: SessionEntry,
                             k: Knowledge, now: int, fetched: map<string, Liveness>, answer: Mode -> Answer, view: Mode)
    requires e in settings.sessions && !All(settings.agentMcpBase, White)
    requires !All(e.sessionId, White) && !All(e.token, White) && !All(e.project, White)
    requires !Says(e.mode, "terminal") && !Says(e.mode, "structured")
    requires answer(view).Accepted? && Refused(Other(view), answer(Other(view)))
    requires Visible(answer(Other(view)).raw, RefusalMarker(Other(view)))
    ensures exists r <- ResolvedRoutes(settings, live) ::
              && r.sessionId == e.sessionId && r.token == e.token
              && HandleFrame(r, k, now, fetched, answer).last.Accepted?
  {
    hide HandleFrame, RouteFor, Usable, White, Says, Trim, Visible, Refused;
    var base := Trim(settings.agentMcpBase);
    TrimEmptyIff(settings.agentMcpBase);
    UsableIff(e);
    RoutesForMembers(base, settings.sessions, live);
    RowPinsMode(base, e, live);
    RowGivesAddresses(base, e, live);
    AutoFrameIsDelivered(RouteFor(base, e, live), k, now, fetched, answer, view);
  }

  // ---------------------------------------------------------------- runs

  /** What can happen while a session's view stays what it is. */
  datatype Event =
    | Frame(route: Route, now: int, fetched: map<string, Liveness>, answer: Mode -> Answer)
    | Reconciled(now: int, live: map<string, Liveness>)
    | AcpEnabled(session: string)
    | Forgotten(session: string)

  function Next(k: Knowledge, e: Event): Knowledge {
    match e
    case Frame(route, now, fetched, answer) => HandleFrame(route, k, now, fetched, answer).known
    case Reconciled(now, live) => Seeded(k, now, live)
    case AcpEnabled(s) => k.(learned := k.learned[s := Structured])
    case Forgotten(s) => k.(learned := k.learned - {s})
  }

  /** No record of session `s` states another view. */
  predicate Agrees(live: map<string, Liveness>, s: string, view: Mode) {
    s in live ==> ViewMode(live[s].view) in {None, Some(view)}
  }

  /** A host whose session is in `view` never says that this mode is wrong. It may refuse the other
      one, visibly, and either may fail for any other reason. */
  ghost predicate Respects(answer: Mode -> Answer, view: Mode) {
    && !Refused(view, answer(view))
    && (Refused(Other(view), answer(Other(view))) ==>
          Visible(answer(Other(view)).raw, RefusalMarker(Other(view))))
  }

  /** An event compatible with session `s` staying in `view` and keeping what was learned. */
  ghost predicate Compatible(e: Event, s: string, view: Mode) {
    match e
    case Frame(route, _, fetched, answer) =>
      Agrees(fetched, s, view) && (route.sessionId == s ==> route.autoMode && Respects(answer, view))
    case Reconciled(_, live) => Agrees(live, s, view)
    case AcpEnabled(t) => t == s ==> view == Structured
    case Forgotten(t) => t != s
  }

  /** How many of these attempts the host refuses for their mode. */
  function RefusedAmong(attempts: seq<Mode>, answer: Mode -> Answer): nat {
    if attempts == [] then 0
    else (if Refused(attempts[0], answer(attempts[0])) then 1 else 0) + RefusedAmong(attempts[1..], answer)
  }

  /** How many attempts on session `s` the host refuses for their mode during a run. */
  function Refusals(k: Knowledge, es: seq<Event>, s: string): nat
    decreases |es|
  {
    if es == [] then 0
    else
      (match es[0]
       case Frame(route, now, fetched, answer) =>
         if route.sessionId == s then RefusedAmong(HandleFrame(route, k, now, fetched, answer).attempts, answer) else 0
       case _ => 0)
      + Refusals(Next(k, es[0]), es[1..], s)
  }

  lemma FrameKeepsCache(route: Route, k: Knowledge, now: int, fetched: map<string, Liveness>, answer: Mode -> Answer,
                        s: string, view: Mode)
    requires Agrees(k.cache, s, view) && Agrees(fetched, s, view)
    ensures var (k', mode) := Resolved(route, k, now, fetched);
            && Agrees(k'.cache, s, view) && k'.learned == k.learned
            && (route.autoMode && route.sessionId == s && Lookup(k.learned, s) == Some(view) ==> mode == view)
  {
    hide ViewMode, InferAutoMode;
  }

  /** One frame of the session: a refusal teaches the view, and a learned view meets none. */
  lemma FrameRefusals(route: Route, k: Knowledge, now: int, fetched: map<string, Liveness>, answer: Mode -> Answer, view: Mode)
    requires route.autoMode && Respects(answer, view)
    ensures var (k', mode) := Resolved(route, k, now, fetched);
            var h := HandleFrame(route, k, now, fetched, answer);
            && h.known.cache == k'.cache
            && (forall t :: t != route.sessionId ==> Lookup(h.known.learned, t) == Lookup(k'.learned, t))
            && RefusedAmong(h.attempts, answer) <= 1
            && (RefusedAmong(h.attempts, answer) == 1 ==> Lookup(h.known.learned, route.sessionId) == Some(view))
            && (mode == view ==> RefusedAmong(h.attempts, answer) == 0 && h.known == k')
            && (Lookup(k'.learned, route.sessionId) == Some(view) ==> Lookup(h.known.learned, route.sessionId) == Some(view))
  {
    hide Resolved, Classify, Visible, Refused;
    var mode := Resolved(route, k, now, fetched).1;
    ClassifyIff(mode, true, answer(mode));
    OnlyRefusalsCorrect(mode, true, answer(mode));
    CountOne(mode, answer);
    CountTwo(mode, Other(mode), answer);
    if mode != view && Refused(mode, answer(mode)) {
      RefusedHasCode(mode, answer(mode));
    }
  }

  lemma RefusedHasCode(m: Mode, a: Answer)
    requires Refused(m, a)
    ensures a.Rejected? && a.http == RefusalCode(m)
  {
  }

  lemma CountOne(m: Mode, answer: Mode -> Answer)
    ensures RefusedAmong([m], answer) == if Refused(m, answer(m)) then 1 else 0
  {
    assert [m][1..] == [];
  }

  lemma CountTwo(m: Mode, n: Mode, answer: Mode -> Answer)
    ensures RefusedAmong([m, n], answer) ==
            (if Refused(m, answer(m)) then 1 else 0) + (if Refused(n, answer(n)) then 1 else 0)
  {
    assert [m, n][1..] == [n];
    CountOne(n, answer);
  }

  lemma OtherFrame(route: Route, k: Knowledge, now: int, fetched: map<string, Liveness>, answer: Mode -> Answer, s: string)
    requires route.sessionId != s
    ensures var k' := Resolved(route, k, now, fetched).0;
            var h := HandleFrame(route, k, now, fetched, answer);
            h.known.cache == k'.cache && Lookup(h.known.learned, s) == Lookup(k'.learned, s)
  {
    hide Resolved, Classify;
  }

  /** Over any run in which the session's view stays fixed, no record contradicts it, what was
      learned is kept and refusals are visible, the host refuses at most one attempt of the session
      for its mode, and none once the view has been learned. Outages may come at any time. */
  lemma {:induction false} AtMostOneRefusal(k: Knowledge, es: seq<Event>, s: string, view: Mode)
    requires Agrees(k.cache, s, view)
    requires forall e <- es :: Compatible(e, s, view)
    ensures Refusals(k, es, s) <= if Lookup(k.learned, s) == Some(view) then 0 else 1
    decreases |es|
  {
    hide HandleFrame, ViewMode, Respects, Resolved;
    if es != [] {
      assert es[0] in es;
      match es[0] {
        case Frame(route, now, fetched, answer) =>
          FrameKeepsCache(route, k, now, fetched, answer, s, view);
          if route.sessionId == s {
            FrameRefusals(route, k, now, fetched, answer, view);
          } else {
            OtherFrame(route, k, now, fetched, answer, s);
          }
        case _ =>
      }
      AtMostOneRefusal(Next(k, es[0]), es[1..], s, view);
    }
  }

  // ---------------------------------------------------------------- a refusal that is not seen

  lemma TrimKeeps(s: string)
    requires s != "" && !White(s[0]) && !White(s[|s| - 1])
    ensures Trim(s) == s
  {
    hide White;
    assert DropFront(s, White) == s;
  }

  /** A marker that starts behind the first 200 characters of a body is sent and not seen. */
  lemma BehindTheClip(pad: string, marker: string)
    requires 200 <= |pad| && marker != "" && marker[0] !in pad
    requires !White(pad[0]) && !White(marker[|marker| - 1])
    requires '=' !in pad + marker && ' ' !in pad + marker
    ensures Contains(pad + marker, marker) && !Visible(pad + marker, marker)
  {
    var raw := pad + marker;
    assert At(raw, marker, |pad|);
    hide Redacted, Trim, KeyFrom, White;
    NoKeyWithout(raw);
    KeyFreeUnchanged(raw);
    TrimKeeps(raw);
    forall i: nat | i + |marker| <= MAX_DETAIL_CHARS ensures !At(raw, marker, i) {
      assert raw[i] == pad[i] && pad[i] in pad;
      assert raw[i] == raw[i..i + |marker|][0];
    }
  }

  /** For one: a body that opens with 200 letters and then says what is wrong. */
  lemma ClippedMarker()
    ensures var raw := seq(200, _ => 'x') + TERMINAL_REFUSED;
            Refused(Terminal, Rejected(400, raw)) && !Visible(raw, TERMINAL_REFUSED)
  {
    hide Contains, Visible;
    var pad := seq(MAX_DETAIL_CHARS, _ => 'x');
    MarkerCharacters();
    assert pad[0] == 'x' && forall c <- pad :: c == 'x';
    BehindTheClip(pad, TERMINAL_REFUSED);
  }

  lemma MarkerCharacters()
    ensures TERMINAL_REFUSED[0] == 'a' && TERMINAL_REFUSED[|TERMINAL_REFUSED| - 1] == 'd'
    ensures '=' !in TERMINAL_REFUSED && ' ' !in TERMINAL_REFUSED
  {
  }

  /** So every single frame to that session is refused, however many come: nothing is learned from
      a refusal that is not visible. */
  lemma {:induction false} UnseenRefusalRepeats(k: Knowledge, e: Event, n: nat, view: Mode)
    requires e.Frame? && e.route.autoMode && e.fetched == map[]
    requires e.answer(view).Accepted? && Refused(Other(view), e.answer(Other(view)))
    requires !Visible(e.answer(Other(view)).raw, RefusalMarker(Other(view)))
    requires Resolved(e.route, k, e.now, e.fetched).1 != view
    ensures Refusals(k, seq(n, _ => e), e.route.sessionId) == n
    decreases n
  {
    if n > 0 {
      hide Visible, Refused;
      var es := seq(n, _ => e);
      assert es[1..] == seq(n - 1, _ => e);
      assert Resolved(e.route, k, e.now, e.fetched).0 == k;
      AutoFrameIsDelivered(e.route, k, e.now, e.fetched, e.answer, view);
      CountOne(Other(view), e.answer);
      UnseenRefusalRepeats(k, e, n - 1, view);
    }
  }
}
