/** Routes of covered sessions and the choice of the view a nudge is injected into. */
module Routing {
  import opened Strings
  import opened Wrappers

  datatype Mode = Terminal | Structured

  /** One record of the session list. */
  datatype Liveness = Liveness(
    tool: string,
    status: string,
    acpWorkerState: string,
    hasTerminal: bool,
    dormant: bool,
    view: string)

  datatype SessionEntry = SessionEntry(sessionId: string, token: string, project: string, exposeMcp: bool, mode: string)

  datatype Settings = Settings(
    enabled: bool,
    aoeBase: string,
    aoeToken: string,
    agentMcpBase: string,
    ensureAcp: bool,
    sessions: seq<SessionEntry>)

  datatype Route = Route(
    sessionId: string,
    project: string,
    endpoint: string,
    token: string,
    mode: Mode,
    mcpUrl: Option<string>,
    live: bool,
    autoMode: bool)
  {
    function Fingerprint(aoeBase: string, aoeToken: string): string {
      endpoint + "|" + token + "|" + aoeBase + "|" + aoeToken
    }

    predicate WantsAcp(ensureAcp: bool) {
      ensureAcp && mcpUrl.Some?
    }

    /** The route once its session is known to be in structured view; a pinned one stays. */
    function PromotedAfterAcp(): Route {
      if !autoMode || mode == Structured then this else this.(mode := Structured)
    }
  }

  function ViewMode(view: string): Option<Mode> {
    var v := ToLower(Trim(view));
    if v == "structured" then Some(Structured) else if v == "terminal" then Some(Terminal) else None
  }

  function NormalizeMode(signal: string): Mode {
    var s := ToLower(signal);
    if Contains(s, "structured") || Contains(s, "acp") || Contains(s, "composer") || Contains(s, "cityhall")
    then Structured else Terminal
  }

  function InferAutoMode(r: Liveness): Mode {
    match ViewMode(r.view)
    case Some(m) => m
    case None =>
      if r.acpWorkerState != "" && r.acpWorkerState != "absent" then Structured
      else NormalizeMode(r.tool + " " + r.status)
  }

  /** The mode to inject with now: a pin first, then the session's stated view, then what the host
      itself told us, then the proxies, then the mode resolved with the route. */
  function EffectiveMode(route: Route, record: Option<Liveness>, learned: Option<Mode>): Mode {
    if !route.autoMode then route.mode
    else if record.Some? && ViewMode(record.value.view).Some? then ViewMode(record.value.view).value
    else if learned.Some? then learned.value
    else if record.Some? then InferAutoMode(record.value)
    else route.mode
  }

  datatype MismatchAction = Retry(mode: Mode) | TellOperator(mode: Mode) | Nothing

  const TERMINAL_REFUSED := "acp_mode_unsupported"
  const STRUCTURED_REFUSED := "no running structured view"

  /** Whether a refused injection says that the wrong view was used. */
  function OnRefusal(attempted: Mode, autoMode: bool, http: nat, body: string): MismatchAction {
    if attempted == Terminal && http == 400 && Contains(body, TERMINAL_REFUSED) then
      if autoMode then Retry(Structured) else TellOperator(Structured)
    else if attempted == Structured && http == 404 && Contains(body, STRUCTURED_REFUSED) then
      if autoMode then Retry(Terminal) else TellOperator(Terminal)
    else Nothing
  }

  // ---------------------------------------------------------------- resolving the settings

  function TrimSlashes(s: string): string {
    DropBack(DropFront(s, c => c == '/'), c => c == '/')
  }

  function JoinBase(base: string, kind: string, project: string): string {
    DropBack(Trim(base), c => c == '/') + "/" + kind + "/" + TrimSlashes(Trim(project))
  }

  predicate Usable(e: SessionEntry) {
    Trim(e.sessionId) != "" && Trim(e.token) != "" && Trim(e.project) != ""
  }

  function RouteFor(base: string, e: SessionEntry, live: map<string, Liveness>): Route {
    var pin := ToLower(Trim(e.mode));
    var mode :=
      if pin == "terminal" then Terminal
      else if pin == "structured" then Structured
      else if e.sessionId in live then InferAutoMode(live[e.sessionId])
      else Terminal;
    Route(e.sessionId, TrimSlashes(Trim(e.project)), JoinBase(base, "api", e.project), e.token, mode,
          if e.exposeMcp then Some(JoinBase(base, "mcp", e.project)) else None,
          e.sessionId in live, pin != "terminal" && pin != "structured")
  }

  function RoutesFor(base: string, entries: seq<SessionEntry>, live: map<string, Liveness>): seq<Route> {
    if entries == [] then []
    else
      var n := |entries| - 1;
      var rest := RoutesFor(base, entries[..n], live);
      if Usable(entries[n]) then rest + [RouteFor(base, entries[n], live)] else rest
  }

  function ResolvedRoutes(settings: Settings, live: map<string, Liveness>): seq<Route> {
    var base := Trim(settings.agentMcpBase);
    if base == "" then [] else RoutesFor(base, settings.sessions, live)
  }

  method ResolveRoutes(settings: Settings, live: map<string, Liveness>) returns (routes: seq<Route>)
    ensures routes == ResolvedRoutes(settings, live)
  {
    hide RouteFor, Usable, Trim;
    var base := Trim(settings.agentMcpBase);
    if base == "" {
      return [];
    }
    routes := [];
    for i := 0 to |settings.sessions|
      invariant routes == RoutesFor(base, settings.sessions[..i], live)
    {
      assert settings.sessions[..i + 1][..i] == settings.sessions[..i];
      if !Usable(settings.sessions[i]) {
        continue;
      }
      routes := routes + [RouteFor(base, settings.sessions[i], live)];
    }
    assert settings.sessions[..|settings.sessions|] == settings.sessions;
  }

  /** A route is live exactly when its session is in the session list, and distinct session ids in
      the settings give distinct ids in the routes. */
  lemma {:induction false} RoutesForMembers(base: string, entries: seq<SessionEntry>, live: map<string, Liveness>)
    ensures forall r <- RoutesFor(base, entries, live) ::
              exists e <- entries :: Usable(e) && r == RouteFor(base, e, live)
    ensures forall e <- entries :: Usable(e) ==> RouteFor(base, e, live) in RoutesFor(base, entries, live)
    ensures forall r <- RoutesFor(base, entries, live) :: r.live <==> r.sessionId in live
  {
    if entries != [] {
      RoutesForMembers(base, entries[..|entries| - 1], live);
      assert entries == entries[..|entries| - 1] + [entries[|entries| - 1]];
    }
  }

  /** Row by row and in order: a usable row yields its route, any other none. */
  lemma RoutesForOne(base: string, e: SessionEntry, live: map<string, Liveness>)
    ensures RoutesFor(base, [e], live) == if Usable(e) then [RouteFor(base, e, live)] else []
    ensures RoutesFor(base, [], live) == []
  {
    hide Usable, RouteFor;
    assert [e][..0] == [];
  }

  lemma {:induction false} RoutesForConcat(base: string, a: seq<SessionEntry>, b: seq<SessionEntry>, live: map<string, Liveness>)
    ensures RoutesFor(base, a + b, live) == RoutesFor(base, a, live) + RoutesFor(base, b, live)
  {
    hide Usable, RouteFor;
    if b == [] {
      assert a + b == a;
    } else {
      var n := |b| - 1;
      RoutesForConcat(base, a, b[..n], live);
      assert (a + b)[..|a + b| - 1] == a + b[..n];
    }
  }

  predicate DistinctRoutes(rs: seq<Route>) {
    forall i, j :: 0 <= i < j < |rs| ==> rs[i].sessionId != rs[j].sessionId
  }

  lemma DistinctAppend(rs: seq<Route>, r: Route)
    requires DistinctRoutes(rs) && forall x <- rs :: x.sessionId != r.sessionId
    ensures DistinctRoutes(rs + [r])
  {
  }

  lemma {:induction false} RoutesForDistinct(base: string, entries: seq<SessionEntry>, live: map<string, Liveness>)
    requires forall i, j :: 0 <= i < j < |entries| ==> entries[i].sessionId != entries[j].sessionId
    ensures DistinctRoutes(RoutesFor(base, entries, live))
  {
    hide RouteFor, Usable, DistinctRoutes;
    if entries == [] {
      NoRoutes();
    } else {
      var n := |entries| - 1;
      assert RoutesFor(base, entries, live) ==
             RoutesFor(base, entries[..n], live) + if Usable(entries[n]) then [RouteFor(base, entries[n], live)] else [];
      hide RoutesFor;
      RoutesForDistinct(base, entries[..n], live);
      EarlierRoutes(base, entries, n, live);
      DistinctAppend(RoutesFor(base, entries[..n], live), RouteFor(base, entries[n], live));
    }
  }

  lemma NoRoutes()
    ensures DistinctRoutes([])
  {
  }

  lemma EarlierRoutes(base: string, entries: seq<SessionEntry>, n: nat, live: map<string, Liveness>)
    requires n < |entries|
    requires forall i, j :: 0 <= i < j < |entries| ==> entries[i].sessionId != entries[j].sessionId
    ensures forall r <- RoutesFor(base, entries[..n], live) :: r.sessionId != entries[n].sessionId
    ensures RouteFor(base, entries[n], live).sessionId == entries[n].sessionId
  {
    hide RoutesFor, Usable;
    RoutesForMembers(base, entries[..n], live);
  }

  // ---------------------------------------------------------------- what a row says of its route

  predicate Slash(c: char) { c == '/' }

  /** A row counts when its session id, its token and its project each hold a character that is not
      white space. */
  lemma UsableIff(e: SessionEntry)
    ensures Usable(e) <==> !All(e.sessionId, White) && !All(e.token, White) && !All(e.project, White)
  {
    TrimEmptyIff(e.sessionId);
    TrimEmptyIff(e.token);
    TrimEmptyIff(e.project);
  }

  /** The row's mode, up to white space around it and the case of its letters, is this word. */
  ghost predicate Says(text: string, word: string) {
    exists t :: Stripped(text, t, White) && SameWord(t, word)
  }

  lemma SaysIff(text: string, word: string)
    requires forall i :: 0 <= i < |word| ==> !(65 <= word[i] as int <= 90)
    ensures ToLower(Trim(text)) == word <==> Says(text, word)
  {
    hide Stripped;
    var t := Trim(text);
    TrimIff(text, t);
    ToLowerIff(t, word);
    if Says(text, word) {
      var u :| Stripped(text, u, White) && SameWord(u, word);
      TrimIff(text, u);
    }
  }

  lemma ModeWords()
    ensures forall i :: 0 <= i < |"terminal"| ==> !(65 <= "terminal"[i] as int <= 90)
    ensures forall i :: 0 <= i < |"structured"| ==> !(65 <= "structured"[i] as int <= 90)
  {
  }

  /** A row that says "terminal" or "structured" pins that mode; any other leaves it to the session's
      record, or to the terminal when the session is not in the list. */
  lemma RowPinsMode(base: string, e: SessionEntry, live: map<string, Liveness>)
    ensures var r := RouteFor(base, e, live);
            && (Says(e.mode, "terminal") ==> r.mode == Terminal && !r.autoMode)
            && (Says(e.mode, "structured") ==> r.mode == Structured && !r.autoMode)
            && (!Says(e.mode, "terminal") && !Says(e.mode, "structured") ==>
                  r.autoMode && r.mode == if e.sessionId in live then InferAutoMode(live[e.sessionId]) else Terminal)
  {
    hide Trim, ToLower, JoinBase, TrimSlashes, InferAutoMode, Says;
    ModeWords();
    SaysIff(e.mode, "terminal");
    SaysIff(e.mode, "structured");
    assert "terminal" != "structured" by { assert |"terminal"| != |"structured"|; }
  }

  /** Where the route's addresses come from: `root` is the base without white space around it and
      without slashes behind it, `project` the row's project without white space and then without
      slashes around it. */
  ghost predicate Addressed(r: Route, base: string, e: SessionEntry, root: string) {
    && (root != "" ==> root[|root| - 1] != '/')
    && (exists b, slashes :: Stripped(base, b, White) && All(slashes, Slash) && b == root + slashes)
    && (exists p :: Stripped(e.project, p, White) && Stripped(p, r.project, Slash))
    && r.endpoint == root + "/api/" + r.project
    && r.mcpUrl == if e.exposeMcp then Some(root + "/mcp/" + r.project) else None
  }

  /** The rest of the route is the row's own: its session and token, and whether the session is in
      the list; its addresses lie under the base, at the row's project. */
  lemma RowGivesAddresses(base: string, e: SessionEntry, live: map<string, Liveness>)
    ensures var r := RouteFor(base, e, live);
            && r.sessionId == e.sessionId && r.token == e.token && (r.live <==> e.sessionId in live)
            && exists root :: Addressed(r, base, e, root)
  {
    var r := RouteFor(base, e, live);
    assert r.project == TrimSlashes(Trim(e.project));
    hide RouteFor, Stripped, White, TrimSlashes, Trim, DropBack;
    var root := BaseRoot(base);
    TrimIff(e.project, Trim(e.project));
    SlashesStripped(Trim(e.project));
    RouteAddresses(base, e, live, root);
    assert Addressed(r, base, e, root);
  }

  lemma RouteAddresses(base: string, e: SessionEntry, live: map<string, Liveness>, root: string)
    requires root == DropBack(Trim(base), c => c == '/')
    ensures var r := RouteFor(base, e, live);
            && r.sessionId == e.sessionId && r.token == e.token && (r.live <==> e.sessionId in live)
            && r.endpoint == root + "/api/" + r.project
            && r.mcpUrl == if e.exposeMcp then Some(root + "/mcp/" + r.project) else None
  {
    hide DropBack, Trim, TrimSlashes, InferAutoMode, ToLower;
    var p := TrimSlashes(Trim(e.project));
    assert root + "/" + "api" + "/" + p == root + "/api/" + p;
    assert root + "/" + "mcp" + "/" + p == root + "/mcp/" + p;
  }

  lemma BaseRoot(base: string) returns (root: string)
    ensures root == DropBack(Trim(base), c => c == '/')
    ensures root != "" ==> root[|root| - 1] != '/'
    ensures exists b, slashes :: Stripped(base, b, White) && All(slashes, Slash) && b == root + slashes
  {
    hide Stripped, White;
    var slash := c => c == '/';
    root := DropBack(Trim(base), slash);
    var slashes := DropBackSplits(Trim(base), slash);
    TrimIff(base, Trim(base));
    assert All(slashes, Slash);
  }

  lemma SlashesStripped(p: string)
    ensures Stripped(p, TrimSlashes(p), Slash)
  {
    var drop := c => c == '/';
    DropBothIsStripped(p, drop);
    var t := TrimSlashes(p);
    var front, back :| All(front, drop) && All(back, drop) && p == front + t + back;
    assert All(front, Slash) && All(back, Slash);
  }

  /** A session is switched only for a row that exposes the tools, and only when the setting is on;
      the switch makes an automatic route structured and leaves everything else of it alone. */
  lemma OnlyExposedRowsSwitch(base: string, e: SessionEntry, live: map<string, Liveness>, ensureAcp: bool)
    ensures var r := RouteFor(base, e, live);
            && (r.WantsAcp(ensureAcp) <==> ensureAcp && e.exposeMcp)
            && r.PromotedAfterAcp() == (if r.autoMode then r.(mode := Structured) else r)
  {
    hide InferAutoMode, JoinBase, TrimSlashes, ToLower, Trim;
  }

  // ---------------------------------------------------------------- what decides a mode

  /** A record states a view only by one of the two words. */
  lemma ViewModeIff(view: string)
    ensures ViewMode(view) == Some(Structured) <==> Says(view, "structured")
    ensures ViewMode(view) == Some(Terminal) <==> Says(view, "terminal")
  {
    hide Trim, ToLower, Says;
    ModeWords();
    SaysIff(view, "terminal");
    SaysIff(view, "structured");
    assert "terminal" != "structured" by { assert |"terminal"| != |"structured"|; }
  }

  /** Without a stated view a record means structured when a worker is there, or when tool or status
      hold one of four words. */
  lemma InferAutoModeIff(r: Liveness)
    ensures InferAutoMode(r) == Structured <==>
              (if ViewMode(r.view).Some? then ViewMode(r.view).value == Structured
               else (r.acpWorkerState != "" && r.acpWorkerState != "absent")
                    || exists w <- ["structured", "acp", "composer", "cityhall"] :: HoldsWord(r.tool + " " + r.status, w))
  {
    hide ViewMode, HoldsWord, Contains, ToLower;
    var signal := r.tool + " " + r.status;
    SignalWords();
    LowerContainsIff(signal, "structured");
    LowerContainsIff(signal, "acp");
    LowerContainsIff(signal, "composer");
    LowerContainsIff(signal, "cityhall");
  }

  lemma SignalWords()
    ensures forall i :: 0 <= i < |"structured"| ==> !(65 <= "structured"[i] as int <= 90)
    ensures forall i :: 0 <= i < |"acp"| ==> !(65 <= "acp"[i] as int <= 90)
    ensures forall i :: 0 <= i < |"composer"| ==> !(65 <= "composer"[i] as int <= 90)
    ensures forall i :: 0 <= i < |"cityhall"| ==> !(65 <= "cityhall"[i] as int <= 90)
  {
  }

  /** Who decides the mode of a frame. A pin decides alone. Else a stated view decides whatever was
      learned; what was learned decides whatever the other signals are; and without record and
      lesson the frame goes where the route was resolved to. */
  lemma WhoDecides(route: Route, record: Option<Liveness>, learned: Option<Mode>)
    ensures !route.autoMode ==> EffectiveMode(route, record, learned) == route.mode
    ensures forall r :: route.autoMode && record == Some(r) && Says(r.view, "structured") ==> EffectiveMode(route, record, learned) == Structured
    ensures forall r :: route.autoMode && record == Some(r) && Says(r.view, "terminal") ==> EffectiveMode(route, record, learned) == Terminal
    ensures forall m :: route.autoMode && learned == Some(m)
                        && (record.None? || (!Says(record.value.view, "structured") && !Says(record.value.view, "terminal"))) ==>
              EffectiveMode(route, record, learned) == m
    ensures forall r :: route.autoMode && learned == None && record == Some(r) ==> EffectiveMode(route, record, learned) == InferAutoMode(r)
    ensures route.autoMode && record.None? && learned.None? ==> EffectiveMode(route, record, learned) == route.mode
  {
    hide ViewMode, Says, NormalizeMode;
    if record.Some? {
      ViewModeIff(record.value.view);
    }
  }

  // ---------------------------------------------------------------- fingerprints

  predicate Barless(s: string) { '|' !in s }

  lemma FirstBar(a: string, x: string)
    requires Barless(a)
    ensures var s := a + "|" + x;
            s[|a|] == '|' && s[..|a|] == a && s[|a| + 1..] == x && forall i :: 0 <= i < |a| ==> s[i] != '|'
  {
  }

  lemma BarSplits(a: string, b: string, x: string, y: string)
    requires Barless(a) && Barless(b)
    ensures a + "|" + x == b + "|" + y <==> a == b && x == y
  {
    FirstBar(a, x);
    FirstBar(b, y);
  }

  /** A task is kept exactly while address, token, and base and token of the host stay what they are,
      given that the first three hold no bar. */
  lemma FingerprintIff(r: Route, base: string, token: string, r': Route, base': string, token': string)
    requires Barless(r.endpoint) && Barless(r'.endpoint) && Barless(r.token) && Barless(r'.token) && Barless(base) && Barless(base')
    ensures r.Fingerprint(base, token) == r'.Fingerprint(base', token') <==>
              r.endpoint == r'.endpoint && r.token == r'.token && base == base' && token == token'
  {
    BarSplits(r.endpoint, r'.endpoint, r.token + "|" + base + "|" + token, r'.token + "|" + base' + "|" + token');
    BarSplits(r.token, r'.token, base + "|" + token, base' + "|" + token');
    BarSplits(base, base', token, token');
    FingerprintGroups(r, base, token);
    FingerprintGroups(r', base', token');
  }

  lemma FingerprintGroups(r: Route, base: string, token: string)
    ensures r.Fingerprint(base, token) == r.endpoint + "|" + (r.token + "|" + base + "|" + token)
    ensures r.token + "|" + base + "|" + token == r.token + "|" + (base + "|" + token)
  {
    assert r.token + "|" + base + "|" + token == r.token + "|" + (base + "|" + token);
    assert r.endpoint + "|" + (r.token + "|" + base + "|" + token) == r.endpoint + "|" + r.token + "|" + base + "|" + token;
  }
}
