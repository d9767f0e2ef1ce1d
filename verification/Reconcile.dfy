/** The reconcile loop: which delivery tasks it holds, and the guards it keeps beside them. */
module Reconcile {
  import opened Routing
  import opened Wrappers
  import Strings

  /** A running delivery task: its identity, and the fingerprint and mode it was spawned with. */
  datatype Task = Task(fingerprint: string, mode: Mode, id: nat)

  /** A session's tool layer on the host. */
  datatype Layer = Cleared | Servers(url: string, token: string)

  /** Everything the loop carries from pass to pass. `spawned` counts the tasks started so far,
      `layers` is the layer the host last acknowledged for each session, and `sent` counts the calls
      made to the host about each session, whether they succeeded or not. */
  datatype Held = Held(
    tasks: map<string, Task>,
    spawned: nat,
    mcpSet: map<string, string>,
    acpMode: map<string, bool>,
    learned: map<string, Mode>,
    layers: map<string, Layer>,
    sent: map<string, nat>)

  const Idle := Held(map[], 0, map[], map[], map[], map[], map[])

  function Sent(h: Held, k: string): nat { if k in h.sent then h.sent[k] else 0 }

  function Sending(h: Held, k: string): Held { h.(sent := h.sent[k := Sent(h, k) + 1]) }

  function LayerPrint(url: string, token: string): string { url + "|" + token }

  /** Two layers count as the same exactly when url and token are, given urls without a bar. */
  lemma LayerPrintIff(url: string, token: string, url': string, token': string)
    requires Barless(url) && Barless(url')
    ensures LayerPrint(url, token) == LayerPrint(url', token') <==> url == url' && token == token'
  {
    BarSplits(url, url', token, token');
  }

  function EnsureMcp(h: Held, r: Route, ok: bool): Held {
    var k := r.sessionId;
    match r.mcpUrl
    case Some(url) =>
      var mark := LayerPrint(url, r.token);
      if k in h.mcpSet && h.mcpSet[k] == mark then h
      else
        var h1 := Sending(h, k);
        if ok then h1.(mcpSet := h.mcpSet[k := mark], layers := h.layers[k := Servers(url, r.token)]) else h1
    case None =>
      if k in h.mcpSet then
        Sending(h, k).(mcpSet := h.mcpSet - {k}, layers := if ok then h.layers[k := Cleared] else h.layers)
      else h
  }

  /** Switches the session once; later passes reuse the outcome. */
  function EnsureAcp(h: Held, r: Route, ok: bool): Held {
    var k := r.sessionId;
    if k in h.acpMode then h
    else if ok then Sending(h, k).(acpMode := h.acpMode[k := true], learned := h.learned[k := Structured])
    else Sending(h, k).(acpMode := h.acpMode[k := false])
  }

  function EnsureTask(h: Held, k: string, mark: string, mode: Mode): Held {
    if k in h.tasks && h.tasks[k].fingerprint == mark then h
    else h.(tasks := h.tasks[k := Task(mark, mode, h.spawned)], spawned := h.spawned + 1)
  }

  function ReconcileRoute(h: Held, s: Settings, r: Route, mcpOk: bool, acpOk: bool): Held {
    if !r.live then h.(tasks := h.tasks - {r.sessionId})
    else
      var h1 := EnsureMcp(h, r, mcpOk);
      if r.WantsAcp(s.ensureAcp) then
        var h2 := EnsureAcp(h1, r, acpOk);
        var r' := if h2.acpMode[r.sessionId] then r.PromotedAfterAcp() else r;
        EnsureTask(h2, r.sessionId, r'.Fingerprint(s.aoeBase, s.aoeToken), r'.mode)
      else EnsureTask(h1, r.sessionId, r.Fingerprint(s.aoeBase, s.aoeToken), r.mode)
  }

  function ReconcileRoutes(h: Held, s: Settings, rs: seq<Route>, mcpOk: nat -> bool, acpOk: nat -> bool): Held {
    if rs == [] then h
    else
      var n := |rs| - 1;
      ReconcileRoute(ReconcileRoutes(h, s, rs[..n], mcpOk, acpOk), s, rs[n], mcpOk(n), acpOk(n))
  }

  function LiveIds(rs: seq<Route>): set<string> {
    set r | r in rs && r.live :: r.sessionId
  }

  function Without(h: Held, gone: set<string>): Held {
    h.(tasks := h.tasks - gone, mcpSet := h.mcpSet - gone, acpMode := h.acpMode - gone, learned := h.learned - gone)
  }

  lemma WithoutOneMore(h: Held, gone: set<string>, k: string)
    ensures Without(Without(h, gone), {k}) == Without(h, gone + {k})
  {
  }

  lemma WithoutNone(h: Held)
    ensures Without(h, {}) == h
  {
  }

  lemma NoLiveIds()
    ensures LiveIds([]) == {}
  {
  }

  lemma LiveIdsSnoc(rs: seq<Route>, i: nat)
    requires i < |rs|
    ensures LiveIds(rs[..i + 1]) == LiveIds(rs[..i]) + if rs[i].live then {rs[i].sessionId} else {}
  {
    assert rs[..i + 1] == rs[..i] + [rs[i]];
  }

  /** Forgets every held session that no live route wants, guards included. */
  function DropStale(h: Held, wanted: set<string>): Held {
    Without(h, h.tasks.Keys - wanted)
  }

  function EnabledPass(h: Held, s: Settings, rs: seq<Route>, mcpOk: nat -> bool, acpOk: nat -> bool): Held {
    DropStale(ReconcileRoutes(h, s, rs, mcpOk, acpOk), LiveIds(rs))
  }

  function Pass(h: Held, s: Settings, live: map<string, Liveness>, mcpOk: nat -> bool, acpOk: nat -> bool): Held {
    if !s.enabled then Held(map[], h.spawned, map[], map[], map[], h.layers, h.sent)
    else EnabledPass(h, s, ResolvedRoutes(s, live), mcpOk, acpOk)
  }

  // ---------------------------------------------------------------- as it runs

  class Bridge {
    var tasks: map<string, Task>
    var spawned: nat
    var mcpSet: map<string, string>
    var acpMode: map<string, bool>
    var learned: map<string, Mode>
    ghost var layers: map<string, Layer>
    ghost var sent: map<string, nat>

    constructor ()
      ensures Snapshot() == Idle
    {
      tasks, spawned, mcpSet, acpMode, learned, layers, sent := map[], 0, map[], map[], map[], map[], map[];
    }

    ghost function Snapshot(): Held
      reads this
    {
      Held(tasks, spawned, mcpSet, acpMode, learned, layers, sent)
    }

    method EnsureSessionMcp(r: Route, ok: bool)
      modifies this
      ensures Snapshot() == EnsureMcp(old(Snapshot()), r, ok)
    {
      match r.mcpUrl {
        case Some(url) =>
          var mark := LayerPrint(url, r.token);
          if r.sessionId in mcpSet && mcpSet[r.sessionId] == mark {
            return;
          }
          sent := Sending(Snapshot(), r.sessionId).sent;
          if ok {
            mcpSet := mcpSet[r.sessionId := mark];
            layers := layers[r.sessionId := Servers(url, r.token)];
          }
        case None =>
          if r.sessionId in mcpSet {
            mcpSet := mcpSet - {r.sessionId};
            sent := Sending(Snapshot(), r.sessionId).sent;
            if ok {
              layers := layers[r.sessionId := Cleared];
            }
          }
      }
    }

    method EnsureAcpMode(r: Route, ok: bool) returns (known: bool)
      modifies this
      ensures Snapshot() == EnsureAcp(old(Snapshot()), r, ok)
      ensures r.sessionId in acpMode && known == acpMode[r.sessionId]
    {
      if r.sessionId in acpMode {
        return acpMode[r.sessionId];
      }
      sent := Sending(Snapshot(), r.sessionId).sent;
      acpMode := acpMode[r.sessionId := ok];
      if ok {
        learned := learned[r.sessionId := Structured];
      }
      return ok;
    }

    method ReconcileOne(s: Settings, r: Route, mcpOk: bool, acpOk: bool)
      modifies this
      ensures Snapshot() == ReconcileRoute(old(Snapshot()), s, r, mcpOk, acpOk)
    {
      if !r.live {
        tasks := tasks - {r.sessionId};
        return;
      }
      var route := r;
      EnsureSessionMcp(route, mcpOk);
      if route.WantsAcp(s.ensureAcp) {
        var known := EnsureAcpMode(route, acpOk);
        if known {
          route := route.PromotedAfterAcp();
        }
      }
      var mark := route.Fingerprint(s.aoeBase, s.aoeToken);
      if !(route.sessionId in tasks && tasks[route.sessionId].fingerprint == mark) {
        tasks := tasks[route.sessionId := Task(mark, route.mode, spawned)];
        spawned := spawned + 1;
      }
    }

    method Forget(k: string)
      modifies this
      ensures Snapshot() == Without(old(Snapshot()), {k})
    {
      tasks, mcpSet, acpMode, learned := tasks - {k}, mcpSet - {k}, acpMode - {k}, learned - {k};
    }

    method TearDown(wanted: set<string>)
      modifies this
      ensures Snapshot() == DropStale(old(Snapshot()), wanted)
    {
      var stale := tasks.Keys - wanted;
      var left := stale;
      ghost var gone: set<string> := {};
      hide Without;
      WithoutNone(Snapshot());
      while left != {}
        invariant left + gone == stale
        invariant Snapshot() == Without(old(Snapshot()), gone)
      {
        var k :| k in left;
        WithoutOneMore(old(Snapshot()), gone, k);
        Forget(k);
        left, gone := left - {k}, gone + {k};
      }
      assert gone == stale;
    }

    method RunEnabled(s: Settings, routes: seq<Route>, mcpOk: nat -> bool, acpOk: nat -> bool)
      modifies this
      ensures Snapshot() == EnabledPass(old(Snapshot()), s, routes, mcpOk, acpOk)
    {
      hide ReconcileRoute, DropStale, LiveIds;
      NoLiveIds();
      var wanted := {};
      for i := 0 to |routes|
        invariant Snapshot() == ReconcileRoutes(old(Snapshot()), s, routes[..i], mcpOk, acpOk)
        invariant wanted == LiveIds(routes[..i])
      {
        assert routes[..i + 1][..i] == routes[..i];
        LiveIdsSnoc(routes, i);
        if routes[i].live {
          wanted := wanted + {routes[i].sessionId};
        }
        ReconcileOne(s, routes[i], mcpOk(i), acpOk(i));
      }
      assert routes[..|routes|] == routes;
      TearDown(wanted);
    }

    /** One pass over the settings and the session list; `mcpOk` and `acpOk` say which calls to the
        host succeed. */
    method RunPass(s: Settings, live: map<string, Liveness>, mcpOk: nat -> bool, acpOk: nat -> bool)
      modifies this
      ensures Snapshot() == Pass(old(Snapshot()), s, live, mcpOk, acpOk)
    {
      hide EnabledPass, ResolvedRoutes;
      if !s.enabled {
        tasks, mcpSet, acpMode, learned := map[], map[], map[], map[];
        return;
      }
      var routes := ResolveRoutes(s, live);
      RunEnabled(s, routes, mcpOk, acpOk);
    }
  }

  // ---------------------------------------------------------------- which tasks are held

  predicate SameAt<T(==)>(a: map<string, T>, b: map<string, T>, k: string) {
    && (k in a <==> k in b)
    && (k in b ==> a[k] == b[k])
  }

  /** The guard entries of session `k` agree. */
  predicate SameGuards(a: Held, b: Held, k: string) {
    SameAt(a.mcpSet, b.mcpSet, k) && SameAt(a.acpMode, b.acpMode, k) && SameAt(a.learned, b.learned, k)
    && SameAt(a.layers, b.layers, k) && SameAt(a.sent, b.sent, k)
  }

  /** `h'` holds the tasks of `h`, and the guards of every session but `k`. */
  ghost predicate OnlyGuardsOf(h': Held, h: Held, k: string) {
    && h'.tasks == h.tasks && h'.spawned == h.spawned
    && forall j :: j != k ==> SameGuards(h', h, j)
  }

  /** Setting up the layer touches the guard, the layer and the count of the route's session. */
  lemma EnsureMcpShape(h: Held, r: Route, ok: bool)
    ensures var h' := EnsureMcp(h, r, ok);
            && h' == h.(mcpSet := h'.mcpSet, layers := h'.layers, sent := h'.sent)
            && (forall j :: j != r.sessionId ==> SameAt(h'.mcpSet, h.mcpSet, j))
            && (forall j :: j != r.sessionId ==> SameAt(h'.layers, h.layers, j))
            && (forall j :: j != r.sessionId ==> SameAt(h'.sent, h.sent, j))
  {
    hide LayerPrint, Sent;
    match r.mcpUrl
    case Some(url) => if r.sessionId in h.mcpSet && h.mcpSet[r.sessionId] == LayerPrint(url, r.token) {} else {}
    case None => if r.sessionId in h.mcpSet {} else {}
  }

  lemma EnsureMcpElsewhere(h: Held, r: Route, ok: bool, j: string)
    requires j != r.sessionId
    ensures SameGuards(EnsureMcp(h, r, ok), h, j)
  {
    EnsureMcpShape(h, r, ok);
    hide EnsureMcp;
  }

  lemma EnsureAcpElsewhere(h: Held, r: Route, ok: bool, j: string)
    requires j != r.sessionId
    ensures SameGuards(EnsureAcp(h, r, ok), h, j)
  {
    hide Sent;
  }

  lemma EnsureMcpTouches(h: Held, r: Route, ok: bool)
    ensures OnlyGuardsOf(EnsureMcp(h, r, ok), h, r.sessionId)
  {
    hide SameGuards, LayerPrint, Sent;
    forall j | j != r.sessionId ensures SameGuards(EnsureMcp(h, r, ok), h, j) {
      EnsureMcpElsewhere(h, r, ok, j);
    }
  }

  lemma EnsureAcpTouches(h: Held, r: Route, ok: bool)
    ensures OnlyGuardsOf(EnsureAcp(h, r, ok), h, r.sessionId)
    ensures r.sessionId in EnsureAcp(h, r, ok).acpMode
  {
    hide SameGuards, Sent;
    forall j | j != r.sessionId ensures SameGuards(EnsureAcp(h, r, ok), h, j) {
      EnsureAcpElsewhere(h, r, ok, j);
    }
  }

  /** The state with the route's session set up, before its task is looked at. */
  function Prepared(h: Held, s: Settings, r: Route, mcpOk: bool, acpOk: bool): Held {
    var h1 := EnsureMcp(h, r, mcpOk);
    if r.WantsAcp(s.ensureAcp) then EnsureAcp(h1, r, acpOk) else h1
  }

  lemma PreparedTouches(h: Held, s: Settings, r: Route, mcpOk: bool, acpOk: bool)
    ensures OnlyGuardsOf(Prepared(h, s, r, mcpOk, acpOk), h, r.sessionId)
  {
    hide EnsureMcp, EnsureAcp;
    EnsureMcpTouches(h, r, mcpOk);
    var h1 := EnsureMcp(h, r, mcpOk);
    EnsureAcpTouches(h1, r, acpOk);
    forall j | j != r.sessionId ensures SameGuards(EnsureAcp(h1, r, acpOk), h, j) {
      assert SameGuards(EnsureAcp(h1, r, acpOk), h1, j) && SameGuards(h1, h, j);
    }
  }

  lemma ReconcileRouteParts(h: Held, s: Settings, r: Route, mcpOk: bool, acpOk: bool)
    requires r.live
    ensures ReconcileRoute(h, s, r, mcpOk, acpOk)
         == EnsureTask(Prepared(h, s, r, mcpOk, acpOk), r.sessionId, r.Fingerprint(s.aoeBase, s.aoeToken), SpawnMode(h, s, r, acpOk))
  {
    hide EnsureTask;
    PreparedAcp(h, s, r, mcpOk, acpOk);
    ModeFlipKeepsFingerprint(r, Structured, s.aoeBase, s.aoeToken);
  }

  /** Whether the session is known to be switched once it has been set up: the answer to the one
      request made for it. */
  predicate KnownAcp(h: Held, r: Route, acpOk: bool) {
    if r.sessionId in h.acpMode then h.acpMode[r.sessionId] else acpOk
  }

  /** The mode a task spawned now runs with. */
  function SpawnMode(h: Held, s: Settings, r: Route, acpOk: bool): Mode {
    if r.WantsAcp(s.ensureAcp) && KnownAcp(h, r, acpOk) && r.autoMode then Structured else r.mode
  }

  lemma PreparedAcp(h: Held, s: Settings, r: Route, mcpOk: bool, acpOk: bool)
    ensures var p := Prepared(h, s, r, mcpOk, acpOk);
            if r.WantsAcp(s.ensureAcp) then r.sessionId in p.acpMode && p.acpMode[r.sessionId] == KnownAcp(h, r, acpOk)
            else p.acpMode == h.acpMode
    ensures LearnedOutcome(Prepared(h, s, r, mcpOk, acpOk), h, s, r, acpOk)
  {
    McpKeepsAcp(h, r, mcpOk);
    hide EnsureMcp, SameAt, Sending;
    AcpOutcome(EnsureMcp(h, r, mcpOk), r, acpOk);
    hide EnsureAcp;
    SameAtSelf(h.learned, r.sessionId);
  }

  lemma McpKeepsAcp(h: Held, r: Route, ok: bool)
    ensures EnsureMcp(h, r, ok).acpMode == h.acpMode && EnsureMcp(h, r, ok).learned == h.learned
  {
    hide LayerPrint;
  }

  lemma AcpOutcome(h: Held, r: Route, ok: bool)
    ensures var h' := EnsureAcp(h, r, ok);
            var k := r.sessionId;
            && k in h'.acpMode && h'.acpMode[k] == KnownAcp(h, r, ok)
            && (if k !in h.acpMode && ok then k in h'.learned && h'.learned[k] == Structured else h'.learned == h.learned)
  {
  }

  lemma SameAtSelf<T>(m: map<string, T>, k: string)
    ensures SameAt(m, m, k)
  {
  }

  /** A switch the host grants now teaches the mode; nothing else does. */
  predicate LearnedOutcome(h': Held, h: Held, s: Settings, r: Route, acpOk: bool) {
    var k := r.sessionId;
    if r.WantsAcp(s.ensureAcp) && k !in h.acpMode && acpOk then k in h'.learned && h'.learned[k] == Structured
    else SameAt(h'.learned, h.learned, k)
  }

  /** What a pass makes of a live route: its task under its fingerprint, kept if the fingerprint
      did not change and else new, in the mode the switch calls for; and the switch asked for at
      most once. */
  predicate TaskOutcome(h': Held, h: Held, s: Settings, r: Route, acpOk: bool) {
    var k := r.sessionId;
    var mark := r.Fingerprint(s.aoeBase, s.aoeToken);
    && k in h'.tasks && h'.tasks[k].fingerprint == mark
    && (if k in h.tasks && h.tasks[k].fingerprint == mark
        then h'.tasks[k] == h.tasks[k]
        else h.spawned <= h'.tasks[k].id < h'.spawned && h'.tasks[k].mode == SpawnMode(h, s, r, acpOk))
    && (if r.WantsAcp(s.ensureAcp)
        then k in h'.acpMode && h'.acpMode[k] == KnownAcp(h, r, acpOk)
        else SameAt(h'.acpMode, h.acpMode, k))
    && LearnedOutcome(h', h, s, r, acpOk)
  }

  lemma ReconcileRouteTask(h: Held, s: Settings, r: Route, mcpOk: bool, acpOk: bool)
    ensures var h' := ReconcileRoute(h, s, r, mcpOk, acpOk);
            && h.spawned <= h'.spawned
            && (if r.live then TaskOutcome(h', h, s, r, acpOk) else h' == h.(tasks := h.tasks - {r.sessionId}))
  {
    if r.live {
      hide ReconcileRoute, Prepared, Routing.Route.Fingerprint, Routing.Route.WantsAcp, SpawnMode;
      ReconcileRouteParts(h, s, r, mcpOk, acpOk);
      PreparedTouches(h, s, r, mcpOk, acpOk);
      PreparedAcp(h, s, r, mcpOk, acpOk);
    }
  }

  /** Sessions no route mentions are left alone by the routes. */
  lemma {:induction false} RoutesFrame(h: Held, s: Settings, rs: seq<Route>, mcpOk: nat -> bool, acpOk: nat -> bool, k: string)
    requires forall r <- rs :: r.sessionId != k
    ensures var h' := ReconcileRoutes(h, s, rs, mcpOk, acpOk);
            SameAt(h'.tasks, h.tasks, k) && SameGuards(h', h, k)
  {
    if rs != [] {
      hide ReconcileRoute;
      var n := |rs| - 1;
      RoutesFrame(h, s, rs[..n], mcpOk, acpOk, k);
      OtherRoute(ReconcileRoutes(h, s, rs[..n], mcpOk, acpOk), s, rs[n], mcpOk(n), acpOk(n), k);
    }
  }

  lemma {:induction false} RoutesTask(h: Held, s: Settings, rs: seq<Route>, mcpOk: nat -> bool, acpOk: nat -> bool, i: nat)
    requires DistinctRoutes(rs) && i < |rs|
    ensures var h' := ReconcileRoutes(h, s, rs, mcpOk, acpOk);
            && h.spawned <= h'.spawned
            && (if rs[i].live then TaskOutcome(h', h, s, rs[i], acpOk(i))
                else rs[i].sessionId !in h'.tasks && SameGuards(h', h, rs[i].sessionId))
  {
    hide ReconcileRoute, TaskOutcome;
    var n := |rs| - 1;
    var h1 := ReconcileRoutes(h, s, rs[..n], mcpOk, acpOk);
    var h' := ReconcileRoute(h1, s, rs[n], mcpOk(n), acpOk(n));
    var k := rs[i].sessionId;
    ReconcileRouteTask(h1, s, rs[n], mcpOk(n), acpOk(n));
    if i < n {
      hide SameGuards;
      RoutesTask(h, s, rs[..n], mcpOk, acpOk, i);
      OtherRoute(h1, s, rs[n], mcpOk(n), acpOk(n), k);
      SameGuardsTrans(h', h1, h, k);
      OutcomeKept(h', h1, h, s, rs[i], acpOk(i));
    } else {
      RoutesFrame(h, s, rs[..n], mcpOk, acpOk, k);
      SpawnedGrows(h, s, rs[..n], mcpOk, acpOk);
      OutcomeFromEarlier(h', h1, h, s, rs[n], acpOk(n));
    }
  }

  lemma OutcomeKept(h': Held, h1: Held, h: Held, s: Settings, r: Route, acpOk: bool)
    requires SameAt(h'.tasks, h1.tasks, r.sessionId) && SameGuards(h', h1, r.sessionId) && h1.spawned <= h'.spawned
    ensures TaskOutcome(h1, h, s, r, acpOk) ==> TaskOutcome(h', h, s, r, acpOk)
  {
    hide SpawnMode, Routing.Route.Fingerprint;
  }

  lemma OutcomeFromEarlier(h': Held, h1: Held, h: Held, s: Settings, r: Route, acpOk: bool)
    requires SameAt(h1.tasks, h.tasks, r.sessionId) && SameGuards(h1, h, r.sessionId) && h.spawned <= h1.spawned
    ensures TaskOutcome(h', h1, s, r, acpOk) ==> TaskOutcome(h', h, s, r, acpOk)
  {
    hide Routing.Route.Fingerprint;
  }

  lemma SameGuardsTrans(a: Held, b: Held, c: Held, k: string)
    requires SameGuards(a, b, k)
    ensures SameGuards(b, c, k) ==> SameGuards(a, c, k)
  {
  }

  lemma OtherRoute(h: Held, s: Settings, r: Route, mcpOk: bool, acpOk: bool, k: string)
    requires r.sessionId != k
    ensures var h' := ReconcileRoute(h, s, r, mcpOk, acpOk);
            SameAt(h'.tasks, h.tasks, k) && SameGuards(h', h, k) && h.spawned <= h'.spawned
  {
    hide Prepared, ReconcileRoute, SameAt, Routing.Route.Fingerprint, SpawnMode;
    if r.live {
      ReconcileRouteParts(h, s, r, mcpOk, acpOk);
      PreparedTouches(h, s, r, mcpOk, acpOk);
      var p := Prepared(h, s, r, mcpOk, acpOk);
      EnsureTaskElsewhere(p, r.sessionId, r.Fingerprint(s.aoeBase, s.aoeToken), SpawnMode(h, s, r, acpOk), k);
      assert SameGuards(p, h, k);
    } else {
      ReconcileRouteTask(h, s, r, mcpOk, acpOk);
      DroppedElsewhere(h, r.sessionId, k);
    }
  }

  lemma EnsureTaskElsewhere(h: Held, j: string, mark: string, mode: Mode, k: string)
    requires j != k
    ensures var h' := EnsureTask(h, j, mark, mode);
            SameAt(h'.tasks, h.tasks, k) && h.spawned <= h'.spawned && h' == h.(tasks := h'.tasks, spawned := h'.spawned)
  {
  }

  lemma DroppedElsewhere(h: Held, j: string, k: string)
    requires j != k
    ensures SameAt(h.tasks - {j}, h.tasks, k)
    ensures SameGuards(h.(tasks := h.tasks - {j}), h, k)
  {
  }

  lemma {:induction false} SpawnedGrows(h: Held, s: Settings, rs: seq<Route>, mcpOk: nat -> bool, acpOk: nat -> bool)
    ensures h.spawned <= ReconcileRoutes(h, s, rs, mcpOk, acpOk).spawned
  {
    if rs != [] {
      hide ReconcileRoute, Routing.Route.Fingerprint;
      var n := |rs| - 1;
      SpawnedGrows(h, s, rs[..n], mcpOk, acpOk);
      ReconcileRouteTask(ReconcileRoutes(h, s, rs[..n], mcpOk, acpOk), s, rs[n], mcpOk(n), acpOk(n));
    }
  }

  /** After an enabled pass over distinct sessions the held tasks are exactly the live routes, each
      under its route's fingerprint; a session whose fingerprint did not change keeps its task,
      whatever happened to its mode, and only the others get a new one. A new task of a session the
      host has switched, now or on an earlier pass, runs structured unless its row is pinned. */
  lemma HeldTasksAreLiveRoutes(h: Held, s: Settings, rs: seq<Route>, mcpOk: nat -> bool, acpOk: nat -> bool)
    requires DistinctRoutes(rs)
    ensures var h' := EnabledPass(h, s, rs, mcpOk, acpOk);
            && (forall k :: k in h'.tasks <==> exists r <- rs :: r.live && r.sessionId == k)
            && (forall i :: 0 <= i < |rs| && rs[i].live ==> TaskOutcome(h', h, s, rs[i], acpOk(i)))
  {
    hide ReconcileRoutes, TaskOutcome;
    var h1 := ReconcileRoutes(h, s, rs, mcpOk, acpOk);
    var wanted := LiveIds(rs);
    forall i | 0 <= i < |rs| && rs[i].live ensures TaskOutcome(DropStale(h1, wanted), h, s, rs[i], acpOk(i)) {
      RoutesTask(h, s, rs, mcpOk, acpOk, i);
      assert rs[i].sessionId in wanted;
      OutcomeSurvives(h1, wanted, h, s, rs[i], acpOk(i));
    }
    forall k ensures k in DropStale(h1, wanted).tasks <==> exists r <- rs :: r.live && r.sessionId == k {
      if r :| r in rs && r.live && r.sessionId == k {
        var i :| 0 <= i < |rs| && rs[i] == r;
        OutcomeHolds(DropStale(h1, wanted), h, s, rs[i], acpOk(i));
      }
    }
  }

  lemma OutcomeHolds(h': Held, h: Held, s: Settings, r: Route, acpOk: bool)
    ensures TaskOutcome(h', h, s, r, acpOk) ==> r.sessionId in h'.tasks
  {
  }

  lemma OutcomeSurvives(h1: Held, wanted: set<string>, h: Held, s: Settings, r: Route, acpOk: bool)
    requires r.sessionId in wanted && TaskOutcome(h1, h, s, r, acpOk)
    ensures TaskOutcome(DropStale(h1, wanted), h, s, r, acpOk)
  {
    hide SpawnMode, Routing.Route.Fingerprint;
  }

  /** The mode is no part of the fingerprint. */
  lemma ModeFlipKeepsFingerprint(r: Route, mode: Mode, aoeBase: string, aoeToken: string)
    ensures r.(mode := mode).Fingerprint(aoeBase, aoeToken) == r.Fingerprint(aoeBase, aoeToken)
    ensures r.PromotedAfterAcp().Fingerprint(aoeBase, aoeToken) == r.Fingerprint(aoeBase, aoeToken)
  {
  }

  // ---------------------------------------------------------------- guards

  /** What an enabled pass does to a session it has no live route for. Nothing is sent about it, and
      its guards are dropped exactly when its task was still held and its row is gone. A row that is
      present but not live loses its task and keeps its guards. */
  lemma GuardsDroppedIff(h: Held, s: Settings, rs: seq<Route>, mcpOk: nat -> bool, acpOk: nat -> bool, k: string)
    requires DistinctRoutes(rs)
    requires forall r <- rs :: r.sessionId == k ==> !r.live
    ensures var h' := EnabledPass(h, s, rs, mcpOk, acpOk);
            && k !in h'.tasks && Sent(h', k) == Sent(h, k)
            && (if k in h.tasks && (forall r <- rs :: r.sessionId != k)
                then k !in h'.mcpSet && k !in h'.acpMode && k !in h'.learned
                else SameGuards(h', h, k))
  {
    hide ReconcileRoutes;
    if r :| r in rs && r.sessionId == k {
      var i :| 0 <= i < |rs| && rs[i] == r;
      RoutesTask(h, s, rs, mcpOk, acpOk, i);
    } else {
      RoutesFrame(h, s, rs, mcpOk, acpOk, k);
    }
    assert k !in LiveIds(rs);
  }

  /** So a row removed after its session had already stopped leaves its guards behind: added back
      with the same url and token it is taken for asserted, and from the stop on nothing is sent to
      the host about it. */
  lemma RemovedAfterStopIsNotReasserted(h: Held, s1: Settings, rs1: seq<Route>, s2: Settings, rs2: seq<Route>,
                                        mcpOk: nat -> bool, acpOk: nat -> bool, r: Route, ok: bool)
    requires DistinctRoutes(rs1) && DistinctRoutes(rs2)
    requires exists d <- rs1 :: d.sessionId == r.sessionId && !d.live
    requires forall d <- rs2 :: d.sessionId != r.sessionId
    requires r.mcpUrl.Some? && r.sessionId in h.mcpSet
    requires h.mcpSet[r.sessionId] == LayerPrint(r.mcpUrl.value, r.token)
    ensures var h1 := EnabledPass(h, s1, rs1, mcpOk, acpOk);
            var h2 := EnabledPass(h1, s2, rs2, mcpOk, acpOk);
            EnsureMcp(h2, r, ok) == h2 && Sent(h2, r.sessionId) == Sent(h, r.sessionId)
  {
    hide EnabledPass, DistinctRoutes;
    var k := r.sessionId;
    OnlyRoute(rs1, k);
    GuardsDroppedIff(h, s1, rs1, mcpOk, acpOk, k);
    var h1 := EnabledPass(h, s1, rs1, mcpOk, acpOk);
    GuardsDroppedIff(h1, s2, rs2, mcpOk, acpOk, k);
  }

  lemma OnlyRoute(rs: seq<Route>, k: string)
    requires DistinctRoutes(rs)
    requires exists d <- rs :: d.sessionId == k && !d.live
    ensures forall r <- rs :: r.sessionId == k ==> !r.live
  {
    var d :| d in rs && d.sessionId == k && !d.live;
    var i :| 0 <= i < |rs| && rs[i] == d;
    forall r <- rs | r.sessionId == k ensures !r.live {
      var j :| 0 <= j < |rs| && rs[j] == r;
      assert i == j;
    }
  }

  // ---------------------------------------------------------------- runs of passes

  /** Every recorded layer is the one the host last acknowledged, every task has an identity of its
      own. */
  ghost predicate Consistent(h: Held) {
    && (forall k <- h.mcpSet :: k in h.layers && h.layers[k].Servers?
          && h.mcpSet[k] == LayerPrint(h.layers[k].url, h.layers[k].token))
    && (forall k <- h.tasks :: h.tasks[k].id < h.spawned)
    && (forall j, k :: j in h.tasks && k in h.tasks && j != k ==> h.tasks[j].id != h.tasks[k].id)
  }

  lemma McpKeepsConsistent(h: Held, r: Route, ok: bool)
    requires Consistent(h)
    ensures Consistent(EnsureMcp(h, r, ok))
  {
    hide LayerPrint;
  }

  lemma TaskKeepsConsistent(h: Held, k: string, mark: string, mode: Mode)
    requires Consistent(h)
    ensures Consistent(EnsureTask(h, k, mark, mode))
  {
    hide LayerPrint;
  }

  lemma RouteKeepsConsistent(h: Held, s: Settings, r: Route, mcpOk: bool, acpOk: bool)
    requires Consistent(h)
    ensures Consistent(ReconcileRoute(h, s, r, mcpOk, acpOk))
  {
    hide LayerPrint;
    if r.live {
      hide EnsureMcp, EnsureTask, ReconcileRoute, Routing.Route.Fingerprint, SpawnMode;
      McpKeepsConsistent(h, r, mcpOk);
      assert Consistent(Prepared(h, s, r, mcpOk, acpOk));
      TaskKeepsConsistent(Prepared(h, s, r, mcpOk, acpOk), r.sessionId, r.Fingerprint(s.aoeBase, s.aoeToken), SpawnMode(h, s, r, acpOk));
      ReconcileRouteParts(h, s, r, mcpOk, acpOk);
    }
  }

  lemma {:induction false} RoutesKeepConsistent(h: Held, s: Settings, rs: seq<Route>, mcpOk: nat -> bool, acpOk: nat -> bool)
    requires Consistent(h)
    ensures Consistent(ReconcileRoutes(h, s, rs, mcpOk, acpOk))
  {
    if rs != [] {
      var n := |rs| - 1;
      RoutesKeepConsistent(h, s, rs[..n], mcpOk, acpOk);
      RouteKeepsConsistent(ReconcileRoutes(h, s, rs[..n], mcpOk, acpOk), s, rs[n], mcpOk(n), acpOk(n));
    }
  }

  /** The host's layer for the route's session is the one the route asks for. */
  predicate LayerTracksRoute(h: Held, r: Route) {
    var k := r.sessionId;
    match r.mcpUrl
    case Some(url) => k in h.layers && h.layers[k].Servers? && LayerPrint(h.layers[k].url, h.layers[k].token) == LayerPrint(url, r.token)
    case None => k in h.layers ==> h.layers[k].Cleared?
  }

  /** When setting up a session brings the host's layer in line with the route: it already was, or
      the host accepts a call that is made. To clear a layer the call is made only while the guard
      remembers it. */
  lemma LayerTracksRouteIff(h: Held, r: Route, ok: bool)
    requires Consistent(h)
    ensures LayerTracksRoute(EnsureMcp(h, r, ok), r)
       <==> LayerTracksRoute(h, r) || (ok && (r.mcpUrl.Some? || r.sessionId in h.mcpSet))
  {
    hide LayerPrint;
  }

  /** A refused clear is forgotten, not retried: every later set-up of the same route sends
      nothing, and the tools stay. */
  lemma RefusedClearIsNotRetried(h: Held, r: Route, later: bool)
    requires Consistent(h) && r.mcpUrl.None? && r.sessionId in h.mcpSet
    ensures var h1 := EnsureMcp(h, r, false);
            EnsureMcp(h1, r, later) == h1 && Sent(h1, r.sessionId) == Sent(h, r.sessionId) + 1 && !LayerTracksRoute(h1, r)
  {
    hide LayerPrint;
  }

  /** One pass as seen from outside: settings, session list, and which host calls succeed. */
  datatype PassInput = PassInput(settings: Settings, live: map<string, Liveness>, mcpOk: nat -> bool, acpOk: nat -> bool)

  function Passes(h: Held, ps: seq<PassInput>): Held {
    if ps == [] then h
    else
      var p := ps[|ps| - 1];
      Pass(Passes(h, ps[..|ps| - 1]), p.settings, p.live, p.mcpOk, p.acpOk)
  }

  /** After any run of passes, enabled or not, with any host calls failing: an `mcpSet` entry is
      the layer the host last acknowledged, no two sessions share a task, and a disabled last pass
      leaves nothing held and nothing learned. */
  lemma {:induction false} PassesKeepConsistent(ps: seq<PassInput>)
    ensures var h := Passes(Idle, ps);
            && Consistent(h)
            && (ps != [] && !ps[|ps| - 1].settings.enabled ==>
                  h.tasks == map[] && h.mcpSet == map[] && h.acpMode == map[] && h.learned == map[])
  {
    if ps != [] {
      hide ReconcileRoutes, ResolvedRoutes;
      PassesKeepConsistent(ps[..|ps| - 1]);
      var p := ps[|ps| - 1];
      RoutesKeepConsistent(Passes(Idle, ps[..|ps| - 1]), p.settings, ResolvedRoutes(p.settings, p.live), p.mcpOk, p.acpOk);
    }
  }

  /** The settings' own distinctness is enough for the routes to be distinct. */
  lemma DistinctSettingsDistinctRoutes(s: Settings, live: map<string, Liveness>)
    requires forall i, j :: 0 <= i < j < |s.sessions| ==> s.sessions[i].sessionId != s.sessions[j].sessionId
    ensures DistinctRoutes(ResolvedRoutes(s, live))
  {
    RoutesForDistinct(Strings.Trim(s.agentMcpBase), s.sessions, live);
  }
}
