/** The hubs that fan frames out to bounded per-subscriber queues: one keyed by agent, one whose
    frames go to every subscriber. */
module Hub {
  import opened Wrappers

  type Frame = string

  const QUEUE_CAPACITY := 256

  datatype Target = Everyone | Agent(name: string)

  predicate Reaches(t: Target, agent: string) {
    t == Everyone || t == Agent(agent)
  }

  /** A frame tried on a queue. `at` is the position of its push in the log. */
  datatype Offer = Offer(at: nat, frame: Frame, accepted: bool)

  /** A subscriber's queue, with what went through it so far. `open` is false once the receiver is
      gone, and its queue with it. */
  datatype Channel = Channel(agent: string, queue: seq<Frame>, open: bool, received: seq<Frame>, offers: seq<Offer>)

  datatype Record = Record(id: nat, agent: string)

  /** A push on its way through the subscribers, under the hub's lock. */
  datatype Sending = Sending(target: Target, frame: Frame, at: nat, next: nat, delivered: nat)

  datatype Entry = Registered(id: nat, agent: string) | Unregistered(id: nat) | Pushed(target: Target, frame: Frame)

  datatype State = State(
    nextId: nat,
    reserved: set<nat>,
    subs: seq<Record>,
    channels: map<nat, Channel>,
    sending: Option<Sending>,
    log: seq<Entry>)

  const Start := State(1, {}, [], map[], None, [])

  /** `Reserve` and `Register` are the two halves of a subscription. Receivers take frames and go
      away at any time, also in the middle of a push. */
  datatype Event =
    | Reserve
    | Register(id: nat, agent: string)
    | Unsubscribe(id: nat)
    | StartPush(target: Target, frame: Frame)
    | SendNext
    | EndPush
    | Receive(id: nat)
    | CloseReceiver(id: nat)

  function Retain(subs: seq<Record>, id: nat): seq<Record> {
    if subs == [] then []
    else Retain(subs[..|subs| - 1], id) + (if subs[|subs| - 1].id != id then [subs[|subs| - 1]] else [])
  }

  predicate Fits(ch: Channel) { ch.open && |ch.queue| < QUEUE_CAPACITY }

  function TrySend(ch: Channel, at: nat, frame: Frame): Channel {
    if Fits(ch) then ch.(queue := ch.queue + [frame], offers := ch.offers + [Offer(at, frame, true)])
    else ch.(offers := ch.offers + [Offer(at, frame, false)])
  }

  predicate Enabled(h: State, e: Event) {
    match e
    case Reserve => true
    case Register(id, _) => h.sending.None? && id in h.reserved
    case Unsubscribe(id) => h.sending.None?
    case StartPush(_, _) => h.sending.None?
    case SendNext => h.sending.Some? && h.sending.value.next < |h.subs| && h.subs[h.sending.value.next].id in h.channels
    case EndPush => h.sending.Some? && h.sending.value.next == |h.subs|
    case Receive(id) => id in h.channels && h.channels[id].open && h.channels[id].queue != []
    case CloseReceiver(id) => id in h.channels && h.channels[id].open
  }

  function Step(h: State, e: Event): State
    requires Enabled(h, e)
  {
    match e
    case Reserve => h.(nextId := h.nextId + 1, reserved := h.reserved + {h.nextId})
    case Register(id, agent) =>
      h.(reserved := h.reserved - {id}, subs := h.subs + [Record(id, agent)],
      channels := h.channels[id := Channel(agent, [], true, [], [])], log := h.log + [Registered(id, agent)])
    case Unsubscribe(id) => h.(subs := Retain(h.subs, id), log := h.log + [Unregistered(id)])
    case StartPush(target, frame) =>
      h.(sending := Some(Sending(target, frame, |h.log|, 0, 0)), log := h.log + [Pushed(target, frame)])
    case SendNext =>
      var s := h.sending.value;
      var sub := h.subs[s.next];
      if Reaches(s.target, sub.agent) then
        var ch := h.channels[sub.id];
        h.(channels := h.channels[sub.id := TrySend(ch, s.at, s.frame)],
        sending := Some(s.(next := s.next + 1, delivered := s.delivered + if Fits(ch) then 1 else 0)))
      else h.(sending := Some(s.(next := s.next + 1)))
    case EndPush => h.(sending := None)
    case Receive(id) =>
      var ch := h.channels[id];
      h.(channels := h.channels[id := ch.(received := ch.received + [ch.queue[0]], queue := ch.queue[1..])])
    case CloseReceiver(id) => h.(channels := h.channels[id := h.channels[id].(open := false, queue := [])])
  }

  // ---------------------------------------------------------------- what the log says

  /** The agent `id` is subscribed for after these entries. */
  function Membership(log: seq<Entry>, id: nat): Option<string> {
    if log == [] then None
    else
      match log[|log| - 1]
      case Registered(j, agent) => if j == id then Some(agent) else Membership(log[..|log| - 1], id)
      case Unregistered(j) => if j == id then None else Membership(log[..|log| - 1], id)
      case Pushed(_, _) => Membership(log[..|log| - 1], id)
  }

  /** The frames pushed to `id`'s agent while it was subscribed, each with its place in the log. */
  function Addressed(log: seq<Entry>, id: nat): (fs: seq<(nat, Frame)>)
    ensures forall f <- fs :: f.0 < |log|
  {
    if log == [] then []
    else
      var n := |log| - 1;
      var m := Membership(log[..n], id);
      Addressed(log[..n], id)
      + (match log[n]
         case Pushed(target, frame) => if m.Some? && Reaches(target, m.value) then [(n, frame)] else []
         case _ => [])
  }

  function Offered(offers: seq<Offer>): (fs: seq<(nat, Frame)>)
    ensures |fs| == |offers| && forall i :: 0 <= i < |fs| ==> fs[i] == (offers[i].at, offers[i].frame)
  {
    seq(|offers|, i requires 0 <= i < |offers| => (offers[i].at, offers[i].frame))
  }

  function Accepted(offers: seq<Offer>): seq<Frame> {
    if offers == [] then []
    else
      var o := offers[|offers| - 1];
      Accepted(offers[..|offers| - 1]) + (if o.accepted then [o.frame] else [])
  }

  // ---------------------------------------------------------------- what every run keeps

  /** What went in is what came out and what still waits, in order; a receiver that left may have
      left frames behind. */
  predicate ChannelInv(ch: Channel) {
    && |ch.queue| <= QUEUE_CAPACITY
    && (ch.open ==> ch.received + ch.queue == Accepted(ch.offers))
    && (!ch.open ==> ch.queue == [] && ch.received <= Accepted(ch.offers))
  }

  /** The push under way has still to come to `id`. */
  predicate Ahead(h: State, id: nat) {
    h.sending.Some? && h.log != []
    && exists i :: h.sending.value.next <= i < |h.subs| && h.subs[i].id == id
                   && Reaches(h.sending.value.target, h.subs[i].agent)
  }

  /** Every frame addressed to the subscriber was tried on its queue, once and in order. */
  predicate OffersInv(h: State, id: nat)
    requires id in h.channels
  {
    Offered(h.channels[id].offers) == Addressed(if Ahead(h, id) then h.log[..|h.log| - 1] else h.log, id)
  }

  ghost predicate SubsInv(h: State) {
    && h.nextId >= 1
    && (forall i :: 0 <= i < |h.subs| ==> h.subs[i].id in h.channels && h.channels[h.subs[i].id].agent == h.subs[i].agent)
    && (forall i, j :: 0 <= i < j < |h.subs| ==> h.subs[i].id != h.subs[j].id)
    && (forall id: nat :: id in h.reserved || id in h.channels ==> 1 <= id < h.nextId)
    && (forall id: nat :: id in h.reserved ==> id !in h.channels)
  }

  /** The log agrees with the subscriber list, and registers no id twice. */
  ghost predicate LogInv(h: State) {
    && (forall i :: 0 <= i < |h.subs| ==> Membership(h.log, h.subs[i].id) == Some(h.subs[i].agent))
    && (forall id: nat :: Membership(h.log, id).Some? ==> exists i :: 0 <= i < |h.subs| && h.subs[i].id == id)
    && (forall k :: 0 <= k < |h.log| && h.log[k].Registered? ==> h.log[k].id in h.channels)
    && (forall j, k :: 0 <= j < k < |h.log| && h.log[j].Registered? && h.log[k].Registered? ==> h.log[j].id != h.log[k].id)
  }

  /** The subscribers that took the frame pushed at `at`. */
  ghost function Takers(channels: map<nat, Channel>, at: nat): set<nat> {
    set id | id in channels && exists o <- channels[id].offers :: o.at == at && o.accepted
  }

  ghost predicate SendingInv(h: State) {
    h.sending.Some? ==>
      var s := h.sending.value;
      && s.at + 1 == |h.log| && h.log[s.at] == Pushed(s.target, s.frame)
      && s.next <= |h.subs|
      && s.delivered == |Takers(h.channels, s.at)|
  }

  ghost predicate Inv(h: State) {
    && SubsInv(h) && LogInv(h) && SendingInv(h)
    && forall id <- h.channels :: ChannelInv(h.channels[id]) && OffersInv(h, id)
  }

  // ---------------------------------------------------------------- one more log entry

  lemma LogSnoc(log: seq<Entry>, e: Entry, id: nat)
    ensures Membership(log + [e], id)
         == match e
            case Registered(j, agent) => if j == id then Some(agent) else Membership(log, id)
            case Unregistered(j) => if j == id then None else Membership(log, id)
            case Pushed(_, _) => Membership(log, id)
    ensures Addressed(log + [e], id)
         == Addressed(log, id)
            + (match e
               case Pushed(target, frame) =>
                 var m := Membership(log, id);
                 if m.Some? && Reaches(target, m.value) then [(|log|, frame)] else []
               case _ => [])
  {
    assert (log + [e])[..|log|] == log;
  }

  lemma {:induction false} NeverRegistered(log: seq<Entry>, id: nat)
    requires forall k :: 0 <= k < |log| && log[k].Registered? ==> log[k].id != id
    ensures Membership(log, id) == None && Addressed(log, id) == []
  {
    if log != [] {
      NeverRegistered(log[..|log| - 1], id);
    }
  }

  lemma {:induction false} RetainIs(subs: seq<Record>, id: nat)
    requires forall i, j :: 0 <= i < j < |subs| ==> subs[i].id != subs[j].id
    ensures var r := Retain(subs, id);
            && (forall i :: 0 <= i < |r| ==> r[i] in subs && r[i].id != id)
            && (forall s :: s in subs && s.id != id ==> s in r)
            && (forall i, j :: 0 <= i < j < |r| ==> r[i].id != r[j].id)
  {
    if subs != [] {
      var front := subs[..|subs| - 1];
      RetainIs(front, id);
      assert forall s :: s in subs ==> s in front || s == subs[|subs| - 1];
    }
  }

  // ---------------------------------------------------------------- the list and the log

  lemma RegisterKeeps(h: State, id: nat, agent: string)
    requires SubsInv(h) && LogInv(h) && Enabled(h, Register(id, agent))
    ensures var h' := Step(h, Register(id, agent)); SubsInv(h') && LogInv(h')
  {
    hide Membership, Addressed;
    var h' := Step(h, Register(id, agent));
    forall j: nat ensures Membership(h'.log, j) == if j == id then Some(agent) else Membership(h.log, j) {
      LogSnoc(h.log, Registered(id, agent), j);
    }
    forall j: nat | Membership(h'.log, j).Some? ensures exists i :: 0 <= i < |h'.subs| && h'.subs[i].id == j {
      if j == id {
        assert h'.subs[|h.subs|].id == j;
      } else {
        var i :| 0 <= i < |h.subs| && h.subs[i].id == j;
        assert h'.subs[i].id == j;
      }
    }
  }

  lemma UnsubscribeKeepsList(h: State, id: nat)
    requires SubsInv(h) && Enabled(h, Unsubscribe(id))
    ensures SubsInv(Step(h, Unsubscribe(id)))
    ensures forall s :: s in Step(h, Unsubscribe(id)).subs <==> s in h.subs && s.id != id
  {
    RetainIs(h.subs, id);
    var r := Retain(h.subs, id);
    assert Step(h, Unsubscribe(id)).subs == r;
    assert forall i :: 0 <= i < |r| ==> r[i] in h.subs;
  }

  lemma UnsubscribeKeepsLog(h: State, id: nat)
    requires LogInv(h) && Enabled(h, Unsubscribe(id))
    requires forall s :: s in Step(h, Unsubscribe(id)).subs <==> s in h.subs && s.id != id
    ensures LogInv(Step(h, Unsubscribe(id)))
  {
    hide Membership, Addressed;
    var h' := Step(h, Unsubscribe(id));
    forall j: nat ensures Membership(h'.log, j) == if j == id then None else Membership(h.log, j) {
      LogSnoc(h.log, Unregistered(id), j);
    }
    forall j: nat | Membership(h'.log, j).Some? ensures exists i :: 0 <= i < |h'.subs| && h'.subs[i].id == j {
      var i :| 0 <= i < |h.subs| && h.subs[i].id == j;
      assert h.subs[i] in h'.subs;
    }
    forall i | 0 <= i < |h'.subs| ensures Membership(h'.log, h'.subs[i].id) == Some(h'.subs[i].agent) {
      assert h'.subs[i] in h'.subs;
    }
  }

  lemma StartPushKeeps(h: State, target: Target, frame: Frame)
    requires SubsInv(h) && LogInv(h) && Enabled(h, StartPush(target, frame))
    ensures var h' := Step(h, StartPush(target, frame)); SubsInv(h') && LogInv(h')
  {
    hide Membership, Addressed;
    var h' := Step(h, StartPush(target, frame));
    forall j: nat ensures Membership(h'.log, j) == Membership(h.log, j) {
      LogSnoc(h.log, Pushed(target, frame), j);
    }
  }

  lemma ListAndLogKept(h: State, e: Event)
    requires SubsInv(h) && LogInv(h) && Enabled(h, e)
    ensures SubsInv(Step(h, e)) && LogInv(Step(h, e))
  {
    match e {
      case Register(id, agent) => RegisterKeeps(h, id, agent);
      case Unsubscribe(id) =>
        UnsubscribeKeepsList(h, id);
        UnsubscribeKeepsLog(h, id);
      case StartPush(target, frame) => StartPushKeeps(h, target, frame);
      case _ => SteadyKeeps(h, e);
    }
  }

  lemma LogKept(h: State, h': State)
    requires LogInv(h) && h'.subs == h.subs && h'.log == h.log && h'.channels.Keys == h.channels.Keys
    ensures LogInv(h')
  {
    hide Membership, Addressed;
  }

  lemma ListKept(h: State, h': State)
    requires SubsInv(h) && h'.subs == h.subs && h'.channels.Keys == h.channels.Keys
    requires forall id <- h.channels :: h'.channels[id].agent == h.channels[id].agent
    requires || (h'.reserved == h.reserved && h'.nextId == h.nextId)
             || (h'.reserved == h.reserved + {h.nextId} && h'.nextId == h.nextId + 1)
    ensures SubsInv(h')
  {
  }

  lemma SteadyKeeps(h: State, e: Event)
    requires SubsInv(h) && LogInv(h) && Enabled(h, e) && !e.Register? && !e.Unsubscribe? && !e.StartPush?
    ensures SubsInv(Step(h, e)) && LogInv(Step(h, e))
  {
    hide SubsInv, LogInv;
    var h' := Step(h, e);
    assert h'.channels.Keys == h.channels.Keys;
    assert forall id <- h.channels :: h'.channels[id].agent == h.channels[id].agent;
    LogKept(h, h');
    ListKept(h, h');
  }

  // ---------------------------------------------------------------- the queues

  lemma ChannelKept(h: State, e: Event, id: nat)
    requires Enabled(h, e) && id in Step(h, e).channels
    requires id in h.channels ==> ChannelInv(h.channels[id])
    ensures ChannelInv(Step(h, e).channels[id])
  {
    if e.SendNext? && h.subs[h.sending.value.next].id == id {
      TrySendKeeps(h.channels[id], h.sending.value.at, h.sending.value.frame);
    } else if e == Receive(id) {
      var ch := h.channels[id];
      assert ch.received + [ch.queue[0]] + ch.queue[1..] == ch.received + ch.queue;
    } else {
      hide Accepted;
      if e.Register? && id !in h.channels {
        AcceptedNone();
      } else if e.Register? && e.id == id {
        AcceptedNone();
      }
    }
  }

  lemma AcceptedNone()
    ensures Accepted([]) == []
  {
  }

  lemma TrySendKeeps(ch: Channel, at: nat, frame: Frame)
    requires ChannelInv(ch)
    ensures ChannelInv(TrySend(ch, at, frame))
  {
    var o := Offer(at, frame, Fits(ch));
    assert (ch.offers + [o])[..|ch.offers|] == ch.offers;
  }

  lemma RegisterOffers(h: State, j: nat, agent: string, id: nat)
    requires LogInv(h) && Enabled(h, Register(j, agent)) && j !in h.channels
    requires id in h.channels ==> OffersInv(h, id)
    requires id == j || id in h.channels
    ensures OffersInv(Step(h, Register(j, agent)), id)
  {
    LogSnoc(h.log, Registered(j, agent), id);
    if j == id {
      NeverRegistered(h.log, id);
    }
    hide Membership, Addressed, LogInv;
  }

  lemma StartPushOffers(h: State, target: Target, frame: Frame, id: nat)
    requires LogInv(h) && Enabled(h, StartPush(target, frame)) && id in h.channels && OffersInv(h, id)
    ensures OffersInv(Step(h, StartPush(target, frame)), id)
  {
    hide Membership, Addressed;
    var h' := Step(h, StartPush(target, frame));
    assert h'.log[..|h.log|] == h.log;
    LogSnoc(h.log, Pushed(target, frame), id);
    var m := Membership(h.log, id);
    if m.Some? && Reaches(target, m.value) {
      var i :| 0 <= i < |h.subs| && h.subs[i].id == id;
      assert h'.subs[i].id == id && Reaches(target, h'.subs[i].agent);
      assert Ahead(h', id);
    }
  }

  /** Only the subscriber whose turn it is sees its offers change. */
  lemma SendNextOffers(h: State, id: nat)
    requires SubsInv(h) && LogInv(h) && SendingInv(h) && Enabled(h, SendNext) && id in h.channels && OffersInv(h, id)
    ensures OffersInv(Step(h, SendNext), id)
  {
    hide Membership, Addressed, Takers;
    var h' := Step(h, SendNext);
    var s := h.sending.value;
    var sub := h.subs[s.next];
    if sub.id == id && Reaches(s.target, sub.agent) {
      assert Ahead(h, id) && !Ahead(h', id);
      assert h.log == h.log[..s.at] + [h.log[s.at]];
      LogSnoc(h.log[..s.at], h.log[s.at], id);
      assert Membership(h.log, id) == Some(sub.agent);
    } else {
      AheadKept(h, id);
      assert h'.channels[id].offers == h.channels[id].offers;
    }
  }

  lemma AheadKept(h: State, id: nat)
    requires Enabled(h, SendNext)
    requires var sub := h.subs[h.sending.value.next]; sub.id != id || !Reaches(h.sending.value.target, sub.agent)
    ensures Ahead(Step(h, SendNext), id) == Ahead(h, id)
  {
    var h' := Step(h, SendNext);
    var n := h.sending.value.next;
    if Ahead(h, id) {
      var i :| n <= i < |h.subs| && h.subs[i].id == id && Reaches(h.sending.value.target, h.subs[i].agent);
      assert i != n && h'.subs[i].id == id && Reaches(h'.sending.value.target, h'.subs[i].agent);
    }
    if Ahead(h', id) {
      var i :| n + 1 <= i < |h'.subs| && h'.subs[i].id == id && Reaches(h'.sending.value.target, h'.subs[i].agent);
      assert h.subs[i].id == id && Reaches(h.sending.value.target, h.subs[i].agent);
    }
  }

  lemma OffersKept(h: State, e: Event, id: nat)
    requires SubsInv(h) && LogInv(h) && SendingInv(h) && Enabled(h, e)
    requires id in Step(h, e).channels
    requires id in h.channels ==> OffersInv(h, id)
    ensures OffersInv(Step(h, e), id)
  {
    hide Membership, Addressed, Retain, LogInv, Takers;
    match e {
      case Register(j, agent) => RegisterOffers(h, j, agent, id);
      case Unsubscribe(j) => LogSnoc(h.log, Unregistered(j), id);
      case StartPush(target, frame) => StartPushOffers(h, target, frame, id);
      case SendNext => SendNextOffers(h, id);
      case _ =>
    }
  }

  // ---------------------------------------------------------------- the count of a push

  lemma NobodyTookYet(h: State)
    requires forall id <- h.channels :: OffersInv(h, id)
    ensures Takers(h.channels, |h.log|) == {}
  {
    hide Addressed;
    forall id, i | id in h.channels && 0 <= i < |h.channels[id].offers| ensures h.channels[id].offers[i].at < |h.log| {
      assert Offered(h.channels[id].offers)[i].0 < |h.log|;
    }
  }

  lemma OfferedEarlier(h: State, id: nat)
    requires SendingInv(h) && id in h.channels && OffersInv(h, id) && Ahead(h, id)
    ensures id !in Takers(h.channels, h.sending.value.at)
  {
    hide Addressed;
    var at := h.sending.value.at;
    var offers := h.channels[id].offers;
    forall i | 0 <= i < |offers| ensures offers[i].at < at {
      assert Offered(offers)[i].0 < at;
    }
  }

  lemma TakersAfterTry(channels: map<nat, Channel>, at: nat, frame: Frame, id: nat)
    requires id in channels
    ensures Takers(channels[id := TrySend(channels[id], at, frame)], at)
         == Takers(channels, at) + if Fits(channels[id]) then {id} else {}
  {
    var ch := channels[id];
    var o := Offer(at, frame, Fits(ch));
    var after := channels[id := TrySend(ch, at, frame)];
    assert after[id].offers == ch.offers + [o] && o in after[id].offers;
    assert forall p <- ch.offers :: p in after[id].offers;
    assert id in Takers(after, at) <==> id in Takers(channels, at) || Fits(ch);
    forall j | j != id ensures j in Takers(after, at) <==> j in Takers(channels, at) {
      assert j in channels ==> after[j] == channels[j];
    }
  }

  lemma TurnTaken(h: State)
    requires SubsInv(h) && SendingInv(h) && Enabled(h, SendNext)
    requires forall id <- h.channels :: OffersInv(h, id)
    ensures SendingInv(Step(h, SendNext))
  {
    hide Addressed, Takers, TrySend, OffersInv;
    var s := h.sending.value;
    var sub := h.subs[s.next];
    if Reaches(s.target, sub.agent) {
      assert Ahead(h, sub.id);
      OfferedEarlier(h, sub.id);
      TakersAfterTry(h.channels, s.at, s.frame, sub.id);
    }
  }

  lemma SendingKept(h: State, e: Event)
    requires Inv(h) && Enabled(h, e)
    ensures SendingInv(Step(h, e))
  {
    match e {
      case StartPush(_, _) => NobodyTookYet(h);
      case SendNext => TurnTaken(h);
      case Receive(id) => assert h.sending.Some? ==> Takers(Step(h, e).channels, h.sending.value.at) == Takers(h.channels, h.sending.value.at);
      case CloseReceiver(id) => assert h.sending.Some? ==> Takers(Step(h, e).channels, h.sending.value.at) == Takers(h.channels, h.sending.value.at);
      case _ =>
    }
  }

  // ---------------------------------------------------------------- runs

  lemma StepKeepsInv(h: State, e: Event)
    requires Inv(h) && Enabled(h, e)
    ensures Inv(Step(h, e))
  {
    ListAndLogKept(h, e);
    SendingKept(h, e);
    forall id <- Step(h, e).channels
      ensures ChannelInv(Step(h, e).channels[id]) && OffersInv(Step(h, e), id)
    {
      ChannelKept(h, e, id);
      OffersKept(h, e, id);
    }
    hide SubsInv, LogInv, SendingInv, ChannelInv, OffersInv, Step, Enabled;
  }

  /** Events that are not enabled do not happen. */
  function Run(es: seq<Event>): State {
    if es == [] then Start
    else
      var h := Run(es[..|es| - 1]);
      if Enabled(h, es[|es| - 1]) then Step(h, es[|es| - 1]) else h
  }

  lemma {:induction false} RunKeepsInv(es: seq<Event>)
    ensures Inv(Run(es))
  {
    if es != [] {
      hide Inv, Step, Enabled;
      RunKeepsInv(es[..|es| - 1]);
      var h := Run(es[..|es| - 1]);
      if Enabled(h, es[|es| - 1]) {
        StepKeepsInv(h, es[|es| - 1]);
      }
    }
  }

  predicate Subsequence(a: seq<Frame>, b: seq<Frame>) {
    || a == []
    || (b != [] && (Subsequence(a, b[..|b| - 1])
                    || (a[|a| - 1] == b[|b| - 1] && Subsequence(a[..|a| - 1], b[..|b| - 1]))))
  }

  function Frames(fs: seq<(nat, Frame)>): (r: seq<Frame>)
    ensures |r| == |fs| && forall i :: 0 <= i < |r| ==> r[i] == fs[i].1
  {
    seq(|fs|, i requires 0 <= i < |fs| => fs[i].1)
  }

  lemma SubsequenceSnoc(a: seq<Frame>, b: seq<Frame>, x: Frame)
    requires Subsequence(a, b)
    ensures Subsequence(a, b + [x]) && Subsequence(a + [x], b + [x])
  {
    assert (b + [x])[..|b|] == b && (a + [x])[..|a|] == a;
  }

  lemma {:induction false} AcceptedOfOffered(offers: seq<Offer>)
    ensures Subsequence(Accepted(offers), Frames(Offered(offers)))
  {
    if offers != [] {
      hide Subsequence;
      var n := |offers| - 1;
      AcceptedOfOffered(offers[..n]);
      SubsequenceSnoc(Accepted(offers[..n]), Frames(Offered(offers[..n])), offers[n].frame);
      assert Frames(Offered(offers)) == Frames(Offered(offers[..n])) + [offers[n].frame];
      if !offers[n].accepted {
        assert Accepted(offers) == Accepted(offers[..n]);
      }
    }
  }

  lemma {:induction false} PrefixIsSubsequence(a: seq<Frame>, b: seq<Frame>, c: seq<Frame>)
    requires a <= b && Subsequence(b, c)
    ensures Subsequence(a, c)
    decreases |c|
  {
    if a != [] && a != b {
      var front := c[..|c| - 1];
      if Subsequence(b, front) {
        PrefixIsSubsequence(a, b, front);
      } else {
        PrefixIsSubsequence(a, b[..|b| - 1], front);
      }
    }
  }

  /** On every run a queue holds at most 256 frames; every frame addressed to a subscriber was tried
      on its queue once, in order, unless the push is still to come to it; and what the subscriber
      received, followed by what waits, is made of exactly the frames its queue took: an in-order
      subsequence of those addressed to it. */
  lemma QueuesHoldWhatWasSent(es: seq<Event>, id: nat)
    requires id in Run(es).channels
    ensures var h := Run(es);
            var ch := h.channels[id];
            && |ch.queue| <= QUEUE_CAPACITY
            && Offered(ch.offers) == Addressed(if Ahead(h, id) then h.log[..|h.log| - 1] else h.log, id)
            && (if ch.open then ch.received + ch.queue == Accepted(ch.offers) else ch.received <= Accepted(ch.offers))
            && Subsequence(ch.received + ch.queue, Frames(Offered(ch.offers)))
  {
    hide Run, Addressed, Accepted, Subsequence;
    RunKeepsInv(es);
    var ch := Run(es).channels[id];
    assert ChannelInv(ch) && OffersInv(Run(es), id);
    AcceptedOfOffered(ch.offers);
    PrefixIsSubsequence(ch.received + ch.queue, Accepted(ch.offers), Frames(Offered(ch.offers)));
  }

  /** A push that has come to its end counts exactly the queues that took its frame. */
  lemma PushCountsTakers(es: seq<Event>)
    requires Enabled(Run(es), EndPush)
    ensures var s := Run(es).sending.value;
            s.delivered == |Takers(Run(es).channels, s.at)|
  {
    RunKeepsInv(es);
  }

  /** A turn leaves every queue alone but its subscriber's; that one misses the frame only when it
      is full or its receiver gone. */
  lemma FrameMissedIff(h: State, id: nat)
    requires Inv(h) && Enabled(h, SendNext) && id in h.channels
    ensures var s := h.sending.value;
            var sub := h.subs[s.next];
            var was, now := h.channels[id], Step(h, SendNext).channels[id];
            if id != sub.id || (s.target.Agent? && s.target.name != was.agent) then now == was
            else now.queue == (if was.open && |was.queue| < 256 then was.queue + [s.frame] else was.queue)
  {
  }

  /** A subscription can be made whenever no push is under way. It gets an id nobody had, and a queue
      that is empty, open and the agent's, so that the next frame pushed to the agent goes into it. */
  lemma NewSubscriberListens(h: State, agent: string, frame: Frame)
    requires Inv(h) && h.sending == None
    ensures Enabled(h, Reserve) && Enabled(Step(h, Reserve), Register(h.nextId, agent))
    ensures var h' := Step(Step(h, Reserve), Register(h.nextId, agent));
            && h.nextId !in h.channels && h.nextId in h'.channels
            && h'.channels[h.nextId].queue == [] && h'.channels[h.nextId].open && h'.channels[h.nextId].agent == agent
            && h.nextId in Takeable(h', Some(agent)) && h.nextId in Takeable(h', None)
  {
    hide LogInv, SendingInv, ChannelInv, OffersInv;
    var h' := Step(Step(h, Reserve), Register(h.nextId, agent));
    assert h'.subs[|h.subs|] == Record(h.nextId, agent);
  }

  /** No id is registered twice, and one not yet given out is nobody's. */
  lemma IdsAreNeverReused(es: seq<Event>)
    ensures var h := Run(es);
            && (forall j, k :: 0 <= j < k < |h.log| && h.log[j].Registered? && h.log[k].Registered? ==> h.log[j].id != h.log[k].id)
            && (forall k :: 0 <= k < |h.log| && h.log[k].Registered? ==> h.log[k].id < h.nextId && h.log[k].id !in h.reserved)
  {
    RunKeepsInv(es);
    hide Run, Membership;
  }

  ghost predicate Connected(h: State, agent: string) {
    exists i :: 0 <= i < |h.subs| && h.subs[i].agent == agent
  }

  ghost predicate LoggedIn(log: seq<Entry>, agent: string) {
    exists id: nat :: Membership(log, id) == Some(agent)
  }

  /** An agent has a subscriber exactly when the log left one registered for it. */
  lemma ConnectedIff(es: seq<Event>, agent: string)
    ensures Connected(Run(es), agent) <==> LoggedIn(Run(es).log, agent)
  {
    hide Run, Membership;
    RunKeepsInv(es);
    var h := Run(es);
    assert LogInv(h);
    if LoggedIn(h.log, agent) {
      var id: nat :| Membership(h.log, id) == Some(agent);
      var i :| 0 <= i < |h.subs| && h.subs[i].id == id;
      assert h.subs[i].agent == agent;
    }
    if Connected(h, agent) {
      var i :| 0 <= i < |h.subs| && h.subs[i].agent == agent;
      assert Membership(h.log, h.subs[i].id) == Some(agent);
    }
  }

  // ---------------------------------------------------------------- as it runs

  /** The rest of a push that no receiver interrupts. */
  function SendRest(h: State): State
    requires SubsInv(h) && h.sending.Some? && h.sending.value.next <= |h.subs|
    decreases |h.subs| - h.sending.value.next
  {
    if h.sending.value.next == |h.subs| then Step(h, EndPush)
    else
      TurnKeepsList(h);
      SendRest(Step(h, SendNext))
  }

  lemma TurnEnabled(h: State, s: Sending)
    requires Inv(h) && h.sending == Some(s) && s.next < |h.subs|
    ensures h.subs[s.next].id in h.channels && Enabled(h, SendNext) && SubsInv(h)
  {
    hide LogInv, SendingInv, ChannelInv, OffersInv;
  }

  lemma TurnChanges(h: State, s: Sending)
    requires h.sending == Some(s) && Enabled(h, SendNext)
    ensures var sub := h.subs[s.next];
            var taken := Reaches(s.target, sub.agent) && Fits(h.channels[sub.id]);
            Step(h, SendNext) == h.(
              channels := if Reaches(s.target, sub.agent) then h.channels[sub.id := TrySend(h.channels[sub.id], s.at, s.frame)] else h.channels,
              sending := Some(Sending(s.target, s.frame, s.at, s.next + 1, s.delivered + if taken then 1 else 0)))
  {
    hide TrySend, Fits, Reaches;
  }

  lemma TurnIs(h: State, s: Sending)
    requires Inv(h) && h.sending == Some(s) && s.next < |h.subs|
    ensures h.subs[s.next].id in h.channels && Enabled(h, SendNext) && SubsInv(h)
    ensures Inv(Step(h, SendNext)) && SubsInv(Step(h, SendNext)) && SendRest(h) == SendRest(Step(h, SendNext))
    ensures var sub := h.subs[s.next];
            var taken := Reaches(s.target, sub.agent) && Fits(h.channels[sub.id]);
            Step(h, SendNext) == h.(
              channels := if Reaches(s.target, sub.agent) then h.channels[sub.id := TrySend(h.channels[sub.id], s.at, s.frame)] else h.channels,
              sending := Some(Sending(s.target, s.frame, s.at, s.next + 1, s.delivered + if taken then 1 else 0)))
  {
    hide Inv, SubsInv, Enabled, Step;
    TurnEnabled(h, s);
    TurnChanges(h, s);
    StepKeepsInv(h, SendNext);
    TurnKeepsList(h);
    assert SendRest(h) == SendRest(Step(h, SendNext));
  }

  lemma PushEnds(h: State, s: Sending)
    requires Inv(h) && h.sending == Some(s) && s.next == |h.subs|
    ensures SubsInv(h) && SendRest(h) == h.(sending := None) && Inv(h.(sending := None))
    ensures s.delivered == |Takers(h.channels, s.at)|
  {
    StepKeepsInv(h, EndPush);
  }

  lemma TurnKeepsList(h: State)
    requires SubsInv(h) && Enabled(h, SendNext)
    ensures SubsInv(Step(h, SendNext))
  {
  }

  /** The subscribers a frame is for that can take it: those of the agent, or all, whose receiver is
      there and whose queue holds fewer than 256 frames. */
  ghost function Takeable(h: State, agent: Option<string>): set<nat> {
    set i | 0 <= i < |h.subs| && (agent.None? || h.subs[i].agent == agent.value) && h.subs[i].id in h.channels
            && h.channels[h.subs[i].id].open && |h.channels[h.subs[i].id].queue| < 256 :: h.subs[i].id
  }

  /** The queue of one subscriber before and after such a push. */
  ghost predicate QueueServed(h: State, h': State, agent: Option<string>, frame: Frame, id: nat)
    requires id in h.channels && id in h'.channels
  {
    var was, now := h.channels[id], h'.channels[id];
    && now.queue == (if id in Takeable(h, agent) then was.queue + [frame] else was.queue)
    && now.agent == was.agent && now.open == was.open && now.received == was.received
    && ((forall i :: 0 <= i < |h.subs| && h.subs[i].id == id ==> agent.Some? && h.subs[i].agent != agent.value) ==> now == was)
  }

  /** What a push that no receiver interrupts does: the frame goes to the end of the queue of each
      subscriber it is for that can take it, and every other queue is as it was. */
  ghost predicate Served(h: State, h': State, agent: Option<string>, frame: Frame) {
    && h'.subs == h.subs && h'.nextId == h.nextId && h'.channels.Keys == h.channels.Keys
    && forall id <- h.channels :: QueueServed(h, h', agent, frame, id)
  }

  function TargetOf(agent: Option<string>): Target {
    match agent
    case Some(name) => Agent(name)
    case None => Everyone
  }

  /** Each subscriber of the list from position `next` on had its turn. */
  ghost predicate TurnsTaken(h: State, h': State, target: Target, frame: Frame, at: nat, next: nat) {
    && h'.subs == h.subs && h'.nextId == h.nextId && h'.channels.Keys == h.channels.Keys
    && (forall i :: 0 <= i < |h.subs| ==>
          h.subs[i].id in h.channels &&
          h'.channels[h.subs[i].id] == if i >= next && Reaches(target, h.subs[i].agent) then TrySend(h.channels[h.subs[i].id], at, frame)
                                       else h.channels[h.subs[i].id])
    && (forall id <- h.channels :: (forall i :: 0 <= i < |h.subs| ==> h.subs[i].id != id) ==> h'.channels[id] == h.channels[id])
  }

  lemma {:induction false} RestEffect(h: State)
    requires SubsInv(h) && h.sending.Some? && h.sending.value.next <= |h.subs|
    ensures var s := h.sending.value;
            SendRest(h).sending == None && TurnsTaken(h, SendRest(h), s.target, s.frame, s.at, s.next)
    decreases |h.subs| - h.sending.value.next
  {
    hide Reaches, TrySend, TurnsTaken;
    var s := h.sending.value;
    if s.next < |h.subs| {
      TurnKeepsList(h);
      TurnChanges(h, s);
      var h1 := Step(h, SendNext);
      RestEffect(h1);
      hide Step, Enabled;
      TurnThenRest(h, h1, SendRest(h1), s);
    } else {
      NoTurnsLeft(h, SendRest(h), s);
    }
  }

  lemma NoTurnsLeft(h: State, h': State, s: Sending)
    requires SubsInv(h) && s.next == |h.subs| && h' == h.(sending := None)
    ensures TurnsTaken(h, h', s.target, s.frame, s.at, s.next)
  {
  }

  lemma TurnThenRest(h: State, h1: State, h': State, s: Sending)
    requires SubsInv(h) && s.next < |h.subs|
    requires h1.subs == h.subs && h1.nextId == h.nextId
    requires var sub := h.subs[s.next];
             h1.channels == if Reaches(s.target, sub.agent) then h.channels[sub.id := TrySend(h.channels[sub.id], s.at, s.frame)] else h.channels
    requires TurnsTaken(h1, h', s.target, s.frame, s.at, s.next + 1)
    ensures TurnsTaken(h, h', s.target, s.frame, s.at, s.next)
  {
    hide Reaches, TrySend;
    forall i | 0 <= i < |h.subs|
      ensures h'.channels[h.subs[i].id] == if i >= s.next && Reaches(s.target, h.subs[i].agent) then TrySend(h.channels[h.subs[i].id], s.at, s.frame)
                                           else h.channels[h.subs[i].id]
    {
      assert i != s.next ==> h1.channels[h.subs[i].id] == h.channels[h.subs[i].id];
    }
  }

  lemma OneQueue(h: State, h': State, agent: Option<string>, frame: Frame, id: nat)
    requires SubsInv(h) && TurnsTaken(h, h', TargetOf(agent), frame, |h.log|, 0) && id in h.channels
    ensures QueueServed(h, h', agent, frame, id)
  {
    if i :| 0 <= i < |h.subs| && h.subs[i].id == id {
      assert h'.channels[id] == if Reaches(TargetOf(agent), h.subs[i].agent) then TrySend(h.channels[id], |h.log|, frame) else h.channels[id];
    }
  }

  lemma OneTaker(h: State, h': State, agent: Option<string>, frame: Frame, id: nat)
    requires SubsInv(h) && TurnsTaken(h, h', TargetOf(agent), frame, |h.log|, 0)
    requires Takers(h.channels, |h.log|) == {}
    ensures id in Takers(h'.channels, |h.log|) <==> id in Takeable(h, agent)
  {
    if id in h.channels {
      assert id !in Takers(h.channels, |h.log|);
      if i :| 0 <= i < |h.subs| && h.subs[i].id == id {
        var was, now := h.channels[id], h'.channels[id];
        assert now == if Reaches(TargetOf(agent), h.subs[i].agent) then TrySend(was, |h.log|, frame) else was;
        assert now.offers == was.offers || now.offers == was.offers + [Offer(|h.log|, frame, Fits(was))];
        if now.offers != was.offers {
          assert now.offers[|was.offers|] in now.offers;
        }
      }
    }
  }

  /** A push to an agent, or to everyone: it reaches each subscriber of that agent, or each, that can
      take the frame, and no other; and those are the takers it counts. */
  lemma PushServes(h: State, agent: Option<string>, frame: Frame)
    requires Inv(h) && h.sending == None
    ensures var begun := Step(h, StartPush(TargetOf(agent), frame));
            && SubsInv(begun)
            && Served(h, SendRest(begun), agent, frame)
            && Takers(SendRest(begun).channels, |h.log|) == Takeable(h, agent)
  {
    hide TurnsTaken, QueueServed, Takers, Takeable, Reaches, TrySend, SendRest, LogInv, SendingInv, OffersInv, ChannelInv;
    var begun := Step(h, StartPush(TargetOf(agent), frame));
    StartPushKeeps(h, TargetOf(agent), frame);
    RestEffect(begun);
    var h' := SendRest(begun);
    SameTurns(h, begun, h', TargetOf(agent), frame, |h.log|);
    NobodyTookYet(h);
    hide SubsInv;
    forall id: nat ensures id in Takers(h'.channels, |h.log|) <==> id in Takeable(h, agent) {
      OneTaker(h, h', agent, frame, id);
    }
    forall id <- h.channels ensures id in h'.channels && QueueServed(h, h', agent, frame, id) {
      SameKeys(h, h', TargetOf(agent), frame, |h.log|);
      OneQueue(h, h', agent, frame, id);
    }
  }

  lemma SameKeys(h: State, h': State, target: Target, frame: Frame, at: nat)
    requires TurnsTaken(h, h', target, frame, at, 0)
    ensures h'.subs == h.subs && h'.nextId == h.nextId && h'.channels.Keys == h.channels.Keys
  {
  }

  lemma SameTurns(h: State, begun: State, h': State, target: Target, frame: Frame, at: nat)
    requires TurnsTaken(begun, h', target, frame, at, 0)
    requires begun.subs == h.subs && begun.nextId == h.nextId && begun.channels == h.channels
    ensures TurnsTaken(h, h', target, frame, at, 0)
  {
  }

  class SubscriberHub {
    var nextId: nat
    var subs: seq<Record>
    var channels: map<nat, Channel>
    var status: map<string, string>
    /** A record of what the hub was told, for the queues to be compared with. */
    var log: seq<Entry>

    constructor ()
      ensures View() == Start && status == map[]
    {
      nextId, subs, channels, status, log := 1, [], map[], map[], [];
    }

    ghost function View(): State
      reads this
    {
      State(nextId, {}, subs, channels, None, log)
    }

    method Subscribe(agent: string) returns (id: nat)
      requires Inv(View())
      modifies this`nextId, this`subs, this`channels, this`log
      ensures id in channels && channels[id].open && channels[id].queue == [] && channels[id].agent == agent
      ensures id == old(nextId) && View() == Step(Step(old(View()), Reserve), Register(id, agent)) && Inv(View())
    {
      ghost var h := View();
      id := nextId;
      StepKeepsInv(h, Reserve);
      StepKeepsInv(Step(h, Reserve), Register(id, agent));
      hide Inv;
      nextId := nextId + 1;
      subs := subs + [Record(id, agent)];
      channels := channels[id := Channel(agent, [], true, [], [])];
      log := log + [Registered(id, agent)];
      assert h.reserved + {id} - {id} == {};
    }

    method Unsubscribe(id: nat)
      requires Inv(View())
      modifies this`subs, this`log
      ensures View() == Step(old(View()), Event.Unsubscribe(id)) && Inv(View())
    {
      StepKeepsInv(View(), Event.Unsubscribe(id));
      hide Inv;
      subs := Retain(subs, id);
      log := log + [Unregistered(id)];
    }

    method TryOne(id: nat, at: nat, frame: Frame) returns (took: bool)
      requires id in channels
      modifies this`channels
      ensures took == Fits(old(channels)[id])
      ensures channels == old(channels)[id := TrySend(old(channels)[id], at, frame)]
    {
      took := Fits(channels[id]);
      channels := channels[id := TrySend(channels[id], at, frame)];
    }

    ghost function InTurn(s: Sending): State
      reads this
    {
      State(nextId, {}, subs, channels, Some(s), log)
    }

    method TakeTurns(target: Target, frame: Frame, at: nat) returns (delivered: nat)
      requires Inv(InTurn(Sending(target, frame, at, 0, 0))) && SubsInv(InTurn(Sending(target, frame, at, 0, 0)))
      modifies this`channels
      ensures Inv(View()) && delivered == |Takers(channels, at)|
      ensures View() == SendRest(old(InTurn(Sending(target, frame, at, 0, 0))))
    {
      hide Inv, SubsInv, SendRest, Step, Enabled, Takers, TrySend, Fits, Reaches;
      ghost var begun := InTurn(Sending(target, frame, at, 0, 0));
      delivered := 0;
      for i := 0 to |subs|
        invariant Inv(InTurn(Sending(target, frame, at, i, delivered))) && SubsInv(InTurn(Sending(target, frame, at, i, delivered)))
        invariant SendRest(InTurn(Sending(target, frame, at, i, delivered))) == SendRest(begun)
      {
        TurnIs(InTurn(Sending(target, frame, at, i, delivered)), Sending(target, frame, at, i, delivered));
        if Reaches(target, subs[i].agent) {
          var took := TryOne(subs[i].id, at, frame);
          if took {
            delivered := delivered + 1;
          }
        }
      }
      PushEnds(InTurn(Sending(target, frame, at, |subs|, delivered)), Sending(target, frame, at, |subs|, delivered));
    }

    /** Tries the frame on the queue of every subscriber it is for. */
    method SendTo(target: Target, frame: Frame) returns (delivered: nat)
      requires Inv(View())
      modifies this`channels, this`log
      ensures Inv(View()) && SubsInv(Step(old(View()), StartPush(target, frame)))
      ensures View() == SendRest(Step(old(View()), StartPush(target, frame)))
      ensures delivered == |Takers(channels, |old(log)|)|
    {
      StepKeepsInv(View(), StartPush(target, frame));
      ghost var begun := Step(View(), StartPush(target, frame));
      assert SubsInv(begun);
      var at := |log|;
      log := log + [Pushed(target, frame)];
      assert begun == InTurn(Sending(target, frame, at, 0, 0));
      hide Inv, SubsInv, SendRest, Step, Takers;
      delivered := TakeTurns(target, frame, at);
    }

    method Push(agent: string, frame: Frame) returns (delivered: nat)
      requires Inv(View())
      modifies this`channels, this`log
      ensures Inv(View()) && SubsInv(Step(old(View()), StartPush(Agent(agent), frame)))
      ensures View() == SendRest(Step(old(View()), StartPush(Agent(agent), frame)))
      ensures Served(old(View()), View(), Some(agent), frame) && delivered == |Takeable(old(View()), Some(agent))|
    {
      PushServes(View(), Some(agent), frame);
      hide Inv, SubsInv, Served, Takers, Takeable;
      delivered := SendTo(Agent(agent), frame);
    }

    method Publish(payload: Frame)
      requires Inv(View())
      modifies this`channels, this`log
      ensures Inv(View()) && SubsInv(Step(old(View()), StartPush(Everyone, payload)))
      ensures View() == SendRest(Step(old(View()), StartPush(Everyone, payload)))
      ensures Served(old(View()), View(), None, payload)
    {
      PushServes(View(), None, payload);
      hide Inv, SubsInv, Served, Takers, Takeable;
      var _ := SendTo(Everyone, payload);
    }

    /** Status is what was last reported; comings and goings of streams leave it alone. */
    method SetStatus(agent: string, s: string)
      modifies this`status
      ensures status == old(status)[agent := s]
    {
      status := status[agent := s];
    }

    method IsConnected(agent: string) returns (r: bool)
      ensures r <==> Connected(View(), agent)
    {
      r := false;
      for i := 0 to |subs|
        invariant r <==> exists j :: 0 <= j < i && subs[j].agent == agent
      {
        r := r || subs[i].agent == agent;
      }
    }
  }
}
