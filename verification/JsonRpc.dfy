/** Calls to the host over one pipe: each call parks under an id and waits for the answer that
    bears it. */
module JsonRpc {
  import opened Wrappers

  // ---------------------------------------------------------------- the wire

  datatype Response = Success(value: string) | Failure(code: int, message: string)

  datatype JsonId = Number(n: nat) | OtherId(text: string)

  /** A line from the host, with whichever members it carries. */
  datatype Incoming = Incoming(id: Option<JsonId>, verb: Option<string>, result: Option<string>, error: Option<Response>)

  const U64_MAX := 0xFFFF_FFFF_FFFF_FFFF

  /** The answer a line carries and the id it is for: a line with a method is the host's own
      request, an id that is no 64-bit number is nobody's. */
  function AnswerIn(line: Incoming): Option<(nat, Response)> {
    if line.verb.Some? then None
    else
      match line.id
      case Some(Number(n)) =>
        if n > U64_MAX then None
        else Some((n, if line.error.Some? then line.error.value
                      else Success(if line.result.Some? then line.result.value else "null")))
      case _ => None
  }

  /** Which lines answer a call, and with what. A request or notification of the host answers none,
      nor does a line without an id, or with one that is no number of 64 bits. Else an error member is
      the answer; without one the result is, and without either it is null. */
  lemma AnswersAre(line: Incoming, n: nat, r: Response)
    ensures AnswerIn(line) == Some((n, r)) <==>
              && line.verb == None && line.id == Some(Number(n)) && n < 0x1_0000_0000_0000_0000
              && (line.error == Some(r)
                  || (line.error == None && line.result.Some? && r == Success(line.result.value))
                  || (line.error == None && line.result == None && r == Success("null")))
  {
  }

  // ---------------------------------------------------------------- one call after another

  datatype Outcome = Answer(response: Response) | WriterClosed | TimedOut | ChannelDropped

  /** Where a call stands between two steps. `Expired` and `SendFailed` calls have given up and have
      not yet taken their entry out. */
  datatype Phase = Fetched | Parked | Waiting | Expired | SendFailed | Done(outcome: Outcome)

  /** The connection. `inHand` is an answer whose entry is already out of `pending`; `slots` are the
      answers handed to calls. `history` and `parkedAt` only record what happened: every answer read
      so far, and how many had been read when each call parked. */
  datatype Conn = Conn(
    nextId: nat,
    pending: set<nat>,
    slots: map<nat, Response>,
    inHand: Option<(nat, Response)>,
    writerOpen: bool,
    phases: map<nat, Phase>,
    history: seq<(nat, Response)>,
    parkedAt: map<nat, nat>)

  const Fresh := Conn(1, {}, map[], None, true, map[], [], map[])

  /** `Fetch` to `Forget` are the steps of calls, `Read` and `HandOver` those of the reader. */
  datatype Event =
    | Fetch
    | Park(id: nat)
    | Send(id: nat)
    | GiveUp(id: nat)
    | Wake(id: nat)
    | Drop(id: nat)
    | Elapse(id: nat)
    | Forget(id: nat)
    | Read(line: Incoming)
    | HandOver
    | CloseWriter

  predicate In(c: Conn, id: nat, p: Phase) { id in c.phases && c.phases[id] == p }

  predicate HeldInHand(c: Conn, id: nat) { c.inHand.Some? && c.inHand.value.0 == id }

  predicate Enabled(c: Conn, e: Event) {
    match e
    case Fetch => true
    case Park(id) => In(c, id, Fetched)
    case Send(id) => In(c, id, Parked)
    case GiveUp(id) => In(c, id, SendFailed)
    case Wake(id) => In(c, id, Waiting) && id in c.slots
    case Drop(id) => In(c, id, Waiting) && id !in c.slots && id !in c.pending && !HeldInHand(c, id)
    case Elapse(id) => In(c, id, Waiting) && id !in c.slots
    case Forget(id) => In(c, id, Expired)
    case Read(_) => c.inHand.None?
    case HandOver => c.inHand.Some?
    case CloseWriter => true
  }

  /** An answer is dropped unless the call that owns the slot still listens. */
  predicate Listens(c: Conn, id: nat) {
    In(c, id, Parked) || In(c, id, Waiting) || In(c, id, SendFailed)
  }

  function Step(c: Conn, e: Event): Conn
    requires Enabled(c, e)
  {
    match e
    case Fetch => c.(nextId := c.nextId + 1, phases := c.phases[c.nextId := Fetched])
    case Park(id) =>
      c.(pending := c.pending + {id}, phases := c.phases[id := Parked], parkedAt := c.parkedAt[id := |c.history|])
    case Send(id) => c.(phases := c.phases[id := if c.writerOpen then Waiting else SendFailed])
    case GiveUp(id) => c.(pending := c.pending - {id}, phases := c.phases[id := Done(WriterClosed)])
    case Wake(id) => c.(phases := c.phases[id := Done(Answer(c.slots[id]))])
    case Drop(id) => c.(phases := c.phases[id := Done(ChannelDropped)])
    case Elapse(id) => c.(phases := c.phases[id := Expired])
    case Forget(id) => c.(pending := c.pending - {id}, phases := c.phases[id := Done(TimedOut)])
    case Read(line) =>
      (match AnswerIn(line)
       case None => c
       case Some(a) =>
         var c1 := c.(history := c.history + [a]);
         if a.0 in c.pending then c1.(pending := c.pending - {a.0}, inHand := Some(a)) else c1)
    case HandOver =>
      var a := c.inHand.value;
      if Listens(c, a.0) then c.(inHand := None, slots := c.slots[a.0 := a.1]) else c.(inHand := None)
    case CloseWriter => c.(writerOpen := false)
  }

  /** The first answer for `id` among those read from position `from` on. */
  function First(history: seq<(nat, Response)>, from: nat, id: nat): Option<Response> {
    if |history| <= from then None
    else
      var n := |history| - 1;
      var earlier := First(history[..n], from, id);
      if earlier.Some? then earlier else if history[n].0 == id then Some(history[n].1) else None
  }

  lemma {:induction false} FirstIs(history: seq<(nat, Response)>, from: nat, id: nat)
    ensures match First(history, from, id)
            case Some(r) => exists i :: from <= i < |history| && history[i] == (id, r)
                                        && forall j :: from <= j < i ==> history[j].0 != id
            case None => forall i :: from <= i < |history| ==> history[i].0 != id
  {
    if |history| > from {
      var n := |history| - 1;
      FirstIs(history[..n], from, id);
      match First(history[..n], from, id) {
        case Some(r) =>
          var i :| from <= i < n && history[..n][i] == (id, r) && forall j :: from <= j < i ==> history[..n][j].0 != id;
          assert history[i] == (id, r) && forall j :: from <= j < i ==> history[j].0 == history[..n][j].0;
        case None =>
          assert forall i :: from <= i < n ==> history[i].0 == history[..n][i].0;
          if history[n].0 == id {
            assert history[n] == (id, history[n].1);
          }
      }
    }
  }

  /** The first answer for the call since it parked. */
  function AnswerFor(c: Conn, id: nat): Option<Response> {
    if id in c.parkedAt then First(c.history, c.parkedAt[id], id) else None
  }

  // ---------------------------------------------------------------- what every interleaving keeps

  predicate Occupied(c: Conn, id: nat) {
    Listens(c, id) || In(c, id, Expired)
  }

  /** What holds of each call: its entry is parked exactly while it has neither finished nor been
      answered; the answer in its slot, in the reader's hand or returned is its first. */
  predicate CallInv(c: Conn, id: nat) {
    && (id in c.phases <==> 1 <= id < c.nextId)
    && (id in c.parkedAt <==> id in c.phases && c.phases[id] != Fetched)
    && (id in c.parkedAt ==> c.parkedAt[id] <= |c.history|)
    && (id in c.pending <==> Occupied(c, id) && AnswerFor(c, id) == None)
    && (id in c.slots ==> AnswerFor(c, id) == Some(c.slots[id]))
    && (HeldInHand(c, id) ==> AnswerFor(c, id) == Some(c.inHand.value.1) && id !in c.slots)
    && (Listens(c, id) && AnswerFor(c, id).Some? ==> id in c.slots || HeldInHand(c, id))
    && (id in c.phases && c.phases[id].Done? ==>
          match c.phases[id].outcome
          case Answer(r) => AnswerFor(c, id) == Some(r)
          case WriterClosed => !c.writerOpen
          case TimedOut => true
          case ChannelDropped => false)
    && (In(c, id, SendFailed) ==> !c.writerOpen)
  }

  ghost predicate Inv(c: Conn) {
    c.nextId >= 1 && forall id: nat :: CallInv(c, id)
  }

  predicate EndsWait(e: Event) { e.GiveUp? || e.Wake? || e.Drop? || e.Elapse? || e.Forget? }

  lemma EndKeepsCall(c: Conn, e: Event, id: nat)
    requires Inv(c) && Enabled(c, e) && EndsWait(e)
    ensures CallInv(Step(c, e), id)
  {
    assert AnswerFor(Step(c, e), id) == AnswerFor(c, id);
    assert CallInv(c, id);
    hide First, AnswerFor;
  }

  lemma StepKeepsCall(c: Conn, e: Event, id: nat)
    requires Inv(c) && Enabled(c, e) && !e.Read?
    ensures CallInv(Step(c, e), id)
  {
    if EndsWait(e) {
      EndKeepsCall(c, e, id);
    } else {
      assert CallInv(c, id);
      if e == Park(id) {
        FirstOfNone(c.history, id);
      } else {
        assert AnswerFor(Step(c, e), id) == AnswerFor(c, id);
        hide First, AnswerFor;
      }
    }
  }

  lemma FirstOfNone(history: seq<(nat, Response)>, id: nat)
    ensures First(history, |history|, id) == None
  {
  }

  lemma FirstSnoc(history: seq<(nat, Response)>, a: (nat, Response), from: nat, id: nat)
    requires from <= |history|
    ensures First(history + [a], from, id)
         == if First(history, from, id).None? && a.0 == id then Some(a.1) else First(history, from, id)
  {
    assert (history + [a])[..|history|] == history;
  }

  lemma ReadKeepsCall(c: Conn, line: Incoming, id: nat)
    requires Inv(c) && c.inHand.None?
    ensures CallInv(Step(c, Read(line)), id)
  {
    hide AnswerIn, First;
    assert CallInv(c, id);
    if AnswerIn(line).Some? {
      var a := AnswerIn(line).value;
      if id in c.parkedAt {
        FirstSnoc(c.history, a, c.parkedAt[id], id);
      }
    }
  }

  lemma StepKeepsInv(c: Conn, e: Event)
    requires Inv(c) && Enabled(c, e)
    ensures Inv(Step(c, e))
  {
    forall id: nat ensures CallInv(Step(c, e), id) {
      if e.Read? {
        ReadKeepsCall(c, e.line, id);
      } else {
        StepKeepsCall(c, e, id);
      }
    }
  }

  /** Events that are not enabled do not happen. */
  function Run(es: seq<Event>): Conn {
    if es == [] then Fresh
    else
      var c := Run(es[..|es| - 1]);
      if Enabled(c, es[|es| - 1]) then Step(c, es[|es| - 1]) else c
  }

  lemma {:induction false} RunKeepsInv(es: seq<Event>)
    ensures Inv(Run(es))
  {
    if es != [] {
      hide Step, Enabled, CallInv;
      RunKeepsInv(es[..|es| - 1]);
      var c := Run(es[..|es| - 1]);
      if Enabled(c, es[|es| - 1]) {
        StepKeepsInv(c, es[|es| - 1]);
      }
    } else {
      assert forall id: nat :: CallInv(Fresh, id);
    }
  }

  /** On every interleaving a finished call returned the first answer that bears its id and was
      read after it parked, or an error: the writer was closed, or its time ran out. It never sees
      its channel dropped. */
  lemma FinishedCalls(es: seq<Event>, id: nat)
    ensures var c := Run(es);
            id in c.phases && c.phases[id].Done? ==>
              && id in c.parkedAt
              && match c.phases[id].outcome
              case Answer(r) =>
                exists i :: c.parkedAt[id] <= i < |c.history| && c.history[i] == (id, r)
                            && forall j :: c.parkedAt[id] <= j < i ==> c.history[j].0 != id
              case WriterClosed => !c.writerOpen
              case TimedOut => true
              case ChannelDropped => false
  {
    hide Run, First;
    RunKeepsInv(es);
    var c := Run(es);
    assert CallInv(c, id);
    if id in c.parkedAt {
      FirstIs(c.history, c.parkedAt[id], id);
    }
  }

  /** `pending` holds exactly the calls that have parked, not finished and not been answered. */
  lemma PendingIs(es: seq<Event>, id: nat)
    ensures var c := Run(es);
            id in c.pending <==>
              && id in c.phases && id in c.parkedAt && !c.phases[id].Done?
              && forall i :: c.parkedAt[id] <= i < |c.history| ==> c.history[i].0 != id
  {
    hide Run, First;
    RunKeepsInv(es);
    var c := Run(es);
    assert CallInv(c, id);
    if id in c.parkedAt {
      FirstIs(c.history, c.parkedAt[id], id);
    }
  }

  /** An answer for an id that never parked, has been answered, has given up and gone, or was never
      given out changes nothing but the record of what was read. */
  lemma StrayAnswerChangesNothing(es: seq<Event>, line: Incoming, id: nat, r: Response)
    requires var c := Run(es);
             && c.inHand.None? && AnswerIn(line) == Some((id, r))
             && (id in c.parkedAt ==>
                 || (id in c.phases && c.phases[id].Done?)
                 || exists i :: c.parkedAt[id] <= i < |c.history| && c.history[i].0 == id)
    ensures var c := Run(es);
            Step(c, Read(line)) == c.(history := c.history + [(id, r)])
  {
    hide Run, First;
    PendingIs(es, id);
    RunKeepsInv(es);
    assert CallInv(Run(es), id);
  }

  /** A call may begin, and the writer close, at any time; a line may be read whenever the reader's hand
      is empty, and an answer in it handed over; only an answer whose call is parked fills it. */
  lemma AlwaysPossible(c: Conn, line: Incoming)
    ensures Enabled(c, Fetch) && Enabled(c, CloseWriter) && !Step(c, CloseWriter).writerOpen
    ensures c.inHand == None ==> Enabled(c, Read(line))
    ensures c.inHand.Some? ==> Enabled(c, HandOver) && Step(c, HandOver).inHand == None
    ensures c.inHand == None ==>
              Step(c, Read(line)).inHand == if AnswerIn(line).Some? && AnswerIn(line).value.0 in c.pending then AnswerIn(line) else None
  {
    hide AnswerIn;
  }

  // ---------------------------------------------------------------- every call ends

  function Rank(p: Phase): nat {
    match p
    case Fetched => 4
    case Parked => 3
    case Waiting => 2
    case Expired => 1
    case SendFailed => 1
    case Done(_) => 0
  }

  /** A call that has not finished always has a step of its own to take, whatever the host and the
      other calls do, and each such step brings it nearer its end. */
  lemma CallIsNeverStuck(c: Conn, id: nat)
    requires id in c.phases && !c.phases[id].Done?
    ensures exists e ::
              && e in {Park(id), Send(id), GiveUp(id), Wake(id), Elapse(id), Forget(id)}
              && Enabled(c, e) && Rank(Step(c, e).phases[id]) < Rank(c.phases[id])
  {
    var e := match c.phases[id]
             case Fetched => Park(id)
             case Parked => Send(id)
             case Waiting => if id in c.slots then Wake(id) else Elapse(id)
             case Expired => Forget(id)
             case SendFailed => GiveUp(id);
    assert Enabled(c, e) && Rank(Step(c, e).phases[id]) < Rank(c.phases[id]);
  }

  /** No step sets a call back, and a finished call keeps its outcome. */
  lemma StepsOnlyAdvance(c: Conn, e: Event, id: nat)
    requires Inv(c) && Enabled(c, e) && id in c.phases
    ensures var p := Step(c, e).phases;
            id in p && Rank(p[id]) <= Rank(c.phases[id]) && (c.phases[id].Done? ==> p[id] == c.phases[id])
  {
    assert CallInv(c, c.nextId) && CallInv(c, id);
  }

  // ---------------------------------------------------------------- as it runs

  /** Between the sections that run undisturbed every call waits or has finished, and the reader
      holds no answer. */
  ghost predicate Settled(c: Conn) {
    Inv(c) && c.inHand == None && forall id <- c.phases :: c.phases[id] == Waiting || c.phases[id].Done?
  }

  /** The steps from `Fetch` to the wait, or to the error when the writer is closed. */
  function Begun(c: Conn): (c': Conn)
    requires Settled(c)
    ensures Settled(c')
  {
    assert CallInv(c, c.nextId);
    var id := c.nextId;
    StepKeepsInv(c, Fetch);
    var c1 := Step(c, Fetch);
    StepKeepsInv(c1, Park(id));
    var c2 := Step(c1, Park(id));
    StepKeepsInv(c2, Send(id));
    var c3 := Step(c2, Send(id));
    if c.writerOpen then c3
    else
      StepKeepsInv(c3, GiveUp(id));
      Step(c3, GiveUp(id))
  }

  /** A line read and, if it answers a call, handed over. */
  function Handled(c: Conn, line: Incoming): (c': Conn)
    requires Settled(c)
    ensures Settled(c')
  {
    StepKeepsInv(c, Read(line));
    var c1 := Step(c, Read(line));
    if c1.inHand.None? then c1
    else
      StepKeepsInv(c1, HandOver);
      Step(c1, HandOver)
  }

  /** The wait over, with the answer or without. */
  function Finished(c: Conn, id: nat): (c': Conn)
    requires Settled(c) && In(c, id, Waiting)
    ensures Settled(c')
  {
    if id in c.slots then
      StepKeepsInv(c, Wake(id));
      Step(c, Wake(id))
    else
      StepKeepsInv(c, Elapse(id));
      var c1 := Step(c, Elapse(id));
      StepKeepsInv(c1, Forget(id));
      Step(c1, Forget(id))
  }

  lemma PendingListens(c: Conn, id: nat)
    requires Settled(c) && id in c.pending
    ensures Listens(c, id)
  {
    assert CallInv(c, id);
  }

  class PluginConn {
    var nextId: nat
    var pending: set<nat>
    var slots: map<nat, Response>
    var writerOpen: bool
    ghost var phases: map<nat, Phase>
    ghost var history: seq<(nat, Response)>
    ghost var parkedAt: map<nat, nat>

    constructor ()
      ensures State() == Fresh
    {
      nextId, pending, slots, writerOpen, phases, history, parkedAt := 1, {}, map[], true, map[], [], map[];
    }

    ghost function State(): Conn
      reads this
    {
      Conn(nextId, pending, slots, None, writerOpen, phases, history, parkedAt)
    }

    method Begin() returns (id: nat, sent: bool)
      requires Settled(State())
      modifies this
      ensures id == old(nextId) && sent == old(writerOpen) && State() == Begun(old(State()))
    {
      id, sent := nextId, writerOpen;
      nextId := nextId + 1;
      pending := pending + {id};
      parkedAt := parkedAt[id := |history|];
      phases := phases[id := Fetched][id := Parked];
      if sent {
        phases := phases[id := Waiting];
      } else {
        phases := phases[id := SendFailed];
        pending := pending - {id};
        phases := phases[id := Done(WriterClosed)];
      }
    }

    /** The wait ends: with the answer if there is one, else because the time ran out. */
    method Finish(id: nat) returns (outcome: Outcome)
      requires Settled(State()) && In(State(), id, Waiting)
      modifies this
      ensures State() == Finished(old(State()), id) && In(State(), id, Done(outcome)) && id !in pending
    {
      assert CallInv(State(), id);
      if id in slots {
        outcome := Answer(slots[id]);
        phases := phases[id := Done(outcome)];
      } else {
        phases := phases[id := Expired];
        pending := pending - {id};
        outcome := TimedOut;
        phases := phases[id := Done(outcome)];
      }
    }

    /** Handles one line from the host. */
    method HandleLine(line: Incoming)
      requires Settled(State())
      modifies this
      ensures State() == Handled(old(State()), line)
    {
      var a := AnswerIn(line);
      if a.Some? {
        hide Inv;
        if a.value.0 in pending {
          PendingListens(State(), a.value.0);
        }
        history := history + [a.value];
        Complete(a.value.0, a.value.1);
      }
    }

    /** Hands an answer to the call parked under the id, if there is one. */
    method Complete(id: nat, r: Response)
      modifies this`pending, this`slots
      ensures pending == old(pending) - {id}
      ensures slots == if id in old(pending) then old(slots)[id := r] else old(slots)
    {
      if id in pending {
        pending := pending - {id};
        slots := slots[id := r];
      }
    }
  }
}
