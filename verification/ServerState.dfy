/** What the server does with each message and timer, as a function on its abstract state. */
module ServerState {
  import opened Endpoint
  import opened Entity
  import opened Roster
  import opened Enrollment
  import opened Finalise
  import opened Messages
  import opened Monitor

  datatype Phase = Waiting | OnBreak | Playing

  datatype State = State(phase: Phase, enrollment: Option<Book>, roster: Option<Sheet>, clock: Clock, game: bool)

  /** One dispatch of the server's loop. The times are those read from the clock by the handler. */
  datatype Event =
    | FromReferee(output: RefOutput)
    | StatusFrom(source: EndpointId, status: ClientStatus)
    | TransactionFrom(source: EndpointId, transaction: ClientTransaction)
    | Timers(pingDue: bool, now: int)

  datatype Outbox = Outbox(
    toReferee: seq<RefInput>,
    transactions: seq<Mail<ServerTransaction>>,
    statuses: seq<Mail<ServerStatus>>)

  const NOTHING := Outbox([], [], [])

  const TARGET_SAMPLE_SIZE: nat := 20

  const INITIAL_STATE := State(Waiting, Some(EMPTY_BOOK), None, InitialClock(TARGET_SAMPLE_SIZE), false)

  ghost function Append(a: Outbox, b: Outbox): Outbox {
    Outbox(a.toReferee + b.toReferee, a.transactions + b.transactions, a.statuses + b.statuses)
  }

  // ----- the event functions -----

  /** The acknowledgements of a roster: one per slot, to the endpoint in the slot. The player type is never set and
      goes out as the first one declared. */
  function Acks(r: Sheet): (acks: seq<Mail<ServerTransaction>>)
    requires |r.players| <= MAX_ROSTER_SIZE
    ensures |acks| == |r.players|
  {
    seq(|r.players|, i requires 0 <= i < |r.players| =>
      Mail(r.players[i], RegAck(IdToUniform(i).0, IdToUniform(i).1, OutField)))
  }

  function Pings(r: Sheet, n: SequenceNum): (pings: seq<Mail<ServerStatus>>)
    ensures |pings| == |r.players|
  {
    seq(|r.players|, i requires 0 <= i < |r.players| => Mail(r.players[i], PingStatus(n)))
  }

  /** Only a success is forwarded to the referee; its acknowledgement waits until the roster is final. */
  function RegistrationRequested(s: State, client: EndpointId, details: Registration): (State, Outbox)
    requires s.enrollment.Some?
  {
    var (book, result) := Register(s.enrollment.value, client, details);
    (s.(enrollment := Some(book)),
     if result.RegisterSuccess? then NOTHING.(toReferee := [RefRegistration(client, details)])
     else NOTHING.(transactions := [Mail(client, RegError(result))]))
  }

  ghost function RosterIsFinalised(s: State): (State, Outbox)
    requires s.enrollment.Some? && Full(s.enrollment.value)
  {
    var r := Finalised(s.enrollment.value);
    (s.(phase := OnBreak, enrollment := None, roster := Some(r), game := true), NOTHING.(transactions := Acks(r)))
  }

  ghost function PingTimedOut(s: State, now: int): (State, Outbox)
    requires s.roster.Some? && SafeTransmit(s.clock)
  {
    var clock := Transmit(s.clock, now);
    (s.(clock := clock), NOTHING.(statuses := Pings(s.roster.value, clock.current)))
  }

  // ----- the dispatch -----

  /** The handler of the event follows no null pointer. */
  ghost predicate Safe(s: State, e: Event) {
    match e
    case FromReferee(output) =>
      s.phase.Waiting? && output.RosterFinalised? ==> s.enrollment.Some? && Full(s.enrollment.value)
    case StatusFrom(_, _) => true
    case TransactionFrom(_, transaction) =>
      !s.phase.OnBreak? && transaction.RegistrationRequest? ==> s.enrollment.Some?
    case Timers(pingDue, _) =>
      s.phase.OnBreak? && pingDue ==> s.roster.Some? && SafeTransmit(s.clock)
  }

  ghost function Dispatch(s: State, e: Event): (State, Outbox)
    requires Safe(s, e)
  {
    match e
    case FromReferee(output) =>
      (match s.phase
       case Waiting => if output.RosterFinalised? then RosterIsFinalised(s) else (s, NOTHING)
       case OnBreak => (if output.FieldOpen? then s.(phase := Playing) else s, NOTHING)
       case Playing => (if output.MatchClose? || output.MatchAbort? then s.(phase := Waiting) else s, NOTHING))
    case StatusFrom(source, status) =>
      if s.phase.OnBreak? && status.PongStatus? then (s.(clock := Receive(s.clock, source, status.pong)), NOTHING)
      else (s, NOTHING)
    case TransactionFrom(source, transaction) =>
      if !s.phase.OnBreak? && transaction.RegistrationRequest?
      then RegistrationRequested(s, source, transaction.details)
      else (s, NOTHING)
    case Timers(pingDue, now) =>
      if s.phase.OnBreak? && pingDue then PingTimedOut(s, now) else (s, NOTHING)
  }

  // ----- the life cycle -----

  /** The enrollment is there exactly while waiting, the roster and the game exactly afterwards. */
  ghost predicate Consistent(s: State) {
    && s.clock.target >= 1
    && (s.phase.Waiting? <==> s.enrollment.Some?)
    && (s.phase.Waiting? <==> s.roster.None?)
    && (s.game <==> s.roster.Some?)
  }

  predicate EndsMatch(s: State, e: Event) {
    s.phase.Playing? && e.FromReferee? && (e.output.MatchClose? || e.output.MatchAbort?)
  }

  /** Before the end of the match only two dispatches go wrong: a registration while playing, and an announcement
      of the roster before the enrollment is full. */
  lemma SafeIff(s: State, e: Event)
    requires Consistent(s)
    ensures Safe(s, e) <==>
              && !(s.phase.Playing? && e.TransactionFrom? && e.transaction.RegistrationRequest?)
              && !(s.phase.Waiting? && e == FromReferee(RosterFinalised) && !Full(s.enrollment.value))
  {
  }

  /** Once the field is open, any registration goes wrong. */
  lemma RegistrationWhilePlaying(s: State, client: EndpointId, details: Registration)
    requires Consistent(s) && s.phase.OnBreak?
    ensures Safe(s, FromReferee(FieldOpen))
    ensures !Safe(Dispatch(s, FromReferee(FieldOpen)).0, TransactionFrom(client, RegistrationRequest(details)))
  {
  }

  /** A run of safe dispatches up to the first end of a match. */
  ghost predicate FirstMatch(s: State, events: seq<Event>)
    decreases |events|
  {
    events == [] ||
    (Safe(s, events[0]) && !EndsMatch(s, events[0]) && FirstMatch(Dispatch(s, events[0]).0, events[1..]))
  }

  ghost function StateAfter(s: State, events: seq<Event>): State
    requires FirstMatch(s, events)
    decreases |events|
  {
    if events == [] then s else StateAfter(Dispatch(s, events[0]).0, events[1..])
  }

  lemma DispatchKeepsConsistent(s: State, e: Event)
    requires Consistent(s) && Safe(s, e) && !EndsMatch(s, e)
    ensures Consistent(Dispatch(s, e).0)
  {
  }

  /** Up to the end of the match the enrollment is there exactly while waiting and the roster exactly afterwards. */
  lemma {:induction false} LifeCycle(s: State, events: seq<Event>)
    requires Consistent(s) && FirstMatch(s, events)
    ensures Consistent(StateAfter(s, events))
    decreases |events|
  {
    if events != [] {
      DispatchKeepsConsistent(s, events[0]);
      LifeCycle(Dispatch(s, events[0]).0, events[1..]);
    }
  }

  // ----- the phases of a run -----

  /** The roster is announced, and the field opened later. */
  ghost predicate Opened(events: seq<Event>) {
    exists i, j | 0 <= i < j < |events| ::
      events[i] == FromReferee(RosterFinalised) && events[j] == FromReferee(FieldOpen)
  }

  lemma OpenedFirst(e: Event, rest: seq<Event>)
    ensures Opened([e] + rest)
            <==> Opened(rest) || (e == FromReferee(RosterFinalised) && FromReferee(FieldOpen) in rest)
  {
    var events := [e] + rest;
    if Opened(rest) {
      var i, j :| 0 <= i < j < |rest| &&
        rest[i] == FromReferee(RosterFinalised) && rest[j] == FromReferee(FieldOpen);
      assert events[i + 1] == rest[i] && events[j + 1] == rest[j];
    }
    if e == FromReferee(RosterFinalised) && FromReferee(FieldOpen) in rest {
      var j :| 0 <= j < |rest| && rest[j] == FromReferee(FieldOpen);
      assert events[0] == e && events[j + 1] == rest[j];
    }
  }

  /** The phase that a dispatch leads to, before the end of the match. */
  function NextPhase(phase: Phase, e: Event): Phase {
    if phase.Waiting? && e == FromReferee(RosterFinalised) then OnBreak
    else if phase.OnBreak? && e == FromReferee(FieldOpen) then Playing
    else phase
  }

  lemma PhaseOfDispatch(s: State, e: Event)
    requires Safe(s, e) && !EndsMatch(s, e)
    ensures Dispatch(s, e).0.phase == NextPhase(s.phase, e)
  {
  }

  /** Up to the end of the first match the phase is told by two messages of the referee: the announcement of the
      roster ends the waiting, and the opening of the field after it the break. Nothing else ends either, and nothing
      ends the play. */
  lemma {:induction false} PhaseOfRun(s: State, events: seq<Event>)
    requires FirstMatch(s, events)
    ensures s.phase.Playing? ==> StateAfter(s, events).phase.Playing?
    ensures s.phase.OnBreak? ==>
              StateAfter(s, events).phase == if FromReferee(FieldOpen) in events then Playing else OnBreak
    ensures s.phase.Waiting? ==>
              StateAfter(s, events).phase
              == if Opened(events) then Playing else if FromReferee(RosterFinalised) in events then OnBreak else Waiting
    decreases |events|
  {
    if events != [] {
      var e, rest := events[0], events[1..];
      PhaseOfDispatch(s, e);
      PhaseOfRun(Dispatch(s, e).0, rest);
      OpenedFirst(e, rest);
      assert events == [e] + rest;
    }
  }

  // ----- runs of dispatches -----

  ghost predicate SafeRun(s: State, events: seq<Event>)
    decreases |events|
  {
    events == [] || (Safe(s, events[0]) && SafeRun(Dispatch(s, events[0]).0, events[1..]))
  }

  /** The state after a run, and all that is sent during it. */
  ghost function RunAll(s: State, events: seq<Event>): (State, Outbox)
    requires SafeRun(s, events)
    decreases |events|
  {
    if events == [] then (s, NOTHING) else
      var (next, sent) := Dispatch(s, events[0]);
      var (last, rest) := RunAll(next, events[1..]);
      (last, Append(sent, rest))
  }

  lemma AppendNothing(a: Outbox)
    ensures Append(a, NOTHING) == a && Append(NOTHING, a) == a
  {
  }

  lemma AppendAssociates(a: Outbox, b: Outbox, c: Outbox)
    ensures Append(Append(a, b), c) == Append(a, Append(b, c))
  {
  }

  /** Up to the end of the first match a run keeps the enrollment exactly while waiting and the roster exactly
      afterwards. */
  lemma {:induction false} RunIsFirstMatch(s: State, events: seq<Event>)
    requires Consistent(s) && FirstMatch(s, events)
    ensures SafeRun(s, events) && RunAll(s, events).0 == StateAfter(s, events)
    ensures Consistent(RunAll(s, events).0)
    decreases |events|
  {
    if events != [] {
      DispatchKeepsConsistent(s, events[0]);
      RunIsFirstMatch(Dispatch(s, events[0]).0, events[1..]);
    }
  }

  /** After the end of the match the phase is waiting again but no enrollment is there: then any registration and
      any announcement of a roster would go wrong, and nothing else. */
  lemma SafeAfterMatchIff(s: State, end: Event, e: Event)
    requires Consistent(s) && EndsMatch(s, end)
    ensures Safe(s, end) && Dispatch(s, end).0 == s.(phase := Waiting)
    ensures Safe(Dispatch(s, end).0, e) <==>
              !(e.TransactionFrom? && e.transaction.RegistrationRequest?) && e != FromReferee(RosterFinalised)
  {
  }
}
