/** The registration protocol between the server and the referee, as a state machine over their interleaved steps.
    The queue to the referee is lossless, the one back may lose any message. */
module Protocol {
  import opened Endpoint
  import opened Entity
  import opened Roster
  import opened Enrollment
  import opened Finalise
  import opened Messages
  import opened Referee
  import opened Sequences
  import S = ServerState

  /** forwarded is every registration sent to the referee so far, announced the number of rosters announced;
      faulted says that the server or the referee followed a null pointer. */
  datatype System = System(
    server: S.State,
    referee: RefereeState,
    toReferee: seq<RefInput>,
    toServer: seq<RefOutput>,
    toClients: seq<Mail<ServerTransaction>>,
    forwarded: seq<RefInput>,
    announced: nat,
    faulted: bool)

  datatype Step =
    | ClientToServer(source: EndpointId, transaction: ClientTransaction)
    | StatusToServer(source: EndpointId, status: ClientStatus)
    | ServerTimers(pingDue: bool, now: int)
    | RefereeToServer
    | ServerToReferee
    | LoseOutput(index: nat)

  /** The server has sent the rules of the match when the referee was spawned. */
  function Initial(halfDuration: nat): System {
    System(S.INITIAL_STATE, INITIAL_REFEREE, [Rules(halfDuration)], [], [], [], 0, false)
  }

  ghost function ServerDispatch(sys: System, e: S.Event): System {
    if !S.Safe(sys.server, e) then sys.(faulted := true) else
      var (server, outbox) := S.Dispatch(sys.server, e);
      sys.(
        server := server,
        toReferee := sys.toReferee + outbox.toReferee,
        forwarded := sys.forwarded + outbox.toReferee,
        toClients := sys.toClients + outbox.transactions)
  }

  ghost function RefereeStep(sys: System): System
    requires sys.toReferee != []
  {
    if !Accepts(sys.referee, sys.toReferee[0]) then sys.(faulted := true) else
      var (referee, outputs) := Adjudicate(sys.referee, sys.toReferee[0]);
      sys.(
        referee := referee,
        toReferee := sys.toReferee[1..],
        toServer := sys.toServer + outputs,
        announced := sys.announced + |outputs|)
  }

  /** A step that has no message to handle leaves the system as it is. */
  ghost function Next(sys: System, step: Step): System {
    match step
    case ClientToServer(source, transaction) => ServerDispatch(sys, S.TransactionFrom(source, transaction))
    case StatusToServer(source, status) => ServerDispatch(sys, S.StatusFrom(source, status))
    case ServerTimers(pingDue, now) => ServerDispatch(sys, S.Timers(pingDue, now))
    case RefereeToServer =>
      if sys.toServer == [] then sys
      else ServerDispatch(sys.(toServer := sys.toServer[1..]), S.FromReferee(sys.toServer[0]))
    case ServerToReferee => if sys.toReferee == [] then sys else RefereeStep(sys)
    case LoseOutput(i) =>
      if i < |sys.toServer| then sys.(toServer := sys.toServer[..i] + sys.toServer[i + 1..]) else sys
  }

  ghost function SystemAfter(halfDuration: nat, steps: seq<Step>): System {
    if steps == [] then Initial(halfDuration)
    else Next(SystemAfter(halfDuration, steps[..|steps| - 1]), steps[|steps| - 1])
  }

  // ----- replaying registrations -----

  /** The enrollment reached by registering in turn, or nothing when one of them is refused. */
  function Replay(b: Book, inputs: seq<RefInput>): Option<Book>
    decreases |inputs|
  {
    if inputs == [] then Some(b) else
      match inputs[0]
      case Rules(_) => Replay(b, inputs[1..])
      case RefRegistration(client, details) =>
        var (next, result) := Register(b, client, details);
        if result.RegisterSuccess? then Replay(next, inputs[1..]) else None
  }

  lemma {:induction false} ReplayConcat(b: Book, xs: seq<RefInput>, ys: seq<RefInput>)
    ensures Replay(b, xs + ys) == if Replay(b, xs).Some? then Replay(Replay(b, xs).value, ys) else None
    decreases |xs|
  {
    if xs == [] {
      assert xs + ys == ys;
    } else {
      assert (xs + ys)[1..] == xs[1..] + ys;
      match xs[0]
      case Rules(_) => ReplayConcat(b, xs[1..], ys);
      case RefRegistration(client, details) => ReplayConcat(Register(b, client, details).0, xs[1..], ys);
    }
  }

  lemma ReplayOne(b: Book, client: EndpointId, details: Registration)
    ensures Replay(b, [RefRegistration(client, details)])
            == if Register(b, client, details).1.RegisterSuccess? then Some(Register(b, client, details).0) else None
  {
    assert [RefRegistration(client, details)][1..] == [];
  }

  lemma ReplayAppend(b: Book, inputs: seq<RefInput>, client: EndpointId, details: Registration)
    requires Replay(b, inputs).Some?
    ensures var last := Replay(b, inputs).value;
            Replay(b, inputs + [RefRegistration(client, details)])
            == if Register(last, client, details).1.RegisterSuccess? then Some(Register(last, client, details).0)
               else None
  {
    ReplayConcat(b, inputs, [RefRegistration(client, details)]);
    ReplayOne(Replay(b, inputs).value, client, details);
  }

  /** Nothing can be replayed on a full enrollment. */
  lemma {:induction false} ReplayOnFull(b: Book, inputs: seq<RefInput>)
    requires Full(b) && Replay(b, inputs).Some?
    ensures Replay(b, inputs).value == b && forall input <- inputs :: input.Rules?
  {
    if inputs != [] {
      if inputs[0].RefRegistration? {
        FullRefusesAll(b, inputs[0].client, inputs[0].details);
      } else {
        ReplayOnFull(b, inputs[1..]);
      }
    }
  }

  lemma {:induction false} ReplayKeepsInv(b: Book, inputs: seq<RefInput>)
    requires Inv(b) && Replay(b, inputs).Some?
    ensures Inv(Replay(b, inputs).value)
    decreases |inputs|
  {
    if inputs != [] {
      match inputs[0]
      case Rules(_) => ReplayKeepsInv(b, inputs[1..]);
      case RefRegistration(client, details) =>
        RegisterKeepsInv(b, client, details);
        ReplayKeepsInv(Register(b, client, details).0, inputs[1..]);
    }
  }

  // ----- the acknowledgements among the messages to the clients -----

  function AcksOf(mails: seq<Mail<ServerTransaction>>): seq<Mail<ServerTransaction>> {
    if mails == [] then [] else (if mails[0].body.RegAck? then [mails[0]] else []) + AcksOf(mails[1..])
  }

  lemma {:induction false} AcksOfAppend(a: seq<Mail<ServerTransaction>>, b: seq<Mail<ServerTransaction>>)
    ensures AcksOf(a + b) == AcksOf(a) + AcksOf(b)
  {
    if a == [] {
      assert a + b == b;
    } else {
      var head := if a[0].body.RegAck? then [a[0]] else [];
      AcksOfAppend(a[1..], b);
      assert (a + b)[0] == a[0] && (a + b)[1..] == a[1..] + b;
      Associates(head, AcksOf(a[1..]), AcksOf(b));
    }
  }

  lemma {:induction false} AcksOfAcks(mails: seq<Mail<ServerTransaction>>)
    requires forall mail <- mails :: mail.body.RegAck?
    ensures AcksOf(mails) == mails
  {
    if mails != [] {
      AcksOfAcks(mails[1..]);
      assert mails == [mails[0]] + mails[1..];
    }
  }

  // ----- the invariant -----

  /** The server holds the enrollment until the roster is final, and the roster made of it afterwards. */
  ghost predicate ServerHolds(server: S.State, book: Book) {
    && S.Consistent(server) && !server.phase.Playing?
    && (server.phase.Waiting? ==> server.enrollment == Some(book))
    && (server.phase.OnBreak? ==> Full(book) && server.roster == Some(Finalised(book)))
  }

  /** While the referee collects, replaying what is pending gives the server's enrollment. Once it has announced the
      roster, nothing is pending, the enrollment is full and its roster is the one the server has or will make. */
  ghost predicate RefereeFollows(sys: System, book: Book) {
    match sys.referee.enrollment
    case Some(copy) =>
      && !Full(copy) && Replay(copy, sys.toReferee) == Some(book)
      && sys.referee.roster.None? && !sys.referee.playing && sys.announced == 0
      && sys.toServer == [] && sys.server.phase.Waiting?
    case None =>
      && Full(book) && (forall input <- sys.toReferee :: input.Rules?)
      && sys.referee.roster == Some(Finalised(book)) && sys.referee.playing && sys.announced == 1
      && (sys.toServer == [] || sys.toServer == [RosterFinalised])
      && (sys.server.phase.OnBreak? ==> sys.toServer == [])
  }

  ghost predicate ClientsTold(sys: System, book: Book)
    requires ServerHolds(sys.server, book)
  {
    AcksOf(sys.toClients) == if sys.server.phase.OnBreak? then S.Acks(Finalised(book)) else []
  }

  ghost predicate Agreement(sys: System, book: Book) {
    && !sys.faulted
    && Replay(EMPTY_BOOK, sys.forwarded) == Some(book)
    && ServerHolds(sys.server, book)
    && RefereeFollows(sys, book)
    && ClientsTold(sys, book)
  }

  lemma RegistrationStep(sys: System, book: Book, client: EndpointId, details: Registration)
    requires Agreement(sys, book) && sys.server.phase.Waiting?
    ensures var e := S.TransactionFrom(client, RegistrationRequest(details));
            S.Safe(sys.server, e) && Agreement(ServerDispatch(sys, e), Register(book, client, details).0)
  {
    var e := S.TransactionFrom(client, RegistrationRequest(details));
    var after := ServerDispatch(sys, e);
    var (next, result) := Register(book, client, details);
    if result.RegisterSuccess? {
      if sys.referee.enrollment.None? {
        FullRefusesAll(book, client, details);
        assert false;
      } else {
        ReplayAppend(sys.referee.enrollment.value, sys.toReferee, client, details);
        ReplayAppend(EMPTY_BOOK, sys.forwarded, client, details);
        assert after.toClients == sys.toClients;
      }
    } else {
      RefusalChangesNothing(book, client, details);
      var refusal := [Mail(client, RegError(result))];
      assert after.toReferee == sys.toReferee && after.forwarded == sys.forwarded;
      assert after.toClients == sys.toClients + refusal;
      AcksOfAppend(sys.toClients, refusal);
      assert AcksOf(refusal) == [];
    }
  }

  /** An event that moves nothing but the clock. */
  lemma QuietStep(sys: System, book: Book, e: S.Event)
    requires Agreement(sys, book) && S.Safe(sys.server, e)
    requires var (server, outbox) := S.Dispatch(sys.server, e);
             && server == sys.server.(clock := server.clock) && server.clock.target == sys.server.clock.target
             && outbox.toReferee == [] && outbox.transactions == []
    ensures Agreement(ServerDispatch(sys, e), book)
  {
    var after := ServerDispatch(sys, e);
    assert after.toReferee == sys.toReferee && after.forwarded == sys.forwarded && after.toClients == sys.toClients;
  }

  lemma AcksSentOnce(mails: seq<Mail<ServerTransaction>>, r: Sheet)
    requires r.Sized() && AcksOf(mails) == []
    ensures AcksOf(mails + S.Acks(r)) == S.Acks(r)
  {
    AcksOfAppend(mails, S.Acks(r));
    AcksOfAcks(S.Acks(r));
    assert [] + S.Acks(r) == S.Acks(r);
  }

  lemma FinalisedStep(sys: System, book: Book)
    requires Agreement(sys, book) && sys.toServer != []
    ensures sys.toServer == [RosterFinalised] && S.Safe(sys.server, S.FromReferee(RosterFinalised))
    ensures Agreement(Next(sys, RefereeToServer), book)
    ensures var after := Next(sys, RefereeToServer);
            after.server.phase.OnBreak? && |AcksOf(after.toClients)| == MAX_ROSTER_SIZE
  {
    var r := Finalised(book);
    assert sys.toServer[1..] == [] && sys.server.enrollment == Some(book);
    assert sys.toReferee + [] == sys.toReferee && sys.forwarded + [] == sys.forwarded;
    AcksSentOnce(sys.toClients, r);
    var after := Next(sys, RefereeToServer);
    assert after == sys.(
      server := S.RosterIsFinalised(sys.server).0, toServer := [], toClients := sys.toClients + S.Acks(r));
    assert ServerHolds(after.server, book) && RefereeFollows(after, book);
  }

  lemma AdjudicationStep(sys: System, book: Book)
    requires Agreement(sys, book) && sys.toReferee != []
    ensures Accepts(sys.referee, sys.toReferee[0]) && Agreement(RefereeStep(sys), book)
  {
    var input, rest := sys.toReferee[0], sys.toReferee[1..];
    assert input in sys.toReferee;
    if input.RefRegistration? && sys.referee.enrollment.Some? {
      var copy := Register(sys.referee.enrollment.value, input.client, input.details).0;
      if Full(copy) {
        ReplayOnFull(copy, rest);
      }
    }
  }

  lemma NextKeepsAgreement(sys: System, book: Book, step: Step) returns (after: Book)
    requires Agreement(sys, book)
    ensures Agreement(Next(sys, step), after)
  {
    after := book;
    match step
    case ClientToServer(source, transaction) =>
      if sys.server.phase.Waiting? && transaction.RegistrationRequest? {
        RegistrationStep(sys, book, source, transaction.details);
        after := Register(book, source, transaction.details).0;
      } else {
        QuietStep(sys, book, S.TransactionFrom(source, transaction));
      }
    case StatusToServer(source, status) => QuietStep(sys, book, S.StatusFrom(source, status));
    case ServerTimers(pingDue, now) => QuietStep(sys, book, S.Timers(pingDue, now));
    case RefereeToServer =>
      if sys.toServer != [] {
        FinalisedStep(sys, book);
      }
    case ServerToReferee =>
      if sys.toReferee != [] {
        AdjudicationStep(sys, book);
      }
    case LoseOutput(i) =>
  }

  lemma InitialAgreement(halfDuration: nat)
    ensures Agreement(Initial(halfDuration), EMPTY_BOOK)
  {
    assert [Rules(halfDuration)][1..] == [];
    assert Replay(EMPTY_BOOK, [Rules(halfDuration)]) == Some(EMPTY_BOOK);
  }

  lemma {:induction false} AgreementAlways(halfDuration: nat, steps: seq<Step>) returns (book: Book)
    ensures Agreement(SystemAfter(halfDuration, steps), book)
  {
    if steps == [] {
      book := EMPTY_BOOK;
      InitialAgreement(halfDuration);
    } else {
      book := AgreementAlways(halfDuration, steps[..|steps| - 1]);
      book := NextKeepsAgreement(SystemAfter(halfDuration, steps[..|steps| - 1]), book, steps[|steps| - 1]);
    }
  }

  // ----- main results -----

  /** In every interleaving: nothing follows a null pointer; while the referee collects, replaying the pending
      registrations on its enrollment succeeds at each one and gives exactly the server's enrollment. */
  lemma {:induction false} ReplicaAgreement(halfDuration: nat, steps: seq<Step>)
    ensures var sys := SystemAfter(halfDuration, steps);
            && !sys.faulted
            && (sys.referee.enrollment.Some? ==>
                  sys.server.enrollment.Some?
                  && Replay(sys.referee.enrollment.value, sys.toReferee) == sys.server.enrollment)
  {
    var book := AgreementAlways(halfDuration, steps);
  }

  /** The roster is announced at most once, and it has been exactly when the registrations the server accepted fill
      both teams and the referee has handled every one; the referee's roster is then the one of that enrollment,
      and exactly then its game has started. */
  lemma {:induction false} AnnouncedOnceWhenFull(halfDuration: nat, steps: seq<Step>)
    ensures var sys := SystemAfter(halfDuration, steps);
            && sys.announced <= 1
            && Replay(EMPTY_BOOK, sys.forwarded).Some?
            && var book := Replay(EMPTY_BOOK, sys.forwarded).value;
            && Inv(book)
            && (sys.announced == 1 <==> Full(book) && forall input <- sys.toReferee :: input.Rules?)
            && (sys.announced == 1 <==> sys.referee.enrollment.None?)
            && (sys.announced == 1 <==> sys.referee.playing)
            && (sys.announced == 1 ==> sys.referee.roster == Some(Finalised(book)))
            && (sys.server.phase.Waiting? ==> sys.server.enrollment == Some(book))
  {
    var sys := SystemAfter(halfDuration, steps);
    var book := AgreementAlways(halfDuration, steps);
    ReplayKeepsInv(EMPTY_BOOK, sys.forwarded);
    if sys.referee.enrollment.Some? && forall input <- sys.toReferee :: input.Rules? {
      ReplayRules(sys.referee.enrollment.value, sys.toReferee);
    }
  }

  lemma {:induction false} ReplayRules(b: Book, inputs: seq<RefInput>)
    requires forall input <- inputs :: input.Rules?
    ensures Replay(b, inputs) == Some(b)
  {
    if inputs != [] {
      ReplayRules(b, inputs[1..]);
    }
  }

  /** Once the server has left the waiting state its roster and the referee's are the same. */
  lemma {:induction false} RostersAgree(halfDuration: nat, steps: seq<Step>)
    ensures var sys := SystemAfter(halfDuration, steps);
            && (sys.server.phase.OnBreak? || sys.server.phase.Waiting?)
            && (sys.server.phase.OnBreak? ==>
                  && sys.server.roster.Some? && sys.server.roster == sys.referee.roster
                  && sys.announced == 1 && sys.toServer == [])
  {
    var book := AgreementAlways(halfDuration, steps);
  }

  /** The announcement is lost: it was made, it is not on its way, and the server is still waiting. */
  ghost predicate AnnouncementLost(sys: System) {
    sys.announced == 1 && sys.toServer == [] && sys.server.phase.Waiting?
  }

  /** Since the roster is announced only once, a server that misses the announcement waits forever. */
  lemma {:induction false} LostAnnouncementIsFinal(halfDuration: nat, steps: seq<Step>, more: seq<Step>)
    requires AnnouncementLost(SystemAfter(halfDuration, steps))
    ensures AnnouncementLost(SystemAfter(halfDuration, steps + more))
  {
    if more == [] {
      assert steps + more == steps;
    } else {
      var all, last := steps + more[..|more| - 1], more[|more| - 1];
      LostAnnouncementIsFinal(halfDuration, steps, more[..|more| - 1]);
      assert steps + more == all + [last] && (all + [last])[..|all|] == all;
      var book := AgreementAlways(halfDuration, all);
      LostStaysLost(SystemAfter(halfDuration, all), book, last);
    }
  }

  lemma LostStaysLost(sys: System, book: Book, step: Step)
    requires Agreement(sys, book) && AnnouncementLost(sys)
    ensures AnnouncementLost(Next(sys, step))
  {
    if step.ServerToReferee? && sys.toReferee != [] {
      assert sys.toReferee[0] in sys.toReferee;
    }
  }
}
