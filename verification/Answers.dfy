/** What the server tells its clients: a refusal at once, and the acknowledgements when the roster is final. */
module Answers {
  import opened Endpoint
  import opened Roster
  import opened Enrollment
  import opened Finalise
  import opened Messages
  import opened Protocol
  import S = ServerState

  /** A request that breaks no rule is forwarded and not answered; one that breaks a rule is answered with the first
      that it breaks, to its sender and nobody else, and not forwarded. */
  lemma RequestIsAnswered(sys: System, book: Book, client: EndpointId, details: Registration)
    requires Agreement(sys, book) && sys.server.phase.Waiting?
    ensures var after := ServerDispatch(sys, S.TransactionFrom(client, RegistrationRequest(details)));
            match Objection(book, details)
            case None =>
              && after.toClients == sys.toClients
              && after.toReferee == sys.toReferee + [RefRegistration(client, details)]
            case Some(error) =>
              && after.toClients == sys.toClients + [Mail(client, RegError(error))]
              && after.toReferee == sys.toReferee
  {
    AnswerIsObjection(book, client, details);
    assert sys.toClients + [] == sys.toClients && sys.toReferee + [] == sys.toReferee;
  }

  /** The refusal that a step must be answered with. */
  function RefusalOf(enrollment: Option<Book>, step: Step): seq<Mail<ServerTransaction>> {
    if enrollment.Some? && step.ClientToServer? && step.transaction.RegistrationRequest? then
      match Objection(enrollment.value, step.transaction.details)
      case None => []
      case Some(error) => [Mail(step.source, RegError(error))]
    else []
  }

  /** The refusals of a run, in order. */
  ghost function Refusals(halfDuration: nat, steps: seq<Step>): seq<Mail<ServerTransaction>> {
    if steps == [] then [] else
      var before, last := steps[..|steps| - 1], steps[|steps| - 1];
      Refusals(halfDuration, before) + RefusalOf(SystemAfter(halfDuration, before).server.enrollment, last)
  }

  /** The acknowledgements that a server on its break has sent. */
  ghost function AcksNow(server: S.State): seq<Mail<ServerTransaction>> {
    if server.phase.OnBreak? && server.roster.Some? && server.roster.value.Sized() then S.Acks(server.roster.value)
    else []
  }

  ghost predicate Told(sys: System, refusals: seq<Mail<ServerTransaction>>) {
    sys.toClients == refusals + AcksNow(sys.server)
  }

  lemma DispatchTells(sys: System, book: Book, e: S.Event, refusals: seq<Mail<ServerTransaction>>)
    requires Agreement(sys, book) && Told(sys, refusals) && S.Safe(sys.server, e)
    requires !e.FromReferee? && !(e.TransactionFrom? && e.transaction.RegistrationRequest? && sys.server.phase.Waiting?)
    ensures Told(ServerDispatch(sys, e), refusals)
  {
    assert S.Dispatch(sys.server, e).1.transactions == [];
    assert AcksNow(S.Dispatch(sys.server, e).0) == AcksNow(sys.server);
    assert sys.toClients + [] == sys.toClients;
  }

  lemma RequestTells(
      sys: System, book: Book, client: EndpointId, details: Registration, refusals: seq<Mail<ServerTransaction>>)
    requires Agreement(sys, book) && Told(sys, refusals) && sys.server.phase.Waiting?
    ensures var transaction := RegistrationRequest(details);
            Told(ServerDispatch(sys, S.TransactionFrom(client, transaction)),
                 refusals + RefusalOf(Some(book), ClientToServer(client, transaction)))
  {
    RequestIsAnswered(sys, book, client, details);
    RegistrationStep(sys, book, client, details);
    var refusal := RefusalOf(Some(book), ClientToServer(client, RegistrationRequest(details)));
    assert refusals + [] == refusals && refusals + refusal + [] == refusals + refusal;
  }

  lemma AnnouncementTells(sys: System, book: Book, refusals: seq<Mail<ServerTransaction>>)
    requires Agreement(sys, book) && Told(sys, refusals) && sys.toServer != []
    ensures Told(Next(sys, RefereeToServer), refusals)
  {
    FinalisedStep(sys, book);
    var after := Next(sys, RefereeToServer);
    assert after.toClients == sys.toClients + S.Acks(Finalised(book));
    assert refusals + [] == refusals;
  }

  lemma NextTells(sys: System, book: Book, step: Step, refusals: seq<Mail<ServerTransaction>>)
    requires Agreement(sys, book) && Told(sys, refusals)
    ensures Told(Next(sys, step), refusals + RefusalOf(sys.server.enrollment, step))
  {
    var refusal := RefusalOf(sys.server.enrollment, step);
    assert refusal == [] ==> refusals + refusal == refusals;
    match step
    case ClientToServer(source, transaction) =>
      if sys.server.phase.Waiting? && transaction.RegistrationRequest? {
        RequestTells(sys, book, source, transaction.details, refusals);
      } else {
        DispatchTells(sys, book, S.TransactionFrom(source, transaction), refusals);
      }
    case StatusToServer(source, status) => DispatchTells(sys, book, S.StatusFrom(source, status), refusals);
    case ServerTimers(pingDue, now) => DispatchTells(sys, book, S.Timers(pingDue, now), refusals);
    case RefereeToServer =>
      if sys.toServer != [] {
        AnnouncementTells(sys, book, refusals);
      }
    case ServerToReferee =>
      if sys.toReferee != [] {
        AdjudicationStep(sys, book);
      }
    case LoseOutput(i) =>
  }

  /** In every interleaving: what the clients have been told is exactly the refusals of the requests that broke a rule,
      in the order of the requests and each to its sender, and on the break after them the acknowledgements. */
  lemma {:induction false} ClientsAreTold(halfDuration: nat, steps: seq<Step>)
    ensures var sys := SystemAfter(halfDuration, steps);
            sys.toClients == Refusals(halfDuration, steps) + AcksNow(sys.server)
  {
    if steps != [] {
      var before, last := steps[..|steps| - 1], steps[|steps| - 1];
      ClientsAreTold(halfDuration, before);
      var book := AgreementAlways(halfDuration, before);
      NextTells(SystemAfter(halfDuration, before), book, last, Refusals(halfDuration, before));
    }
  }
}
