/** What can still happen: which states of the registration protocol lead to a match, and which are dead ends. */
module Liveness {
  import opened Endpoint
  import opened Entity
  import opened Enrollment
  import opened Messages
  import opened Protocol
  import opened Filling
  import opened Sequences

  // ----- continuing a run -----

  lemma SystemAfterStep(halfDuration: nat, steps: seq<Step>, step: Step)
    ensures SystemAfter(halfDuration, steps + [step]) == Next(SystemAfter(halfDuration, steps), step)
  {
    assert (steps + [step])[..|steps|] == steps;
  }

  /** The endpoints that send to the server, in the order of their messages. */
  ghost function Senders(steps: seq<Step>): seq<EndpointId> {
    if steps == [] then [] else
      (if steps[0].ClientToServer? then [steps[0].source] else []) + Senders(steps[1..])
  }

  lemma {:induction false} SendersConcat(a: seq<Step>, b: seq<Step>)
    ensures Senders(a + b) == Senders(a) + Senders(b)
  {
    if a == [] {
      assert a + b == b;
    } else {
      SendersConcat(a[1..], b);
      assert (a + b)[0] == a[0] && (a + b)[1..] == a[1..] + b;
      Associates(if a[0].ClientToServer? then [a[0].source] else [], Senders(a[1..]), Senders(b));
    }
  }

  lemma {:induction false} NoSenders(steps: seq<Step>)
    requires forall step <- steps :: !step.ClientToServer?
    ensures Senders(steps) == []
  {
    if steps != [] {
      assert steps[0] in steps;
      NoSenders(steps[1..]);
    }
  }

  /** Each registration as one message of its client. */
  ghost function Requests(inputs: seq<RefInput>): (steps: seq<Step>)
    requires forall input <- inputs :: input.RefRegistration?
    ensures |steps| == |inputs|
  {
    seq(|inputs|, i requires 0 <= i < |inputs| =>
      ClientToServer(inputs[i].client, RegistrationRequest(inputs[i].details)))
  }

  lemma {:induction false} RequestSenders(inputs: seq<RefInput>, supply: seq<EndpointId>)
    requires SuppliedBy(inputs, supply)
    ensures Senders(Requests(inputs)) == supply[..|inputs|]
  {
    if inputs != [] {
      assert SuppliedBy(inputs[1..], supply[1..]);
      RequestSenders(inputs[1..], supply[1..]);
      assert Requests(inputs)[1..] == Requests(inputs[1..]);
      assert supply[..|inputs|] == [supply[0]] + supply[1..][..|inputs| - 1];
    }
  }

  /** Between two systems the server has taken in these registrations and forwarded them; the referee was not
      involved. */
  ghost predicate Enrolls(sys: System, after: System, inputs: seq<RefInput>) {
    && sys.server.phase.Waiting? && after.server.phase.Waiting?
    && sys.server.enrollment.Some?
    && after.server.enrollment.Some?
    && after.server.enrollment == Replay(sys.server.enrollment.value, inputs)
    && after.referee == sys.referee && after.toServer == sys.toServer && after.announced == sys.announced
    && after.forwarded == sys.forwarded + inputs
  }

  lemma EnrollsNone(sys: System)
    requires sys.server.phase.Waiting? && sys.server.enrollment.Some?
    ensures Enrolls(sys, sys, [])
  {
    assert sys.forwarded + [] == sys.forwarded;
  }

  lemma EnrollsMore(sys: System, middle: System, after: System, a: seq<RefInput>, b: seq<RefInput>)
    requires Enrolls(sys, middle, a) && Enrolls(middle, after, b)
    ensures Enrolls(sys, after, a + b)
  {
    ReplayConcat(sys.server.enrollment.value, a, b);
    Associates(sys.forwarded, a, b);
  }

  /** The first of acceptable registrations is taken in, and the others remain acceptable. */
  lemma EnrollsFirst(halfDuration: nat, steps: seq<Step>, inputs: seq<RefInput>, step: Step)
    requires inputs != [] && inputs[0].RefRegistration?
    requires step == ClientToServer(inputs[0].client, RegistrationRequest(inputs[0].details))
    requires var sys := SystemAfter(halfDuration, steps);
             && sys.server.phase.Waiting? && sys.server.enrollment.Some?
             && Replay(sys.server.enrollment.value, inputs).Some?
    ensures var (sys, next) := (SystemAfter(halfDuration, steps), SystemAfter(halfDuration, steps + [step]));
            && Enrolls(sys, next, [inputs[0]])
            && Replay(next.server.enrollment.value, inputs[1..]).Some?
  {
    ReplayOne(SystemAfter(halfDuration, steps).server.enrollment.value, inputs[0].client, inputs[0].details);
    SystemAfterStep(halfDuration, steps, step);
  }

  lemma RequestsFirst(steps: seq<Step>, inputs: seq<RefInput>)
    requires inputs != [] && forall input <- inputs :: input.RefRegistration?
    ensures steps + Requests(inputs) == steps + [Requests(inputs)[0]] + Requests(inputs[1..])
  {
    assert Requests(inputs) == [Requests(inputs)[0]] + Requests(inputs[1..]);
  }

  lemma {:induction false} ServerEnrolls(
      halfDuration: nat, steps: seq<Step>, inputs: seq<RefInput>, all: seq<Step>)
    requires forall input <- inputs :: input.RefRegistration?
    requires all == steps + Requests(inputs)
    requires var sys := SystemAfter(halfDuration, steps);
             && sys.server.phase.Waiting? && sys.server.enrollment.Some?
             && Replay(sys.server.enrollment.value, inputs).Some?
    ensures Enrolls(SystemAfter(halfDuration, steps), SystemAfter(halfDuration, all), inputs)
    decreases |inputs|
  {
    if inputs == [] {
      assert all == steps;
      EnrollsNone(SystemAfter(halfDuration, steps));
    } else {
      var next := steps + [Requests(inputs)[0]];
      EnrollsFirst(halfDuration, steps, inputs, Requests(inputs)[0]);
      RequestsFirst(steps, inputs);
      ServerEnrolls(halfDuration, next, inputs[1..], all);
      EnrollsMore(
        SystemAfter(halfDuration, steps), SystemAfter(halfDuration, next), SystemAfter(halfDuration, all),
        [inputs[0]], inputs[1..]);
      assert inputs == [inputs[0]] + inputs[1..];
    }
  }

  /** While the server's enrollment is full and the referee still collects, the referee has something to handle. */
  lemma CollectingStep(sys: System, book: Book)
    requires Agreement(sys, book) && sys.server.phase.Waiting? && Full(book) && sys.referee.enrollment.Some?
    ensures sys.toReferee != []
    ensures var next := Next(sys, ServerToReferee);
            && next.server == sys.server && next.forwarded == sys.forwarded
            && next.toReferee == sys.toReferee[1..] && !AnnouncementLost(next)
  {
    assert sys.toReferee != [];
    AdjudicationStep(sys, book);
  }

  /** The announcement is on its way, and the server has not moved. */
  ghost predicate Announces(sys: System, after: System) {
    after.toServer == [RosterFinalised] && after.server == sys.server && after.forwarded == sys.forwarded
  }

  lemma AlreadyAnnounced(sys: System, book: Book)
    requires Agreement(sys, book) && sys.referee.enrollment.None?
    requires sys.server.phase.Waiting? && !AnnouncementLost(sys)
    ensures Announces(sys, sys)
  {
  }

  lemma CollectingNext(halfDuration: nat, steps: seq<Step>, book: Book)
    requires var sys := SystemAfter(halfDuration, steps);
             && Agreement(sys, book) && sys.server.phase.Waiting? && Full(book) && sys.referee.enrollment.Some?
    ensures var (sys, next) := (SystemAfter(halfDuration, steps), SystemAfter(halfDuration, steps + [ServerToReferee]));
            && next.server == sys.server && next.forwarded == sys.forwarded
            && |next.toReferee| == |sys.toReferee| - 1 && !AnnouncementLost(next)
  {
    CollectingStep(SystemAfter(halfDuration, steps), book);
    SystemAfterStep(halfDuration, steps, ServerToReferee);
  }

  /** The referee announces a roster that is full at the server after at most as many steps as it has messages
      pending, unless the announcement was lost already. */
  lemma {:induction false} RefereeAnnounces(halfDuration: nat, steps: seq<Step>) returns (more: seq<Step>)
    requires var sys := SystemAfter(halfDuration, steps);
             && sys.server.phase.Waiting? && !AnnouncementLost(sys)
             && sys.server.enrollment.Some? && Full(sys.server.enrollment.value)
    ensures |more| <= |SystemAfter(halfDuration, steps).toReferee| && forall step <- more :: step.ServerToReferee?
    ensures Announces(SystemAfter(halfDuration, steps), SystemAfter(halfDuration, steps + more))
    decreases |SystemAfter(halfDuration, steps).toReferee|
  {
    var sys := SystemAfter(halfDuration, steps);
    var book := AgreementAlways(halfDuration, steps);
    if sys.referee.enrollment.None? {
      more := [];
      assert steps + more == steps;
      AlreadyAnnounced(sys, book);
    } else {
      CollectingNext(halfDuration, steps, book);
      var rest := RefereeAnnounces(halfDuration, steps + [ServerToReferee]);
      more := [ServerToReferee] + rest;
      Associates(steps, [ServerToReferee], rest);
    }
  }

  // ----- main results -----

  /** An announcement on its way takes the server out of waiting, with an acknowledgement for every player. */
  lemma AnnouncementArrives(halfDuration: nat, steps: seq<Step>)
    requires SystemAfter(halfDuration, steps).toServer != []
    ensures var after := SystemAfter(halfDuration, steps + [RefereeToServer]);
            after.server.phase.OnBreak? && |AcksOf(after.toClients)| == MAX_ROSTER_SIZE
  {
    var book := AgreementAlways(halfDuration, steps);
    SystemAfterStep(halfDuration, steps, RefereeToServer);
    FinalisedStep(SystemAfter(halfDuration, steps), book);
  }

  lemma LossStep(sys: System, book: Book)
    requires Agreement(sys, book) && sys.toServer != []
    ensures AnnouncementLost(Next(sys, LoseOutput(0)))
  {
  }

  lemma {:induction false} AnnouncementCanBeLost(halfDuration: nat, steps: seq<Step>)
    requires SystemAfter(halfDuration, steps).toServer != []
    ensures AnnouncementLost(SystemAfter(halfDuration, steps + [LoseOutput(0)]))
  {
    var book := AgreementAlways(halfDuration, steps);
    LossStep(SystemAfter(halfDuration, steps), book);
    SystemAfterStep(halfDuration, steps, LoseOutput(0));
  }

  /** Filling the teams from a supply of clients gets the announcement out. */
  lemma FillAndAnnounce(halfDuration: nat, steps: seq<Step>, inputs: seq<RefInput>, supply: seq<EndpointId>)
    returns (more: seq<Step>)
    requires var sys := SystemAfter(halfDuration, steps);
             && sys.server.phase.Waiting? && sys.referee.enrollment.Some? && sys.server.enrollment.Some?
             && SuppliedBy(inputs, supply)
             && Replay(sys.server.enrollment.value, inputs).Some?
             && Full(Replay(sys.server.enrollment.value, inputs).value)
    ensures Senders(more) == supply[..|inputs|]
    ensures var (sys, after) := (SystemAfter(halfDuration, steps), SystemAfter(halfDuration, steps + more));
            after.toServer == [RosterFinalised] && after.forwarded == sys.forwarded + inputs
  {
    var book := AgreementAlways(halfDuration, steps);
    var requests := Requests(inputs);
    ServerEnrolls(halfDuration, steps, inputs, steps + requests);
    var drain := RefereeAnnounces(halfDuration, steps + requests);
    more := requests + drain;
    Associates(steps, requests, drain);
    SendersConcat(requests, drain);
    RequestSenders(inputs, supply);
    NoSenders(drain);
  }

  /** However many have registered, a waiting server that has not missed the announcement can still get it. */
  lemma {:induction false} CanAnnounce(halfDuration: nat, steps: seq<Step>, supply: seq<EndpointId>)
    returns (more: seq<Step>)
    requires SystemAfter(halfDuration, steps).server.phase.Waiting? && |supply| >= MAX_ROSTER_SIZE
    requires !AnnouncementLost(SystemAfter(halfDuration, steps))
    ensures Senders(more) <= supply && SystemAfter(halfDuration, steps + more).toServer == [RosterFinalised]
  {
    var sys := SystemAfter(halfDuration, steps);
    var book := AgreementAlways(halfDuration, steps);
    if sys.referee.enrollment.None? {
      more := [];
      assert steps + more == steps;
    } else {
      ReplayKeepsInv(EMPTY_BOOK, sys.forwarded);
      var inputs := Completion(book, supply);
      more := FillAndAnnounce(halfDuration, steps, inputs, supply);
    }
  }

  /** One more step that is no client's message. */
  lemma ThenStep(halfDuration: nat, steps: seq<Step>, more: seq<Step>, step: Step)
    requires !step.ClientToServer?
    ensures Senders(more + [step]) == Senders(more)
    ensures SystemAfter(halfDuration, steps + (more + [step])) == SystemAfter(halfDuration, steps + more + [step])
  {
    SendersConcat(more, [step]);
    NoSenders([step]);
    Associates(steps, more, [step]);
  }

  lemma OnBreakStep(sys: System, book: Book, step: Step)
    requires Agreement(sys, book) && sys.server.phase.OnBreak?
    ensures Next(sys, step).server.phase.OnBreak?
  {
  }

  lemma OnBreakNext(halfDuration: nat, steps: seq<Step>, step: Step)
    requires SystemAfter(halfDuration, steps).server.phase.OnBreak?
    ensures SystemAfter(halfDuration, steps + [step]).server.phase.OnBreak?
  {
    var book := AgreementAlways(halfDuration, steps);
    OnBreakStep(SystemAfter(halfDuration, steps), book, step);
    SystemAfterStep(halfDuration, steps, step);
  }

  lemma {:induction false} OnBreakUpTo(halfDuration: nat, steps: seq<Step>, all: seq<Step>)
    requires steps <= all && SystemAfter(halfDuration, steps).server.phase.OnBreak?
    ensures SystemAfter(halfDuration, all).server.phase.OnBreak?
    decreases |all| - |steps|
  {
    if |steps| < |all| {
      OnBreakNext(halfDuration, steps, all[|steps|]);
      OnBreakUpTo(halfDuration, steps + [all[|steps|]], all);
    } else {
      assert steps == all;
    }
  }

  lemma OnBreakStays(halfDuration: nat, steps: seq<Step>, more: seq<Step>)
    requires SystemAfter(halfDuration, steps).server.phase.OnBreak?
    ensures SystemAfter(halfDuration, steps + more).server.phase.OnBreak?
  {
    OnBreakUpTo(halfDuration, steps, steps + more);
  }

  lemma {:induction false} MatchStarts(halfDuration: nat, steps: seq<Step>, supply: seq<EndpointId>)
    returns (more: seq<Step>)
    requires !AnnouncementLost(SystemAfter(halfDuration, steps)) && |supply| >= MAX_ROSTER_SIZE
    ensures Senders(more) <= supply && SystemAfter(halfDuration, steps + more).server.phase.OnBreak?
  {
    RostersAgree(halfDuration, steps);
    if SystemAfter(halfDuration, steps).server.phase.OnBreak? {
      more := [];
      assert steps + more == steps;
    } else {
      var announce := CanAnnounce(halfDuration, steps, supply);
      AnnouncementArrives(halfDuration, steps + announce);
      ThenStep(halfDuration, steps, announce, RefereeToServer);
      more := announce + [RefereeToServer];
    }
  }

  /** A match can still come about exactly when the announcement has not been lost, whichever clients there are to
      take the free uniforms: no enrollment is a dead end. */
  lemma {:induction false} MatchCanStartIff(halfDuration: nat, steps: seq<Step>, supply: seq<EndpointId>)
    requires |supply| >= MAX_ROSTER_SIZE
    ensures (exists more :: Senders(more) <= supply && SystemAfter(halfDuration, steps + more).server.phase.OnBreak?)
            <==> !AnnouncementLost(SystemAfter(halfDuration, steps))
  {
    if AnnouncementLost(SystemAfter(halfDuration, steps)) {
      forall more
        ensures !SystemAfter(halfDuration, steps + more).server.phase.OnBreak?
      {
        LostAnnouncementIsFinal(halfDuration, steps, more);
      }
    } else {
      var more := MatchStarts(halfDuration, steps, supply);
    }
  }

  lemma {:induction false} AnnouncementGetsLost(halfDuration: nat, steps: seq<Step>, supply: seq<EndpointId>)
    returns (more: seq<Step>)
    requires SystemAfter(halfDuration, steps).server.phase.Waiting? && |supply| >= MAX_ROSTER_SIZE
    ensures Senders(more) <= supply && AnnouncementLost(SystemAfter(halfDuration, steps + more))
  {
    if AnnouncementLost(SystemAfter(halfDuration, steps)) {
      more := [];
      assert steps + more == steps;
    } else {
      var announce := CanAnnounce(halfDuration, steps, supply);
      AnnouncementCanBeLost(halfDuration, steps + announce);
      ThenStep(halfDuration, steps, announce, LoseOutput(0));
      more := announce + [LoseOutput(0)];
    }
  }

  /** The announcement can still get lost exactly while the server waits: from the start there is a run that loses
      it, and once the server has it nothing can. */
  lemma {:induction false} CanBeLostIff(halfDuration: nat, steps: seq<Step>, supply: seq<EndpointId>)
    requires |supply| >= MAX_ROSTER_SIZE
    ensures (exists more :: Senders(more) <= supply && AnnouncementLost(SystemAfter(halfDuration, steps + more)))
            <==> SystemAfter(halfDuration, steps).server.phase.Waiting?
  {
    RostersAgree(halfDuration, steps);
    if SystemAfter(halfDuration, steps).server.phase.OnBreak? {
      forall more
        ensures !AnnouncementLost(SystemAfter(halfDuration, steps + more))
      {
        OnBreakStays(halfDuration, steps, more);
      }
    } else {
      var more := AnnouncementGetsLost(halfDuration, steps, supply);
    }
  }

  // ----- inevitability -----

  /** The server has the roster, or its enrollment is full and the referee has at most this many messages to handle
      before it announces. */
  ghost predicate Nearing(sys: System, budget: nat) {
    || sys.server.phase.OnBreak?
    || (&& sys.server.phase.Waiting? && !AnnouncementLost(sys)
        && sys.server.enrollment.Some? && Full(sys.server.enrollment.value)
        && (sys.referee.enrollment.Some? ==> |sys.toReferee| <= budget))
  }

  function Spend(budget: nat, step: Step): nat {
    if step.ServerToReferee? && budget > 0 then budget - 1 else budget
  }

  lemma NearingClient(sys: System, book: Book, step: Step, budget: nat)
    requires Agreement(sys, book) && Nearing(sys, budget) && step.ClientToServer? && sys.server.phase.Waiting?
    ensures Nearing(Next(sys, step), budget)
  {
    if step.transaction.RegistrationRequest? {
      FullRefusesAll(book, step.source, step.transaction.details);
      RefusalChangesNothing(book, step.source, step.transaction.details);
    }
  }

  lemma NearingStep(sys: System, book: Book, step: Step, budget: nat)
    requires Agreement(sys, book) && Nearing(sys, budget) && !step.LoseOutput?
    ensures Nearing(Next(sys, step), Spend(budget, step))
  {
    if sys.server.phase.OnBreak? {
      OnBreakStep(sys, book, step);
    } else {
      match step
      case ClientToServer(_, _) => NearingClient(sys, book, step, budget);
      case StatusToServer(_, _) =>
      case ServerTimers(_, _) =>
      case RefereeToServer =>
        if sys.toServer != [] {
          FinalisedStep(sys, book);
        }
      case ServerToReferee =>
        if sys.toReferee != [] {
          if sys.referee.enrollment.Some? {
            CollectingStep(sys, book);
          } else {
            AdjudicationStep(sys, book);
          }
        }
    }
  }

  lemma NearingNext(halfDuration: nat, steps: seq<Step>, step: Step, budget: nat)
    requires Nearing(SystemAfter(halfDuration, steps), budget) && !step.LoseOutput?
    ensures Nearing(SystemAfter(halfDuration, steps + [step]), Spend(budget, step))
  {
    var book := AgreementAlways(halfDuration, steps);
    NearingStep(SystemAfter(halfDuration, steps), book, step, budget);
    SystemAfterStep(halfDuration, steps, step);
  }

  function SpendAll(budget: nat, steps: seq<Step>): nat {
    if steps == [] then budget else SpendAll(Spend(budget, steps[0]), steps[1..])
  }

  lemma {:induction false} NearingRun(halfDuration: nat, steps: seq<Step>, more: seq<Step>, budget: nat)
    requires Nearing(SystemAfter(halfDuration, steps), budget) && forall step <- more :: !step.LoseOutput?
    ensures Nearing(SystemAfter(halfDuration, steps + more), SpendAll(budget, more))
    decreases |more|
  {
    if more == [] {
      assert steps + more == steps;
    } else {
      var step, rest := more[0], more[1..];
      assert step in more;
      NearingNext(halfDuration, steps, step, budget);
      NearingRun(halfDuration, steps + [step], rest, Spend(budget, step));
      assert more == [step] + rest;
      Associates(steps, [step], rest);
    }
  }

  /** The number of steps in which the referee takes an input. */
  function RefereeSteps(steps: seq<Step>): nat {
    if steps == [] then 0 else (if steps[0].ServerToReferee? then 1 else 0) + RefereeSteps(steps[1..])
  }

  lemma {:induction false} BudgetIsSpent(budget: nat, steps: seq<Step>)
    ensures SpendAll(budget, steps) == if budget >= RefereeSteps(steps) then budget - RefereeSteps(steps) else 0
  {
    if steps != [] {
      BudgetIsSpent(Spend(budget, steps[0]), steps[1..]);
    }
  }

  lemma ArrivesWhenNear(halfDuration: nat, steps: seq<Step>)
    requires Nearing(SystemAfter(halfDuration, steps), 0)
    ensures SystemAfter(halfDuration, steps + [RefereeToServer]).server.phase.OnBreak?
  {
    var sys := SystemAfter(halfDuration, steps);
    if sys.server.phase.OnBreak? {
      OnBreakNext(halfDuration, steps, RefereeToServer);
    } else {
      var book := AgreementAlways(halfDuration, steps);
      if sys.referee.enrollment.Some? {
        CollectingStep(sys, book);
        assert false;
      }
      AnnouncementArrives(halfDuration, steps);
    }
  }

  /** From a full server that has not missed the announcement, every continuation that loses nothing, in which the
      referee takes as many inputs as are pending and the server then takes an output, reaches the break. */
  lemma {:induction false} MatchIsInevitable(
      halfDuration: nat, steps: seq<Step>, before: seq<Step>, after: seq<Step>)
    requires var sys := SystemAfter(halfDuration, steps);
             && sys.server.phase.Waiting? && !AnnouncementLost(sys)
             && sys.server.enrollment.Some? && Full(sys.server.enrollment.value)
             && RefereeSteps(before) >= |sys.toReferee|
    requires forall step <- before :: !step.LoseOutput?
    ensures SystemAfter(halfDuration, steps + before + [RefereeToServer] + after).server.phase.OnBreak?
  {
    var budget := |SystemAfter(halfDuration, steps).toReferee|;
    NearingRun(halfDuration, steps, before, budget);
    BudgetIsSpent(budget, before);
    ArrivesWhenNear(halfDuration, steps + before);
    OnBreakStays(halfDuration, steps + before + [RefereeToServer], after);
  }
}
