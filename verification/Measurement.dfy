/** From accepted registrations to the averages of the clock monitor. */
module Measurement {
  import opened Endpoint
  import opened Entity
  import opened Roster
  import opened Enrollment
  import opened Messages
  import opened Monitor
  import opened MonitorHistory
  import opened MonitorRetention
  import opened Protocol
  import opened Filling
  import opened Liveness
  import opened Slots
  import opened Delivery
  import opened TwoSlots
  import C = ClientState
  import H = ClientHandle
  import S = ServerState

  /** From accepted registrations to averages: a client with at most one registration accepted before the roster was
      announced is measured truly from the break on, whatever the queues lose, as long as none of its pongs is late. */
  lemma {:induction false} MeasuredFromRegistrations(
      halfDuration: nat, steps: seq<Step>, events: seq<S.Event>, history: seq<C.Event>, client: EndpointId)
    requires SystemAfter(halfDuration, steps).toServer != []
    requires Made(SystemAfter(halfDuration, steps).forwarded, client) <= 1
    requires var s := SystemAfter(halfDuration, steps + [RefereeToServer]).server;
             && S.FirstMatch(s, events) && S.SafeRun(s, events)
             && |AllPings(AllRecorded(s, events))| <= MAX_SEQUENCE
             && Delivered(PingsTo(client, S.RunAll(s, events).1.statuses), NumbersReceived(history))
             && Delivered(H.Replies(history), AnswersOf(AllPongs(AllRecorded(s, events), client)))
             && Timely(s.clock.target, AllRecorded(s, events), client)
    ensures var s := SystemAfter(halfDuration, steps + [RefereeToServer]).server;
            && Measured(S.RunAll(s, events).0.clock, AllRecorded(s, events), client)
            && Delivered(Asked(history), AnswersOf(AllPongs(AllRecorded(s, events), client)))
  {
    BreakBegins(halfDuration, steps, client);
    MeasuredOverFifo(SystemAfter(halfDuration, steps + [RefereeToServer]).server, events, history, client);
  }

  lemma {:induction false} MadeIsSupplied(inputs: seq<RefInput>, supply: seq<EndpointId>, client: EndpointId)
    requires SuppliedBy(inputs, supply)
    ensures Made(inputs, client) == Count(supply[..|inputs|], client)
  {
    if inputs != [] {
      var n := |inputs| - 1;
      MadeIsSupplied(inputs[..n], supply, client);
      assert supply[..n + 1] == supply[..n] + [supply[n]];
    }
  }

  /** The first announcement of teams that this supply of clients fills. */
  lemma {:induction false} SupplyIsSeated(halfDuration: nat, supply: seq<EndpointId>, client: EndpointId)
    returns (steps: seq<Step>)
    requires |supply| == MAX_ROSTER_SIZE
    ensures Senders(steps) == supply && SystemAfter(halfDuration, steps).toServer != []
    ensures Made(SystemAfter(halfDuration, steps).forwarded, client) == Count(supply, client)
  {
    var inputs := Completion(EMPTY_BOOK, supply);
    steps := FillAndAnnounce(halfDuration, [], inputs, supply);
    assert [] + steps == steps && [] + inputs == inputs;
    assert SystemAfter(halfDuration, []).forwarded == [];
    MadeIsSupplied(inputs, supply, client);
    assert supply[..|inputs|] == supply;
  }

  lemma CountTwo(client: EndpointId, others: seq<EndpointId>)
    requires client !in others
    ensures Count([client, client] + others, client) == 2
  {
  }

  /** A run of the whole system after which the average is wrong: a client registers twice, others fill the teams, and
      on the break it answers one ping for each of its slots. */
  lemma {:induction false} DoublePlayerIsMismeasured(
      halfDuration: nat, client: EndpointId, others: seq<EndpointId>) returns (steps: seq<Step>)
    requires |others| == MAX_ROSTER_SIZE - 2 && client !in others
    ensures Senders(steps) == [client, client] + others && SystemAfter(halfDuration, steps).toServer != []
    ensures Mismeasured(
              SystemAfter(halfDuration, steps + [RefereeToServer]).server,
              DoubleEvents(client), DoubleHistory(), client)
  {
    steps := SupplyIsSeated(halfDuration, [client, client] + others, client);
    CountTwo(client, others);
    BreakBegins(halfDuration, steps, client);
    TwoSlotsAreMismeasured(SystemAfter(halfDuration, steps + [RefereeToServer]).server, client);
  }
}