/** A client with two slots: a run without loss or delay in which its average round trip is wrong. */
module TwoSlots {
  import opened Endpoint
  import opened Entity
  import opened Messages
  import opened Numbers
  import opened Monitor
  import opened MonitorHistory
  import opened MonitorRetention
  import opened MonitorAverages
  import opened ClientHandle
  import opened Delivery
  import opened Sequences
  import C = ClientState
  import S = ServerState

  const FIRST := Pong(10, 9, 1)
  const SECOND := Pong(20, 9, 1)

  /** What the monitor records: a ping at 0, answered twice, after 10 and after 20. */
  function DoubleRecord(client: EndpointId): seq<Event> {
    [Transmitted(0)] + [Event.Received(client, FIRST)] + [Event.Received(client, SECOND)]
  }

  /** What the server dispatches. */
  function DoubleEvents(client: EndpointId): seq<S.Event> {
    [S.Timers(true, 0)] + ([S.StatusFrom(client, PongStatus(FIRST))] + [S.StatusFrom(client, PongStatus(SECOND))])
  }

  /** What the client dispatches: its acknowledgement, and the ping twice. */
  function DoubleHistory(): seq<C.Event> {
    [C.FromServer(RegAck(One, Alpha, OutField))] + [C.StatusFromServer(PingStatus(1), 9)] +
    [C.StatusFromServer(PingStatus(1), 9)]
  }

  // ----- the monitor -----

  lemma OneTransmit(target: nat, now: int)
    requires target >= 1
    ensures Transmit(InitialClock(target), now) == Clock([Ping(now, 1)], map[], target, 1)
  {
    assert [] + [Ping(now, 1)] == [Ping(now, 1)];
  }

  lemma DoubleClock(target: nat, client: EndpointId)
    requires target >= 2
    ensures ClockAfter(target, DoubleRecord(client))
         == Clock([Ping(0, 1)], map[client := [FIRST, SECOND]], target, 1)
    ensures AllPings(DoubleRecord(client)) == [Ping(0, 1)]
    ensures AllPongs(DoubleRecord(client), client) == [FIRST, SECOND]
    ensures Timely(target, DoubleRecord(client), client)
  {
    var r0: seq<Event> := [];
    var r1 := r0 + [Transmitted(0)];
    var r2 := r1 + [Event.Received(client, FIRST)];
    OneTransmit(target, 0);
    ClockAfterStep(target, r0, Transmitted(0));
    ClockAfterStep(target, r1, Event.Received(client, FIRST));
    ClockAfterStep(target, r2, Event.Received(client, SECOND));
    HistoryStep(r0, Transmitted(0), client);
    HistoryStep(r1, Event.Received(client, FIRST), client);
    HistoryStep(r2, Event.Received(client, SECOND), client);
    assert [] + [FIRST] == [FIRST] && [FIRST] + [SECOND] == [FIRST, SECOND];
    assert ClockAfter(target, r1) == Clock([Ping(0, 1)], map[], target, 1);
    assert ClockAfter(target, r2) == Clock([Ping(0, 1)], map[client := [FIRST]], target, 1);
    assert Ping(0, 1) in ClockAfter(target, r1).pings && Ping(0, 1) in ClockAfter(target, r2).pings;
    TimelyLast(target, r0, Transmitted(0), client);
    TimelyLast(target, r1, Event.Received(client, FIRST), client);
    TimelyLast(target, r2, Event.Received(client, SECOND), client);
    assert r1 == [Transmitted(0)];
  }

  lemma DoubleAverage(target: nat, client: EndpointId)
    ensures var clock := Clock([Ping(0, 1)], map[client := [FIRST, SECOND]], target, 1);
            AverageRoundTrip(clock, client) == 5 && AverageClockDiff(clock, client) == 2
  {
    var pings, pongs := [Ping(0, 1)], [FIRST, SECOND];
    assert pings[1..] == [] && Merge(pings[1..], pongs[1..]) == [];
    assert Merge(pings, pongs) == [(Ping(0, 1), FIRST)];
    assert [(Ping(0, 1), FIRST)][1..] == [];
    assert TotalRoundTrip([(Ping(0, 1), FIRST)]) == 10;
    assert TotalClockDiff([(Ping(0, 1), FIRST)]) == 4;
  }

  lemma DoubleMean()
    ensures Answering([Ping(0, 1)], [FIRST, SECOND])
    ensures Elapsed([Ping(0, 1)], [FIRST, SECOND]) == [10, 20] && TruncDiv(SumOf([10, 20]), 2) == 15
    ensures Differences([Ping(0, 1)], [FIRST, SECOND]) == [4, -1] && TruncDiv(SumOf([4, -1]), 2) == 1
  {
    assert [10, 20][1..] == [20] && [20][1..] == [];
    assert [4, -1][1..] == [-1] && [-1][1..] == [];
  }

  // ----- the client -----

  lemma HistoryLast(history: seq<C.Event>, e: C.Event)
    ensures C.StateAfter(history + [e]) == C.Dispatch(C.StateAfter(history), e).0
    ensures Asked(history + [e])
         == Asked(history) +
            if e.StatusFromServer? && e.status.PingStatus? then [PongReply(e.status.sequenceNum, e.now)] else []
    ensures AlwaysOnBench(history + [e])
            <==> AlwaysOnBench(history)
                 && (e.StatusFromServer? && e.status.PingStatus? ==> C.StateAfter(history).phase.OnBench?)
  {
    assert (history + [e])[..|history|] == history;
  }

  lemma DoubleHistoryAnswers()
    ensures AlwaysOnBench(DoubleHistory()) && NumbersReceived(DoubleHistory()) == [1, 1]
    ensures Replies(DoubleHistory()) == [PongReply(1, 9), PongReply(1, 9)]
  {
    var ack, ping := C.FromServer(RegAck(One, Alpha, OutField)), C.StatusFromServer(PingStatus(1), 9);
    HistoryLast([], ack);
    assert [] + [ack] == [ack];
    HistoryLast([ack], ping);
    HistoryLast([ack] + [ping], ping);
    AllAnswered(DoubleHistory());
  }

  // ----- the server -----

  lemma EventsFirst(s: S.State, e: S.Event, rest: seq<S.Event>)
    requires S.Safe(s, e) && !S.EndsMatch(s, e)
    requires S.FirstMatch(S.Dispatch(s, e).0, rest) && S.SafeRun(S.Dispatch(s, e).0, rest)
    ensures S.FirstMatch(s, [e] + rest) && S.SafeRun(s, [e] + rest)
    ensures AllRecorded(s, [e] + rest) == Recorded(s, e) + AllRecorded(S.Dispatch(s, e).0, rest)
  {
    assert ([e] + rest)[1..] == rest;
  }

  /** On the break a pong is recorded and changes the clock only. */
  lemma PongFirst(s: S.State, client: EndpointId, pong: Pong, rest: seq<S.Event>)
    requires Seated(s) && s.phase.OnBreak?
    ensures var (e, next) := (S.StatusFrom(client, PongStatus(pong)), s.(clock := Receive(s.clock, client, pong)));
            Seated(next) &&
            (S.FirstMatch(next, rest) && S.SafeRun(next, rest) ==>
               && S.FirstMatch(s, [e] + rest) && S.SafeRun(s, [e] + rest)
               && AllRecorded(s, [e] + rest) == [Event.Received(client, pong)] + AllRecorded(next, rest))
  {
    var (e, next) := (S.StatusFrom(client, PongStatus(pong)), s.(clock := Receive(s.clock, client, pong)));
    if S.FirstMatch(next, rest) && S.SafeRun(next, rest) {
      EventsFirst(s, e, rest);
    }
  }

  lemma TwoPongs(s: S.State, client: EndpointId)
    requires Seated(s) && s.phase.OnBreak?
    ensures var events := [S.StatusFrom(client, PongStatus(FIRST))] + [S.StatusFrom(client, PongStatus(SECOND))];
            && S.FirstMatch(s, events) && S.SafeRun(s, events)
            && AllRecorded(s, events) == [Event.Received(client, FIRST)] + [Event.Received(client, SECOND)]
  {
    var next := s.(clock := Receive(s.clock, client, FIRST));
    var second := [S.StatusFrom(client, PongStatus(SECOND))];
    PongFirst(s, client, FIRST, second);
    PongFirst(next, client, SECOND, []);
    assert second + [] == second;
    assert [Event.Received(client, SECOND)] + [] == [Event.Received(client, SECOND)];
  }

  lemma DoubleEventsRecorded(s: S.State, client: EndpointId)
    requires Seated(s) && s.phase.OnBreak?
    ensures S.FirstMatch(s, DoubleEvents(client)) && S.SafeRun(s, DoubleEvents(client))
    ensures AllRecorded(s, DoubleEvents(client)) == DoubleRecord(client)
  {
    TwoPongs(s.(clock := Transmit(s.clock, 0)), client);
    EventsFirst(
      s, S.Timers(true, 0),
      [S.StatusFrom(client, PongStatus(FIRST))] + [S.StatusFrom(client, PongStatus(SECOND))]);
    Associates([Transmitted(0)], [Event.Received(client, FIRST)], [Event.Received(client, SECOND)]);
  }

  lemma DoublePings(s: S.State, client: EndpointId)
    requires Seated(s) && s.phase.OnBreak? && s.clock == InitialClock(s.clock.target) && s.clock.target >= 2
    requires SlotCount(s, client) == 2
    ensures S.FirstMatch(s, DoubleEvents(client)) && S.SafeRun(s, DoubleEvents(client))
    ensures PingsTo(client, S.RunAll(s, DoubleEvents(client)).1.statuses) == [1, 1]
  {
    DoubleEventsRecorded(s, client);
    DoubleClock(s.clock.target, client);
    PingsSent(s, DoubleEvents(client), client);
    assert NumbersOfPings([Ping(0, 1)]) == [1] && [1][1..] == [];
    assert Repeated([1], 2) == [1, 1];
  }

  lemma TwiceAnswered(s: S.State, events: seq<S.Event>, history: seq<C.Event>, client: EndpointId)
    requires S.SafeRun(s, events) && AlwaysOnBench(history)
    requires PingsTo(client, S.RunAll(s, events).1.statuses) == NumbersReceived(history)
    requires AllPongs(AllRecorded(s, events), client) == [FIRST, SECOND]
    requires Replies(history) == [PongReply(1, 9), PongReply(1, 9)]
    ensures Lossless(s, events, history, client)
  {
    assert AnswersOf([FIRST, SECOND]) == [PongReply(1, 9), PongReply(1, 9)];
  }

  lemma DoubleLossless(s: S.State, client: EndpointId)
    requires Seated(s) && s.phase.OnBreak? && s.clock == InitialClock(s.clock.target) && s.clock.target >= 2
    requires SlotCount(s, client) == 2
    ensures S.FirstMatch(s, DoubleEvents(client)) && S.SafeRun(s, DoubleEvents(client))
    ensures Lossless(s, DoubleEvents(client), DoubleHistory(), client)
  {
    DoubleEventsRecorded(s, client);
    DoublePings(s, client);
    DoubleHistoryAnswers();
    DoubleClock(s.clock.target, client);
    TwiceAnswered(s, DoubleEvents(client), DoubleHistory(), client);
  }

  /** The averages for the client are 5 and 2, where the truncated means over the pongs are 15 and 1. */
  ghost predicate Spoilt(clock: Clock, recorded: seq<Event>, client: EndpointId) {
    && AllPongs(recorded, client) == [FIRST, SECOND] && !Increasing([FIRST, SECOND])
    && AverageRoundTrip(clock, client) == 5 && AverageClockDiff(clock, client) == 2
    && AllPings(recorded) == [Ping(0, 1)] && Answering([Ping(0, 1)], [FIRST, SECOND])
    && Elapsed([Ping(0, 1)], [FIRST, SECOND]) == [10, 20] && TruncDiv(SumOf([10, 20]), 2) == 15
    && Differences([Ping(0, 1)], [FIRST, SECOND]) == [4, -1] && TruncDiv(SumOf([4, -1]), 2) == 1
  }

  lemma DoubleRecordSpoils(target: nat, client: EndpointId)
    requires target >= 2
    ensures Spoilt(ClockAfter(target, DoubleRecord(client)), DoubleRecord(client), client)
  {
    DoubleClock(target, client);
    DoubleAverage(target, client);
    DoubleMean();
    assert !Increasing([FIRST, SECOND]) by {
      assert [FIRST, SECOND][0].sequenceNum == [FIRST, SECOND][1].sequenceNum;
    }
  }

  /** From every final roster with two slots for a client: a run without loss or delay, after which the client's pongs
      do not ascend and neither of its averages is the mean: the average round trip is even below every round trip. */
  lemma TwoSlotsSpoilAverage(s: S.State, client: EndpointId)
    requires Seated(s) && s.phase.OnBreak? && s.clock == InitialClock(s.clock.target) && s.clock.target >= 2
    requires SlotCount(s, client) == 2
    ensures S.FirstMatch(s, DoubleEvents(client)) && S.SafeRun(s, DoubleEvents(client))
    ensures Lossless(s, DoubleEvents(client), DoubleHistory(), client)
    ensures Timely(s.clock.target, AllRecorded(s, DoubleEvents(client)), client)
    ensures Spoilt(S.RunAll(s, DoubleEvents(client)).0.clock, AllRecorded(s, DoubleEvents(client)), client)
  {
    DoubleLossless(s, client);
    DoubleEventsRecorded(s, client);
    DoubleClock(s.clock.target, client);
    DoubleRecordSpoils(s.clock.target, client);
    ServerClock(s, DoubleEvents(client));
  }

  /** Over this run nothing is lost or late, and yet the averages of the client are not the means. */
  ghost predicate Mismeasured(s: S.State, events: seq<S.Event>, history: seq<C.Event>, client: EndpointId) {
    && S.FirstMatch(s, events) && S.SafeRun(s, events)
    && Lossless(s, events, history, client)
    && Timely(s.clock.target, AllRecorded(s, events), client)
    && !Increasing(AllPongs(AllRecorded(s, events), client))
    && !Measured(S.RunAll(s, events).0.clock, AllRecorded(s, events), client)
  }

  lemma TwoSlotsAreMismeasured(s: S.State, client: EndpointId)
    requires Seated(s) && s.phase.OnBreak? && s.clock == InitialClock(s.clock.target) && s.clock.target >= 2
    requires SlotCount(s, client) == 2
    ensures Mismeasured(s, DoubleEvents(client), DoubleHistory(), client)
  {
    TwoSlotsSpoilAverage(s, client);
    ServerClock(s, DoubleEvents(client));
    NotTheMean(S.RunAll(s, DoubleEvents(client)).0.clock, AllRecorded(s, DoubleEvents(client)), client);
  }

  lemma NotTheMean(clock: Clock, recorded: seq<Event>, client: EndpointId)
    requires clock.target >= 2 && Spoilt(clock, recorded, client)
    ensures !Measured(clock, recorded, client)
  {
    assert LastN(AllPongs(recorded, client), clock.target) == [FIRST, SECOND];
  }
}
