/** How many slots of the roster a client has, told from the registrations it made. */
module Slots {
  import opened Endpoint
  import opened Entity
  import opened Roster
  import opened Enrollment
  import opened Finalise
  import opened Messages
  import opened Monitor
  import opened Protocol
  import opened Liveness
  import S = ServerState

  /** The registrations of a client among those forwarded. */
  function Made(inputs: seq<RefInput>, client: EndpointId): nat {
    if inputs == [] then 0 else
      var last := inputs[|inputs| - 1];
      Made(inputs[..|inputs| - 1], client) + if last.RefRegistration? && last.client == client then 1 else 0
  }

  /** The slots of the enrollment that a client occupies. */
  ghost function Held(b: Book, client: EndpointId): set<(string, UniformNumber)> {
    set name <- b.teams.Keys, uniform <- b.teams[name].Keys | b.teams[name][uniform].id == client :: (name, uniform)
  }

  // ----- the slots of the enrollment are the registrations -----

  lemma HeldAt(b: Book, name: string, uniform: UniformNumber, client: EndpointId)
    ensures (name, uniform) in Held(b, client)
            <==> At(b, name, uniform).Some? && At(b, name, uniform).value.id == client
  {
  }

  lemma HeldSlotAfter(
      b: Book, after: Book, client: EndpointId, request: Registration, other: EndpointId,
      name: string, uniform: UniformNumber)
    requires Added(b, after, client, request)
    ensures (name, uniform) in Held(after, other)
            <==> if (name, uniform) == (request.teamName, request.uniform) then other == client
                 else (name, uniform) in Held(b, other)
    ensures (request.teamName, request.uniform) !in Held(b, other)
  {
    AddedAt(b, after, client, request);
    HeldAt(b, name, uniform, other);
    HeldAt(after, name, uniform, other);
    HeldAt(b, request.teamName, request.uniform, other);
  }

  lemma HeldAfter(b: Book, after: Book, client: EndpointId, request: Registration, other: EndpointId)
    requires Added(b, after, client, request)
    ensures |Held(after, other)| == |Held(b, other)| + if other == client then 1 else 0
  {
    var slot := (request.teamName, request.uniform);
    var expected := if other == client then Held(b, other) + {slot} else Held(b, other);
    forall s: (string, UniformNumber)
      ensures s in Held(after, other) <==> s in expected
    {
      HeldSlotAfter(b, after, client, request, other, s.0, s.1);
    }
    HeldSlotAfter(b, after, client, request, other, slot.0, slot.1);
    assert Held(after, other) == expected;
  }

  lemma {:induction false} HeldIsMade(inputs: seq<RefInput>, client: EndpointId)
    requires Replay(EMPTY_BOOK, inputs).Some?
    ensures |Held(Replay(EMPTY_BOOK, inputs).value, client)| == Made(inputs, client)
  {
    if inputs != [] {
      var before, last := inputs[..|inputs| - 1], inputs[|inputs| - 1];
      assert inputs == before + [last];
      ReplayConcat(EMPTY_BOOK, before, [last]);
      HeldIsMade(before, client);
      var b := Replay(EMPTY_BOOK, before).value;
      if last.RefRegistration? {
        ReplayOne(b, last.client, last.details);
        AcceptedIsAdded(b, last.client, last.details);
        HeldAfter(b, Register(b, last.client, last.details).0, last.client, last.details, client);
      } else {
        assert [last][1..] == [];
      }
    }
  }

  // ----- the slots of the roster are those of the enrollment -----

  /** The slot that a player identifier stands for. */
  function SlotOf(first: string, last: string, id: nat): (string, UniformNumber) {
    if id < MAX_TEAM_SIZE then (first, IdToUniform(id).0)
    else (last, IdToUniform(if id < MAX_ROSTER_SIZE then id else MAX_ROSTER_SIZE - 1).0)
  }

  lemma SlotOfIsInjective(first: string, last: string, x: nat, y: nat)
    requires first != last && x < MAX_ROSTER_SIZE && y < MAX_ROSTER_SIZE
    ensures SlotOf(first, last, x) == SlotOf(first, last, y) ==> x == y
  {
    IdRoundTrip(x);
    IdRoundTrip(y);
  }

  /** The slots that some identifiers stand for. */
  ghost function SlotsOf(first: string, last: string, ids: set<nat>): set<(string, UniformNumber)> {
    set id <- ids :: SlotOf(first, last, id)
  }

  lemma {:induction false} SlotsOfSize(first: string, last: string, ids: set<nat>)
    requires first != last && forall id <- ids :: id < MAX_ROSTER_SIZE
    ensures |SlotsOf(first, last, ids)| == |ids|
    decreases |ids|
  {
    if ids != {} {
      var id :| id in ids;
      var rest := ids - {id};
      var slot := SlotOf(first, last, id);
      SlotsOfSize(first, last, rest);
      assert SlotsOf(first, last, ids) == SlotsOf(first, last, rest) + {slot};
      forall other <- rest
        ensures SlotOf(first, last, other) != slot
      {
        SlotOfIsInjective(first, last, id, other);
      }
    }
  }

  ghost function Indices(s: seq<EndpointId>, x: EndpointId): set<nat> {
    set i: nat | i < |s| && s[i] == x
  }

  lemma {:induction false} IndicesCount(s: seq<EndpointId>, x: EndpointId)
    ensures |Indices(s, x)| == Count(s, x)
  {
    if s != [] {
      var before, last := s[..|s| - 1], s[|s| - 1];
      IndicesCount(before, x);
      assert s == before + [last];
      assert Indices(s, x) == Indices(before, x) + if last == x then {|before|} else {};
    }
  }

  lemma SlotOfHolds(b: Book, first: string, last: string, id: nat, client: EndpointId)
    requires Full(b) && id < MAX_ROSTER_SIZE
    requires first == TeamName(b.teams, Alpha) && last == TeamName(b.teams, Beta)
    ensures SlotOf(first, last, id) in Held(b, client) <==> Finalised(b).players[id] == client
  {
    var (uniform, team) := IdToUniform(id);
    IdRoundTrip(id);
    ClientOfUniform(b, uniform, team);
    HeldAt(b, TeamName(b.teams, team), uniform, client);
  }

  lemma HeldHasId(b: Book, first: string, last: string, name: string, uniform: UniformNumber) returns (id: nat)
    requires Full(b) && At(b, name, uniform).Some?
    requires first == TeamName(b.teams, Alpha) && last == TeamName(b.teams, Beta)
    ensures id < MAX_ROSTER_SIZE && SlotOf(first, last, id) == (name, uniform)
  {
    var a, z := TwoNames(b.teams);
    id := UniformToId(uniform, if name == first then Alpha else Beta);
    UniformRoundTrip(uniform, if name == first then Alpha else Beta);
  }

  lemma HeldIffId(b: Book, first: string, last: string, slot: (string, UniformNumber), client: EndpointId)
    requires Full(b) && first == TeamName(b.teams, Alpha) && last == TeamName(b.teams, Beta)
    ensures slot in Held(b, client) <==> slot in SlotsOf(first, last, Indices(Finalised(b).players, client))
  {
    var ids := Indices(Finalised(b).players, client);
    if slot in Held(b, client) {
      HeldAt(b, slot.0, slot.1, client);
      var id := HeldHasId(b, first, last, slot.0, slot.1);
      SlotOfHolds(b, first, last, id, client);
      assert id in ids;
    }
    if slot in SlotsOf(first, last, ids) {
      var id :| id in ids && SlotOf(first, last, id) == slot;
      SlotOfHolds(b, first, last, id, client);
    }
  }

  lemma RosterCount(b: Book, client: EndpointId)
    requires Full(b)
    ensures Count(Finalised(b).players, client) == |Held(b, client)|
  {
    var players := Finalised(b).players;
    var first, last := TeamName(b.teams, Alpha), TeamName(b.teams, Beta);
    var a, z := TwoNames(b.teams);
    assert first != last;
    forall slot: (string, UniformNumber)
      ensures slot in Held(b, client) <==> slot in SlotsOf(first, last, Indices(players, client))
    {
      HeldIffId(b, first, last, slot, client);
    }
    assert Held(b, client) == SlotsOf(first, last, Indices(players, client));
    SlotsOfSize(first, last, Indices(players, client));
    IndicesCount(players, client);
  }

  // ----- the server's roster -----

  /** Once the server has the roster, a client has as many slots as it had registrations accepted. */
  lemma {:induction false} SlotsAreRegistrations(halfDuration: nat, steps: seq<Step>, client: EndpointId)
    requires SystemAfter(halfDuration, steps).server.phase.OnBreak?
    ensures var sys := SystemAfter(halfDuration, steps);
            && sys.server.roster.Some?
            && Count(sys.server.roster.value.players, client) == Made(sys.forwarded, client)
  {
    var book := AgreementAlways(halfDuration, steps);
    HeldIsMade(SystemAfter(halfDuration, steps).forwarded, client);
    RosterCount(book, client);
  }

  lemma WaitingStep(sys: System, book: Book, step: Step)
    requires Agreement(sys, book) && Next(sys, step).server.phase.Waiting?
    ensures sys.server.phase.Waiting? && Next(sys, step).server.clock == sys.server.clock
  {
  }

  lemma {:induction false} ClockWaits(halfDuration: nat, steps: seq<Step>)
    requires SystemAfter(halfDuration, steps).server.phase.Waiting?
    ensures SystemAfter(halfDuration, steps).server.clock == InitialClock(20)
  {
    if steps != [] {
      var before, last := steps[..|steps| - 1], steps[|steps| - 1];
      var book := AgreementAlways(halfDuration, before);
      WaitingStep(SystemAfter(halfDuration, before), book, last);
      ClockWaits(halfDuration, before);
    }
  }

  /** The break begins with a clock that has recorded nothing, and with a slot for each accepted registration. */
  lemma BreakBegins(halfDuration: nat, steps: seq<Step>, client: EndpointId)
    requires SystemAfter(halfDuration, steps).toServer != []
    ensures var after := SystemAfter(halfDuration, steps + [RefereeToServer]);
            && after.server.phase.OnBreak? && S.Consistent(after.server)
            && after.server.clock == InitialClock(20)
            && Count(after.server.roster.value.players, client)
               == Made(SystemAfter(halfDuration, steps).forwarded, client)
  {
    var sys := SystemAfter(halfDuration, steps);
    var book := AgreementAlways(halfDuration, steps);
    var later := AgreementAlways(halfDuration, steps + [RefereeToServer]);
    AnnouncementArrives(halfDuration, steps);
    SystemAfterStep(halfDuration, steps, RefereeToServer);
    BreakStep(sys, book);
    ClockWaits(halfDuration, steps);
    SlotsAreRegistrations(halfDuration, steps + [RefereeToServer], client);
  }

  lemma BreakStep(sys: System, book: Book)
    requires Agreement(sys, book) && sys.toServer != []
    ensures sys.server.phase.Waiting?
    ensures Next(sys, RefereeToServer).server.clock == sys.server.clock
    ensures Next(sys, RefereeToServer).forwarded == sys.forwarded
  {
    FinalisedStep(sys, book);
    assert sys.forwarded + [] == sys.forwarded;
  }
}
