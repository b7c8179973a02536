/** From an accepted registration to the player a client becomes. */
module EndToEnd {
  import opened Endpoint
  import opened Entity
  import opened Roster
  import opened Enrollment
  import opened Finalise
  import opened Messages
  import opened Protocol
  import opened Sequences
  import C = ClientState
  import L = ServerLoop
  import S = ServerState

  // ----- the slots of a replayed enrollment are the registrations replayed -----

  /** The registration occupies the slot. */
  predicate Claims(input: RefInput, name: string, uniform: UniformNumber) {
    input.RefRegistration? && input.details.teamName == name && input.details.uniform == uniform
  }

  ghost predicate SlotsAreClaims(inputs: seq<RefInput>, b: Book) {
    && (forall i | 0 <= i < |inputs| && inputs[i].RefRegistration? ::
          At(b, inputs[i].details.teamName, inputs[i].details.uniform)
          == Some(Client(inputs[i].client, inputs[i].details.playerType)))
    && (forall i, j | 0 <= i < j < |inputs| && inputs[i].RefRegistration? ::
          !Claims(inputs[j], inputs[i].details.teamName, inputs[i].details.uniform))
    && (forall name, uniform | At(b, name, uniform).Some? ::
          exists i | 0 <= i < |inputs| :: Claims(inputs[i], name, uniform))
  }

  lemma ClaimsAppend(inputs: seq<RefInput>, b: Book, client: EndpointId, details: Registration)
    requires SlotsAreClaims(inputs, b) && Register(b, client, details).1.RegisterSuccess?
    ensures SlotsAreClaims(inputs + [RefRegistration(client, details)], Register(b, client, details).0)
  {
    var after := Register(b, client, details).0;
    var longer := inputs + [RefRegistration(client, details)];
    AcceptedIsAdded(b, client, details);
    AddedAt(b, after, client, details);
    forall name, uniform | At(after, name, uniform).Some?
      ensures exists i | 0 <= i < |longer| :: Claims(longer[i], name, uniform)
    {
      if At(b, name, uniform).Some? {
        var i :| 0 <= i < |inputs| && Claims(inputs[i], name, uniform);
        assert Claims(longer[i], name, uniform);
      } else {
        assert Claims(longer[|inputs|], name, uniform);
      }
    }
  }

  lemma {:induction false} ReplayedSlots(inputs: seq<RefInput>)
    requires Replay(EMPTY_BOOK, inputs).Some?
    ensures SlotsAreClaims(inputs, Replay(EMPTY_BOOK, inputs).value)
  {
    if inputs != [] {
      var before, last := inputs[..|inputs| - 1], inputs[|inputs| - 1];
      assert inputs == before + [last];
      ReplayConcat(EMPTY_BOOK, before, [last]);
      ReplayedSlots(before);
      var b := Replay(EMPTY_BOOK, before).value;
      if last.RefRegistration? {
        ReplayOne(b, last.client, last.details);
        ClaimsAppend(before, b, last.client, last.details);
      } else {
        assert [last][1..] == [];
      }
    }
  }

  // ----- acknowledgements -----

  /** The team a name plays as: ALPHA is the first name, BETA the last. */
  ghost function TeamOfName(teams: map<string, Team>, name: string): (team: TeamId)
    requires |teams| == 2 && name in teams
    ensures TeamName(teams, team) == name
  {
    NamesAreTeams(teams, name);
    if TeamName(teams, Alpha) == name then Alpha else Beta
  }

  lemma NamesAreTeams(teams: map<string, Team>, name: string)
    requires |teams| == 2 && name in teams
    ensures TeamName(teams, Alpha) == name || TeamName(teams, Beta) == name
  {
    var first, last := TwoNames(teams);
  }

  /** The acknowledgement of a slot and the player that its client becomes. */
  ghost predicate Acknowledges(r: Sheet, acks: seq<Mail<ServerTransaction>>, client: Client, uniform: UniformNumber,
      team: TeamId, name: string)
  {
    var id := UniformToId(uniform, team);
    && r.Sized() && |acks| == MAX_ROSTER_SIZE && id < MAX_ROSTER_SIZE
    && r.teams[if team.Alpha? then 0 else 1].name == name
    && NameBefore(r.teams[0].name, r.teams[1].name)
    && acks[id].to == client.id && acks[id].body.RegAck?
    && var RegAck(ackedUniform, ackedTeam, playerType) := acks[id].body;
    && (ackedUniform, ackedTeam) == (uniform, team)
    && var player := C.ConfigOf(ackedUniform, ackedTeam, playerType);
    && player.playerId == id
    && (player.playerType == client.ptype <==> client.ptype == OutField)
    && r.players[id] == client.id
    && (IsGoalie(r, id) <==> client.ptype == GoalKeeper)
  }

  lemma SlotIsAcknowledged(b: Book, name: string, uniform: UniformNumber) returns (team: TeamId)
    requires Inv(b) && Full(b) && At(b, name, uniform).Some?
    ensures Acknowledges(Finalised(b), S.Acks(Finalised(b)), At(b, name, uniform).value, uniform, team, name)
  {
    team := TeamOfName(b.teams, name);
    SheetsAreOrdered(b);
    FinalisePreservesMeaning(b, uniform, team);
    UniformRoundTrip(uniform, team);
  }

  /** Once the server has the roster, an accepted registration is acknowledged at the place of its player in the
      roster, to the client that made it, with its uniform and the team its name plays as, the first name being ALPHA;
      the client takes the player identifier that the server's roster uses, and is a goalkeeper there exactly if it
      registered as one. The player type is not acknowledged: the client takes itself for the type it registered as
      exactly if that was not a goalkeeper. */
  lemma AcceptedIsAcknowledged(halfDuration: nat, steps: seq<Step>, i: nat)
    requires SystemAfter(halfDuration, steps).server.phase.OnBreak?
    requires i < |SystemAfter(halfDuration, steps).forwarded|
    requires SystemAfter(halfDuration, steps).forwarded[i].RefRegistration?
    ensures var sys := SystemAfter(halfDuration, steps);
            var RefRegistration(client, details) := sys.forwarded[i];
            && sys.server.roster.Some?
            && exists team: TeamId ::
                 Acknowledges(sys.server.roster.value, AcksOf(sys.toClients), Client(client, details.playerType),
                              details.uniform, team, details.teamName)
  {
    var sys := SystemAfter(halfDuration, steps);
    var book := AgreementAlways(halfDuration, steps);
    var details := sys.forwarded[i].details;
    ReplayKeepsInv(EMPTY_BOOK, sys.forwarded);
    ReplayedSlots(sys.forwarded);
    var team := SlotIsAcknowledged(book, details.teamName, details.uniform);
  }

  lemma AckNamesSlot(b: Book, id: PlayerId)
    requires Inv(b) && Full(b) && id < MAX_ROSTER_SIZE
    ensures var r := Finalised(b);
            && S.Acks(r)[id].body.RegAck?
            && var Mail(to, RegAck(uniform, team, _)) := S.Acks(r)[id];
               var slot := At(b, r.teams[if team.Alpha? then 0 else 1].name, uniform);
               slot.Some? && slot.value.id == to
  {
    var (uniform, team) := IdToUniform(id);
    IdRoundTrip(id);
    FinalisePreservesMeaning(b, uniform, team);
  }

  /** Every acknowledgement answers exactly one accepted registration. */
  lemma AcknowledgedWasAccepted(halfDuration: nat, steps: seq<Step>, id: PlayerId) returns (i: nat)
    requires SystemAfter(halfDuration, steps).server.phase.OnBreak? && id < MAX_ROSTER_SIZE
    ensures var sys := SystemAfter(halfDuration, steps);
            && id < |AcksOf(sys.toClients)| && AcksOf(sys.toClients)[id].body.RegAck?
            && sys.server.roster.Some? && sys.server.roster.value.Sized()
            && var Mail(to, RegAck(uniform, team, _)) := AcksOf(sys.toClients)[id];
               var name := sys.server.roster.value.teams[if team.Alpha? then 0 else 1].name;
            && i < |sys.forwarded| && Claims(sys.forwarded[i], name, uniform) && sys.forwarded[i].client == to
            && forall j | 0 <= j < |sys.forwarded| && j != i :: !Claims(sys.forwarded[j], name, uniform)
  {
    var sys := SystemAfter(halfDuration, steps);
    var book := AgreementAlways(halfDuration, steps);
    ReplayKeepsInv(EMPTY_BOOK, sys.forwarded);
    ReplayedSlots(sys.forwarded);
    AckNamesSlot(book, id);
    var ack := S.Acks(Finalised(book))[id].body;
    i := ClaimOf(sys.forwarded, book, Finalised(book).teams[if ack.team.Alpha? then 0 else 1].name, ack.uniform);
  }

  lemma ClaimOf(inputs: seq<RefInput>, b: Book, name: string, uniform: UniformNumber) returns (i: nat)
    requires SlotsAreClaims(inputs, b) && At(b, name, uniform).Some?
    ensures i < |inputs| && Claims(inputs[i], name, uniform) && inputs[i].client == At(b, name, uniform).value.id
    ensures forall j | 0 <= j < |inputs| && j != i :: !Claims(inputs[j], name, uniform)
  {
    i :| 0 <= i < |inputs| && Claims(inputs[i], name, uniform);
  }

  // ----- the loop of the server is the server of the protocol -----

  /** The server's dispatches as steps of the system, while the referee takes none. */
  ghost function DispatchAll(sys: System, events: seq<S.Event>): System
    decreases |events|
  {
    if events == [] then sys else DispatchAll(ServerDispatch(sys, events[0]), events[1..])
  }

  lemma {:induction false} DispatchesAreRun(sys: System, events: seq<S.Event>)
    requires S.SafeRun(sys.server, events)
    ensures var after := DispatchAll(sys, events);
            && after.faulted == sys.faulted
            && after.server == S.RunAll(sys.server, events).0
            && after.toReferee == sys.toReferee + S.RunAll(sys.server, events).1.toReferee
            && after.toClients == sys.toClients + S.RunAll(sys.server, events).1.transactions
    decreases |events|
  {
    if events != [] {
      var (next, sent) := S.Dispatch(sys.server, events[0]);
      var rest := S.RunAll(next, events[1..]).1;
      DispatchesAreRun(ServerDispatch(sys, events[0]), events[1..]);
      Associates(sys.toReferee, sent.toReferee, rest.toReferee);
      Associates(sys.toClients, sent.transactions, rest.transactions);
    }
  }

  /** What the loop of the server makes of its first state, and all that it sends to the referee and the clients, are
      those of the server in the protocol, which has sent the rules of the match to begin with. */
  lemma LoopIsProtocol(config: L.Config, events: seq<S.Event>)
    requires S.SafeRun(S.INITIAL_STATE, events)
    ensures var sys := DispatchAll(Initial(config.matchHalfLength), events);
            var (last, sent) := S.RunAll(S.INITIAL_STATE, events);
            var all := S.Append(L.Greeting(S.INITIAL_STATE, config), sent);
            && !sys.faulted && sys.server == last
            && sys.toReferee == all.toReferee && sys.toClients == all.transactions
  {
    DispatchesAreRun(Initial(config.matchHalfLength), events);
  }
}
