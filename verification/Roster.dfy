/** The finalised roster: fixed arrays of players, team sheets and goalkeepers. */
module Roster {
  import opened Endpoint
  import opened Entity

  datatype TeamSheet = TeamSheet(name: string, firstPlayer: PlayerId, lastPlayer: PlayerId)

  datatype Option<T> = None | Some(value: T)

  datatype DeregisterResult = DeregisterSuccess | ClientNotFound

  /** The abstract value of a roster. */
  datatype Sheet = Sheet(players: seq<EndpointId>, teams: seq<TeamSheet>, goalies: seq<PlayerId>) {
    ghost predicate Sized() {
      |players| == MAX_ROSTER_SIZE && |teams| == MAX_CLUB_COUNT && |goalies| == MAX_CLUB_COUNT
    }
  }

  ghost function FirstIndex(s: seq<nat>, x: nat): nat {
    if s == [] || s[0] == x then 0 else 1 + FirstIndex(s[1..], x)
  }

  lemma {:induction false} FirstIndexFinds(s: seq<nat>, x: nat)
    ensures FirstIndex(s, x) <= |s|
    ensures FirstIndex(s, x) < |s| <==> x in s
    ensures FirstIndex(s, x) < |s| ==> s[FirstIndex(s, x)] == x
    ensures x !in s[..FirstIndex(s, x)]
  {
    if s != [] && s[0] != x {
      FirstIndexFinds(s[1..], x);
      assert s == [s[0]] + s[1..];
      assert s[..FirstIndex(s, x)] == [s[0]] + s[1..][..FirstIndex(s[1..], x)];
    }
  }

  lemma {:induction false} FirstIndexIs(s: seq<nat>, x: nat, i: nat)
    requires i <= |s| && x !in s[..i] && (i < |s| ==> s[i] == x)
    ensures FirstIndex(s, x) == i
  {
    if i > 0 {
      assert s == [s[0]] + s[1..];
      assert s[..i] == [s[0]] + s[1..][..i - 1];
      FirstIndexIs(s[1..], x, i - 1);
    }
  }

  predicate IsGoalie(r: Sheet, id: PlayerId) { id in r.goalies }

  /** Vacates the first slot of the client, and the first goalkeeper entry that names this slot. */
  ghost function Deregister(r: Sheet, client: EndpointId): (Sheet, DeregisterResult) {
    FirstIndexFinds(r.players, client);
    var slot := FirstIndex(r.players, client);
    if slot == |r.players| then (r, ClientNotFound) else
      FirstIndexFinds(r.goalies, slot);
      var entry := FirstIndex(r.goalies, slot);
      var goalies := if entry < |r.goalies| then r.goalies[entry := NO_PLAYER] else r.goalies;
      (r.(players := r.players[slot := NULL_ENDPOINT], goalies := goalies), DeregisterSuccess)
  }

  class RosterTable {
    const players: array<EndpointId>
    const teams: array<TeamSheet>
    const goalies: array<PlayerId>

    /** The objects that make up the roster. */
    ghost function Repr(): set<object> {
      {this, players, teams, goalies}
    }

    ghost predicate Valid()
      reads Repr()
    {
      && players.Length == MAX_ROSTER_SIZE && teams.Length == MAX_CLUB_COUNT && goalies.Length == MAX_CLUB_COUNT
      && teams as object != goalies as object
    }

    ghost function Value(): Sheet
      reads Repr()
    {
      Sheet(players[..], teams[..], goalies[..])
    }

    /** Copies the three lists. */
    constructor (enrolledPlayers: array<EndpointId>, enrolledTeams: array<TeamSheet>, enrolledGoalies: array<PlayerId>)
      requires enrolledPlayers.Length == MAX_ROSTER_SIZE
      requires enrolledTeams.Length == MAX_CLUB_COUNT && enrolledGoalies.Length == MAX_CLUB_COUNT
      ensures Valid() && fresh(Repr())
      ensures Value() == Sheet(enrolledPlayers[..], enrolledTeams[..], enrolledGoalies[..])
    {
      players := new EndpointId[MAX_ROSTER_SIZE](
        i requires 0 <= i < enrolledPlayers.Length reads enrolledPlayers => enrolledPlayers[i]);
      teams := new TeamSheet[MAX_CLUB_COUNT](
        i requires 0 <= i < enrolledTeams.Length reads enrolledTeams => enrolledTeams[i]);
      goalies := new PlayerId[MAX_CLUB_COUNT](
        i requires 0 <= i < enrolledGoalies.Length reads enrolledGoalies => enrolledGoalies[i]);
      new;
      assert players[..] == enrolledPlayers[..];
      assert teams[..] == enrolledTeams[..];
      assert goalies[..] == enrolledGoalies[..];
    }

    /** Every identifier of the roster has an endpoint, possibly the null one of a vacated slot. */
    method FindClient(id: PlayerId) returns (client: Option<EndpointId>)
      requires Valid()
      ensures client == if id < MAX_ROSTER_SIZE then Some(Value().players[id]) else None
    {
      client := if id < players.Length then Some(players[id]) else None;
    }

    method FindPlayer(client: EndpointId) returns (id: Option<PlayerId>)
      requires Valid()
      ensures id.None? <==> client !in Value().players
      ensures id.Some? ==> id.value == FirstIndex(Value().players, client) < MAX_ROSTER_SIZE
    {
      var i := 0;
      while i < players.Length && players[i] != client
        invariant 0 <= i <= players.Length && client !in players[..i]
      {
        i := i + 1;
      }
      FirstIndexFinds(players[..], client);
      assert i < players.Length ==> players[..][i] == client;
      assert players[..i] == players[..][..i];
      FirstIndexIs(players[..], client, i);
      id := if i < players.Length then Some(i) else None;
    }

    method IsGoalkeeper(id: PlayerId) returns (found: bool)
      requires Valid()
      ensures found == IsGoalie(Value(), id)
    {
      var i := 0;
      while i < goalies.Length && goalies[i] != id
        invariant 0 <= i <= goalies.Length && id !in goalies[..i]
      {
        i := i + 1;
      }
      found := i < goalies.Length;
    }

    method GetTeamName(team: TeamId) returns (name: string)
      requires Valid()
      ensures name == Value().teams[if team.Alpha? then 0 else MAX_CLUB_COUNT - 1].name
    {
      match team
      case Alpha => name := teams[0].name;
      case Beta => name := teams[teams.Length - 1].name;
    }

    method DeregisterClient(client: EndpointId) returns (result: DeregisterResult)
      requires Valid()
      modifies players, goalies
      ensures Valid() && Value() == Deregister(old(Value()), client).0
      ensures result == Deregister(old(Value()), client).1
    {
      var found := FindPlayer(client);
      FirstIndexFinds(players[..], client);
      match found {
        case None =>
          result := ClientNotFound;
        case Some(id) =>
          var i := 0;
          while i < goalies.Length && goalies[i] != id
            invariant 0 <= i <= goalies.Length && id !in goalies[..i]
          {
            i := i + 1;
          }
          assert goalies[..i] == goalies[..][..i];
          FirstIndexIs(goalies[..], id, i);
          if i < goalies.Length {
            goalies[i] := NO_PLAYER;
            assert goalies[..] == old(goalies[..])[i := NO_PLAYER];
          }
          players[id] := NULL_ENDPOINT;
          assert players[..] == old(players[..])[id := NULL_ENDPOINT];
          result := DeregisterSuccess;
      }
    }
  }

  // ----- removal over whole runs -----

  ghost function Count<T>(s: seq<T>, x: T): nat {
    multiset(s)[x]
  }

  /** Every goalkeeper entry is vacant or names an occupied slot, and no slot is named twice. */
  ghost predicate GoaliesOccupied(r: Sheet) {
    && r.Sized()
    && (forall g <- r.goalies :: g == NO_PLAYER || (g < MAX_ROSTER_SIZE && r.players[g] != NULL_ENDPOINT))
    && (r.goalies[0] == r.goalies[1] ==> r.goalies[0] == NO_PLAYER)
  }

  /** One removal: only the first slot of the client is vacated, it is no goalkeeper afterwards, and every other
      player keeps the slot and the goalkeeper status. */
  lemma DeregisterEffect(r: Sheet, client: EndpointId)
    requires GoaliesOccupied(r)
    ensures var (after, result) := Deregister(r, client);
            && GoaliesOccupied(after) && after.teams == r.teams
            && (result.DeregisterSuccess? <==> client in r.players)
            && (result.ClientNotFound? ==> after == r)
            && (result.DeregisterSuccess? ==>
                  exists slot | 0 <= slot < MAX_ROSTER_SIZE ::
                    && r.players[slot] == client && client !in r.players[..slot]
                    && after.players == r.players[slot := NULL_ENDPOINT]
                    && !IsGoalie(after, slot)
                    && forall id: PlayerId | id < MAX_ROSTER_SIZE && id != slot ::
                         IsGoalie(after, id) == IsGoalie(r, id))
  {
    FirstIndexFinds(r.players, client);
    var slot := FirstIndex(r.players, client);
    if slot < |r.players| {
      FirstIndexFinds(r.goalies, slot);
      GoalieAfter(r, client);
    }
  }

  /** A successful removal lowers the slot count of that endpoint by exactly one and no other endpoint's. */
  lemma DeregisterCount(r: Sheet, client: EndpointId, other: EndpointId)
    requires other != NULL_ENDPOINT
    ensures Count(Deregister(r, client).0.players, other)
         == Count(r.players, other) - if other == client && client in r.players then 1 else 0
  {
    FirstIndexFinds(r.players, client);
    FirstIndexFinds(r.goalies, FirstIndex(r.players, client));
    if client in r.players {
      UpdateCount(r.players, FirstIndex(r.players, client), NULL_ENDPOINT);
    }
  }

  lemma UpdateCount<T>(s: seq<T>, i: nat, x: T)
    requires i < |s|
    ensures multiset(s[i := x]) == multiset(s) - multiset{s[i]} + multiset{x}
  {
    assert s == s[..i] + [s[i]] + s[i + 1..];
    assert s[i := x] == s[..i] + [x] + s[i + 1..];
  }

  lemma GoalieAfter(r: Sheet, client: EndpointId)
    requires GoaliesOccupied(r) && client in r.players
    ensures var slot := FirstIndex(r.players, client);
            var after := Deregister(r, client).0;
            && slot < MAX_ROSTER_SIZE && GoaliesOccupied(after) && !IsGoalie(after, slot)
            && forall id: PlayerId | id < MAX_ROSTER_SIZE && id != slot :: IsGoalie(after, id) == IsGoalie(r, id)
  {
    var slot := FirstIndex(r.players, client);
    var after := Deregister(r, client).0;
    FirstIndexFinds(r.players, client);
    FirstIndexFinds(r.goalies, slot);
    assert r.goalies == [r.goalies[0], r.goalies[1]];
    assert after.goalies == [after.goalies[0], after.goalies[1]];
    forall g <- after.goalies
      ensures g == NO_PLAYER || (g < MAX_ROSTER_SIZE && after.players[g] != NULL_ENDPOINT)
    {
      assert g == NO_PLAYER || (g in r.goalies && g != slot);
    }
  }

  ghost function DeregisterAll(r: Sheet, clients: seq<EndpointId>): Sheet {
    if clients == [] then r
    else Deregister(DeregisterAll(r, clients[..|clients| - 1]), clients[|clients| - 1]).0
  }

  /** After any sequence of removals the goalkeeper entries are still vacant or occupied slots, the team names are
      unchanged, a slot that is still occupied has the endpoint and the goalkeeper status it started with, and each
      endpoint has lost one slot per call until it had none left. */
  lemma {:induction false} DeregisterRun(r: Sheet, clients: seq<EndpointId>, client: EndpointId)
    requires GoaliesOccupied(r)
    ensures var after := DeregisterAll(r, clients);
            && GoaliesOccupied(after) && after.teams == r.teams
            && (forall id: PlayerId | id < MAX_ROSTER_SIZE ::
                  && (after.players[id] == r.players[id] || after.players[id] == NULL_ENDPOINT)
                  && (after.players[id] != NULL_ENDPOINT ==> IsGoalie(after, id) == IsGoalie(r, id)))
            && (client != NULL_ENDPOINT ==>
                  var left := Count(r.players, client) - Count(clients, client);
                  Count(after.players, client) == if left >= 0 then left else 0)
  {
    if clients != [] {
      var before, last := clients[..|clients| - 1], clients[|clients| - 1];
      assert clients == before + [last];
      DeregisterRun(r, before, client);
      DeregisterEffect(DeregisterAll(r, before), last);
      if client != NULL_ENDPOINT {
        DeregisterCount(DeregisterAll(r, before), last, client);
      }
    }
  }
}
