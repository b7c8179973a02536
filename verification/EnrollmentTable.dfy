/** The mutable enrollment, proved against the rules of module Enrollment. */
module EnrollmentTable {
  import opened Endpoint
  import opened Entity
  import opened Roster
  import opened Enrollment
  import opened Finalise

  /** The slots of the first n uniforms of both teams are written. */
  ghost predicate Written(b: Book, players: seq<EndpointId>, n: nat)
    requires Full(b)
  {
    && n <= MAX_TEAM_SIZE && |players| == MAX_ROSTER_SIZE
    && forall i: PlayerId | Visited(n, n, i) :: players[i] == ClientAt(b, i).id
  }

  lemma WrittenNext(b: Book, players: seq<EndpointId>, n: nat)
    requires Full(b) && n < MAX_TEAM_SIZE && Written(b, players, n)
    ensures Written(
              b, players[n := ClientAt(b, n).id][MAX_TEAM_SIZE + n := ClientAt(b, MAX_TEAM_SIZE + n).id], n + 1)
  {
  }

  lemma AllWritten(b: Book, players: seq<EndpointId>)
    requires Full(b) && Written(b, players, MAX_TEAM_SIZE)
    ensures players == Finalised(b).players
  {
    forall i | 0 <= i < |players|
      ensures players[i] == Finalised(b).players[i]
    {
      assert Visited(MAX_TEAM_SIZE, MAX_TEAM_SIZE, i);
    }
  }

  class EnrollmentTable {
    var teams: map<string, Team>
    var players: map<EndpointId, Player>

    ghost function Value(): Book
      reads this
    {
      Book(teams, players)
    }

    constructor ()
      ensures Value() == EMPTY_BOOK
    {
      teams, players := map[], map[];
    }

    method IsClientRegistered(client: EndpointId) returns (found: bool)
      ensures found <==> client in Value().players
    {
      found := client in players;
    }

    method IsUniformRegistered(name: string, uniform: UniformNumber) returns (found: bool)
      ensures found <==> At(Value(), name, uniform).Some?
    {
      found := name in teams && uniform in teams[name];
    }

    /** The teams are walked in an arbitrary order. */
    method IsFull() returns (full: bool)
      ensures full <==> Full(Value())
    {
      full := |teams| == MAX_CLUB_COUNT;
      var unseen := teams.Keys;
      while unseen != {}
        invariant unseen <= teams.Keys
        invariant full <==> |teams| == MAX_CLUB_COUNT &&
                            forall name <- teams.Keys - unseen :: |teams[name]| == MAX_TEAM_SIZE
        decreases |unseen|
      {
        var name :| name in unseen;
        unseen := unseen - {name};
        full := full && |teams[name]| == MAX_TEAM_SIZE;
      }
    }

    /** The number of goalkeepers of one team. */
    static method CountGoalies(team: Team) returns (count: nat)
      ensures count > 0 <==> HasGoalie(team)
    {
      count := 0;
      var unseen := team.Keys;
      while unseen != {}
        invariant unseen <= team.Keys
        invariant count > 0 <==> exists u <- team.Keys - unseen :: team[u].ptype == GoalKeeper
        decreases |unseen|
      {
        var u :| u in unseen;
        unseen := unseen - {u};
        if team[u].ptype == GoalKeeper {
          count := count + 1;
        }
      }
    }

    method RegisterClient(client: EndpointId, request: Registration) returns (result: RegisterResult)
      modifies this
      ensures Value() == Register(old(Value()), client, request).0
      ensures result == Register(old(Value()), client, request).1
    {
      if request.version != CURRENT_VERSION {
        return VersionMismatch;
      }
      if request.teamName !in teams {
        if |teams| == 2 {
          return TeamSlotTaken;
        }
        teams := teams[request.teamName := map[]];
      }
      var team := teams[request.teamName];
      if request.uniform in team {
        return UniformTaken;
      }
      if request.playerType == GoalKeeper {
        var count := CountGoalies(team);
        if count > 0 {
          return GoalieTaken;
        }
      }
      teams := teams[request.teamName := team[request.uniform := Client(client, request.playerType)]];
      if client !in players {
        players := players[client := Player(request.teamName, request.uniform)];
      }
      return RegisterSuccess;
    }

    method DeregisterClient(client: EndpointId) returns (result: DeregisterResult)
      modifies this
      ensures Value() == Withdraw(old(Value()), client).0
      ensures result == Withdraw(old(Value()), client).1
    {
      if client !in players {
        return ClientNotFound;
      }
      var player := players[client];
      if player.teamName in teams {
        teams := teams[player.teamName := teams[player.teamName] - {player.uniform}];
      }
      players := players - {client};
      return DeregisterSuccess;
    }

    /** Writes both players of each uniform in turn and keeps at most two goalkeeper entries. */
    method Finalise() returns (roster: RosterTable?)
      ensures roster == null <==> !Full(Value())
      ensures roster != null ==>
                && fresh(roster.Repr()) && roster.Valid() && roster.Value() == Finalised(Value())
    {
      var full := IsFull();
      if !full {
        return null;
      }
      FirstAndLastExist(teams);
      var first :| first in teams && IsFirst(teams, first);
      var last :| last in teams && IsLast(teams, last);
      ghost var a, z := TwoNames(teams);
      roster := MakeRoster(Value(), first, last, teams[first], teams[last]);
    }

    static method MakeRoster(ghost b: Book, first: string, last: string, alpha: Team, beta: Team)
      returns (roster: RosterTable)
      requires Full(b) && first == TeamName(b.teams, Alpha) && last == TeamName(b.teams, Beta)
      requires alpha == b.teams[first] && beta == b.teams[last]
      ensures fresh(roster.Repr()) && roster.Valid() && roster.Value() == Finalised(b)
    {
      var playerList := new EndpointId[MAX_ROSTER_SIZE](_ => NULL_ENDPOINT);
      var goalieList := new PlayerId[MAX_CLUB_COUNT](_ => NO_PLAYER);
      FillLists(b, alpha, beta, playerList, goalieList);
      var teamList := new TeamSheet[] [
        TeamSheet(first, 0, MAX_TEAM_SIZE - 1),
        TeamSheet(last, MAX_TEAM_SIZE, MAX_ROSTER_SIZE - 1)];
      roster := new RosterTable(playerList, teamList, goalieList);
    }

    static method FillLists(
        ghost b: Book, alpha: Team, beta: Team, playerList: array<EndpointId>, goalieList: array<PlayerId>)
      requires Full(b) && alpha == b.teams[TeamName(b.teams, Alpha)] && beta == b.teams[TeamName(b.teams, Beta)]
      requires playerList.Length == MAX_ROSTER_SIZE && goalieList.Length == MAX_CLUB_COUNT
      requires goalieList[..] == Padded([])
      modifies playerList, goalieList
      ensures playerList[..] == Finalised(b).players && goalieList[..] == Finalised(b).goalies
    {
      var goalieIndex: nat := 0;
      for n := 0 to MAX_TEAM_SIZE
        invariant Written(b, playerList[..], n)
        invariant goalieIndex == |Goalies(b, n)| && goalieList[..] == Padded(Goalies(b, n))
      {
        WrittenNext(b, playerList[..], n);
        goalieIndex := FillUniform(b, n, alpha, beta, playerList, goalieList, goalieIndex);
      }
      AllWritten(b, playerList[..]);
    }

    /** Writes the players of both teams that wear one uniform. */
    static method FillUniform(
        ghost b: Book, n: nat, alpha: Team, beta: Team, playerList: array<EndpointId>, goalieList: array<PlayerId>,
        goalieIndex: nat) returns (next: nat)
      requires Full(b) && alpha == b.teams[TeamName(b.teams, Alpha)] && beta == b.teams[TeamName(b.teams, Beta)]
      requires n < MAX_TEAM_SIZE && playerList.Length == MAX_ROSTER_SIZE && goalieList.Length == MAX_CLUB_COUNT
      requires goalieIndex == |Goalies(b, n)| && goalieList[..] == Padded(Goalies(b, n))
      modifies playerList, goalieList
      ensures playerList[..] == old(playerList[..])[n := ClientAt(b, n).id]
                                                   [MAX_TEAM_SIZE + n := ClientAt(b, MAX_TEAM_SIZE + n).id]
      ensures next == |Goalies(b, n + 1)| && goalieList[..] == Padded(Goalies(b, n + 1))
    {
      var uniform := NthUniform(n);
      ghost var found := Goalies(b, n);
      ClientOfUniform(b, uniform, Alpha);
      ClientOfUniform(b, uniform, Beta);
      next := FinalisePlayer(
        b, UniformToId(uniform, Alpha), alpha[uniform], playerList, goalieList, goalieIndex, found);
      next := FinalisePlayer(
        b, UniformToId(uniform, Beta), beta[uniform], playerList, goalieList, next, Collect(b, found, n));
    }

    static method FinalisePlayer(
        ghost b: Book, player: PlayerId, client: Client, playerList: array<EndpointId>, goalieList: array<PlayerId>,
        goalieIndex: nat, ghost found: seq<PlayerId>) returns (next: nat)
      requires Full(b) && player < MAX_ROSTER_SIZE && client == ClientAt(b, player)
      requires playerList.Length == MAX_ROSTER_SIZE && goalieList.Length == MAX_CLUB_COUNT
      requires |found| <= MAX_CLUB_COUNT && goalieIndex == |found| && goalieList[..] == Padded(found)
      modifies playerList, goalieList
      ensures playerList[..] == old(playerList[..])[player := client.id]
      ensures next == |Collect(b, found, player)| <= MAX_CLUB_COUNT
      ensures goalieList[..] == Padded(Collect(b, found, player))
    {
      playerList[player] := client.id;
      next := goalieIndex;
      if goalieIndex < goalieList.Length && client.ptype == GoalKeeper {
        goalieList[goalieIndex] := player;
        next := next + 1;
      }
    }
  }
}
