/** Flattening a full enrollment into a roster, and what the roster then means. */
module Finalise {
  import opened Endpoint
  import opened Entity
  import opened Roster
  import opened Enrollment

  // ----- the two teams in name order -----

  predicate IsFirst(teams: map<string, Team>, name: string) {
    name in teams && forall other <- teams :: other == name || NameBefore(name, other)
  }

  predicate IsLast(teams: map<string, Team>, name: string) {
    name in teams && forall other <- teams :: other == name || NameBefore(other, name)
  }

  lemma TwoNames(teams: map<string, Team>) returns (first: string, last: string)
    requires |teams| == 2
    ensures first != last && NameBefore(first, last) && teams.Keys == {first, last}
    ensures IsFirst(teams, first) && IsLast(teams, last)
    ensures forall name :: IsFirst(teams, name) ==> name == first
    ensures forall name :: IsLast(teams, name) ==> name == last
  {
    var a :| a in teams;
    var rest := teams.Keys - {a};
    assert |rest| == 1;
    var b :| b in rest;
    assert |rest - {b}| == 0;
    assert teams.Keys == {a, b};
    NameOrderIsStrict(a, b);
    first, last := if NameBefore(a, b) then a else b, if NameBefore(a, b) then b else a;
    assert IsFirst(teams, first) && IsLast(teams, last);
  }

  lemma FirstAndLastExist(teams: map<string, Team>)
    requires |teams| == 2
    ensures (exists name :: IsFirst(teams, name)) && (exists name :: IsLast(teams, name))
  {
    var first, last := TwoNames(teams);
  }

  /** The team that plays as the given team: the first name is ALPHA, the last one BETA. */
  ghost function TeamName(teams: map<string, Team>, team: TeamId): (name: string)
    requires |teams| == 2
    ensures if team.Alpha? then IsFirst(teams, name) else IsLast(teams, name)
  {
    FirstAndLastExist(teams);
    match team
    case Alpha => var name :| IsFirst(teams, name); name
    case Beta => var name :| IsLast(teams, name); name
  }

  // ----- the flattened roster -----

  /** The client enrolled for a player identifier. */
  ghost function ClientAt(b: Book, id: PlayerId): Client
    requires Full(b)
  {
    var (uniform, team) := IdToUniform(id);
    FullTeamHasEveryUniform(b.teams[TeamName(b.teams, team)]);
    b.teams[TeamName(b.teams, team)][uniform]
  }

  lemma ClientOfUniform(b: Book, uniform: UniformNumber, team: TeamId)
    requires Full(b)
    ensures uniform in b.teams[TeamName(b.teams, team)]
    ensures UniformToId(uniform, team) < MAX_ROSTER_SIZE
    ensures ClientAt(b, UniformToId(uniform, team)) == b.teams[TeamName(b.teams, team)][uniform]
  {
    UniformRoundTrip(uniform, team);
    FullTeamHasEveryUniform(b.teams[TeamName(b.teams, team)]);
  }

  /** Collects a goalkeeper while there is room for one. */
  ghost function Collect(b: Book, goalies: seq<PlayerId>, id: PlayerId): seq<PlayerId>
    requires Full(b)
  {
    if |goalies| < MAX_CLUB_COUNT && ClientAt(b, id).ptype == GoalKeeper then goalies + [id] else goalies
  }

  /** The goalkeepers found when the first n uniforms have been visited, ALPHA before BETA. */
  ghost function Goalies(b: Book, n: nat): (goalies: seq<PlayerId>)
    requires Full(b) && n <= MAX_TEAM_SIZE
    ensures |goalies| <= MAX_CLUB_COUNT
  {
    if n == 0 then [] else Collect(b, Collect(b, Goalies(b, n - 1), n - 1), MAX_TEAM_SIZE + n - 1)
  }

  ghost function Padded(goalies: seq<PlayerId>): (padded: seq<PlayerId>)
    requires |goalies| <= MAX_CLUB_COUNT
    ensures |padded| == MAX_CLUB_COUNT
  {
    goalies + seq(MAX_CLUB_COUNT - |goalies|, _ => NO_PLAYER)
  }

  ghost function Finalised(b: Book): (r: Sheet)
    requires Full(b)
    ensures r.Sized()
  {
    Sheet(
      seq(MAX_ROSTER_SIZE, i requires 0 <= i < MAX_ROSTER_SIZE => ClientAt(b, i).id),
      [TeamSheet(TeamName(b.teams, Alpha), 0, MAX_TEAM_SIZE - 1),
       TeamSheet(TeamName(b.teams, Beta), MAX_TEAM_SIZE, MAX_ROSTER_SIZE - 1)],
      Padded(Goalies(b, MAX_TEAM_SIZE)))
  }

  // ----- what the roster means -----

  ghost predicate IsKeeper(b: Book, id: PlayerId)
    requires Full(b)
  {
    id < MAX_ROSTER_SIZE && ClientAt(b, id).ptype == GoalKeeper
  }

  /** With at most one goalkeeper per team, two goalkeepers play for different teams. */
  lemma KeepersDiffer(b: Book, x: PlayerId, y: PlayerId)
    requires Inv(b) && Full(b) && IsKeeper(b, x) && IsKeeper(b, y) && x != y
    ensures IdToUniform(x).1 != IdToUniform(y).1
  {
    var (u, t) := IdToUniform(x);
    var (v, s) := IdToUniform(y);
    IdRoundTrip(x);
    IdRoundTrip(y);
    assert OneGoalie(b.teams[TeamName(b.teams, t)]);
    FullTeamHasEveryUniform(b.teams[TeamName(b.teams, t)]);
  }

  /** The identifiers visited after some uniforms of each team. */
  predicate Visited(alphas: nat, betas: nat, id: PlayerId) {
    id < alphas || MAX_TEAM_SIZE <= id < MAX_TEAM_SIZE + betas
  }

  /** The collected goalkeepers are exactly those visited: the guard on the room never drops one. */
  ghost predicate CollectsAll(b: Book, goalies: seq<PlayerId>, alphas: nat, betas: nat)
    requires Full(b)
  {
    && |goalies| <= MAX_CLUB_COUNT
    && (forall i, j | 0 <= i < j < |goalies| :: goalies[i] != goalies[j])
    && (forall id: PlayerId :: id in goalies <==> Visited(alphas, betas, id) && IsKeeper(b, id))
  }

  lemma RoomForEveryKeeper(b: Book, goalies: seq<PlayerId>, alphas: nat, betas: nat, id: PlayerId)
    requires Inv(b) && Full(b) && CollectsAll(b, goalies, alphas, betas)
    requires !Visited(alphas, betas, id) && IsKeeper(b, id)
    ensures |goalies| < MAX_CLUB_COUNT
  {
    if |goalies| == MAX_CLUB_COUNT {
      assert goalies[0] in goalies && goalies[1] in goalies;
      KeepersDiffer(b, goalies[0], goalies[1]);
      KeepersDiffer(b, goalies[0], id);
      KeepersDiffer(b, goalies[1], id);
      assert false;
    }
  }

  lemma CollectDropsNone(
      b: Book, goalies: seq<PlayerId>, alphas: nat, betas: nat, id: PlayerId, alphas': nat, betas': nat)
    requires Inv(b) && Full(b) && CollectsAll(b, goalies, alphas, betas)
    requires !Visited(alphas, betas, id) && id < MAX_ROSTER_SIZE
    requires forall x: PlayerId :: Visited(alphas', betas', x) <==> Visited(alphas, betas, x) || x == id
    ensures CollectsAll(b, Collect(b, goalies, id), alphas', betas')
  {
    if IsKeeper(b, id) {
      RoomForEveryKeeper(b, goalies, alphas, betas, id);
      assert id !in goalies;
    }
  }

  lemma CollectPair(b: Book, goalies: seq<PlayerId>, n: nat, after: seq<PlayerId>)
    requires Inv(b) && Full(b) && 0 < n <= MAX_TEAM_SIZE && CollectsAll(b, goalies, n - 1, n - 1)
    requires after == Collect(b, Collect(b, goalies, n - 1), MAX_TEAM_SIZE + n - 1)
    ensures CollectsAll(b, after, n, n)
  {
    CollectDropsNone(b, goalies, n - 1, n - 1, n - 1, n, n - 1);
    CollectDropsNone(b, Collect(b, goalies, n - 1), n, n - 1, MAX_TEAM_SIZE + n - 1, n, n);
  }

  lemma NoneVisited(b: Book)
    requires Full(b)
    ensures CollectsAll(b, Goalies(b, 0), 0, 0)
  {
  }

  lemma GoaliesStep(b: Book, n: nat)
    requires Inv(b) && Full(b) && 0 < n <= MAX_TEAM_SIZE && CollectsAll(b, Goalies(b, n - 1), n - 1, n - 1)
    ensures CollectsAll(b, Goalies(b, n), n, n)
  {
    CollectPair(b, Goalies(b, n - 1), n, Goalies(b, n));
  }

  lemma {:induction false} GoaliesAreKeepers(b: Book, n: nat)
    requires Inv(b) && Full(b) && n <= MAX_TEAM_SIZE
    ensures CollectsAll(b, Goalies(b, n), n, n)
  {
    if n == 0 {
      NoneVisited(b);
    } else {
      GoaliesAreKeepers(b, n - 1);
      GoaliesStep(b, n);
    }
  }

  /** The place of an identifier when the uniforms are visited in turn, ALPHA before BETA. */
  function Turn(id: PlayerId): nat {
    if id < 11 then 2 * id else 2 * (id - 11) + 1
  }

  /** The places rise, and stay below this one. */
  ghost predicate InTurn(goalies: seq<PlayerId>, bound: nat) {
    && (forall i | 0 <= i < |goalies| :: Turn(goalies[i]) < bound)
    && (forall i, j | 0 <= i < j < |goalies| :: Turn(goalies[i]) < Turn(goalies[j]))
  }

  lemma CollectedInTurn(b: Book, goalies: seq<PlayerId>, id: PlayerId)
    requires Full(b) && InTurn(goalies, Turn(id))
    ensures InTurn(Collect(b, goalies, id), Turn(id) + 1)
  {
    var after := Collect(b, goalies, id);
    assert forall i | 0 <= i < |goalies| :: after[i] == goalies[i];
  }

  /** The goalkeepers are collected in the order of the uniforms, ALPHA's before BETA's. */
  lemma {:induction false} GoaliesInOrder(b: Book, n: nat)
    requires Full(b) && n <= MAX_TEAM_SIZE
    ensures InTurn(Goalies(b, n), 2 * n)
  {
    if n > 0 {
      var before := Goalies(b, n - 1);
      GoaliesInOrder(b, n - 1);
      assert Turn(n - 1) == 2 * (n - 1) && Turn(MAX_TEAM_SIZE + n - 1) == 2 * (n - 1) + 1;
      CollectedInTurn(b, before, n - 1);
      CollectedInTurn(b, Collect(b, before, n - 1), MAX_TEAM_SIZE + n - 1);
    }
  }

  /** Below the roster size, a player is a goalkeeper of the roster exactly when it registered as one. */
  lemma GoalkeepersPreserved(b: Book, id: PlayerId)
    requires Inv(b) && Full(b) && id < MAX_ROSTER_SIZE
    ensures IsGoalie(Finalised(b), id) <==> ClientAt(b, id).ptype == GoalKeeper
  {
    GoaliesAreKeepers(b, MAX_TEAM_SIZE);
    assert Visited(MAX_TEAM_SIZE, MAX_TEAM_SIZE, id);
  }

  /** These are the names of the teams, and at the first place where they differ the first one ends or has the smaller
      character. */
  ghost predicate InNameOrder(teams: map<string, Team>, first: string, last: string) {
    teams.Keys == {first, last} && exists k: nat :: PartsAt(first, last, k)
  }

  lemma NamesInOrder(teams: map<string, Team>)
    requires |teams| == 2
    ensures InNameOrder(teams, TeamName(teams, Alpha), TeamName(teams, Beta))
  {
    var first, last := TwoNames(teams);
    var k := OrderedPart(first, last);
  }

  lemma SheetsMean(b: Book, team: TeamId)
    requires Full(b)
    ensures var sheets := Finalised(b).teams;
            && sheets[if team.Alpha? then 0 else 1]
               == TeamSheet(TeamName(b.teams, team), UniformToId(One, team), UniformToId(Eleven, team))
            && InNameOrder(b.teams, sheets[0].name, sheets[1].name)
  {
    NamesInOrder(b.teams);
  }

  /** The roster slot of a uniform holds the client enrolled under it, by name order of the teams. The sheet of a team
      spans its identifiers. */
  lemma FinalisePreservesMeaning(b: Book, uniform: UniformNumber, team: TeamId)
    requires Inv(b) && Full(b)
    ensures var (r, id, name) := (Finalised(b), UniformToId(uniform, team), TeamName(b.teams, team));
            && id < MAX_ROSTER_SIZE && uniform in b.teams[name]
            && r.players[id] == b.teams[name][uniform].id
            && (IsGoalie(r, id) <==> b.teams[name][uniform].ptype == GoalKeeper)
            && r.teams[if team.Alpha? then 0 else 1]
               == TeamSheet(name, UniformToId(One, team), UniformToId(Eleven, team))
            && InNameOrder(b.teams, r.teams[0].name, r.teams[1].name)
  {
    SheetsMean(b, team);
    ClientOfUniform(b, uniform, team);
    GoalkeepersPreserved(b, UniformToId(uniform, team));
  }

  lemma SheetDeterminesSlot(b: Book, c: Book, uniform: UniformNumber, team: TeamId)
    requires Inv(b) && Full(b) && Inv(c) && Full(c) && Finalised(b) == Finalised(c)
    ensures var name := TeamName(b.teams, team);
            && name == TeamName(c.teams, team)
            && uniform in b.teams[name] && uniform in c.teams[name]
            && b.teams[name][uniform] == c.teams[name][uniform]
  {
    FinalisePreservesMeaning(b, uniform, team);
    FinalisePreservesMeaning(c, uniform, team);
  }

  lemma SheetDeterminesTeam(b: Book, c: Book, team: TeamId)
    requires Inv(b) && Full(b) && Inv(c) && Full(c) && Finalised(b) == Finalised(c)
    ensures TeamName(b.teams, team) == TeamName(c.teams, team)
    ensures b.teams[TeamName(b.teams, team)] == c.teams[TeamName(c.teams, team)]
  {
    SheetDeterminesSlot(b, c, One, team);
    var s, t := b.teams[TeamName(b.teams, team)], c.teams[TeamName(c.teams, team)];
    forall uniform: UniformNumber
      ensures uniform in s && uniform in t && s[uniform] == t[uniform]
    {
      SheetDeterminesSlot(b, c, uniform, team);
    }
    SameSlots(s, t);
  }

  lemma SameSlots(s: Team, t: Team)
    requires forall uniform :: uniform in s && uniform in t && s[uniform] == t[uniform]
    ensures s == t
  {
    assert s.Keys == t.Keys;
  }

  lemma SameTeams(s: map<string, Team>, t: map<string, Team>)
    requires |s| == 2 && |t| == 2
    requires forall team ::
               TeamName(s, team) == TeamName(t, team) && s[TeamName(s, team)] == t[TeamName(t, team)]
    ensures s == t
  {
    var first, last := TwoNames(s);
    var first', last' := TwoNames(t);
    assert TeamName(s, Alpha) == first && TeamName(s, Beta) == last;
    assert TeamName(t, Alpha) == first' && TeamName(t, Beta) == last';
  }

  /** The two sheets are in name order. */
  lemma SheetsAreOrdered(b: Book)
    requires Full(b)
    ensures NameBefore(Finalised(b).teams[0].name, Finalised(b).teams[1].name)
  {
    var first, last := TwoNames(b.teams);
  }

  /** Nothing about the teams is lost: the roster determines them. */
  lemma FinaliseIsInjective(b: Book, c: Book)
    requires Inv(b) && Full(b) && Inv(c) && Full(c) && Finalised(b) == Finalised(c)
    ensures b.teams == c.teams
  {
    forall team: TeamId
      ensures TeamName(b.teams, team) == TeamName(c.teams, team)
      ensures b.teams[TeamName(b.teams, team)] == c.teams[TeamName(c.teams, team)]
    {
      SheetDeterminesTeam(b, c, team);
    }
    SameTeams(b.teams, c.teams);
  }

  /** A fresh roster has its goalkeeper entries vacant or occupied exactly when no goalkeeper registered with the
      null endpoint, so that removals start from a consistent roster. */
  lemma FreshGoaliesOccupiedIff(b: Book)
    requires Inv(b) && Full(b)
    ensures GoaliesOccupied(Finalised(b)) <==>
              forall id: PlayerId | IsKeeper(b, id) :: ClientAt(b, id).id != NULL_ENDPOINT
  {
    var r := Finalised(b);
    var goalies := Goalies(b, MAX_TEAM_SIZE);
    GoaliesAreKeepers(b, MAX_TEAM_SIZE);
    forall id: PlayerId
      ensures id in goalies <==> IsKeeper(b, id)
    {
      assert id < MAX_ROSTER_SIZE ==> Visited(MAX_TEAM_SIZE, MAX_TEAM_SIZE, id);
    }
    forall id: PlayerId | IsKeeper(b, id)
      ensures id in r.goalies && r.players[id] == ClientAt(b, id).id
    {
    }
    forall g <- r.goalies
      ensures g == NO_PLAYER || IsKeeper(b, g)
    {
      assert g in goalies || g == NO_PLAYER;
    }
  }

  lemma KeeperOfTeam(b: Book, team: TeamId) returns (id: PlayerId)
    requires Full(b) && HasGoalie(b.teams[TeamName(b.teams, team)])
    ensures IsKeeper(b, id) && IdToUniform(id).1 == team
  {
    var roster := b.teams[TeamName(b.teams, team)];
    var uniform :| uniform in roster && roster[uniform].ptype == GoalKeeper;
    UniformRoundTrip(uniform, team);
    id := UniformToId(uniform, team);
  }

  lemma TeamOfKeeper(b: Book, id: PlayerId)
    requires Full(b) && IsKeeper(b, id)
    ensures HasGoalie(b.teams[TeamName(b.teams, IdToUniform(id).1)])
  {
    var (uniform, team) := IdToUniform(id);
    FullTeamHasEveryUniform(b.teams[TeamName(b.teams, team)]);
    assert uniform in b.teams[TeamName(b.teams, team)];
  }

  /** The identifier that stands for no player counts as a goalkeeper exactly when some team has none. */
  lemma NoPlayerIsGoalieIff(b: Book)
    requires Inv(b) && Full(b)
    ensures IsGoalie(Finalised(b), 255) <==>
              !(HasGoalie(b.teams[TeamName(b.teams, Alpha)]) && HasGoalie(b.teams[TeamName(b.teams, Beta)]))
  {
    var goalies := Goalies(b, MAX_TEAM_SIZE);
    GoaliesAreKeepers(b, MAX_TEAM_SIZE);
    if |goalies| == MAX_CLUB_COUNT {
      assert goalies[0] in goalies && goalies[1] in goalies;
      KeepersDiffer(b, goalies[0], goalies[1]);
      TeamOfKeeper(b, goalies[0]);
      TeamOfKeeper(b, goalies[1]);
    } else if HasGoalie(b.teams[TeamName(b.teams, Alpha)]) && HasGoalie(b.teams[TeamName(b.teams, Beta)]) {
      var x := KeeperOfTeam(b, Alpha);
      var y := KeeperOfTeam(b, Beta);
      TwoKeepersCollected(b, goalies, x, y);
      assert false;
    } else {
      assert Padded(goalies)[MAX_CLUB_COUNT - 1] == NO_PLAYER;
    }
  }

  lemma TwoKeepersCollected(b: Book, goalies: seq<PlayerId>, x: PlayerId, y: PlayerId)
    requires Full(b) && CollectsAll(b, goalies, MAX_TEAM_SIZE, MAX_TEAM_SIZE)
    requires IsKeeper(b, x) && IsKeeper(b, y) && x != y
    ensures |goalies| == MAX_CLUB_COUNT
  {
    assert Visited(MAX_TEAM_SIZE, MAX_TEAM_SIZE, x) && Visited(MAX_TEAM_SIZE, MAX_TEAM_SIZE, y);
    assert x in goalies && y in goalies;
  }
}
