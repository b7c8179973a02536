/** Filling an enrollment: whatever has been registered, the free uniforms can still be taken. */
module Filling {
  import opened Endpoint
  import opened Entity
  import opened Roster
  import opened Enrollment
  import opened Finalise
  import opened Messages
  import opened Protocol

  predicate IsOutfield(input: RefInput) {
    input.RefRegistration? && input.details.playerType == OutField
  }

  lemma FreeUniform(team: Team) returns (uniform: UniformNumber)
    requires |team| != MAX_TEAM_SIZE
    ensures uniform !in team && |team| < MAX_TEAM_SIZE
  {
    FullTeamHasEveryUniform(team);
    uniform :| uniform !in team;
  }

  /** Only this team is opened or changed. */
  ghost predicate OnlyTeamChanges(b: Book, after: Book, name: string) {
    && after.teams.Keys == b.teams.Keys + {name}
    && forall other <- b.teams | other != name :: after.teams[other] == b.teams[other]
  }

  lemma OnlyTeamChangesAgain(b: Book, next: Book, after: Book, name: string)
    requires OnlyTeamChanges(b, next, name) && OnlyTeamChanges(next, after, name)
    ensures OnlyTeamChanges(b, after, name)
  {
  }

  /** A team that is there, or can be opened, and is not full takes one more outfield player. */
  lemma FillSlot(b: Book, name: string, client: EndpointId) returns (details: Registration)
    requires (name in b.teams || |b.teams| < 2) && |TeamOf(b, name)| != MAX_TEAM_SIZE
    ensures details.teamName == name && details.playerType == OutField
    ensures var (next, result) := Register(b, client, details);
            && result.RegisterSuccess?
            && OnlyTeamChanges(b, next, name)
            && |next.teams[name]| == |TeamOf(b, name)| + 1 <= MAX_TEAM_SIZE
  {
    var team := TeamOf(b, name);
    var uniform := FreeUniform(team);
    details := Registration(CURRENT_VERSION, name, uniform, OutField);
    AcceptedIsAdded(b, client, details);
    var filled := team[uniform := Client(client, OutField)];
    assert Register(b, client, details).0.teams[name] == filled;
    assert filled.Keys == team.Keys + {uniform};
    assert |filled.Keys| == |team.Keys| + 1;
  }

  lemma ReplayFirst(b: Book, client: EndpointId, details: Registration, rest: seq<RefInput>)
    requires Register(b, client, details).1.RegisterSuccess?
    ensures Replay(b, [RefRegistration(client, details)] + rest) == Replay(Register(b, client, details).0, rest)
  {
    assert ([RefRegistration(client, details)] + rest)[1..] == rest;
  }

  /** The registrations come, in this order, from the first clients of a supply. */
  ghost predicate SuppliedBy(inputs: seq<RefInput>, supply: seq<EndpointId>) {
    && |inputs| <= |supply|
    && forall i | 0 <= i < |inputs| :: IsOutfield(inputs[i]) && inputs[i].client == supply[i]
  }

  lemma SuppliedFirst(first: RefInput, rest: seq<RefInput>, supply: seq<EndpointId>)
    requires supply != [] && IsOutfield(first) && first.client == supply[0] && SuppliedBy(rest, supply[1..])
    ensures SuppliedBy([first] + rest, supply)
  {
    var inputs := [first] + rest;
    forall i | 0 <= i < |inputs|
      ensures IsOutfield(inputs[i]) && inputs[i].client == supply[i]
    {
      assert i > 0 ==> inputs[i] == rest[i - 1] && supply[i] == supply[1..][i - 1];
    }
  }

  lemma SuppliedConcat(a: seq<RefInput>, b: seq<RefInput>, supply: seq<EndpointId>)
    requires SuppliedBy(a, supply) && SuppliedBy(b, supply[|a|..])
    ensures SuppliedBy(a + b, supply)
  {
    forall i | 0 <= i < |a + b|
      ensures IsOutfield((a + b)[i]) && (a + b)[i].client == supply[i]
    {
      assert i >= |a| ==> (a + b)[i] == b[i - |a|] && supply[i] == supply[|a|..][i - |a|];
    }
  }

  function FreeSlots(b: Book, name: string): int { MAX_TEAM_SIZE - |TeamOf(b, name)| }

  /** The registrations fill a team, one for each free uniform, and touch no other team. */
  ghost predicate Fills(b: Book, inputs: seq<RefInput>, name: string) {
    && Replay(b, inputs).Some?
    && OnlyTeamChanges(b, Replay(b, inputs).value, name)
    && |Replay(b, inputs).value.teams[name]| == MAX_TEAM_SIZE
    && |inputs| == FreeSlots(b, name)
  }

  lemma FillsFirst(b: Book, name: string, client: EndpointId, details: Registration, rest: seq<RefInput>)
    requires var (next, result) := Register(b, client, details);
             && result.RegisterSuccess? && OnlyTeamChanges(b, next, name) && Fills(next, rest, name)
             && |next.teams[name]| == |TeamOf(b, name)| + 1
    ensures Fills(b, [RefRegistration(client, details)] + rest, name)
  {
    var next := Register(b, client, details).0;
    ReplayFirst(b, client, details, rest);
    OnlyTeamChangesAgain(b, next, Replay(next, rest).value, name);
  }

  /** A team that is there, or can be opened, can be filled by any clients. */
  lemma FillTeam(b: Book, name: string, supply: seq<EndpointId>) returns (inputs: seq<RefInput>)
    requires (name in b.teams || |b.teams| < 2) && |supply| >= FreeSlots(b, name)
    ensures Fills(b, inputs, name) && SuppliedBy(inputs, supply)
    decreases |supply|
  {
    FullTeamHasEveryUniform(TeamOf(b, name));
    if name in b.teams && |b.teams[name]| == MAX_TEAM_SIZE {
      inputs := [];
    } else {
      var details := FillSlot(b, name, supply[0]);
      var rest := FillTeam(Register(b, supply[0], details).0, name, supply[1..]);
      inputs := [RefRegistration(supply[0], details)] + rest;
      FillsFirst(b, name, supply[0], details, rest);
      SuppliedFirst(RefRegistration(supply[0], details), rest, supply);
    }
  }

  lemma TwoTeamNames(b: Book) returns (first: string, second: string)
    requires |b.teams| <= 2
    ensures first != second && b.teams.Keys <= {first, second}
  {
    if |b.teams| == 2 {
      first, second := TwoNames(b.teams);
    } else if |b.teams| == 1 {
      first :| first in b.teams;
      second := first + "a";
      assert |b.teams.Keys - {first}| == 0;
    } else {
      first, second := "a", "b";
    }
  }

  lemma FullOfTwo(b: Book, first: string, second: string)
    requires first != second && b.teams.Keys == {first, second}
    requires |b.teams[first]| == MAX_TEAM_SIZE && |b.teams[second]| == MAX_TEAM_SIZE
    ensures Full(b)
  {
    assert |b.teams.Keys| == 2;
  }

  lemma FilledBoth(b: Book, half: Book, full: Book, first: string, second: string)
    requires first != second && b.teams.Keys <= {first, second}
    requires OnlyTeamChanges(b, half, first) && |half.teams[first]| == MAX_TEAM_SIZE
    requires OnlyTeamChanges(half, full, second) && |full.teams[second]| == MAX_TEAM_SIZE
    ensures Full(full)
  {
    assert first in half.teams && full.teams[first] == half.teams[first];
    assert full.teams.Keys == {first, second};
    FullOfTwo(full, first, second);
  }

  /** Every enrollment with at most two teams can be filled by outfield players, one registration for each free
      uniform, whichever clients make them. */
  lemma Completion(b: Book, supply: seq<EndpointId>) returns (inputs: seq<RefInput>)
    requires |b.teams| <= 2 && |supply| >= MAX_ROSTER_SIZE
    ensures Replay(b, inputs).Some? && Full(Replay(b, inputs).value)
    ensures SuppliedBy(inputs, supply)
    ensures b == EMPTY_BOOK ==> |inputs| == MAX_ROSTER_SIZE
  {
    var first, second := TwoTeamNames(b);
    SubsetCount(b.teams.Keys, {first, second});
    var ones := FillTeam(b, first, supply);
    var half := Replay(b, ones).value;
    SubsetCount(half.teams.Keys, {first, second});
    var twos := FillTeam(half, second, supply[|ones|..]);
    inputs := ones + twos;
    FilledBoth(b, half, Replay(half, twos).value, first, second);
    ReplayConcat(b, ones, twos);
    SuppliedConcat(ones, twos, supply);
  }

  ghost predicate NoKeepers(b: Book) {
    forall name <- b.teams :: !HasGoalie(b.teams[name])
  }

  lemma OutfieldKeepsNoKeepers(b: Book, client: EndpointId, details: Registration)
    requires NoKeepers(b) && details.playerType == OutField
    ensures NoKeepers(Register(b, client, details).0)
  {
    if Register(b, client, details).1.RegisterSuccess? {
      AcceptedIsAdded(b, client, details);
      assert !HasGoalie(TeamOf(b, details.teamName));
    } else {
      RefusalChangesNothing(b, client, details);
    }
  }

  lemma {:induction false} ReplayKeepsNoKeepers(b: Book, inputs: seq<RefInput>)
    requires NoKeepers(b) && Replay(b, inputs).Some? && forall input <- inputs :: IsOutfield(input)
    ensures NoKeepers(Replay(b, inputs).value)
    decreases |inputs|
  {
    if inputs != [] {
      assert IsOutfield(inputs[0]);
      OutfieldKeepsNoKeepers(b, inputs[0].client, inputs[0].details);
      ReplayKeepsNoKeepers(Register(b, inputs[0].client, inputs[0].details).0, inputs[1..]);
    }
  }

  /** Registrations that fill both teams without a goalkeeper: their roster takes no player for one. */
  lemma KeeperlessRoster(supply: seq<EndpointId>) returns (inputs: seq<RefInput>)
    requires |supply| >= MAX_ROSTER_SIZE
    ensures Replay(EMPTY_BOOK, inputs).Some? && Full(Replay(EMPTY_BOOK, inputs).value) && SuppliedBy(inputs, supply)
    ensures IsGoalie(Finalised(Replay(EMPTY_BOOK, inputs).value), NO_PLAYER)
  {
    inputs := Completion(EMPTY_BOOK, supply);
    ReplayKeepsInv(EMPTY_BOOK, inputs);
    ReplayKeepsNoKeepers(EMPTY_BOOK, inputs);
    NoPlayerIsGoalieIff(Replay(EMPTY_BOOK, inputs).value);
  }
}
