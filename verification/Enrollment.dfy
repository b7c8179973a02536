/** The enrollment: which client registered which uniform of which team, and the rules of admission. */
module Enrollment {
  import opened Endpoint
  import opened Entity
  import opened Roster

  datatype Version = Version(numberA: nat, numberB: nat, numberC: nat, numberD: nat)

  const CURRENT_VERSION := Version(1, 0, 0, 0)

  datatype Registration = Registration(
    version: Version, teamName: string, uniform: UniformNumber, playerType: PlayerType)

  datatype RegisterResult = RegisterSuccess | VersionMismatch | TeamSlotTaken | UniformTaken | GoalieTaken

  datatype Client = Client(id: EndpointId, ptype: PlayerType)

  datatype Player = Player(teamName: string, uniform: UniformNumber)

  type Team = map<UniformNumber, Client>

  /** The abstract value of an enrollment: uniforms to clients by team, and clients to players. */
  datatype Book = Book(teams: map<string, Team>, players: map<EndpointId, Player>)

  const EMPTY_BOOK := Book(map[], map[])

  predicate HasGoalie(team: Team) {
    exists u <- team :: team[u].ptype == GoalKeeper
  }

  /** An unknown team is opened before the other rules are consulted, and a client that is already known keeps its
      first player entry. */
  function Register(b: Book, client: EndpointId, request: Registration): (Book, RegisterResult) {
    if request.version != CURRENT_VERSION then (b, VersionMismatch)
    else if request.teamName !in b.teams && |b.teams| == 2 then (b, TeamSlotTaken)
    else
      var withTeam := if request.teamName in b.teams then b else b.(teams := b.teams[request.teamName := map[]]);
      var team := withTeam.teams[request.teamName];
      if request.uniform in team then (withTeam, UniformTaken)
      else if request.playerType == GoalKeeper && HasGoalie(team) then (withTeam, GoalieTaken)
      else
        (Book(withTeam.teams[request.teamName := team[request.uniform := Client(client, request.playerType)]],
              if client in withTeam.players then withTeam.players
              else withTeam.players[client := Player(request.teamName, request.uniform)]),
         RegisterSuccess)
  }

  function Withdraw(b: Book, client: EndpointId): (Book, DeregisterResult) {
    if client !in b.players then (b, ClientNotFound) else
      var player := b.players[client];
      var teams := if player.teamName in b.teams
                   then b.teams[player.teamName := b.teams[player.teamName] - {player.uniform}]
                   else b.teams;
      (Book(teams, b.players - {client}), DeregisterSuccess)
  }

  predicate Full(b: Book) {
    |b.teams| == MAX_CLUB_COUNT && forall name <- b.teams :: |b.teams[name]| == MAX_TEAM_SIZE
  }

  // ----- a full team has every uniform -----

  lemma {:induction false} SubsetCount<T>(s: set<T>, t: set<T>)
    requires s <= t
    ensures |s| <= |t| && (|s| == |t| ==> s == t)
  {
    assert t == s + (t - s);
  }

  lemma FullTeamHasEveryUniform(team: Team)
    ensures |team| <= MAX_TEAM_SIZE
    ensures |team| == MAX_TEAM_SIZE <==> forall u: UniformNumber :: u in team
  {
    var low := {One, Two, Three, Four, Five, Six};
    var high := {Seven, Eight, Nine, Ten, Eleven};
    var all := low + high;
    assert |low| == 6 && |high| == 5 && low !! high;
    assert |all| == 11;
    forall u: UniformNumber
      ensures u in all
    {
      match u
      case One => case Two => case Three => case Four => case Five => case Six =>
      case Seven => case Eight => case Nine => case Ten => case Eleven =>
    }
    SubsetCount(team.Keys, all);
    if forall u: UniformNumber :: u in team {
      assert team.Keys == all;
    }
  }

  // ----- admission -----

  /** A request is accepted under exactly these rules: two teams, eleven uniforms and one goalkeeper per team. */
  lemma AdmissionIff(b: Book, client: EndpointId, request: Registration)
    ensures Register(b, client, request).1.RegisterSuccess? <==>
              && request.version == CURRENT_VERSION
              && (request.teamName in b.teams || |b.teams| != 2)
              && (request.teamName in b.teams ==>
                    && request.uniform !in b.teams[request.teamName]
                    && (request.playerType == GoalKeeper ==> !HasGoalie(b.teams[request.teamName])))
  {
  }

  predicate ForeignVersion(request: Registration) {
    request.version != Version(1, 0, 0, 0)
  }

  predicate NoTeamLeft(b: Book, request: Registration) {
    request.teamName !in b.teams && |b.teams| == 2
  }

  predicate UniformWorn(b: Book, request: Registration) {
    At(b, request.teamName, request.uniform).Some?
  }

  predicate SecondKeeper(b: Book, request: Registration) {
    request.playerType == GoalKeeper &&
    exists u: UniformNumber :: At(b, request.teamName, u).Some? && At(b, request.teamName, u).value.ptype == GoalKeeper
  }

  /** The first rule that the request breaks, if any. */
  function Objection(b: Book, request: Registration): Option<RegisterResult> {
    if ForeignVersion(request) then Some(VersionMismatch)
    else if NoTeamLeft(b, request) then Some(TeamSlotTaken)
    else if UniformWorn(b, request) then Some(UniformTaken)
    else if SecondKeeper(b, request) then Some(GoalieTaken)
    else None
  }

  /** The answer names the first rule that the request breaks. */
  lemma AnswerIsObjection(b: Book, client: EndpointId, request: Registration)
    ensures var result := Register(b, client, request).1;
            Objection(b, request) == if result.RegisterSuccess? then None else Some(result)
  {
    if request.teamName in b.teams && HasGoalie(b.teams[request.teamName]) {
      var u :| u in b.teams[request.teamName] && b.teams[request.teamName][u].ptype == GoalKeeper;
      assert At(b, request.teamName, u).Some?;
    }
  }

  /** A refused request changes nothing: a team opened for a request always ends in success. */
  lemma RefusalChangesNothing(b: Book, client: EndpointId, request: Registration)
    ensures !Register(b, client, request).1.RegisterSuccess? ==> Register(b, client, request).0 == b
  {
  }

  lemma FullRefusesAll(b: Book, client: EndpointId, request: Registration)
    requires Full(b)
    ensures !Register(b, client, request).1.RegisterSuccess?
  {
    if request.teamName in b.teams {
      FullTeamHasEveryUniform(b.teams[request.teamName]);
    }
  }

  function TeamOf(b: Book, name: string): Team {
    if name in b.teams then b.teams[name] else map[]
  }

  /** The effect of an accepted registration. */
  ghost predicate Added(b: Book, after: Book, client: EndpointId, request: Registration) {
    var name, team := request.teamName, TeamOf(b, request.teamName);
    && request.uniform !in team
    && (request.playerType == GoalKeeper ==> !HasGoalie(team))
    && (name !in b.teams ==> |b.teams| != 2)
    && after.teams == b.teams[name := team[request.uniform := Client(client, request.playerType)]]
    && after.players == if client in b.players then b.players
                        else b.players[client := Player(name, request.uniform)]
  }

  lemma AcceptedIsAdded(b: Book, client: EndpointId, request: Registration)
    requires Register(b, client, request).1.RegisterSuccess?
    ensures Added(b, Register(b, client, request).0, client, request)
  {
  }

  lemma RemoveInserted<K, V>(m: map<K, V>, k: K, v: V)
    requires k !in m
    ensures m[k := v] - {k} == m
  {
    assert (m[k := v] - {k}).Keys == m.Keys;
  }

  /** A withdrawal succeeds exactly for a client with a player entry; then it removes this entry and vacates its slot,
      and nothing else changes. */
  lemma WithdrawalIff(b: Book, client: EndpointId, other: EndpointId, name: string, uniform: UniformNumber)
    ensures var (after, result) := Withdraw(b, client);
            && (result.DeregisterSuccess? <==> client in b.players)
            && (result.ClientNotFound? ==> after == b)
            && (other in after.players <==> other in b.players && other != client)
            && (other in after.players ==> after.players[other] == b.players[other])
            && after.teams.Keys == b.teams.Keys
            && At(after, name, uniform)
               == if client in b.players && b.players[client] == Player(name, uniform) then None
                  else At(b, name, uniform)
  {
  }

  lemma WithdrawUndoesAdded(b: Book, after: Book, client: EndpointId, request: Registration)
    requires client !in b.players && Added(b, after, client, request)
    ensures Withdraw(after, client).0 == Book(b.teams[request.teamName := TeamOf(b, request.teamName)], b.players)
  {
    var name, team := request.teamName, TeamOf(b, request.teamName);
    var slot := Client(client, request.playerType);
    RemoveInserted(b.players, client, Player(name, request.uniform));
    RemoveInserted(team, request.uniform, slot);
    assert after.teams[name] == team[request.uniform := slot];
    assert after.teams[name := team] == b.teams[name := team];
  }

  /** For a client not known yet, withdrawing undoes registering, except that a team opened by it stays, empty. */
  lemma {:induction false} WithdrawUndoesRegister(b: Book, client: EndpointId, request: Registration)
    requires client !in b.players && Register(b, client, request).1.RegisterSuccess?
    ensures var after := Withdraw(Register(b, client, request).0, client).0;
            && after.players == b.players
            && after.teams == if request.teamName in b.teams then b.teams else b.teams[request.teamName := map[]]
  {
    var registered := Register(b, client, request).0;
    AcceptedIsAdded(b, client, request);
    WithdrawUndoesAdded(b, registered, client, request);
  }

  // ----- reachable enrollments -----

  datatype Operation = Enrolling(client: EndpointId, request: Registration) | Withdrawing(client: EndpointId)

  function Apply(b: Book, op: Operation): Book {
    match op
    case Enrolling(client, request) => Register(b, client, request).0
    case Withdrawing(client) => Withdraw(b, client).0
  }

  function BookAfter(ops: seq<Operation>): Book {
    if ops == [] then EMPTY_BOOK else Apply(BookAfter(ops[..|ops| - 1]), ops[|ops| - 1])
  }

  ghost predicate OneGoalie(team: Team) {
    forall u, v | u in team && v in team && team[u].ptype == GoalKeeper && team[v].ptype == GoalKeeper :: u == v
  }

  /** The client in a slot of the enrollment, if any. */
  function At(b: Book, name: string, uniform: UniformNumber): Option<Client> {
    if name in b.teams && uniform in b.teams[name] then Some(b.teams[name][uniform]) else None
  }

  lemma AddedAt(b: Book, after: Book, client: EndpointId, request: Registration)
    requires Added(b, after, client, request)
    ensures At(b, request.teamName, request.uniform).None?
    ensures forall name, uniform :: At(after, name, uniform) ==
              if name == request.teamName && uniform == request.uniform then Some(Client(client, request.playerType))
              else At(b, name, uniform)
  {
  }

  /** The slot of the enrollment that a player entry points at holds the client of the entry. */
  ghost predicate PointsBack(b: Book, client: EndpointId)
    requires client in b.players
  {
    var slot := At(b, b.players[client].teamName, b.players[client].uniform);
    slot.Some? && slot.value.id == client
  }

  ghost predicate Inv(b: Book) {
    && |b.teams| <= 2
    && (forall name <- b.teams :: OneGoalie(b.teams[name]))
    && (forall client <- b.players :: PointsBack(b, client))
  }

  lemma AddedKeepsInv(b: Book, after: Book, client: EndpointId, request: Registration)
    requires Inv(b) && Added(b, after, client, request)
    ensures Inv(after)
  {
    assert after.teams.Keys == b.teams.Keys + {request.teamName};
    assert OneGoalie(after.teams[request.teamName]);
    AddedKeepsPointsBack(b, after, client, request);
  }

  lemma AddedKeepsPointsBack(b: Book, after: Book, client: EndpointId, request: Registration)
    requires (forall other <- b.players :: PointsBack(b, other)) && Added(b, after, client, request)
    ensures forall other <- after.players :: PointsBack(after, other)
  {
    AddedAt(b, after, client, request);
    forall other <- after.players
      ensures PointsBack(after, other)
    {
      assert other in b.players ==> PointsBack(b, other);
    }
  }

  lemma {:induction false} RegisterKeepsInv(b: Book, client: EndpointId, request: Registration)
    requires Inv(b)
    ensures Inv(Register(b, client, request).0)
  {
    if Register(b, client, request).1.RegisterSuccess? {
      AcceptedIsAdded(b, client, request);
      AddedKeepsInv(b, Register(b, client, request).0, client, request);
    } else {
      RefusalChangesNothing(b, client, request);
    }
  }

  lemma WithdrawKeepsInv(b: Book, client: EndpointId)
    requires Inv(b)
    ensures Inv(Withdraw(b, client).0)
  {
    if client in b.players {
      var after := Withdraw(b, client).0;
      assert PointsBack(b, client);
      assert after.teams.Keys == b.teams.Keys;
      forall other <- after.players
        ensures PointsBack(after, other)
      {
        assert PointsBack(b, other);
      }
    }
  }

  /** Every reachable enrollment has at most two teams, at most one goalkeeper per team, and player entries that
      agree with the slots. */
  lemma {:induction false} ReachableInv(ops: seq<Operation>)
    ensures Inv(BookAfter(ops))
  {
    if ops != [] {
      ReachableInv(ops[..|ops| - 1]);
      match ops[|ops| - 1]
      case Enrolling(client, request) => RegisterKeepsInv(BookAfter(ops[..|ops| - 1]), client, request);
      case Withdrawing(client) => WithdrawKeepsInv(BookAfter(ops[..|ops| - 1]), client);
    }
  }

  /** An occupied slot is also the player entry of its client. */
  ghost predicate EntryOf(b: Book, name: string, uniform: UniformNumber) {
    var slot := At(b, name, uniform);
    slot.Some? ==> slot.value.id in b.players && b.players[slot.value.id] == Player(name, uniform)
  }

  /** The two maps are inverse to each other. */
  ghost predicate Inverse(b: Book) {
    && (forall client <- b.players :: PointsBack(b, client))
    && (forall name, uniform :: EntryOf(b, name, uniform))
  }

  lemma AddedKeepsInverseIff(b: Book, after: Book, client: EndpointId, request: Registration)
    requires Inverse(b) && Added(b, after, client, request)
    ensures Inverse(after) <==> client !in b.players
  {
    AddedKeepsPointsBack(b, after, client, request);
    AddedAt(b, after, client, request);
    if client in b.players {
      assert PointsBack(b, client);
      assert !EntryOf(after, request.teamName, request.uniform);
    } else {
      forall name, uniform
        ensures EntryOf(after, name, uniform)
      {
        assert EntryOf(b, name, uniform);
      }
    }
  }

  /** An accepted registration keeps the two maps inverse exactly when the client was not known yet. */
  lemma RegisterKeepsInverseIff(b: Book, client: EndpointId, request: Registration)
    requires Inverse(b) && Register(b, client, request).1.RegisterSuccess?
    ensures Inverse(Register(b, client, request).0) <==> client !in b.players
  {
    AcceptedIsAdded(b, client, request);
    AddedKeepsInverseIff(b, Register(b, client, request).0, client, request);
  }

  lemma WithdrawKeepsInverse(b: Book, client: EndpointId)
    requires Inverse(b)
    ensures Inverse(Withdraw(b, client).0)
  {
    if client in b.players {
      var after := Withdraw(b, client).0;
      assert PointsBack(b, client);
      forall other <- after.players
        ensures PointsBack(after, other)
      {
        assert PointsBack(b, other);
      }
      forall name, uniform
        ensures EntryOf(after, name, uniform)
      {
        assert EntryOf(b, name, uniform);
      }
    }
  }

  lemma SlotWithoutEntryStays(b: Book, op: Operation, name: string, uniform: UniformNumber)
    requires Inv(b) && !EntryOf(b, name, uniform)
    ensures !EntryOf(Apply(b, op), name, uniform)
  {
    match op
    case Enrolling(client, request) =>
      if Register(b, client, request).1.RegisterSuccess? {
        AcceptedIsAdded(b, client, request);
        AddedAt(b, Register(b, client, request).0, client, request);
      } else {
        RefusalChangesNothing(b, client, request);
      }
    case Withdrawing(client) =>
      if client in b.players {
        assert PointsBack(b, client);
      }
  }

  /** No client was ever accepted while it was already known. */
  ghost predicate NeverAcceptedTwice(ops: seq<Operation>) {
    ops == [] ||
    (var before, op := ops[..|ops| - 1], ops[|ops| - 1];
     && NeverAcceptedTwice(before)
     && (op.Enrolling? && op.client in BookAfter(before).players ==>
           !Register(BookAfter(before), op.client, op.request).1.RegisterSuccess?))
  }

  /** Over whole runs the two maps are inverse exactly when no client was accepted twice; once they are not, no
      later operation repairs them. */
  lemma {:induction false} ReachableInverseIff(ops: seq<Operation>)
    ensures Inverse(BookAfter(ops)) <==> NeverAcceptedTwice(ops)
  {
    if ops != [] {
      var before, op := BookAfter(ops[..|ops| - 1]), ops[|ops| - 1];
      ReachableInverseIff(ops[..|ops| - 1]);
      ReachableInv(ops[..|ops| - 1]);
      if !Inverse(before) {
        var name, uniform :| !EntryOf(before, name, uniform);
        SlotWithoutEntryStays(before, op, name, uniform);
      } else if op.Withdrawing? {
        WithdrawKeepsInverse(before, op.client);
      } else if Register(before, op.client, op.request).1.RegisterSuccess? {
        RegisterKeepsInverseIff(before, op.client, op.request);
      } else {
        RefusalChangesNothing(before, op.client, op.request);
      }
    }
  }

  /** A client that is accepted under a second uniform leaves a slot without its player entry. */
  lemma AcceptedTwice(client: EndpointId, name: string)
    ensures var first := Enrolling(client, Registration(CURRENT_VERSION, name, One, OutField));
            var second := Enrolling(client, Registration(CURRENT_VERSION, name, Two, OutField));
            !NeverAcceptedTwice([first, second]) && !Inverse(BookAfter([first, second]))
  {
    var first := Enrolling(client, Registration(CURRENT_VERSION, name, One, OutField));
    var second := Enrolling(client, Registration(CURRENT_VERSION, name, Two, OutField));
    assert [first, second][..1] == [first] && [first][..0] == [];
    assert BookAfter([first]) == Register(EMPTY_BOOK, client, first.request).0;
    AcceptedIsAdded(EMPTY_BOOK, client, first.request);
    assert client in BookAfter([first]).players;
    assert Register(BookAfter([first]), client, second.request).1.RegisterSuccess?;
    ReachableInverseIff([first, second]);
  }
}
