/** Teams, uniforms and player identifiers. */
module Entity {
  datatype UniformNumber = One | Two | Three | Four | Five | Six | Seven | Eight | Nine | Ten | Eleven

  datatype TeamId = Alpha | Beta

  datatype PlayerType = OutField | GoalKeeper

  /** 8-bit identifiers; the largest one means no player. */
  type PlayerId = n: nat | n < 0x100

  const NO_PLAYER: PlayerId := 0xFF
  const MAX_CLUB_COUNT: nat := 2
  const MAX_TEAM_SIZE: nat := 11
  const MAX_ROSTER_SIZE: nat := MAX_CLUB_COUNT * MAX_TEAM_SIZE

  function UniformIndex(uniform: UniformNumber): nat {
    match uniform
    case One => 0
    case Two => 1
    case Three => 2
    case Four => 3
    case Five => 4
    case Six => 5
    case Seven => 6
    case Eight => 7
    case Nine => 8
    case Ten => 9
    case Eleven => 10
  }

  function UniformToId(uniform: UniformNumber, team: TeamId): PlayerId {
    match team
    case Alpha => UniformIndex(uniform)
    case Beta => MAX_TEAM_SIZE + UniformIndex(uniform)
  }

  /** Identifiers beyond the roster fall through to the last uniform of the second team. */
  function IdToUniform(player: PlayerId): (UniformNumber, TeamId) {
    var team := if MAX_TEAM_SIZE <= player then Beta else Alpha;
    var index := if MAX_TEAM_SIZE <= player then player - MAX_TEAM_SIZE else player;
    match index
    case 0 => (One, team)
    case 1 => (Two, team)
    case 2 => (Three, team)
    case 3 => (Four, team)
    case 4 => (Five, team)
    case 5 => (Six, team)
    case 6 => (Seven, team)
    case 7 => (Eight, team)
    case 8 => (Nine, team)
    case 9 => (Ten, team)
    case _ => (Eleven, team)
  }

  /** The uniforms in their declared order. */
  function NthUniform(n: nat): (uniform: UniformNumber)
    requires n < MAX_TEAM_SIZE
    ensures UniformIndex(uniform) == n
  {
    IdToUniform(n).0
  }

  /** The two conversions are inverse to each other on the roster, and only there. */
  lemma IdRoundTrip(player: PlayerId)
    ensures var (uniform, team) := IdToUniform(player);
            UniformToId(uniform, team) == player <==> player < MAX_ROSTER_SIZE
  {
  }

  lemma UniformRoundTrip(uniform: UniformNumber, team: TeamId)
    ensures UniformToId(uniform, team) < MAX_ROSTER_SIZE
    ensures IdToUniform(UniformToId(uniform, team)) == (uniform, team)
  {
  }

  /** ALPHA wears the identifiers 0 to 10 and BETA 11 to 21, each in the order of the uniforms. */
  lemma IdsInOrder(player: PlayerId, uniform: UniformNumber)
    ensures UniformToId(One, Alpha) == 0 && UniformToId(Eleven, Alpha) == 10
    ensures UniformToId(One, Beta) == 11 && UniformToId(Eleven, Beta) == 21
    ensures UniformToId(uniform, Beta) == UniformToId(uniform, Alpha) + 11
    ensures player < 11 ==> IdToUniform(player).1 == Alpha
    ensures 11 <= player < 22 ==> IdToUniform(player).1 == Beta && IdToUniform(player - 11).0 == IdToUniform(player).0
    ensures 22 <= player ==> IdToUniform(player) == (Eleven, Beta)
    ensures player < 10 ==> Follows(IdToUniform(player).0, IdToUniform(player + 1).0)
  {
  }

  /** The next number on a shirt. */
  predicate Follows(uniform: UniformNumber, next: UniformNumber) {
    (uniform, next) in {
      (One, Two), (Two, Three), (Three, Four), (Four, Five), (Five, Six),
      (Six, Seven), (Seven, Eight), (Eight, Nine), (Nine, Ten), (Ten, Eleven)}
  }

  /** Team names are ordered character by character, a proper prefix first. */
  predicate NameBefore(a: string, b: string) {
    b != [] && (a == [] || a[0] < b[0] || (a[0] == b[0] && NameBefore(a[1..], b[1..])))
  }

  lemma {:induction false} NameOrderIsStrict(a: string, b: string)
    ensures (a != b <==> NameBefore(a, b) || NameBefore(b, a)) && !(NameBefore(a, b) && NameBefore(b, a))
  {
    if a != [] && b != [] {
      NameOrderIsStrict(a[1..], b[1..]);
      assert a == [a[0]] + a[1..] && b == [b[0]] + b[1..];
    }
  }

  lemma {:induction false} NameOrderIsTransitive(a: string, b: string, c: string)
    requires NameBefore(a, b) && NameBefore(b, c)
    ensures NameBefore(a, c)
  {
    if a != [] && a[0] == b[0] == c[0] {
      NameOrderIsTransitive(a[1..], b[1..], c[1..]);
    }
  }

  /** Up to k the names are the same, and there the first one ends or has the smaller character. */
  predicate PartsAt(a: string, b: string, k: nat) {
    k <= |a| && k < |b| && a[..k] == b[..k] && (k == |a| || a[k] < b[k])
  }

  lemma {:induction false} PartingOrders(a: string, b: string, k: nat)
    requires PartsAt(a, b, k)
    ensures NameBefore(a, b)
  {
    if k > 0 {
      assert a[..k][0] == b[..k][0];
      assert a[1..][..k - 1] == a[..k][1..] && b[1..][..k - 1] == b[..k][1..];
      PartingOrders(a[1..], b[1..], k - 1);
    }
  }

  lemma {:induction false} OrderedPart(a: string, b: string) returns (k: nat)
    requires NameBefore(a, b)
    ensures PartsAt(a, b, k)
  {
    if a == [] || a[0] < b[0] {
      k := 0;
    } else {
      k := OrderedPart(a[1..], b[1..]);
      assert a[..k + 1] == [a[0]] + a[1..][..k] && b[..k + 1] == [b[0]] + b[1..][..k];
      k := k + 1;
    }
  }

  /** One name comes before another exactly if at the first place where they differ it ends or has the smaller
      character. */
  lemma {:induction false} NameOrderIff(a: string, b: string)
    ensures NameBefore(a, b) <==> exists k: nat :: PartsAt(a, b, k)
  {
    if NameBefore(a, b) {
      var k := OrderedPart(a, b);
    }
    if k: nat :| PartsAt(a, b, k) {
      PartingOrders(a, b, k);
    }
  }
}
