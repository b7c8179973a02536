/** The clock monitor: a sliding window of transmitted pings, a bounded window of pongs per client,
    and the averages computed from them by a one-pass merge. */
module Monitor {
  import opened Endpoint
  import opened Numbers

  /** 16-bit sequence numbers. */
  type SequenceNum = n: nat | n < 0x1_0000

  const MAX_SEQUENCE: SequenceNum := 0xFFFF

  datatype Ping = Ping(transmitTime: int, sequenceNum: SequenceNum)

  datatype Pong = Pong(receiveTime: int, clientTime: int, sequenceNum: SequenceNum)

  /** The abstract value of a monitor. */
  datatype Clock = Clock(
    pings: seq<Ping>,
    pongs: map<EndpointId, seq<Pong>>,
    target: nat,
    current: SequenceNum)

  function InitialClock(target: nat): Clock {
    Clock([], map[], target, 0)
  }

  function PongsOf(s: Clock, client: EndpointId): seq<Pong> {
    if client in s.pongs then s.pongs[client] else []
  }

  /** Unsigned 16-bit increment: it wraps. */
  function NextSequence(n: SequenceNum): SequenceNum {
    (n + 1) % 0x1_0000
  }

  function LastN<T>(s: seq<T>, n: nat): seq<T> {
    if |s| <= n then s else s[|s| - n..]
  }

  /** Division of durations truncates toward zero. */
  function TruncDiv(total: int, n: nat): int
    requires n > 0
  {
    if total >= 0 then total / n else -((-total) / n)
  }

  lemma QuotientBounds(x: nat, n: nat)
    requires n > 0
    ensures 0 <= n * (x / n) <= x <= n * (x / n) + n - 1
  {
    assert x == n * (x / n) + x % n;
    MultiplesApart(n, 0, x / n);
  }

  lemma ScaledTruncDiv(total: int, n: nat)
    requires n > 0
    ensures n * TruncDiv(total, n) == if total >= 0 then n * (total / n) else -(n * ((-total) / n))
  {
    if total < 0 {
      NegateProduct(n, (-total) / n);
    }
  }

  lemma TruncDivError(total: int, n: nat)
    requires n > 0
    ensures Abs(n * TruncDiv(total, n) - total) <= n - 1
    ensures Abs(n * TruncDiv(total, n)) <= Abs(total)
  {
    ScaledTruncDiv(total, n);
    QuotientBounds(Abs(total), n);
  }

  lemma QuotientIs(x: nat, n: nat, m: nat)
    requires n > 0 && x == n * m
    ensures x / n == m
  {
    assert x == n * (x / n) + x % n;
    MultiplesApart(n, x / n, m);
    MultiplesApart(n, m, x / n);
  }

  /** The quotient of an exact multiple is exact, whatever its sign. */
  lemma TruncDivExact(k: int, n: nat)
    requires n > 0
    ensures TruncDiv(n * k, n) == k
  {
    NegateProduct(n, k);
    MultiplesApart(n, 0, k);
    MultiplesApart(n, k, 0);
    QuotientIs(n * Abs(k), n, Abs(k));
  }

  // ----- the oldest sequence number still needed by some client -----

  /** r is the least front of the non-empty pong records, or the maximum when there is none. */
  ghost predicate IsOldest(pongs: map<EndpointId, seq<Pong>>, r: SequenceNum) {
    && (forall c <- pongs | pongs[c] != [] :: r <= pongs[c][0].sequenceNum)
    && (r == MAX_SEQUENCE || exists c <- pongs :: pongs[c] != [] && pongs[c][0].sequenceNum == r)
  }

  /** Whatever order the records are walked in, there is only one such value. */
  lemma OldestIsUnique(pongs: map<EndpointId, seq<Pong>>, r1: SequenceNum, r2: SequenceNum)
    requires IsOldest(pongs, r1) && IsOldest(pongs, r2)
    ensures r1 == r2
  {
  }

  lemma OldestWithRecord(pongs: map<EndpointId, seq<Pong>>, c: EndpointId, r: SequenceNum)
    requires c in pongs && IsOldest(pongs - {c}, r)
    ensures exists r' :: IsOldest(pongs, r')
  {
    var rest := pongs - {c};
    var least := if pongs[c] != [] && pongs[c][0].sequenceNum < r then pongs[c][0].sequenceNum else r;
    forall d <- pongs | pongs[d] != []
      ensures least <= pongs[d][0].sequenceNum
    {
      assert d != c ==> d in rest && rest[d] == pongs[d];
    }
    if least != MAX_SEQUENCE && least == r {
      var d :| d in rest && rest[d] != [] && rest[d][0].sequenceNum == r;
      assert pongs[d] == rest[d];
    }
    assert IsOldest(pongs, least);
  }

  lemma {:induction false} OldestExists(pongs: map<EndpointId, seq<Pong>>)
    ensures exists r :: IsOldest(pongs, r)
    decreases |pongs|
  {
    if pongs == map[] {
      assert IsOldest(pongs, MAX_SEQUENCE);
    } else {
      var c :| c in pongs;
      var rest := pongs - {c};
      assert pongs.Keys == rest.Keys + {c};
      OldestExists(rest);
      var r :| IsOldest(rest, r);
      OldestWithRecord(pongs, c, r);
    }
  }

  ghost function Oldest(pongs: map<EndpointId, seq<Pong>>): (r: SequenceNum)
    ensures IsOldest(pongs, r)
  {
    OldestExists(pongs);
    var r :| IsOldest(pongs, r);
    r
  }

  // ----- the two recording operations -----

  /** Drops pings from the front while there are more than target of them and the front one is older
      than every client's oldest retained pong. */
  function Evict(pings: seq<Ping>, oldest: SequenceNum, target: nat): seq<Ping> {
    if |pings| > target && pings[0].sequenceNum < oldest then Evict(pings[1..], oldest, target) else pings
  }

  ghost function Transmit(s: Clock, time: int): Clock {
    var next := NextSequence(s.current);
    s.(current := next, pings := Evict(s.pings + [Ping(time, next)], Oldest(s.pongs), s.target))
  }

  /** The eviction of a transmit stops before it has dropped every ping. */
  ghost predicate SafeTransmit(s: Clock) {
    || s.target >= 1
    || NextSequence(s.current) >= Oldest(s.pongs)
    || exists ping <- s.pings :: ping.sequenceNum >= Oldest(s.pongs)
  }

  function Receive(s: Clock, client: EndpointId, pong: Pong): Clock {
    s.(pongs := s.pongs[client := LastN(PongsOf(s, client) + [pong], s.target)])
  }

  // ----- the merge and the averages -----

  /** The pairs formed by one forward pass over both records: a ping that does not carry the number of the
      current pong is skipped, a match consumes both. */
  function Merge(pings: seq<Ping>, pongs: seq<Pong>): seq<(Ping, Pong)> {
    if pings == [] || pongs == [] then []
    else if pings[0].sequenceNum != pongs[0].sequenceNum then Merge(pings[1..], pongs)
    else [(pings[0], pongs[0])] + Merge(pings[1..], pongs[1..])
  }

  function RoundTrip(p: (Ping, Pong)): int {
    p.1.receiveTime - p.0.transmitTime
  }

  /** The client clock minus the server clock, assuming equal time out and back. */
  function ClockDiff(p: (Ping, Pong)): int {
    p.1.clientTime - p.0.transmitTime - TruncDiv(RoundTrip(p), 2)
  }

  function TotalRoundTrip(pairs: seq<(Ping, Pong)>): int {
    if pairs == [] then 0 else RoundTrip(pairs[0]) + TotalRoundTrip(pairs[1..])
  }

  function TotalClockDiff(pairs: seq<(Ping, Pong)>): int {
    if pairs == [] then 0 else ClockDiff(pairs[0]) + TotalClockDiff(pairs[1..])
  }

  function AverageRoundTrip(s: Clock, client: EndpointId): int {
    var pongs := PongsOf(s, client);
    if pongs == [] then 0 else TruncDiv(TotalRoundTrip(Merge(s.pings, pongs)), |pongs|)
  }

  function AverageClockDiff(s: Clock, client: EndpointId): int {
    var pongs := PongsOf(s, client);
    if pongs == [] then 0 else TruncDiv(TotalClockDiff(Merge(s.pings, pongs)), |pongs|)
  }

  class ClockMonitor {
    var transmittedPings: seq<Ping>
    var receivedPongs: map<EndpointId, seq<Pong>>
    const targetSampleSize: nat
    var currentSequence: SequenceNum

    ghost function State(): Clock
      reads this
    {
      Clock(transmittedPings, receivedPongs, targetSampleSize, currentSequence)
    }

    constructor (target: nat)
      ensures State() == InitialClock(target)
    {
      transmittedPings := [];
      receivedPongs := map[];
      targetSampleSize := target;
      currentSequence := 0;
    }

    method ReceiveSampleSize(client: EndpointId) returns (n: nat)
      ensures n == |PongsOf(State(), client)|
    {
      if client !in receivedPongs {
        n := 0;
      } else {
        n := |receivedPongs[client]|;
      }
    }

    method AverageRoundTripTime(client: EndpointId) returns (average: int)
      ensures average == AverageRoundTrip(State(), client)
    {
      if client !in receivedPongs || |receivedPongs[client]| == 0 {
        return 0;
      }
      var pongs := receivedPongs[client];
      var i, j, total := 0, 0, 0;
      while i < |transmittedPings| && j < |pongs|
        invariant 0 <= i <= |transmittedPings| && 0 <= j <= |pongs|
        invariant TotalRoundTrip(Merge(transmittedPings, pongs))
               == total + TotalRoundTrip(Merge(transmittedPings[i..], pongs[j..]))
        decreases |transmittedPings| - i
      {
        if transmittedPings[i].sequenceNum != pongs[j].sequenceNum {
          i := i + 1;
          continue;
        }
        total := total + (pongs[j].receiveTime - transmittedPings[i].transmitTime);
        i, j := i + 1, j + 1;
      }
      average := TruncDiv(total, |pongs|);
    }

    method AverageClockDifference(client: EndpointId) returns (average: int)
      ensures average == AverageClockDiff(State(), client)
    {
      if client !in receivedPongs || |receivedPongs[client]| == 0 {
        return 0;
      }
      var pongs := receivedPongs[client];
      var i, j, total := 0, 0, 0;
      while i < |transmittedPings| && j < |pongs|
        invariant 0 <= i <= |transmittedPings| && 0 <= j <= |pongs|
        invariant TotalClockDiff(Merge(transmittedPings, pongs))
               == total + TotalClockDiff(Merge(transmittedPings[i..], pongs[j..]))
        decreases |transmittedPings| - i
      {
        if transmittedPings[i].sequenceNum != pongs[j].sequenceNum {
          i := i + 1;
          continue;
        }
        var roundTrip := pongs[j].receiveTime - transmittedPings[i].transmitTime;
        total := total + (pongs[j].clientTime - transmittedPings[i].transmitTime - TruncDiv(roundTrip, 2));
        i, j := i + 1, j + 1;
      }
      average := TruncDiv(total, |pongs|);
    }

    /** The records are walked in an arbitrary order. */
    method OldestReceive() returns (oldest: SequenceNum)
      ensures oldest == Oldest(receivedPongs)
    {
      oldest := MAX_SEQUENCE;
      var unseen := receivedPongs.Keys;
      while unseen != {}
        invariant unseen <= receivedPongs.Keys
        invariant forall c <- receivedPongs.Keys - unseen | receivedPongs[c] != [] ::
                    oldest <= receivedPongs[c][0].sequenceNum
        invariant oldest == MAX_SEQUENCE || exists c <- receivedPongs ::
                    receivedPongs[c] != [] && receivedPongs[c][0].sequenceNum == oldest
        decreases |unseen|
      {
        var c :| c in unseen;
        unseen := unseen - {c};
        var record := receivedPongs[c];
        if |record| == 0 {
          continue;
        }
        if record[0].sequenceNum < oldest {
          oldest := record[0].sequenceNum;
        }
      }
      OldestIsUnique(receivedPongs, oldest, Oldest(receivedPongs));
    }

    /** Otherwise the source reads the front of an empty deque. */
    method RecordTransmit(time: int) returns (sequenceNum: SequenceNum)
      requires SafeTransmit(State())
      modifies this
      ensures State() == Transmit(old(State()), time)
      ensures sequenceNum == currentSequence
    {
      currentSequence := NextSequence(currentSequence);
      transmittedPings := transmittedPings + [Ping(time, currentSequence)];
      var oldestTransmit := transmittedPings[0].sequenceNum;
      var oldestReceive := OldestReceive();
      ghost var all := transmittedPings;
      ghost var last: Ping :| last in all && (targetSampleSize >= 1 || last.sequenceNum >= oldestReceive);
      while |transmittedPings| > targetSampleSize && oldestTransmit < oldestReceive
        invariant targetSampleSize >= 1 || last in transmittedPings
        invariant transmittedPings != [] && oldestTransmit == transmittedPings[0].sequenceNum
        invariant Evict(all, oldestReceive, targetSampleSize)
               == Evict(transmittedPings, oldestReceive, targetSampleSize)
        invariant receivedPongs == old(receivedPongs) && currentSequence == NextSequence(old(currentSequence))
        decreases |transmittedPings|
      {
        transmittedPings := transmittedPings[1..];
        oldestTransmit := transmittedPings[0].sequenceNum;
      }
      sequenceNum := currentSequence;
    }

    method RecordReceive(client: EndpointId, sequenceNum: SequenceNum, clientTime: int, receiveTime: int)
      modifies this
      ensures State() == Receive(old(State()), client, Pong(receiveTime, clientTime, sequenceNum))
    {
      var record := if client in receivedPongs then receivedPongs[client] else [];
      record := record + [Pong(receiveTime, clientTime, sequenceNum)];
      ghost var all := record;
      receivedPongs := receivedPongs[client := record];
      while |receivedPongs[client]| > targetSampleSize
        invariant client in receivedPongs && receivedPongs == old(receivedPongs)[client := receivedPongs[client]]
        invariant |receivedPongs[client]| <= |all|
        invariant receivedPongs[client] == all[|all| - |receivedPongs[client]|..]
        invariant |receivedPongs[client]| == |all| || |receivedPongs[client]| >= targetSampleSize
        invariant transmittedPings == old(transmittedPings) && currentSequence == old(currentSequence)
        decreases |receivedPongs[client]|
      {
        receivedPongs := receivedPongs[client := receivedPongs[client][1..]];
      }
    }
  }
}
