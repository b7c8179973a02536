/** The averages of the clock monitor mean what they say: over any run in which a client answers in order, the
    one-pass merge is a lookup by sequence number in the full history. */
module MonitorAverages {
  import opened Endpoint
  import opened Monitor
  import opened MonitorHistory
  import opened MonitorRetention
  import opened Numbers

  // ----- the merge is a lookup exactly when the pongs are in order and in the window -----

  ghost predicate Ascending(pings: seq<Ping>) {
    Ascends(NumbersOfPings(pings))
  }

  lemma CoveredSkip(pings: seq<Ping>, pongs: seq<Pong>)
    requires Ascending(pings) && pings != [] && pongs != []
    requires pings[0].sequenceNum != pongs[0].sequenceNum
    ensures Covered(pings, pongs) <==> Covered(pings[1..], pongs)
  {
    assert pings == [pings[0]] + pings[1..];
    if Covered(pings, pongs) {
      assert InWindow(pings, pongs[0].sequenceNum);
      forall pong <- pongs
        ensures InWindow(pings[1..], pong.sequenceNum)
      {
        assert InWindow(pings, pong.sequenceNum);
        assert pings[0].sequenceNum < pongs[0].sequenceNum <= pong.sequenceNum;
      }
    }
    if Covered(pings[1..], pongs) {
      forall pong <- pongs
        ensures InWindow(pings, pong.sequenceNum)
      {
        assert InWindow(pings[1..], pong.sequenceNum);
      }
    }
  }

  lemma CoveredAfterMatch(pings: seq<Ping>, pongs: seq<Pong>)
    requires Ascending(pings) && pings != [] && pongs != []
    requires pings[0].sequenceNum == pongs[0].sequenceNum && Covered(pings, pongs)
    ensures Covered(pings[1..], pongs[1..])
  {
    assert pings == [pings[0]] + pings[1..];
    forall i | 0 <= i < |pongs[1..]|
      ensures InWindow(pings[1..], pongs[1..][i].sequenceNum)
    {
      assert pongs[1..][i] == pongs[i + 1];
      assert InWindow(pings, pongs[i + 1].sequenceNum);
      assert pings[0].sequenceNum < pongs[i + 1].sequenceNum;
    }
  }

  lemma CoveredBeforeMatch(pings: seq<Ping>, pongs: seq<Pong>)
    requires Ascending(pings) && pings != [] && pongs != []
    requires pings[0].sequenceNum == pongs[0].sequenceNum && Covered(pings[1..], pongs[1..])
    ensures Covered(pings, pongs)
  {
    assert pings[0] in pings && InWindow(pings, pongs[0].sequenceNum);
    forall i | 0 < i < |pongs|
      ensures pongs[0].sequenceNum < pongs[i].sequenceNum && InWindow(pings, pongs[i].sequenceNum)
    {
      assert pongs[i] == pongs[1..][i - 1];
      assert InWindow(pings[1..], pongs[i].sequenceNum);
      var ping :| ping in pings[1..] && ping.sequenceNum == pongs[i].sequenceNum;
      assert ping in pings;
    }
    forall i, j | 0 <= i < j < |pongs|
      ensures pongs[i].sequenceNum < pongs[j].sequenceNum
    {
      if i > 0 {
        assert pongs[i] == pongs[1..][i - 1] && pongs[j] == pongs[1..][j - 1];
      }
    }
  }

  /** No pong is left unmatched if and only if the pongs are in order and every ping they answer is in the
      record; only then is dividing by the number of pongs right. */
  lemma {:induction false} MergeIsCompleteIff(pings: seq<Ping>, pongs: seq<Pong>)
    requires Ascending(pings)
    ensures |Merge(pings, pongs)| <= |pongs|
    ensures |Merge(pings, pongs)| == |pongs| <==> Covered(pings, pongs)
  {
    if pongs == [] {
    } else if pings == [] {
      assert pongs[0] in pongs && !InWindow(pings, pongs[0].sequenceNum);
    } else if pings[0].sequenceNum != pongs[0].sequenceNum {
      MergeIsCompleteIff(pings[1..], pongs);
      CoveredSkip(pings, pongs);
    } else {
      MergeIsCompleteIff(pings[1..], pongs[1..]);
      if Covered(pings, pongs) {
        CoveredAfterMatch(pings, pongs);
      }
      if Covered(pings[1..], pongs[1..]) {
        CoveredBeforeMatch(pings, pongs);
      }
    }
  }

  /** Every pair of the merge joins a ping and a pong with the same number, both taken in order. */
  lemma {:induction false} MergeIsSound(pings: seq<Ping>, pongs: seq<Pong>)
    ensures |Merge(pings, pongs)| <= |pongs|
    ensures forall i | 0 <= i < |Merge(pings, pongs)| ::
              var (ping, pong) := Merge(pings, pongs)[i];
              ping in pings && pong == pongs[i] && ping.sequenceNum == pong.sequenceNum
  {
    if pings != [] && pongs != [] {
      if pings[0].sequenceNum != pongs[0].sequenceNum {
        MergeIsSound(pings[1..], pongs);
      } else {
        MergeIsSound(pings[1..], pongs[1..]);
      }
    }
  }

  // ----- the lookup -----

  /** Each pong answers one of the pings transmitted so far. */
  ghost predicate Answering(all: seq<Ping>, pongs: seq<Pong>) {
    forall pong <- pongs :: 1 <= pong.sequenceNum <= |all|
  }

  /** Each pong paired with the ping of the same number in the full history. */
  ghost function Lookup(all: seq<Ping>, pongs: seq<Pong>): (pairs: seq<(Ping, Pong)>)
    requires Answering(all, pongs)
    ensures |pairs| == |pongs|
  {
    seq(|pongs|, i requires 0 <= i < |pongs| => (all[pongs[i].sequenceNum - 1], pongs[i]))
  }

  lemma AnsweredIsAnswering(all: seq<Ping>, window: seq<Ping>, pongs: seq<Pong>)
    requires Numbering(all) && |window| <= |all| && window == LastN(all, |window|) && Answered(window, pongs)
    ensures Answering(all, pongs)
  {
    forall pong <- pongs
      ensures 1 <= pong.sequenceNum <= |all|
    {
      assert InWindow(window, pong.sequenceNum);
      var ping :| ping in window && ping.sequenceNum == pong.sequenceNum;
      assert ping in all;
    }
  }

  /** The history numbers its pings from 1. */
  ghost predicate Numbering(all: seq<Ping>) {
    forall i | 0 <= i < |all| :: all[i].sequenceNum == i + 1
  }

  lemma PairIsLookup(all: seq<Ping>, ping: Ping, n: nat)
    requires Numbering(all) && ping in all && ping.sequenceNum == n
    ensures 1 <= n <= |all| && all[n - 1] == ping
  {
  }

  lemma PairsAreLookup(all: seq<Ping>, pongs: seq<Pong>, pairs: seq<(Ping, Pong)>)
    requires Numbering(all) && Answering(all, pongs) && |pairs| == |pongs|
    requires forall i | 0 <= i < |pairs| ::
               pairs[i].0 in all && pairs[i].1 == pongs[i] && pairs[i].0.sequenceNum == pongs[i].sequenceNum
    ensures pairs == Lookup(all, pongs)
  {
    forall i | 0 <= i < |pongs|
      ensures pairs[i] == Lookup(all, pongs)[i]
    {
      PairIsLookup(all, pairs[i].0, pongs[i].sequenceNum);
    }
  }

  /** On a suffix of the history the merge is the lookup in the full history exactly when the pongs are in order and
      each still has its ping. */
  lemma MergeOfSuffixIff(all: seq<Ping>, window: seq<Ping>, pongs: seq<Pong>)
    requires Numbering(all) && |window| <= |all| && window == LastN(all, |window|)
    ensures Answering(all, pongs) && Merge(window, pongs) == Lookup(all, pongs) <==> Covered(window, pongs)
  {
    assert Ascending(window);
    MergeIsCompleteIff(window, pongs);
    if Covered(window, pongs) {
      AnsweredIsAnswering(all, window, pongs);
      MergeIsSound(window, pongs);
      var merged := Merge(window, pongs);
      forall i | 0 <= i < |merged|
        ensures merged[i].0 in all && merged[i].1 == pongs[i] && merged[i].0.sequenceNum == pongs[i].sequenceNum
      {
        assert merged[i].0 in window;
      }
      PairsAreLookup(all, pongs, merged);
    }
  }

  /** In any run: the one-pass merge of the two windows is a lookup by number in the full history exactly when the
      client's retained pongs are in order and each still has its ping. */
  lemma MergeIsLookupIff(target: nat, events: seq<Event>, client: EndpointId)
    requires target >= 1 && |AllPings(events)| <= MAX_SEQUENCE
    ensures var retained := LastN(AllPongs(events, client), target);
            var s := ClockAfter(target, events);
            Answering(AllPings(events), retained) && Merge(s.pings, retained) == Lookup(AllPings(events), retained)
            <==> Covered(s.pings, retained)
  {
    HistoryRefinement(target, events, client);
    SequenceNumbersOfHistory(events);
    MergeOfSuffixIff(
      AllPings(events), ClockAfter(target, events).pings, LastN(AllPongs(events, client), target));
  }

  lemma {:induction false} MergeIsLookup(target: nat, events: seq<Event>, client: EndpointId)
    requires target >= 1 && |AllPings(events)| <= MAX_SEQUENCE && InOrder(target, events, client)
    ensures var retained := LastN(AllPongs(events, client), target);
            && Answering(AllPings(events), retained)
            && Merge(ClockAfter(target, events).pings, PongsOf(ClockAfter(target, events), client))
               == Lookup(AllPings(events), retained)
  {
    HistoryRefinement(target, events, client);
    RetentionSafety(target, events, client);
    MergeIsLookupIff(target, events, client);
  }

  // ----- round trip time -----

  /** For each pong, the time it was received minus the time the ping of its number was transmitted. */
  ghost function Elapsed(all: seq<Ping>, pongs: seq<Pong>): (times: seq<int>)
    requires Answering(all, pongs)
    ensures |times| == |pongs|
  {
    seq(|pongs|, i requires 0 <= i < |pongs| => pongs[i].receiveTime - all[pongs[i].sequenceNum - 1].transmitTime)
  }

  lemma {:induction false} TotalIsElapsed(all: seq<Ping>, pongs: seq<Pong>)
    requires Answering(all, pongs)
    ensures TotalRoundTrip(Lookup(all, pongs)) == SumOf(Elapsed(all, pongs))
  {
    if pongs != [] {
      TotalIsElapsed(all, pongs[1..]);
      assert Lookup(all, pongs)[1..] == Lookup(all, pongs[1..]);
      assert Elapsed(all, pongs)[1..] == Elapsed(all, pongs[1..]);
    }
  }

  /** The average round trip time is the truncated mean, over the last pongs recorded for the client, of the
      receive time minus the transmit time of the ping with the same number. */
  lemma {:induction false} AverageRoundTripIsMean(target: nat, events: seq<Event>, client: EndpointId)
    requires target >= 1 && |AllPings(events)| <= MAX_SEQUENCE && InOrder(target, events, client)
    ensures var retained := LastN(AllPongs(events, client), target);
            && Answering(AllPings(events), retained)
            && AverageRoundTrip(ClockAfter(target, events), client)
               == if retained == [] then 0
                  else TruncDiv(SumOf(Elapsed(AllPings(events), retained)), |retained|)
  {
    HistoryRefinement(target, events, client);
    MergeIsLookup(target, events, client);
    TotalIsElapsed(AllPings(events), LastN(AllPongs(events, client), target));
  }

  // ----- clock difference -----

  /** The trips of one client: its clock is ahead of the server's by d, and the ping with number n takes out(n) to
      reach it and back(n) for the answer to return. */
  ghost predicate Trips(all: seq<Ping>, pongs: seq<Pong>, d: int, out: SequenceNum -> nat, back: SequenceNum -> nat)
    requires Answering(all, pongs)
  {
    forall pong <- pongs ::
      var n, sent := pong.sequenceNum, all[pong.sequenceNum - 1].transmitTime;
      pong.clientTime == sent + out(n) + d && pong.receiveTime == sent + out(n) + back(n)
  }

  /** The time that each of the pings was on its way out and back. */
  function TripTimes(pongs: seq<Pong>, out: SequenceNum -> nat, back: SequenceNum -> nat): (times: seq<int>)
    ensures |times| == |pongs|
  {
    seq(|pongs|, i requires 0 <= i < |pongs| => out(pongs[i].sequenceNum) + back(pongs[i].sequenceNum))
  }

  /** Wherever the clock of the client stands, the average round trip time is the truncated mean of the trips of the
      retained pongs. */
  lemma {:induction false} AverageRoundTripIsTrips(
      target: nat, events: seq<Event>, client: EndpointId,
      d: int, out: SequenceNum -> nat, back: SequenceNum -> nat)
    requires target >= 1 && |AllPings(events)| <= MAX_SEQUENCE && InOrder(target, events, client)
    requires AllPongs(events, client) != []
    requires var retained := LastN(AllPongs(events, client), target);
             Answering(AllPings(events), retained) && Trips(AllPings(events), retained, d, out, back)
    ensures var retained := LastN(AllPongs(events, client), target);
            AverageRoundTrip(ClockAfter(target, events), client)
            == TruncDiv(SumOf(TripTimes(retained, out, back)), |retained|)
  {
    var retained := LastN(AllPongs(events, client), target);
    AverageRoundTripIsMean(target, events, client);
    TripsElapse(AllPings(events), retained, d, out, back);
  }

  lemma TripsElapse(
      all: seq<Ping>, pongs: seq<Pong>, d: int, out: SequenceNum -> nat, back: SequenceNum -> nat)
    requires Answering(all, pongs) && Trips(all, pongs, d, out, back)
    ensures Elapsed(all, pongs) == TripTimes(pongs, out, back)
  {
    forall i | 0 <= i < |pongs|
      ensures Elapsed(all, pongs)[i] == TripTimes(pongs, out, back)[i]
    {
      assert pongs[i] in pongs;
    }
  }

  function HalfUp(x: nat): nat { (x + 1) / 2 }

  function TotalAsymmetry(pongs: seq<Pong>, out: SequenceNum -> nat, back: SequenceNum -> nat): nat {
    if pongs == [] then 0
    else HalfUp(Abs(out(pongs[0].sequenceNum) - back(pongs[0].sequenceNum))) + TotalAsymmetry(pongs[1..], out, back)
  }

  function TotalHalfTrips(pongs: seq<Pong>, out: SequenceNum -> nat, back: SequenceNum -> nat): nat {
    if pongs == [] then 0
    else HalfUp(out(pongs[0].sequenceNum) + back(pongs[0].sequenceNum)) + TotalHalfTrips(pongs[1..], out, back)
  }

  lemma {:induction false} AsymmetryBelowTrips(pongs: seq<Pong>, out: SequenceNum -> nat, back: SequenceNum -> nat)
    ensures TotalAsymmetry(pongs, out, back) <= TotalHalfTrips(pongs, out, back)
  {
    if pongs != [] {
      AsymmetryBelowTrips(pongs[1..], out, back);
    }
  }

  lemma ClockDiffError(ping: Ping, pong: Pong, d: int, a: nat, b: nat)
    requires pong.clientTime == ping.transmitTime + a + d
    requires pong.receiveTime == ping.transmitTime + a + b
    ensures Abs(ClockDiff((ping, pong)) - d) <= HalfUp(Abs(a - b))
  {
    assert RoundTrip((ping, pong)) == a + b;
    assert TruncDiv(a + b, 2) == (a + b) / 2;
  }

  /** A total over n pongs is n times the offset up to an error. */
  ghost predicate TotalNear(total: int, n: nat, d: int, error: nat) {
    Abs(total - n * d) <= error
  }

  /** A mean over n pongs is the offset up to an error in the total and the truncation. */
  ghost predicate MeanNear(mean: int, n: nat, d: int, error: nat) {
    n * Abs(mean - d) <= error + n - 1
  }

  lemma OneMore(total: int, n: nat, d: int, error: nat, x: int, e: nat)
    requires TotalNear(total, n, d, error) && Abs(x - d) <= e
    ensures TotalNear(x + total, n + 1, d, e + error)
  {
    assert (n + 1) * d == d + n * d;
  }

  lemma {:induction false} TotalClockDiffError(
      all: seq<Ping>, pongs: seq<Pong>, d: int, out: SequenceNum -> nat, back: SequenceNum -> nat)
    requires Answering(all, pongs) && Trips(all, pongs, d, out, back)
    ensures TotalNear(TotalClockDiff(Lookup(all, pongs)), |pongs|, d, TotalAsymmetry(pongs, out, back))
  {
    if pongs != [] {
      var pong, rest := pongs[0], pongs[1..];
      var ping := all[pong.sequenceNum - 1];
      var n := pong.sequenceNum;
      TotalClockDiffError(all, rest, d, out, back);
      ClockDiffError(ping, pong, d, out(n), back(n));
      assert Lookup(all, pongs)[1..] == Lookup(all, rest);
      OneMore(TotalClockDiff(Lookup(all, rest)), |rest|, d, TotalAsymmetry(rest, out, back),
              ClockDiff((ping, pong)), HalfUp(Abs(out(n) - back(n))));
    }
  }

  lemma {:induction false} NoAsymmetry(pongs: seq<Pong>, out: SequenceNum -> nat, back: SequenceNum -> nat)
    requires forall pong <- pongs :: out(pong.sequenceNum) == back(pong.sequenceNum)
    ensures TotalAsymmetry(pongs, out, back) == 0
  {
    if pongs != [] {
      assert pongs[0] in pongs;
      NoAsymmetry(pongs[1..], out, back);
    }
  }

  lemma OffsetMean(n: nat, total: int, d: int, error: nat)
    requires n > 0 && TotalNear(total, n, d, error)
    ensures MeanNear(TruncDiv(total, n), n, d, error)
    ensures error == 0 ==> TruncDiv(total, n) == d
  {
    TruncDivError(total, n);
    ScaledDistance(n, TruncDiv(total, n), d);
    if error == 0 {
      TruncDivExact(d, n);
    }
  }

  lemma ScaledDistance(n: nat, x: int, y: int)
    ensures n * Abs(x - y) == Abs(n * x - n * y)
  {
    assert n * (x - y) == n * x - n * y;
    NegateProduct(n, x - y);
  }

  /** For each pong, the client's time minus the time the ping of its number was transmitted and half the time that
      elapsed between the two on the server, truncated. */
  ghost function Differences(all: seq<Ping>, pongs: seq<Pong>): (differences: seq<int>)
    requires Answering(all, pongs)
    ensures |differences| == |pongs|
  {
    seq(|pongs|, i requires 0 <= i < |pongs| =>
      pongs[i].clientTime - all[pongs[i].sequenceNum - 1].transmitTime - TruncDiv(Elapsed(all, pongs)[i], 2))
  }

  lemma {:induction false} TotalIsSum(pairs: seq<(Ping, Pong)>, differences: seq<int>)
    requires |pairs| == |differences| && forall i | 0 <= i < |pairs| :: ClockDiff(pairs[i]) == differences[i]
    ensures TotalClockDiff(pairs) == SumOf(differences)
  {
    if pairs != [] {
      TotalIsSum(pairs[1..], differences[1..]);
    }
  }

  lemma TotalIsDifferences(all: seq<Ping>, pongs: seq<Pong>)
    requires Answering(all, pongs)
    ensures TotalClockDiff(Lookup(all, pongs)) == SumOf(Differences(all, pongs))
  {
    forall i | 0 <= i < |pongs|
      ensures ClockDiff(Lookup(all, pongs)[i]) == Differences(all, pongs)[i]
    {
    }
    TotalIsSum(Lookup(all, pongs), Differences(all, pongs));
  }

  /** The average clock difference is the truncated mean over the last pongs recorded for the client. */
  lemma {:induction false} AverageClockDiffIsMean(target: nat, events: seq<Event>, client: EndpointId)
    requires target >= 1 && |AllPings(events)| <= MAX_SEQUENCE && InOrder(target, events, client)
    ensures var retained := LastN(AllPongs(events, client), target);
            && Answering(AllPings(events), retained)
            && AverageClockDiff(ClockAfter(target, events), client)
               == if retained == [] then 0
                  else TruncDiv(SumOf(Differences(AllPings(events), retained)), |retained|)
  {
    HistoryRefinement(target, events, client);
    MergeIsLookup(target, events, client);
    TotalIsDifferences(AllPings(events), LastN(AllPongs(events, client), target));
  }

  /** The error of the average clock difference, over n retained pongs, is bounded by half the asymmetry of each
      trip, hence by half of each trip, plus the truncation; equal times out and back give the offset exactly. */
  lemma {:induction false} AverageClockDiffBound(
      target: nat, events: seq<Event>, client: EndpointId,
      d: int, out: SequenceNum -> nat, back: SequenceNum -> nat)
    requires target >= 1 && |AllPings(events)| <= MAX_SEQUENCE && InOrder(target, events, client)
    requires AllPongs(events, client) != []
    requires var retained := LastN(AllPongs(events, client), target);
             Answering(AllPings(events), retained) && Trips(AllPings(events), retained, d, out, back)
    ensures var retained := LastN(AllPongs(events, client), target);
            var average := AverageClockDiff(ClockAfter(target, events), client);
            && MeanNear(average, |retained|, d, TotalAsymmetry(retained, out, back))
            && TotalAsymmetry(retained, out, back) <= TotalHalfTrips(retained, out, back)
            && ((forall pong <- retained :: out(pong.sequenceNum) == back(pong.sequenceNum)) ==> average == d)
  {
    var retained := LastN(AllPongs(events, client), target);
    AverageClockDiffIsMean(target, events, client);
    AsymmetryBelowTrips(retained, out, back);
    TotalClockDiffError(AllPings(events), retained, d, out, back);
    TotalIsDifferences(AllPings(events), retained);
    OffsetMean(|retained|, SumOf(Differences(AllPings(events), retained)), d, TotalAsymmetry(retained, out, back));
    if forall pong <- retained :: out(pong.sequenceNum) == back(pong.sequenceNum) {
      NoAsymmetry(retained, out, back);
    }
  }
}
