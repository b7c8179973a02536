/** When the pings that a client's pongs answer stay in the window. */
module MonitorRetention {
  import opened Endpoint
  import opened Monitor
  import opened MonitorHistory
  import opened Sequences

  ghost predicate InWindow(pings: seq<Ping>, n: SequenceNum) {
    exists p <- pings :: p.sequenceNum == n
  }

  ghost predicate Increasing(pongs: seq<Pong>) {
    Ascends(NumbersOfPongs(pongs))
  }

  /** Every pong has its ping in the record. */
  ghost predicate Answered(pings: seq<Ping>, pongs: seq<Pong>) {
    forall pong <- pongs :: InWindow(pings, pong.sequenceNum)
  }

  /** The pongs are in order and every one of them has its ping in the record. */
  ghost predicate Covered(pings: seq<Ping>, pongs: seq<Pong>) {
    Increasing(pongs) && Answered(pings, pongs)
  }

  // ----- exactly when a ping stays -----

  /** The window holds an interval of numbers. */
  lemma InWindowIff(s: Clock, n: SequenceNum)
    requires Contiguous(s)
    ensures InWindow(s.pings, n) <==> s.current - |s.pings| < n <= s.current
  {
    var i := n - (s.current - |s.pings| + 1);
    if 0 <= i < |s.pings| {
      assert s.pings[i].sequenceNum == n;
    }
  }

  /** The next transmit leaves this ping alone: some client's front still needs it or an older one, or it is among
      the last target ones. */
  ghost predicate Spared(s: Clock, n: SequenceNum) {
    n >= Oldest(s.pongs) || n + s.target > s.current + 1
  }

  lemma TransmitSparesIff(s: Clock, time: int, n: SequenceNum)
    requires s.target >= 1 && Contiguous(s) && s.current < MAX_SEQUENCE && InWindow(s.pings, n)
    ensures InWindow(Transmit(s, time).pings, n) <==> Spared(s, n)
  {
    WindowClosedForm(s, time);
    InWindowIff(s, n);
    InWindowIff(Transmit(s, time), n);
  }

  /** All pings of a client's retained pongs survive a transmit exactly when each is spared. */
  lemma TransmitAnswersIff(s: Clock, time: int, client: EndpointId)
    requires s.target >= 1 && Contiguous(s) && s.current < MAX_SEQUENCE && Answered(s.pings, PongsOf(s, client))
    ensures Answered(Transmit(s, time).pings, PongsOf(s, client))
            <==> forall pong <- PongsOf(s, client) :: Spared(s, pong.sequenceNum)
  {
    forall pong <- PongsOf(s, client)
      ensures InWindow(Transmit(s, time).pings, pong.sequenceNum) <==> Spared(s, pong.sequenceNum)
    {
      TransmitSparesIff(s, time, pong.sequenceNum);
    }
  }

  lemma ReceiveAnswersIff(s: Clock, client: EndpointId, pong: Pong)
    requires s.target >= 1 && Answered(s.pings, PongsOf(s, client))
    ensures Answered(s.pings, PongsOf(Receive(s, client, pong), client)) <==> InWindow(s.pings, pong.sequenceNum)
  {
    var after := PongsOf(Receive(s, client, pong), client);
    assert after[|after| - 1] == pong;
    forall i | 0 <= i < |after| - 1
      ensures after[i] in PongsOf(s, client)
    {
    }
  }

  /** What a caller can check before a recording: a transmit must spare the pings of the retained pongs, and a pong
      must carry a number of the window. */
  ghost predicate Passes(s: Clock, e: Event, client: EndpointId) {
    match e
    case Transmitted(_) => forall pong <- PongsOf(s, client) :: Spared(s, pong.sequenceNum)
    case Received(c, pong) => c == client ==> s.current - |s.pings| < pong.sequenceNum <= s.current
  }

  ghost predicate AnsweredIn(s: Clock, client: EndpointId) {
    Answered(s.pings, PongsOf(s, client))
  }

  lemma StepAnswersIff(s: Clock, e: Event, client: EndpointId)
    requires s.target >= 1 && Contiguous(s) && AnsweredIn(s, client)
    requires e.Transmitted? ==> s.current < MAX_SEQUENCE
    ensures AnsweredIn(Step(s, e), client) <==> Passes(s, e, client)
  {
    match e
    case Transmitted(time) => TransmitAnswersIff(s, time, client);
    case Received(c, pong) =>
      if c == client {
        ReceiveAnswersIff(s, client, pong);
        InWindowIff(s, pong.sequenceNum);
      }
  }

  ghost predicate AlwaysAnswered(target: nat, events: seq<Event>, client: EndpointId) {
    forall k | 0 <= k <= |events| :: AnsweredIn(ClockAfter(target, events[..k]), client)
  }

  ghost predicate AlwaysPasses(target: nat, events: seq<Event>, client: EndpointId) {
    forall k | 0 <= k < |events| :: Passes(ClockAfter(target, events[..k]), events[k], client)
  }

  lemma AlwaysAnsweredBefore(target: nat, events: seq<Event>, e: Event, client: EndpointId)
    requires AlwaysAnswered(target, events + [e], client)
    ensures AlwaysAnswered(target, events, client) && AnsweredIn(ClockAfter(target, events + [e]), client)
  {
    var longer := events + [e];
    assert longer[..|longer|] == longer;
    forall k | 0 <= k <= |events|
      ensures AnsweredIn(ClockAfter(target, events[..k]), client)
    {
      assert longer[..k] == events[..k];
    }
  }

  lemma AlwaysAnsweredAfter(target: nat, events: seq<Event>, e: Event, client: EndpointId)
    requires AlwaysAnswered(target, events, client) && AnsweredIn(ClockAfter(target, events + [e]), client)
    ensures AlwaysAnswered(target, events + [e], client)
  {
    var longer := events + [e];
    forall k | 0 <= k <= |longer|
      ensures AnsweredIn(ClockAfter(target, longer[..k]), client)
    {
      if k == |longer| {
        assert longer[..k] == longer;
      } else {
        assert longer[..k] == events[..k];
      }
    }
  }

  lemma AlwaysPassesLast(target: nat, events: seq<Event>, e: Event, client: EndpointId)
    ensures AlwaysPasses(target, events + [e], client)
            <==> AlwaysPasses(target, events, client) && Passes(ClockAfter(target, events), e, client)
  {
    var longer := events + [e];
    assert longer[..|events|] == events && longer[|events|] == e;
    if AlwaysPasses(target, longer, client) {
      forall k | 0 <= k < |events|
        ensures Passes(ClockAfter(target, events[..k]), events[k], client)
      {
        assert longer[..k] == events[..k] && longer[k] == events[k];
      }
    }
    if AlwaysPasses(target, events, client) && Passes(ClockAfter(target, events), e, client) {
      forall k | 0 <= k < |longer|
        ensures Passes(ClockAfter(target, longer[..k]), longer[k], client)
      {
        assert k < |events| ==> longer[..k] == events[..k] && longer[k] == events[k];
      }
    }
  }

  lemma NowOfAlways(target: nat, events: seq<Event>, client: EndpointId)
    requires AlwaysAnswered(target, events, client)
    ensures AnsweredIn(ClockAfter(target, events), client)
  {
    assert events[..|events|] == events;
  }

  lemma LastAnswersIff(target: nat, events: seq<Event>, e: Event, client: EndpointId)
    requires target >= 1 && |AllPings(events)| <= MAX_SEQUENCE - (if e.Transmitted? then 1 else 0)
    requires AnsweredIn(ClockAfter(target, events), client)
    ensures AnsweredIn(ClockAfter(target, events + [e]), client) <==> Passes(ClockAfter(target, events), e, client)
  {
    var s := ClockAfter(target, events);
    ClockAfterStep(target, events, e);
    WindowIsContiguous(target, events);
    assert e.Transmitted? ==> s.current < MAX_SEQUENCE by {
      CurrentHistory(target, events);
    }
    StepAnswersIff(s, e, client);
  }

  /** Retention, exactly: every retained pong of the client has its ping in the window after every prefix of a run
      if and only if every recording of the run passes the test. */
  lemma {:induction false} RetentionIff(target: nat, events: seq<Event>, client: EndpointId)
    requires target >= 1 && |AllPings(events)| <= MAX_SEQUENCE
    ensures AlwaysAnswered(target, events, client) <==> AlwaysPasses(target, events, client)
  {
    if events != [] {
      var before, e := events[..|events| - 1], events[|events| - 1];
      assert events == before + [e];
      HistoryStep(before, e, client);
      RetentionIff(target, before, client);
      AlwaysPassesLast(target, before, e, client);
      if AlwaysAnswered(target, events, client) {
        AlwaysAnsweredBefore(target, before, e, client);
      }
      if AlwaysAnswered(target, before, client) {
        NowOfAlways(target, before, client);
        LastAnswersIff(target, before, e, client);
        if AnsweredIn(ClockAfter(target, events), client) {
          AlwaysAnsweredAfter(target, before, e, client);
        }
      }
    }
  }

  // ----- the size of the window -----

  /** A transmit makes the window larger exactly if it is below the target or some client's front needs the first
      ping; it never makes it larger by more than one. */
  lemma WindowGrowsIff(s: Clock, time: int)
    requires s.target >= 1 && Contiguous(s) && s.current < MAX_SEQUENCE
    ensures |Transmit(s, time).pings| <= |s.pings| + 1
    ensures |Transmit(s, time).pings| == |s.pings| + 1
            <==> |s.pings| < s.target || Oldest(s.pongs) <= s.pings[0].sequenceNum
  {
    WindowClosedForm(s, time);
  }

  /** The first pong retained for the client answers this ping. */
  ghost predicate Needs(s: Clock, client: EndpointId, n: SequenceNum) {
    PongsOf(s, client) != [] && PongsOf(s, client)[0].sequenceNum == n && InWindow(s.pings, n)
  }

  /** While the client is silent, its ping stays and nothing newer is dropped for it. */
  lemma SilentStep(s: Clock, e: Event, client: EndpointId, n: SequenceNum)
    requires s.target >= 1 && Contiguous(s) && Needs(s, client, n)
    requires e.Transmitted? ==> s.current < MAX_SEQUENCE
    requires e.Received? ==> e.client != client
    ensures Needs(Step(s, e), client, n)
    ensures Step(s, e).current - |Step(s, e).pings| >= s.current - |s.pings|
  {
    if e.Transmitted? {
      assert client in s.pongs && Oldest(s.pongs) <= s.pongs[client][0].sequenceNum;
      TransmitSparesIff(s, e.time, n);
      WindowGrowsIff(s, e.time);
      WindowClosedForm(s, e.time);
    }
  }

  ghost predicate Silent(events: seq<Event>, client: EndpointId) {
    forall e <- events | e.Received? :: e.client != client
  }

  lemma CurrentIsCount(target: nat, events: seq<Event>)
    requires target >= 1 && |AllPings(events)| <= MAX_SEQUENCE
    ensures Contiguous(ClockAfter(target, events)) && ClockAfter(target, events).current == |AllPings(events)|
  {
    WindowIsContiguous(target, events);
    CurrentHistory(target, events);
  }

  lemma {:induction false} HistoryGrows(events: seq<Event>, more: seq<Event>)
    ensures |AllPings(events)| <= |AllPings(events + more)|
    decreases |more|
  {
    if more == [] {
      assert events + more == events;
    } else {
      HistoryStep(events, more[0], NULL_ENDPOINT);
      HistoryGrows(events + [more[0]], more[1..]);
      assert more == [more[0]] + more[1..];
      Associates(events, [more[0]], more[1..]);
    }
  }

  lemma SilentNext(target: nat, events: seq<Event>, e: Event, client: EndpointId, n: SequenceNum)
    requires target >= 1 && |AllPings(events + [e])| <= MAX_SEQUENCE && (e.Received? ==> e.client != client)
    requires Needs(ClockAfter(target, events), client, n)
    ensures var (s, after) := (ClockAfter(target, events), ClockAfter(target, events + [e]));
            Needs(after, client, n) && after.current - |after.pings| >= s.current - |s.pings|
  {
    HistoryStep(events, e, client);
    CurrentIsCount(target, events);
    SilentStep(ClockAfter(target, events), e, client, n);
    ClockAfterStep(target, events, e);
  }

  lemma {:induction false} SilentRun(
      target: nat, events: seq<Event>, more: seq<Event>, client: EndpointId, n: SequenceNum)
    requires target >= 1 && |AllPings(events + more)| <= MAX_SEQUENCE && Silent(more, client)
    requires Needs(ClockAfter(target, events), client, n)
    ensures var (s, after) := (ClockAfter(target, events), ClockAfter(target, events + more));
            Needs(after, client, n) && after.current - |after.pings| >= s.current - |s.pings|
    decreases |more|
  {
    if more == [] {
      assert events + more == events;
    } else {
      var e, rest := more[0], more[1..];
      assert more == [e] + rest;
      Associates(events, [e], rest);
      HistoryGrows(events + [e], rest);
      SilentNext(target, events, e, client, n);
      SilentRun(target, events + [e], rest, client, n);
    }
  }

  lemma SizeOfNeeded(s: Clock, after: Clock, n: SequenceNum)
    requires Contiguous(s) && Contiguous(after) && InWindow(s.pings, n) && InWindow(after.pings, n)
    requires after.current - |after.pings| >= s.current - |s.pings|
    ensures |after.pings| >= after.current - n + 1
    ensures s.pings[0].sequenceNum == n ==> |after.pings| == |s.pings| + after.current - s.current
  {
    InWindowIff(s, n);
    InWindowIff(after, n);
  }

  /** A client that goes silent keeps every later ping in the window: up to 65535 transmits, the window reaches back to
      the ping of the client's first retained pong, and once that ping is the first one, the window grows with every
      further transmit, whatever the other clients send. */
  lemma SilentClientGrowsWindow(
      target: nat, events: seq<Event>, more: seq<Event>, client: EndpointId, n: SequenceNum)
    requires target >= 1 && |AllPings(events + more)| <= MAX_SEQUENCE && Silent(more, client)
    requires Needs(ClockAfter(target, events), client, n)
    ensures var (before, after) := (ClockAfter(target, events).pings, ClockAfter(target, events + more).pings);
            var transmits := |AllPings(events + more)| - |AllPings(events)|;
            && |after| >= |AllPings(events + more)| - n + 1
            && before != [] && (before[0].sequenceNum == n ==> |after| == |before| + transmits)
  {
    HistoryGrows(events, more);
    SilentRun(target, events, more, client, n);
    CurrentIsCount(target, events);
    CurrentIsCount(target, events + more);
    SizeOfNeeded(ClockAfter(target, events), ClockAfter(target, events + more), n);
  }

  // ----- clients that answer in order -----

  /** The pong answers a ping still in the window and is newer than the client's previous pong. */
  ghost predicate Answers(s: Clock, client: EndpointId, pong: Pong) {
    var earlier := PongsOf(s, client);
    && InWindow(s.pings, pong.sequenceNum)
    && (earlier == [] || earlier[|earlier| - 1].sequenceNum < pong.sequenceNum)
  }

  /** Every pong of this one client answered a ping in order; the other clients may do anything. */
  ghost predicate InOrder(target: nat, events: seq<Event>, client: EndpointId)
    requires target >= 1
  {
    events == [] ||
    (var before, e := events[..|events| - 1], events[|events| - 1];
     && InOrder(target, before, client)
     && (e.Received? && e.client == client ==> Answers(ClockAfter(target, before), client, e.pong)))
  }

  lemma EvictKeepsNeeded(pings: seq<Ping>, oldest: SequenceNum, target: nat, n: SequenceNum)
    requires target >= 1 && InWindow(pings, n) && oldest <= n
    ensures InWindow(Evict(pings, oldest, target), n)
  {
    EvictKeepsSuffix(pings, oldest, target);
    var kept := Evict(pings, oldest, target);
    assert pings == pings[..|pings| - |kept|] + kept;
  }

  ghost predicate CoveredNow(s: Clock, client: EndpointId) {
    Covered(s.pings, PongsOf(s, client))
  }

  lemma TransmitRetains(s: Clock, time: int, client: EndpointId)
    requires s.target >= 1 && CoveredNow(s, client)
    ensures CoveredNow(Transmit(s, time), client)
  {
    var pongs := PongsOf(s, client);
    var pushed := s.pings + [Ping(time, NextSequence(s.current))];
    forall pong <- pongs
      ensures InWindow(Transmit(s, time).pings, pong.sequenceNum)
    {
      assert InWindow(s.pings, pong.sequenceNum);
      var p :| p in s.pings && p.sequenceNum == pong.sequenceNum;
      assert p in pushed;
      assert pongs[0].sequenceNum <= pong.sequenceNum;
      assert Oldest(s.pongs) <= pongs[0].sequenceNum;
      EvictKeepsNeeded(pushed, Oldest(s.pongs), s.target, pong.sequenceNum);
    }
  }

  lemma PushIncreases(pongs: seq<Pong>, pong: Pong)
    requires Increasing(pongs) && (pongs == [] || pongs[|pongs| - 1].sequenceNum < pong.sequenceNum)
    ensures Increasing(pongs + [pong])
  {
    var pushed := pongs + [pong];
    forall i, j | 0 <= i < j < |pushed|
      ensures pushed[i].sequenceNum < pushed[j].sequenceNum
    {
      if j == |pongs| {
        assert pushed[i] == pongs[i] && pushed[j] == pong;
        assert i < |pongs| - 1 ==> pongs[i].sequenceNum < pongs[|pongs| - 1].sequenceNum;
      } else {
        assert pushed[i] == pongs[i] && pushed[j] == pongs[j];
      }
    }
  }

  lemma LastIncrease(pongs: seq<Pong>, n: nat)
    requires Increasing(pongs)
    ensures Increasing(LastN(pongs, n))
  {
    var last := LastN(pongs, n);
    var k := |pongs| - |last|;
    forall i, j | 0 <= i < j < |last|
      ensures last[i].sequenceNum < last[j].sequenceNum
    {
      assert last[i] == pongs[k + i] && last[j] == pongs[k + j];
    }
  }

  lemma ReceiveRetains(s: Clock, client: EndpointId, pong: Pong)
    requires s.target >= 1 && CoveredNow(s, client) && Answers(s, client, pong)
    ensures CoveredNow(Receive(s, client, pong), client)
  {
    PushIncreases(PongsOf(s, client), pong);
    LastIncrease(PongsOf(s, client) + [pong], s.target);
    ReceiveAnswersIff(s, client, pong);
  }

  /** Once an in-order pong is recorded while its ping is in the window, the ping stays for as long as the pong
      does: the property holds after every prefix of the run, whatever the other clients send. */
  lemma {:induction false} RetentionSafety(target: nat, events: seq<Event>, client: EndpointId)
    requires target >= 1 && InOrder(target, events, client)
    ensures CoveredNow(ClockAfter(target, events), client)
  {
    if events != [] {
      var before, e := events[..|events| - 1], events[|events| - 1];
      RetentionSafety(target, before, client);
      match e
      case Transmitted(time) => TransmitRetains(ClockAfter(target, before), time, client);
      case Received(c, pong) =>
        if c == client {
          ReceiveRetains(ClockAfter(target, before), client, pong);
        }
    }
  }

  /** Every pong of the client was recorded while its ping was in the window. */
  ghost predicate Timely(target: nat, events: seq<Event>, client: EndpointId) {
    forall k | 0 <= k < |events| && events[k].Received? && events[k].client == client ::
      InWindow(ClockAfter(target, events[..k]).pings, events[k].pong.sequenceNum)
  }

  lemma TimelyLast(target: nat, events: seq<Event>, e: Event, client: EndpointId)
    ensures Timely(target, events + [e], client) <==>
              && Timely(target, events, client)
              && (e.Received? && e.client == client ==> InWindow(ClockAfter(target, events).pings, e.pong.sequenceNum))
  {
    var longer := events + [e];
    assert longer[..|events|] == events && longer[|events|] == e;
    if Timely(target, longer, client) {
      forall k | 0 <= k < |events| && events[k].Received? && events[k].client == client
        ensures InWindow(ClockAfter(target, events[..k]).pings, events[k].pong.sequenceNum)
      {
        assert longer[..k] == events[..k] && longer[k] == events[k];
      }
    }
    forall k | 0 <= k < |events|
      ensures longer[..k] == events[..k] && longer[k] == events[k]
    {
    }
  }

  lemma PushIncreasesIff(pongs: seq<Pong>, pong: Pong)
    ensures Increasing(pongs + [pong])
            <==> Increasing(pongs) && (pongs == [] || pongs[|pongs| - 1].sequenceNum < pong.sequenceNum)
  {
    var pushed := pongs + [pong];
    if Increasing(pushed) {
      forall i, j | 0 <= i < j < |pongs|
        ensures pongs[i].sequenceNum < pongs[j].sequenceNum
      {
        assert pushed[i] == pongs[i] && pushed[j] == pongs[j];
      }
      if pongs != [] {
        assert pushed[|pongs| - 1] == pongs[|pongs| - 1] && pushed[|pongs|] == pong;
        assert pushed[|pongs| - 1].sequenceNum < pushed[|pongs|].sequenceNum;
      }
    } else if Increasing(pongs) && (pongs == [] || pongs[|pongs| - 1].sequenceNum < pong.sequenceNum) {
      PushIncreases(pongs, pong);
    }
  }

  lemma LastRetained(target: nat, events: seq<Event>, client: EndpointId)
    requires target >= 1
    ensures var (all, retained) := (AllPongs(events, client), PongsOf(ClockAfter(target, events), client));
            if all == [] then retained == []
            else retained != [] && retained[|retained| - 1] == all[|all| - 1]
  {
    PongHistory(target, events, client);
  }

  lemma InOrderLast(target: nat, events: seq<Event>, e: Event, client: EndpointId)
    requires target >= 1
    ensures InOrder(target, events + [e], client) <==>
              && InOrder(target, events, client)
              && (e.Received? && e.client == client ==> Answers(ClockAfter(target, events), client, e.pong))
  {
    assert (events + [e])[..|events|] == events;
  }

  /** Answering in order is two things: all pongs ever recorded for the client ascend, and none was late. */
  lemma {:induction false} InOrderIff(target: nat, events: seq<Event>, client: EndpointId)
    requires target >= 1
    ensures InOrder(target, events, client)
            <==> Increasing(AllPongs(events, client)) && Timely(target, events, client)
  {
    if events != [] {
      var before, e := events[..|events| - 1], events[|events| - 1];
      assert events == before + [e];
      InOrderIff(target, before, client);
      InOrderLast(target, before, e, client);
      TimelyLast(target, before, e, client);
      HistoryStep(before, e, client);
      if e.Received? && e.client == client {
        LastRetained(target, before, client);
        PushIncreasesIff(AllPongs(before, client), e.pong);
      }
    }
  }

  lemma EvictsUnprotected(s: Clock, p2: Pong, p1: Pong)
    requires s == Clock([Ping(0, 1), Ping(0, 2)], map[1 := [p2, p1]], 2, 2)
    requires p2.sequenceNum == 2
    ensures Transmit(s, 0).pings == [Ping(0, 2), Ping(0, 3)]
  {
    assert IsOldest(s.pongs, 2) by {
      assert 1 in s.pongs && s.pongs[1][0].sequenceNum == 2;
    }
    OldestIsUnique(s.pongs, 2, Oldest(s.pongs));
    var pushed := [Ping(0, 1), Ping(0, 2), Ping(0, 3)];
    assert s.pings + [Ping(0, 3)] == pushed;
    assert pushed[1..] == [Ping(0, 2), Ping(0, 3)];
    assert Evict(pushed, 2, 2) == Evict(pushed[1..], 2, 2) == pushed[1..];
  }

  /** Without the order the property is lost: with a target of 2, a pong for ping 1 recorded after the pong for
      ping 2 outlives its ping, because only the front of each record protects pings. */
  lemma {:induction false} LatePongLosesItsPing() returns (events: seq<Event>, late: Pong)
    ensures InWindow(ClockAfter(2, events).pings, late.sequenceNum)
    ensures var after := ClockAfter(2, events + [Received(1, late)] + [Transmitted(0)]);
            late in PongsOf(after, 1) && !InWindow(after.pings, late.sequenceNum)
  {
    var p2, p1 := Pong(0, 0, 2), Pong(0, 0, 1);
    var e1 := [] + [Transmitted(0)];
    var e2 := e1 + [Transmitted(0)];
    var e3 := e2 + [Received(1, p2)];
    var e4 := e3 + [Received(1, p1)];
    ClockAfterStep(2, [], Transmitted(0));
    ClockAfterStep(2, e1, Transmitted(0));
    ClockAfterStep(2, e2, Received(1, p2));
    ClockAfterStep(2, e3, Received(1, p1));
    ClockAfterStep(2, e4, Transmitted(0));
    assert ClockAfter(2, e2) == Clock([Ping(0, 1), Ping(0, 2)], map[], 2, 2);
    assert [] + [p2] == [p2] && [p2] + [p1] == [p2, p1];
    assert ClockAfter(2, e3) == Clock([Ping(0, 1), Ping(0, 2)], map[1 := [p2]], 2, 2);
    assert ClockAfter(2, e4) == Clock([Ping(0, 1), Ping(0, 2)], map[1 := [p2, p1]], 2, 2);
    EvictsUnprotected(ClockAfter(2, e4), p2, p1);
    assert Ping(0, 1) in ClockAfter(2, e3).pings;
    assert p1 in PongsOf(ClockAfter(2, e4 + [Transmitted(0)]), 1);
    events, late := e3, p1;
  }

  // ----- oldest_receive -----

  /** When every client's pongs are in order the fronts are enough: the value is a lower bound of every retained
      pong of every client, and one of them unless there are none. */
  lemma OldestIsMinimum(pongs: map<EndpointId, seq<Pong>>)
    requires forall c <- pongs :: Increasing(pongs[c])
    ensures forall c <- pongs, pong <- pongs[c] :: Oldest(pongs) <= pong.sequenceNum
    ensures (forall c <- pongs :: pongs[c] == []) ==> Oldest(pongs) == 65535
    ensures (exists c <- pongs :: pongs[c] != []) ==>
              exists c <- pongs, pong <- pongs[c] :: pong.sequenceNum == Oldest(pongs)
  {
    forall c <- pongs, pong <- pongs[c]
      ensures Oldest(pongs) <= pong.sequenceNum
    {
      assert pongs[c][0].sequenceNum <= pong.sequenceNum;
    }
    if c :| c in pongs && pongs[c] != [] {
      if Oldest(pongs) == MAX_SEQUENCE {
        assert pongs[c][0] in pongs[c] && pongs[c][0].sequenceNum == MAX_SEQUENCE;
      } else {
        var d :| d in pongs && pongs[d] != [] && pongs[d][0].sequenceNum == Oldest(pongs);
        assert pongs[d][0] in pongs[d];
      }
    }
  }
}
