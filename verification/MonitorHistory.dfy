/** Whole runs of the clock monitor: what the two windows hold after any sequence of recordings. */
module MonitorHistory {
  import opened Endpoint
  import opened Monitor
  import opened Numbers

  datatype Event =
    | Transmitted(time: int)
    | Received(client: EndpointId, pong: Pong)

  ghost function Step(s: Clock, e: Event): Clock {
    match e
    case Transmitted(time) => Transmit(s, time)
    case Received(client, pong) => Receive(s, client, pong)
  }

  ghost function ClockAfter(target: nat, events: seq<Event>): (s: Clock)
    ensures s.target == target
  {
    if events == [] then InitialClock(target)
    else Step(ClockAfter(target, events[..|events| - 1]), events[|events| - 1])
  }

  /** The sequence number of the count-th ping. */
  function Numbered(count: nat): SequenceNum { count % 0x1_0000 }

  ghost predicate Ascends(numbers: seq<SequenceNum>) {
    forall i, j | 0 <= i < j < |numbers| :: numbers[i] < numbers[j]
  }

  function NumbersOfPings(pings: seq<Ping>): (numbers: seq<SequenceNum>)
    ensures |numbers| == |pings| && forall i | 0 <= i < |pings| :: numbers[i] == pings[i].sequenceNum
  {
    seq(|pings|, i requires 0 <= i < |pings| => pings[i].sequenceNum)
  }

  function NumbersOfPongs(pongs: seq<Pong>): (numbers: seq<SequenceNum>)
    ensures |numbers| == |pongs| && forall i | 0 <= i < |pongs| :: numbers[i] == pongs[i].sequenceNum
  {
    seq(|pongs|, i requires 0 <= i < |pongs| => pongs[i].sequenceNum)
  }

  /** Every ping ever transmitted, oldest first. */
  function AllPings(events: seq<Event>): seq<Ping> {
    if events == [] then [] else
      var before := AllPings(events[..|events| - 1]);
      match events[|events| - 1]
      case Transmitted(time) => before + [Ping(time, Numbered(|before| + 1))]
      case Received(_, _) => before
  }

  /** Every pong ever recorded for one client, oldest first. */
  function AllPongs(events: seq<Event>, client: EndpointId): seq<Pong> {
    if events == [] then [] else
      var before := AllPongs(events[..|events| - 1], client);
      match events[|events| - 1]
      case Transmitted(_) => before
      case Received(c, pong) => if c == client then before + [pong] else before
  }

  // ----- the two windows as suffixes of the history -----

  lemma {:induction false} EvictKeepsSuffix(pings: seq<Ping>, oldest: SequenceNum, target: nat)
    requires target >= 1
    ensures var kept := Evict(pings, oldest, target);
            |kept| <= |pings| && kept == pings[|pings| - |kept|..] && |kept| >= Min(target, |pings|)
    ensures var dropped := pings[..|pings| - |Evict(pings, oldest, target)|];
            forall p <- dropped :: p.sequenceNum < oldest
  {
    if |pings| > target && pings[0].sequenceNum < oldest {
      EvictKeepsSuffix(pings[1..], oldest, target);
      var kept := Evict(pings, oldest, target);
      assert pings[..|pings| - |kept|] == [pings[0]] + pings[1..][..|pings| - 1 - |kept|];
    }
  }

  lemma SuffixOfSuffix<T>(all: seq<T>, window: seq<T>, x: T, kept: seq<T>)
    requires |window| <= |all| && window == LastN(all, |window|)
    requires |kept| <= |window| + 1 && kept == (window + [x])[|window| + 1 - |kept|..]
    ensures kept == LastN(all + [x], |kept|)
  {
    assert window + [x] == (all + [x])[|all| - |window|..];
  }

  lemma ClockAfterStep(target: nat, events: seq<Event>, e: Event)
    ensures ClockAfter(target, events + [e]) == Step(ClockAfter(target, events), e)
  {
    assert (events + [e])[..|events|] == events;
  }

  lemma HistoryStep(events: seq<Event>, e: Event, client: EndpointId)
    ensures var before := AllPings(events);
            AllPings(events + [e])
            == before + if e.Transmitted? then [Ping(e.time, Numbered(|before| + 1))] else []
    ensures AllPongs(events + [e], client)
         == AllPongs(events, client) + if e.Received? && e.client == client then [e.pong] else []
  {
    assert (events + [e])[..|events|] == events;
  }

  lemma LastNPush<T>(all: seq<T>, x: T, n: nat)
    ensures LastN(LastN(all, n) + [x], n) == LastN(all + [x], n)
  {
    var pushed := LastN(all, n) + [x];
    var k := |all| + 1 - |pushed|;
    assert pushed == (all + [x])[k..];
    if |pushed| > n {
      assert pushed[|pushed| - n..] == (all + [x])[|all| + 1 - n..];
    }
  }

  lemma {:induction false} PongHistory(target: nat, events: seq<Event>, client: EndpointId)
    requires target >= 1
    ensures PongsOf(ClockAfter(target, events), client) == LastN(AllPongs(events, client), target)
  {
    if events != [] {
      var before, e := events[..|events| - 1], events[|events| - 1];
      PongHistory(target, before, client);
      if e.Received? && e.client == client {
        LastNPush(AllPongs(before, client), e.pong, target);
      }
    }
  }

  lemma WrapsWithCount(count: nat, current: SequenceNum)
    requires current == Numbered(count)
    ensures NextSequence(current) == Numbered(count + 1)
  {
  }

  lemma {:induction false} CurrentHistory(target: nat, events: seq<Event>)
    requires target >= 1
    ensures ClockAfter(target, events).current == Numbered(|AllPings(events)|)
  {
    if events != [] {
      var before := events[..|events| - 1];
      CurrentHistory(target, before);
      WrapsWithCount(|AllPings(before)|, ClockAfter(target, before).current);
    }
  }

  /** The window is a suffix of the history that holds at least the last target pings. */
  ghost predicate RecentPings(window: seq<Ping>, all: seq<Ping>, target: nat) {
    && Min(target, |all|) <= |window| <= |all|
    && window == LastN(all, |window|)
  }

  lemma PingStep(all: seq<Ping>, s: Clock, time: int)
    requires s.target >= 1 && RecentPings(s.pings, all, s.target)
    ensures RecentPings(Transmit(s, time).pings, all + [Ping(time, NextSequence(s.current))], s.target)
  {
    var ping := Ping(time, NextSequence(s.current));
    var kept := Evict(s.pings + [ping], Oldest(s.pongs), s.target);
    EvictKeepsSuffix(s.pings + [ping], Oldest(s.pongs), s.target);
    SuffixOfSuffix(all, s.pings, ping, kept);
  }

  lemma {:induction false} PingHistory(target: nat, events: seq<Event>)
    requires target >= 1
    ensures RecentPings(ClockAfter(target, events).pings, AllPings(events), target)
  {
    if events != [] {
      var before, e := events[..|events| - 1], events[|events| - 1];
      PingHistory(target, before);
      if e.Transmitted? {
        CurrentHistory(target, before);
        WrapsWithCount(|AllPings(before)|, ClockAfter(target, before).current);
        PingStep(AllPings(before), ClockAfter(target, before), e.time);
      }
    }
  }

  /** For every run whatever, also one in which the sequence number wraps. */
  lemma HistoryRefinement(target: nat, events: seq<Event>, client: EndpointId)
    requires target >= 1
    ensures PongsOf(ClockAfter(target, events), client) == LastN(AllPongs(events, client), target)
    ensures RecentPings(ClockAfter(target, events).pings, AllPings(events), target)
    ensures ClockAfter(target, events).current == Numbered(|AllPings(events)|)
  {
    PongHistory(target, events, client);
    PingHistory(target, events);
    CurrentHistory(target, events);
  }

  lemma {:induction false} SequenceNumbersOfHistory(events: seq<Event>)
    requires |AllPings(events)| <= MAX_SEQUENCE
    ensures forall i | 0 <= i < |AllPings(events)| :: AllPings(events)[i].sequenceNum == i + 1
  {
    if events != [] {
      SequenceNumbersOfHistory(events[..|events| - 1]);
    }
  }

  // ----- the closed form of the ping window -----

  /** The window holds consecutive numbers ending at the current one; it is empty only before the first ping. */
  ghost predicate Contiguous(s: Clock) {
    && |s.pings| <= s.current
    && (s.pings == [] ==> s.current == 0)
    && forall i | 0 <= i < |s.pings| :: s.pings[i].sequenceNum == s.current - |s.pings| + 1 + i
  }

  lemma {:induction false} EvictClosedForm(pings: seq<Ping>, oldest: SequenceNum, target: nat, last: SequenceNum)
    requires target >= 1 && 1 <= |pings| <= last
    requires forall i | 0 <= i < |pings| :: pings[i].sequenceNum == last - |pings| + 1 + i
    ensures var kept := Evict(pings, oldest, target);
            && 1 <= |kept| <= |pings|
            && (forall i | 0 <= i < |kept| :: kept[i].sequenceNum == last - |kept| + 1 + i)
            && kept[0].sequenceNum == Max(pings[0].sequenceNum, Min(oldest, last - target + 1))
  {
    if |pings| > target && pings[0].sequenceNum < oldest {
      EvictClosedForm(pings[1..], oldest, target, last);
    }
  }

  lemma EvictKeepsLast(pings: seq<Ping>, oldest: SequenceNum, target: nat)
    requires target >= 1 && pings != []
    ensures var kept := Evict(pings, oldest, target);
            kept != [] && kept[|kept| - 1] == pings[|pings| - 1]
  {
    EvictKeepsSuffix(pings, oldest, target);
  }

  lemma PushedIsContiguous(s: Clock, ping: Ping)
    requires Contiguous(s) && ping.sequenceNum == s.current + 1
    ensures var pushed := s.pings + [ping];
            && 1 <= |pushed| <= ping.sequenceNum
            && (forall i | 0 <= i < |pushed| :: pushed[i].sequenceNum == ping.sequenceNum - |pushed| + 1 + i)
            && pushed[0].sequenceNum == if s.pings == [] then ping.sequenceNum else s.pings[0].sequenceNum
  {
  }

  lemma WindowClosedForm(s: Clock, time: int)
    requires s.target >= 1 && Contiguous(s) && s.current < MAX_SEQUENCE
    ensures var after := Transmit(s, time);
            var first := if s.pings == [] then after.current else s.pings[0].sequenceNum;
            && Contiguous(after) && after.current == s.current + 1
            && after.pings != [] && after.pings[|after.pings| - 1] == Ping(time, after.current)
            && after.pings[0].sequenceNum == Max(first, Min(Oldest(s.pongs), after.current - s.target + 1))
  {
    var next := s.current + 1;
    assert NextSequence(s.current) == next;
    var ping := Ping(time, next);
    PushedIsContiguous(s, ping);
    EvictClosedForm(s.pings + [ping], Oldest(s.pongs), s.target, next);
    EvictKeepsLast(s.pings + [ping], Oldest(s.pongs), s.target);
  }

  lemma {:induction false} WindowIsContiguous(target: nat, events: seq<Event>)
    requires target >= 1 && |AllPings(events)| <= MAX_SEQUENCE
    ensures Contiguous(ClockAfter(target, events))
  {
    if events != [] {
      var before := events[..|events| - 1];
      WindowIsContiguous(target, before);
      if events[|events| - 1].Transmitted? {
        CurrentHistory(target, before);
        WindowClosedForm(ClockAfter(target, before), events[|events| - 1].time);
      }
    }
  }

  // ----- which targets work -----

  /** Every transmit of the run stops evicting in time. */
  ghost predicate SafeHistory(target: nat, events: seq<Event>) {
    forall k | 0 <= k < |events| && events[k].Transmitted? :: SafeTransmit(ClockAfter(target, events[..k]))
  }

  lemma {:induction false} ZeroTargetRecordsNothing(events: seq<Event>)
    requires SafeHistory(0, events)
    ensures var s := ClockAfter(0, events);
            && s.pings == [] && s.current == 0
            && Oldest(s.pongs) == MAX_SEQUENCE && forall c <- s.pongs :: s.pongs[c] == []
    ensures !SafeTransmit(ClockAfter(0, events))
  {
    if events != [] {
      var before, e := events[..|events| - 1], events[|events| - 1];
      assert forall k | 0 <= k <= |before| :: events[..k] == before[..k];
      assert before[..|before|] == before;
      ZeroTargetRecordsNothing(before);
      assert e.Received?;
    }
  }

  /** After any run that has gone well a transmit goes well exactly when the target is at least 1: with a target of 0
      the first transmit already drops every ping. */
  lemma {:induction false} SafeTransmitIff(target: nat, events: seq<Event>)
    requires SafeHistory(target, events)
    ensures SafeTransmit(ClockAfter(target, events)) <==> target >= 1
  {
    if target == 0 {
      ZeroTargetRecordsNothing(events);
    }
  }
}
