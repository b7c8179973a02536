/** Pings and pongs over the whole way: from the server's slots through queues that may lose but not reorder, through
    the client's answers and back into the clock monitor. */
module Delivery {
  import opened Endpoint
  import opened Roster
  import opened Messages
  import opened Numbers
  import opened Monitor
  import opened MonitorHistory
  import opened MonitorRetention
  import opened MonitorAverages
  import opened ClientHandle
  import opened Sequences
  import C = ClientState
  import S = ServerState

  // ----- queues that lose but do not reorder -----

  /** What was got is what was sent, with some of it lost. */
  ghost predicate Delivered<T>(sent: seq<T>, got: seq<T>)
    decreases |sent|
  {
    || got == []
    || (sent != [] && Delivered(sent[1..], got))
    || (sent != [] && sent[0] == got[0] && Delivered(sent[1..], got[1..]))
  }

  lemma {:induction false} DeliveredWasSent<T>(sent: seq<T>, got: seq<T>)
    requires Delivered(sent, got)
    ensures forall x <- got :: x in sent
    decreases |sent|
  {
    if got == [] {
    } else if Delivered(sent[1..], got) {
      DeliveredWasSent(sent[1..], got);
    } else {
      DeliveredWasSent(sent[1..], got[1..]);
      assert got == [got[0]] + got[1..];
    }
  }

  lemma AscendsFirst(n: SequenceNum, rest: seq<SequenceNum>)
    requires Ascends(rest) && forall m <- rest :: n < m
    ensures Ascends([n] + rest)
  {
    var longer := [n] + rest;
    forall i, j | 0 <= i < j < |longer|
      ensures longer[i] < longer[j]
    {
      assert longer[j] == rest[j - 1] && rest[j - 1] in rest;
      assert i > 0 ==> longer[i] == rest[i - 1];
    }
  }

  lemma AscendsRest(numbers: seq<SequenceNum>)
    requires Ascends(numbers) && numbers != []
    ensures Ascends(numbers[1..]) && forall m <- numbers[1..] :: numbers[0] < m
  {
  }

  lemma {:induction false} DeliveredAscends(sent: seq<SequenceNum>, got: seq<SequenceNum>)
    requires Delivered(sent, got) && Ascends(sent)
    ensures Ascends(got)
    decreases |sent|
  {
    if got != [] {
      AscendsRest(sent);
      if Delivered(sent[1..], got) {
        DeliveredAscends(sent[1..], got);
      } else {
        DeliveredAscends(sent[1..], got[1..]);
        DeliveredWasSent(sent[1..], got[1..]);
        AscendsFirst(got[0], got[1..]);
        assert got == [got[0]] + got[1..];
      }
    }
  }

  lemma {:induction false} DeliveredOneLost<T>(sent: seq<T>, got: seq<T>, x: T)
    requires Delivered(sent, got)
    ensures Delivered(sent + [x], got)
    decreases |sent|
  {
    if got != [] {
      assert (sent + [x])[1..] == sent[1..] + [x];
      if Delivered(sent[1..], got) {
        DeliveredOneLost(sent[1..], got, x);
      } else {
        DeliveredOneLost(sent[1..], got[1..], x);
      }
    }
  }

  lemma {:induction false} DeliveredOneMore<T>(sent: seq<T>, got: seq<T>, x: T)
    requires Delivered(sent, got)
    ensures Delivered(sent + [x], got + [x])
    decreases |sent|
  {
    if sent == [] {
      assert sent + [x] == [x] && got + [x] == [x] && [x][1..] == [];
    } else {
      assert (sent + [x])[1..] == sent[1..] + [x];
      if got == [] || Delivered(sent[1..], got) {
        DeliveredOneMore(sent[1..], got, x);
      } else {
        DeliveredOneMore(sent[1..], got[1..], x);
        assert (got + [x])[1..] == got[1..] + [x];
      }
    }
  }

  lemma {:induction false} DeliveredTwice<T>(sent: seq<T>, through: seq<T>, got: seq<T>)
    requires Delivered(sent, through) && Delivered(through, got)
    ensures Delivered(sent, got)
    decreases |sent|
  {
    if got != [] {
      if Delivered(sent[1..], through) {
        DeliveredTwice(sent[1..], through, got);
      } else if Delivered(through[1..], got) {
        DeliveredTwice(sent[1..], through[1..], got);
      } else {
        DeliveredTwice(sent[1..], through[1..], got[1..]);
      }
    }
  }

  // ----- the client answers in the order of the pings -----

  /** The pings that a client receives: each with its number, and what the clock of the client then reads. */
  ghost function Asked(history: seq<C.Event>): seq<PongReply> {
    if history == [] then [] else
      var e := history[|history| - 1];
      Asked(history[..|history| - 1]) +
      if e.StatusFromServer? && e.status.PingStatus? then [PongReply(e.status.sequenceNum, e.now)] else []
  }

  ghost function NumbersOfReplies(replies: seq<PongReply>): (numbers: seq<SequenceNum>)
    ensures |numbers| == |replies|
  {
    seq(|replies|, i requires 0 <= i < |replies| => replies[i].sequenceNum)
  }

  /** The numbers of the pings that a client receives. */
  ghost function NumbersReceived(history: seq<C.Event>): seq<SequenceNum> {
    NumbersOfReplies(Asked(history))
  }

  lemma {:induction false} NumbersDelivered(sent: seq<PongReply>, got: seq<PongReply>)
    requires Delivered(sent, got)
    ensures Delivered(NumbersOfReplies(sent), NumbersOfReplies(got))
    decreases |sent|
  {
    if got != [] {
      assert NumbersOfReplies(sent)[1..] == NumbersOfReplies(sent[1..]);
      assert NumbersOfReplies(got)[1..] == NumbersOfReplies(got[1..]);
      if Delivered(sent[1..], got) {
        NumbersDelivered(sent[1..], got);
      } else {
        NumbersDelivered(sent[1..], got[1..]);
      }
    }
  }

  /** The pings that the client receives while it is on the bench. */
  ghost function AskedOnBench(history: seq<C.Event>): seq<PongReply> {
    if history == [] then [] else
      var before, e := history[..|history| - 1], history[|history| - 1];
      AskedOnBench(before) +
      if e.StatusFromServer? && e.status.PingStatus? && C.StateAfter(before).phase.OnBench?
      then [PongReply(e.status.sequenceNum, e.now)]
      else []
  }

  /** The client answers exactly the pings that it receives on the bench, in their order, each with its number and with
      what the clock of the client then reads. */
  lemma {:induction false} RepliesAreToBench(history: seq<C.Event>)
    ensures Replies(history) == AskedOnBench(history)
  {
    if history != [] {
      RepliesAreToBench(history[..|history| - 1]);
    }
  }

  /** A client answers a part of the pings it receives, in their order, each with its number and with what the clock
      of the client read when it came. */
  lemma {:induction false} RepliesFollowPings(history: seq<C.Event>)
    ensures Delivered(Asked(history), Replies(history))
  {
    if history != [] {
      var before, e := history[..|history| - 1], history[|history| - 1];
      RepliesFollowPings(before);
      var pings, replies := Asked(before), Replies(before);
      var reply := ReplyTo(C.StateAfter(before), e);
      if e.StatusFromServer? && e.status.PingStatus? {
        var ping := PongReply(e.status.sequenceNum, e.now);
        if reply == [] {
          DeliveredOneLost(pings, replies, ping);
          assert replies + reply == replies;
        } else {
          DeliveredOneMore(pings, replies, ping);
          assert reply == [ping];
        }
      } else {
        assert replies + reply == replies && pings + [] == pings;
      }
    }
  }

  /** The client is on the bench whenever it receives a ping. */
  ghost predicate AlwaysOnBench(history: seq<C.Event>) {
    history == [] ||
    (var before, e := history[..|history| - 1], history[|history| - 1];
     && AlwaysOnBench(before)
     && (e.StatusFromServer? && e.status.PingStatus? ==> C.StateAfter(before).phase.OnBench?))
  }

  lemma {:induction false} AllAnswered(history: seq<C.Event>)
    requires AlwaysOnBench(history)
    ensures Replies(history) == Asked(history)
  {
    if history != [] {
      AllAnswered(history[..|history| - 1]);
    }
  }

  /** What the client put into the pongs. */
  ghost function AnswersOf(pongs: seq<Pong>): (answers: seq<PongReply>)
    ensures |answers| == |pongs|
  {
    seq(|pongs|, i requires 0 <= i < |pongs| => PongReply(pongs[i].sequenceNum, pongs[i].clientTime))
  }

  lemma NumbersOfAnswers(pongs: seq<Pong>)
    ensures NumbersOfReplies(AnswersOf(pongs)) == NumbersOfPongs(pongs)
  {
  }

  // ----- the server sends one ping per slot -----

  /** The numbers of the pings addressed to a client. */
  ghost function PingsTo(client: EndpointId, mails: seq<Mail<ServerStatus>>): seq<SequenceNum> {
    if mails == [] then [] else
      (if mails[0].to == client && mails[0].body.PingStatus? then [mails[0].body.sequenceNum] else []) +
      PingsTo(client, mails[1..])
  }

  lemma {:induction false} PingsToConcat(client: EndpointId, a: seq<Mail<ServerStatus>>, b: seq<Mail<ServerStatus>>)
    ensures PingsTo(client, a + b) == PingsTo(client, a) + PingsTo(client, b)
  {
    if a == [] {
      assert a + b == b;
    } else {
      var head := if a[0].to == client && a[0].body.PingStatus? then [a[0].body.sequenceNum] else [];
      PingsToConcat(client, a[1..], b);
      assert (a + b)[0] == a[0] && (a + b)[1..] == a[1..] + b;
      Associates(head, PingsTo(client, a[1..]), PingsTo(client, b));
    }
  }

  lemma {:induction false} PingsOfMails(
      client: EndpointId, players: seq<EndpointId>, mails: seq<Mail<ServerStatus>>, n: SequenceNum)
    requires |mails| == |players| && forall i | 0 <= i < |mails| :: mails[i] == Mail(players[i], PingStatus(n))
    ensures |PingsTo(client, mails)| == Count(players, client)
    ensures forall m <- PingsTo(client, mails) :: m == n
  {
    if mails != [] {
      PingsOfMails(client, players[1..], mails[1..], n);
      assert players == [players[0]] + players[1..];
    }
  }

  /** A client gets each ping once per slot it has. */
  lemma PingsPerSlot(client: EndpointId, r: Sheet, n: SequenceNum)
    ensures PingsTo(client, S.Pings(r, n)) == seq(Count(r.players, client), _ => n)
  {
    PingsOfMails(client, r.players, S.Pings(r, n), n);
    var pings := PingsTo(client, S.Pings(r, n));
    assert forall i | 0 <= i < |pings| :: pings[i] in pings;
  }

  /** Each number so many times. */
  ghost function Repeated(numbers: seq<SequenceNum>, k: nat): seq<SequenceNum> {
    if numbers == [] then [] else seq(k, _ => numbers[0]) + Repeated(numbers[1..], k)
  }

  lemma {:induction false} RepeatedConcat(a: seq<SequenceNum>, b: seq<SequenceNum>, k: nat)
    ensures Repeated(a + b, k) == Repeated(a, k) + Repeated(b, k)
  {
    if a == [] {
      assert a + b == b;
    } else {
      RepeatedConcat(a[1..], b, k);
      assert (a + b)[0] == a[0] && (a + b)[1..] == a[1..] + b;
      Associates(seq(k, _ => a[0]), Repeated(a[1..], k), Repeated(b, k));
    }
  }

  lemma {:induction false} RepeatedOnce(numbers: seq<SequenceNum>)
    ensures Repeated(numbers, 1) == numbers && Repeated(numbers, 0) == []
  {
    if numbers != [] {
      RepeatedOnce(numbers[1..]);
      assert numbers == [numbers[0]] + numbers[1..];
      assert seq(1, _ => numbers[0]) == [numbers[0]];
    }
  }

  lemma RepeatedAscendsIff(numbers: seq<SequenceNum>, k: nat)
    requires Ascends(numbers)
    ensures Ascends(Repeated(numbers, k)) <==> k <= 1 || numbers == []
  {
    RepeatedOnce(numbers);
    if k >= 2 && numbers != [] {
      var repeated := Repeated(numbers, k);
      assert repeated[0] == seq(k, _ => numbers[0])[0] && repeated[1] == seq(k, _ => numbers[0])[1];
      assert repeated[0] == repeated[1];
    }
  }

  lemma {:induction false} RepeatedLast(numbers: seq<SequenceNum>, k: nat)
    requires k >= 2 && numbers != []
    ensures var repeated := Repeated(numbers, k);
            |repeated| >= 2 && repeated[|repeated| - 1] == repeated[|repeated| - 2]
  {
    var first := seq(k, _ => numbers[0]);
    if numbers[1..] == [] {
      assert Repeated(numbers, k) == first;
    } else {
      RepeatedLast(numbers[1..], k);
      var rest := Repeated(numbers[1..], k);
      assert (first + rest)[k + |rest| - 1] == rest[|rest| - 1] && (first + rest)[k + |rest| - 2] == rest[|rest| - 2];
    }
  }

  // ----- what the server's monitor records -----

  ghost function Recorded(s: S.State, e: S.Event): seq<Event> {
    if !s.phase.OnBreak? then [] else
      match e
      case Timers(pingDue, now) => if pingDue then [Transmitted(now)] else []
      case StatusFrom(source, status) => if status.PongStatus? then [Event.Received(source, status.pong)] else []
      case _ => []
  }

  ghost function AllRecorded(s: S.State, events: seq<S.Event>): seq<Event>
    requires S.SafeRun(s, events)
    decreases |events|
  {
    if events == [] then [] else
      Recorded(s, events[0]) + AllRecorded(S.Dispatch(s, events[0]).0, events[1..])
  }

  lemma RecordedFirst(past: seq<Event>, s: S.State, events: seq<S.Event>)
    requires S.SafeRun(s, events) && events != []
    ensures S.Safe(s, events[0]) && S.SafeRun(S.Dispatch(s, events[0]).0, events[1..])
    ensures past + AllRecorded(s, events)
         == past + Recorded(s, events[0]) + AllRecorded(S.Dispatch(s, events[0]).0, events[1..])
  {
    Associates(past, Recorded(s, events[0]), AllRecorded(S.Dispatch(s, events[0]).0, events[1..]));
  }

  lemma ClockOfDispatch(target: nat, past: seq<Event>, s: S.State, e: S.Event)
    requires S.Safe(s, e) && s.clock == ClockAfter(target, past)
    ensures S.Dispatch(s, e).0.clock == ClockAfter(target, past + Recorded(s, e))
  {
    if Recorded(s, e) == [] {
      assert past + Recorded(s, e) == past;
    } else {
      ClockAfterStep(target, past, Recorded(s, e)[0]);
      assert Recorded(s, e) == [Recorded(s, e)[0]];
    }
  }

  /** The clock of the server is that of its recordings. */
  lemma {:induction false} ClockOfRun(target: nat, past: seq<Event>, s: S.State, events: seq<S.Event>)
    requires S.SafeRun(s, events) && s.clock == ClockAfter(target, past)
    ensures S.RunAll(s, events).0.clock == ClockAfter(target, past + AllRecorded(s, events))
    decreases |events|
  {
    if events == [] {
      assert past + [] == past;
    } else {
      var e, next := events[0], S.Dispatch(s, events[0]).0;
      ClockOfDispatch(target, past, s, e);
      RecordedFirst(past, s, events);
      ClockOfRun(target, past + Recorded(s, e), next, events[1..]);
    }
  }

  /** The roster is final. */
  ghost predicate Seated(s: S.State) {
    S.Consistent(s) && !s.phase.Waiting? && s.roster.Some?
  }

  ghost function SlotCount(s: S.State, client: EndpointId): nat
    requires Seated(s)
  {
    Count(s.roster.value.players, client)
  }

  lemma SeatedStays(s: S.State, e: S.Event)
    requires Seated(s) && S.Safe(s, e) && !S.EndsMatch(s, e)
    ensures Seated(S.Dispatch(s, e).0) && S.Dispatch(s, e).0.roster == s.roster
  {
  }

  lemma PingRecorded(target: nat, past: seq<Event>, now: int)
    requires target >= 1
    ensures NumbersOfPings(AllPings(past + [Transmitted(now)]))
         == NumbersOfPings(AllPings(past)) + [NextSequence(ClockAfter(target, past).current)]
  {
    CurrentHistory(target, past);
    HistoryStep(past, Transmitted(now), NULL_ENDPOINT);
    WrapsWithCount(|AllPings(past)|, ClockAfter(target, past).current);
  }

  lemma NoPingRecorded(past: seq<Event>, more: seq<Event>)
    requires more == [] || (|more| == 1 && more[0].Received?)
    ensures AllPings(past + more) == AllPings(past)
  {
    if more == [] {
      assert past + more == past;
    } else {
      HistoryStep(past, more[0], NULL_ENDPOINT);
      assert more == [more[0]];
    }
  }

  /** A dispatch sends a client the ping it records, if any, once per slot. */
  lemma PingsOfDispatch(target: nat, past: seq<Event>, s: S.State, e: S.Event, client: EndpointId)
    returns (added: seq<SequenceNum>)
    requires target >= 1 && Seated(s) && S.Safe(s, e) && s.clock == ClockAfter(target, past)
    ensures NumbersOfPings(AllPings(past + Recorded(s, e))) == NumbersOfPings(AllPings(past)) + added
    ensures PingsTo(client, S.Dispatch(s, e).1.statuses) == Repeated(added, SlotCount(s, client))
  {
    if e.Timers? && e.pingDue && s.phase.OnBreak? {
      added := [NextSequence(s.clock.current)];
      PingRecorded(target, past, e.now);
      PingsPerSlot(client, s.roster.value, added[0]);
      assert added[1..] == [];
      assert Repeated(added, SlotCount(s, client)) == seq(SlotCount(s, client), _ => added[0]);
    } else {
      added := [];
      NoPingRecorded(past, Recorded(s, e));
      assert S.Dispatch(s, e).1.statuses == [];
    }
  }

  lemma PingsOfFirst(s: S.State, events: seq<S.Event>, client: EndpointId)
    requires S.SafeRun(s, events) && events != []
    ensures var (next, sent) := S.Dispatch(s, events[0]);
            PingsTo(client, S.RunAll(s, events).1.statuses)
            == PingsTo(client, sent.statuses) + PingsTo(client, S.RunAll(next, events[1..]).1.statuses)
  {
    var (next, sent) := S.Dispatch(s, events[0]);
    PingsToConcat(client, sent.statuses, S.RunAll(next, events[1..]).1.statuses);
  }

  lemma {:induction false} PingsOfRun(
      target: nat, past: seq<Event>, s: S.State, events: seq<S.Event>, client: EndpointId)
    returns (added: seq<SequenceNum>)
    requires target >= 1 && Seated(s) && S.FirstMatch(s, events) && S.SafeRun(s, events)
    requires s.clock == ClockAfter(target, past)
    ensures NumbersOfPings(AllPings(past + AllRecorded(s, events))) == NumbersOfPings(AllPings(past)) + added
    ensures PingsTo(client, S.RunAll(s, events).1.statuses) == Repeated(added, SlotCount(s, client))
    decreases |events|
  {
    if events == [] {
      added := [];
      assert past + [] == past;
    } else {
      var e, rest := events[0], events[1..];
      var next := S.Dispatch(s, e).0;
      var first := PingsOfDispatch(target, past, s, e, client);
      SeatedStays(s, e);
      ClockOfDispatch(target, past, s, e);
      RecordedFirst(past, s, events);
      var others := PingsOfRun(target, past + Recorded(s, e), next, rest, client);
      added := first + others;
      PingsOfFirst(s, events, client);
      RepeatedConcat(first, others, SlotCount(s, client));
      Associates(NumbersOfPings(AllPings(past)), first, others);
    }
  }

  /** From the final roster on, a client is sent exactly the pings recorded, in order, each once per slot. */
  lemma PingsSent(s: S.State, events: seq<S.Event>, client: EndpointId)
    requires Seated(s) && s.clock == InitialClock(s.clock.target)
    requires S.FirstMatch(s, events) && S.SafeRun(s, events)
    ensures PingsTo(client, S.RunAll(s, events).1.statuses)
         == Repeated(NumbersOfPings(AllPings(AllRecorded(s, events))), SlotCount(s, client))
  {
    var added := PingsOfRun(s.clock.target, [], s, events, client);
    EmptyFirst([], AllRecorded(s, events));
    EmptyFirst(NumbersOfPings(AllPings([])), added);
  }

  // ----- order over a run -----

  /** Some ping timer ran out on the break. */
  ghost predicate PingDue(s: S.State, events: seq<S.Event>)
    requires S.SafeRun(s, events)
  {
    exists e <- AllRecorded(s, events) :: e.Transmitted?
  }

  lemma {:induction false} PingsNeedTransmits(events: seq<Event>)
    ensures AllPings(events) == [] <==> forall e <- events :: !e.Transmitted?
  {
    if events != [] {
      var before, last := events[..|events| - 1], events[|events| - 1];
      PingsNeedTransmits(before);
      assert events == before + [last];
    }
  }

  lemma NumberingAscends(pings: seq<Ping>)
    requires Numbering(pings)
    ensures Ascends(NumbersOfPings(pings))
  {
  }

  /** Up to 65535 transmits, the numbers that a client is sent over a run ascend exactly if it has at most one slot,
      or no ping was due. */
  lemma PingsAscendIff(s: S.State, events: seq<S.Event>, client: EndpointId)
    requires Seated(s) && s.clock == InitialClock(s.clock.target)
    requires S.FirstMatch(s, events) && S.SafeRun(s, events)
    requires |AllPings(AllRecorded(s, events))| <= MAX_SEQUENCE
    ensures Ascends(PingsTo(client, S.RunAll(s, events).1.statuses))
            <==> SlotCount(s, client) <= 1 || !PingDue(s, events)
  {
    var recorded := AllRecorded(s, events);
    PingsSent(s, events, client);
    SequenceNumbersOfHistory(recorded);
    NumberingAscends(AllPings(recorded));
    RepeatedAscendsIff(NumbersOfPings(AllPings(recorded)), SlotCount(s, client));
    PingsNeedTransmits(recorded);
  }

  // ----- the whole way -----

  /** Whatever is lost, the pongs recorded are a part of the pings that the client received, in their order, and the
      client's time in each is what its clock read when that ping came. */
  lemma PongsCarryClock(history: seq<C.Event>, pongs: seq<Pong>)
    requires Delivered(Replies(history), AnswersOf(pongs))
    ensures Delivered(Asked(history), AnswersOf(pongs))
  {
    RepliesFollowPings(history);
    DeliveredTwice(Asked(history), Replies(history), AnswersOf(pongs));
  }

  /** The pongs that the monitor records for a client with at most one slot ascend, whatever the two queues lose. */
  lemma {:induction false} PongsAscend(s: S.State, events: seq<S.Event>, history: seq<C.Event>, client: EndpointId)
    requires Seated(s) && SlotCount(s, client) <= 1 && s.clock == InitialClock(s.clock.target)
    requires S.FirstMatch(s, events) && S.SafeRun(s, events)
    requires |AllPings(AllRecorded(s, events))| <= MAX_SEQUENCE
    requires Delivered(PingsTo(client, S.RunAll(s, events).1.statuses), NumbersReceived(history))
    requires Delivered(Replies(history), AnswersOf(AllPongs(AllRecorded(s, events), client)))
    ensures Increasing(AllPongs(AllRecorded(s, events), client))
  {
    var pongs := AllPongs(AllRecorded(s, events), client);
    PingsAscendIff(s, events, client);
    DeliveredAscends(PingsTo(client, S.RunAll(s, events).1.statuses), NumbersReceived(history));
    PongsCarryClock(history, pongs);
    NumbersDelivered(Asked(history), AnswersOf(pongs));
    NumbersOfAnswers(pongs);
    DeliveredAscends(NumbersReceived(history), NumbersOfPongs(pongs));
  }

  /** Both queues deliver everything, and the client answers everything. */
  ghost predicate Lossless(s: S.State, events: seq<S.Event>, history: seq<C.Event>, client: EndpointId)
    requires S.SafeRun(s, events)
  {
    && NumbersReceived(history) == PingsTo(client, S.RunAll(s, events).1.statuses)
    && AlwaysOnBench(history)
    && AnswersOf(AllPongs(AllRecorded(s, events), client)) == Replies(history)
  }

  /** When nothing is lost, the pongs recorded for a client over a run ascend exactly if it has at most one slot, or
      no ping was due: a second slot always spoils the order. */
  lemma PongsAscendIff(s: S.State, events: seq<S.Event>, history: seq<C.Event>, client: EndpointId)
    requires Seated(s) && s.clock == InitialClock(s.clock.target)
    requires S.FirstMatch(s, events) && S.SafeRun(s, events)
    requires |AllPings(AllRecorded(s, events))| <= MAX_SEQUENCE
    requires Lossless(s, events, history, client)
    ensures Increasing(AllPongs(AllRecorded(s, events), client))
            <==> SlotCount(s, client) <= 1 || !PingDue(s, events)
  {
    PingsAscendIff(s, events, client);
    AllAnswered(history);
    NumbersOfAnswers(AllPongs(AllRecorded(s, events), client));
  }

  /** The merge finds for each retained pong the ping of its number in the full history. */
  ghost predicate MergeFits(clock: Clock, recorded: seq<Event>, client: EndpointId) {
    var retained := LastN(AllPongs(recorded, client), clock.target);
    Answering(AllPings(recorded), retained) && Merge(clock.pings, retained) == Lookup(AllPings(recorded), retained)
  }

  lemma OrderFits(target: nat, recorded: seq<Event>, client: EndpointId)
    requires target >= 1 && |AllPings(recorded)| <= MAX_SEQUENCE
    requires Increasing(AllPongs(recorded, client)) && Timely(target, recorded, client)
    ensures MergeFits(ClockAfter(target, recorded), recorded, client)
  {
    InOrderIff(target, recorded, client);
    MergeIsLookup(target, recorded, client);
    PongHistory(target, recorded, client);
  }

  ghost predicate EndsInRepetition(pongs: seq<Pong>) {
    |pongs| >= 2 && pongs[|pongs| - 1].sequenceNum == pongs[|pongs| - 2].sequenceNum
  }

  lemma LastTwoRetained(pongs: seq<Pong>, target: nat)
    requires target >= 2 && EndsInRepetition(pongs)
    ensures !Increasing(LastN(pongs, target))
  {
    var retained := LastN(pongs, target);
    assert retained[|retained| - 1] == pongs[|pongs| - 1] && retained[|retained| - 2] == pongs[|pongs| - 2];
  }

  lemma RepetitionDoesNotFit(target: nat, recorded: seq<Event>, client: EndpointId)
    requires target >= 2 && |AllPings(recorded)| <= MAX_SEQUENCE
    requires EndsInRepetition(AllPongs(recorded, client))
    ensures !MergeFits(ClockAfter(target, recorded), recorded, client)
  {
    LastTwoRetained(AllPongs(recorded, client), target);
    MergeIsLookupIff(target, recorded, client);
  }

  /** When nothing is lost, the pongs recorded for a client carry the numbers of the pings recorded, in order, each
      once per slot, and what the clock of the client read at each. */
  lemma PongsRecorded(s: S.State, events: seq<S.Event>, history: seq<C.Event>, client: EndpointId)
    requires Seated(s) && s.clock == InitialClock(s.clock.target)
    requires S.FirstMatch(s, events) && S.SafeRun(s, events) && Lossless(s, events, history, client)
    ensures NumbersOfPongs(AllPongs(AllRecorded(s, events), client))
         == Repeated(NumbersOfPings(AllPings(AllRecorded(s, events))), SlotCount(s, client))
    ensures AnswersOf(AllPongs(AllRecorded(s, events), client)) == Asked(history)
  {
    PingsSent(s, events, client);
    AllAnswered(history);
    NumbersOfAnswers(AllPongs(AllRecorded(s, events), client));
  }

  lemma RepeatedRecord(pings: seq<Ping>, pongs: seq<Pong>, k: nat)
    requires k >= 2 && pings != [] && NumbersOfPongs(pongs) == Repeated(NumbersOfPings(pings), k)
    ensures EndsInRepetition(pongs)
  {
    RepeatedLast(NumbersOfPings(pings), k);
    var numbers := NumbersOfPongs(pongs);
    assert numbers[|numbers| - 1] == numbers[|numbers| - 2];
  }

  lemma SecondSlotRepeats(s: S.State, events: seq<S.Event>, history: seq<C.Event>, client: EndpointId)
    requires Seated(s) && SlotCount(s, client) >= 2 && s.clock == InitialClock(s.clock.target)
    requires S.FirstMatch(s, events) && S.SafeRun(s, events) && Lossless(s, events, history, client)
    requires AllPings(AllRecorded(s, events)) != []
    ensures EndsInRepetition(AllPongs(AllRecorded(s, events), client))
  {
    var recorded := AllRecorded(s, events);
    PongsRecorded(s, events, history, client);
    RepeatedRecord(AllPings(recorded), AllPongs(recorded, client), SlotCount(s, client));
  }

  lemma ServerClock(s: S.State, events: seq<S.Event>)
    requires S.SafeRun(s, events) && s.clock == InitialClock(s.clock.target)
    ensures S.RunAll(s, events).0.clock == ClockAfter(s.clock.target, AllRecorded(s, events))
  {
    ClockOfRun(s.clock.target, [], s, events);
    assert [] + AllRecorded(s, events) == AllRecorded(s, events);
  }

  lemma OneSlotFits(s: S.State, events: seq<S.Event>, history: seq<C.Event>, client: EndpointId)
    requires Seated(s) && s.clock == InitialClock(s.clock.target)
    requires S.FirstMatch(s, events) && S.SafeRun(s, events)
    requires |AllPings(AllRecorded(s, events))| <= MAX_SEQUENCE
    requires Lossless(s, events, history, client) && Timely(s.clock.target, AllRecorded(s, events), client)
    requires SlotCount(s, client) <= 1 || !PingDue(s, events)
    ensures MergeFits(ClockAfter(s.clock.target, AllRecorded(s, events)), AllRecorded(s, events), client)
  {
    PongsAscendIff(s, events, history, client);
    OrderFits(s.clock.target, AllRecorded(s, events), client);
  }

  lemma {:induction false} SecondSlotDoesNotFit(
      s: S.State, events: seq<S.Event>, history: seq<C.Event>, client: EndpointId)
    requires Seated(s) && s.clock == InitialClock(s.clock.target) && s.clock.target >= 2
    requires S.FirstMatch(s, events) && S.SafeRun(s, events)
    requires |AllPings(AllRecorded(s, events))| <= MAX_SEQUENCE && Lossless(s, events, history, client)
    requires SlotCount(s, client) >= 2 && PingDue(s, events)
    ensures !MergeFits(ClockAfter(s.clock.target, AllRecorded(s, events)), AllRecorded(s, events), client)
  {
    PingsNeedTransmits(AllRecorded(s, events));
    SecondSlotRepeats(s, events, history, client);
    RepetitionDoesNotFit(s.clock.target, AllRecorded(s, events), client);
  }

  /** When nothing is lost or late, the merge of the server finds the ping of every retained pong of a client exactly
      if the client has at most one slot, or no ping was due. */
  lemma MergeFitsIff(s: S.State, events: seq<S.Event>, history: seq<C.Event>, client: EndpointId)
    requires Seated(s) && s.clock == InitialClock(s.clock.target) && s.clock.target >= 2
    requires S.FirstMatch(s, events) && S.SafeRun(s, events)
    requires |AllPings(AllRecorded(s, events))| <= MAX_SEQUENCE
    requires Lossless(s, events, history, client) && Timely(s.clock.target, AllRecorded(s, events), client)
    ensures MergeFits(S.RunAll(s, events).0.clock, AllRecorded(s, events), client)
            <==> SlotCount(s, client) <= 1 || !PingDue(s, events)
  {
    ServerClock(s, events);
    if SlotCount(s, client) <= 1 || !PingDue(s, events) {
      OneSlotFits(s, events, history, client);
    } else {
      SecondSlotDoesNotFit(s, events, history, client);
    }
  }

  /** From the final roster on, over queues that may lose but not reorder: if a client with at most one slot has no
      pong recorded after its ping has left the window, the averages of the server's monitor for this client are the
      true means over its retained pongs. */
  lemma {:induction false} MeasuredOverFifo(
      s: S.State, events: seq<S.Event>, history: seq<C.Event>, client: EndpointId)
    requires Seated(s) && SlotCount(s, client) <= 1 && s.clock == InitialClock(s.clock.target)
    requires S.FirstMatch(s, events) && S.SafeRun(s, events)
    requires |AllPings(AllRecorded(s, events))| <= MAX_SEQUENCE
    requires Delivered(PingsTo(client, S.RunAll(s, events).1.statuses), NumbersReceived(history))
    requires Delivered(Replies(history), AnswersOf(AllPongs(AllRecorded(s, events), client)))
    requires Timely(s.clock.target, AllRecorded(s, events), client)
    ensures Measured(S.RunAll(s, events).0.clock, AllRecorded(s, events), client)
    ensures Delivered(Asked(history), AnswersOf(AllPongs(AllRecorded(s, events), client)))
  {
    var target, recorded := s.clock.target, AllRecorded(s, events);
    PongsCarryClock(history, AllPongs(recorded, client));
    PongsAscend(s, events, history, client);
    InOrderIff(target, recorded, client);
    ServerClock(s, events);
    HistoryRefinement(target, recorded, client);
    AverageRoundTripIsMean(target, recorded, client);
    AverageClockDiffIsMean(target, recorded, client);
  }

  /** The averages are the truncated means over the retained pongs, each with the ping of its number. */
  ghost predicate Measured(clock: Clock, recorded: seq<Event>, client: EndpointId) {
    var retained := LastN(AllPongs(recorded, client), clock.target);
    && PongsOf(clock, client) == retained
    && Answering(AllPings(recorded), retained)
    && (retained != [] ==>
          && AverageRoundTrip(clock, client) == TruncDiv(SumOf(Elapsed(AllPings(recorded), retained)), |retained|)
          && AverageClockDiff(clock, client)
             == TruncDiv(SumOf(Differences(AllPings(recorded), retained)), |retained|))
  }
}
