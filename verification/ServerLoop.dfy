/** The server's loop: each frame dispatches on the label of the handle, at most one message of each kind and then the
    timers. What the queues from the referee and the clients yield in a frame is an input. */
module ServerLoop {
  import opened Endpoint
  import opened Frames
  import opened Roster
  import opened Messages
  import opened Numbers
  import opened Sequences
  import opened ServerState
  import opened ServerHandle

  // ----- runs of dispatches -----

  /** A whole run, from where it starts. */
  datatype Task = Task(start: State, all: seq<Event>, before: Outbox)

  /** In this state, with this much sent, the rest of the events completes the run. */
  ghost predicate OnTrack(t: Task, s: State, sent: Outbox, rest: seq<Event>) {
    && SafeRun(t.start, t.all) && SafeRun(s, rest)
    && RunAll(t.start, t.all).0 == RunAll(s, rest).0
    && Append(t.before, RunAll(t.start, t.all).1) == Append(sent, RunAll(s, rest).1)
  }

  lemma StepOnTrack(t: Task, s: State, sent: Outbox, e: Event, rest: seq<Event>)
    requires OnTrack(t, s, sent, [e] + rest)
    ensures Safe(s, e) && OnTrack(t, Dispatch(s, e).0, Append(sent, Dispatch(s, e).1), rest)
  {
    assert ([e] + rest)[1..] == rest;
    var (next, added) := Dispatch(s, e);
    AppendAssociates(sent, added, RunAll(next, rest).1);
  }

  /** What the three queues yield in a frame, and the time read by the timers. */
  datatype Input = Input(
    output: Option<RefOutput>,
    status: Option<Received<ClientStatus>>,
    transaction: Option<Received<ClientTransaction>>,
    now: int)

  datatype Config = Config(
    matchHalfLength: nat,
    pingFrequency: nat,
    simulationFrequency: nat,
    simulationStartFrame: nat,
    snapshotFrequency: nat,
    snapshotStartFrame: nat)

  ghost function Greeting(s: State, config: Config): Outbox {
    NOTHING.(toReferee := if s.phase.Waiting? then [Rules(config.matchHalfLength)] else [])
  }

  predicate IsDue(frame: FrameNumber, frequency: nat, startFrame: nat)
    requires frequency > 0
  {
    frame % frequency == startFrame
  }

  function OutputEvents(input: Input): seq<Event> {
    if input.output.Some? then [FromReferee(input.output.value)] else []
  }

  function StatusEvents(input: Input): seq<Event> {
    if input.status.Some? then [StatusFrom(input.status.value.source, input.status.value.body)] else []
  }

  function TransactionEvents(input: Input): seq<Event> {
    if input.transaction.Some?
    then [TransactionFrom(input.transaction.value.source, input.transaction.value.body)]
    else []
  }

  function TimerEvent(frame: FrameNumber, pingFrequency: nat, now: int): Event
    requires pingFrequency > 0
  {
    Timers(IsDue(frame, pingFrequency, 0), now)
  }

  /** The dispatches of the frames after a number of frames. */
  function AllEvents(inputs: seq<Input>, frame: FrameNumber, pingFrequency: nat): seq<Event>
    requires pingFrequency > 0
    decreases |inputs|
  {
    if inputs == [] then [] else
      OutputEvents(inputs[0]) + (StatusEvents(inputs[0]) + (TransactionEvents(inputs[0]) +
      ([TimerEvent(FrameAfter(frame, 1), pingFrequency, inputs[0].now)] +
       AllEvents(inputs[1..], FrameAfter(frame, 1), pingFrequency))))
  }

  // ----- what a run dispatches -----

  /** In the first period a timer is due at its start frame alone, and then again after every further period. */
  lemma DueOncePerPeriod(frame: FrameNumber, frequency: nat, startFrame: nat)
    requires frequency > 0
    ensures frame < frequency ==> (IsDue(frame, frequency, startFrame) <==> frame == startFrame)
    ensures frame + frequency < 0x1_0000_0000 ==>
              (IsDue(frame + frequency, frequency, startFrame) <==> IsDue(frame, frequency, startFrame))
  {
    OnePeriodMore(frame, frequency);
  }

  /** How often the ping timer runs out. */
  ghost function PingsDue(events: seq<Event>): nat {
    if events == [] then 0 else (if events[0].Timers? && events[0].pingDue then 1 else 0) + PingsDue(events[1..])
  }

  lemma {:induction false} PingsDueConcat(a: seq<Event>, b: seq<Event>)
    ensures PingsDue(a + b) == PingsDue(a) + PingsDue(b)
  {
    if a == [] {
      EmptyFirst(a, b);
    } else {
      PingsDueConcat(a[1..], b);
      assert (a + b)[0] == a[0] && (a + b)[1..] == a[1..] + b;
    }
  }

  lemma NoPingDue(messages: seq<Event>, rest: seq<Event>)
    requires |messages| <= 1 && forall e <- messages :: !e.Timers?
    ensures PingsDue(messages + rest) == PingsDue(rest)
  {
    PingsDueConcat(messages, rest);
  }

  lemma PingsDueOfFrame(input: Input, timer: Event, rest: seq<Event>)
    requires timer.Timers?
    ensures PingsDue(OutputEvents(input) + (StatusEvents(input) + (TransactionEvents(input) + ([timer] + rest))))
         == PingsDue(rest) + if timer.pingDue then 1 else 0
  {
    PingsDueConcat([timer], rest);
    NoPingDue(TransactionEvents(input), [timer] + rest);
    NoPingDue(StatusEvents(input), TransactionEvents(input) + ([timer] + rest));
    NoPingDue(OutputEvents(input), StatusEvents(input) + (TransactionEvents(input) + ([timer] + rest)));
  }

  /** As long as the frame numbers do not wrap, the ping timer runs out once for every multiple of the ping frequency
      among the frames of a run. */
  lemma {:induction false} PingsDuePerRun(inputs: seq<Input>, frame: FrameNumber, pingFrequency: nat)
    requires pingFrequency > 0 && frame + |inputs| < 0x1_0000_0000
    ensures PingsDue(AllEvents(inputs, frame, pingFrequency))
         == (frame + |inputs|) / pingFrequency - frame / pingFrequency
    decreases |inputs|
  {
    if inputs != [] {
      var timer := TimerEvent(frame + 1, pingFrequency, inputs[0].now);
      assert FrameAfter(frame, 1) == frame + 1;
      PingsDuePerRun(inputs[1..], frame + 1, pingFrequency);
      NextQuotient(frame, pingFrequency);
      PingsDueOfFrame(inputs[0], timer, AllEvents(inputs[1..], frame + 1, pingFrequency));
    }
  }

  function Rank(e: Event): nat {
    match e
    case FromReferee(_) => 0
    case StatusFrom(_, _) => 1
    case TransactionFrom(_, _) => 2
    case Timers(_, _) => 3
  }

  /** The ranks rise from this one on. */
  ghost predicate Ranked(events: seq<Event>, lowest: nat) {
    events == [] || (lowest <= Rank(events[0]) && Ranked(events[1..], Rank(events[0]) + 1))
  }

  lemma RankedFirst(first: seq<Event>, rest: seq<Event>, rank: nat)
    requires |first| <= 1 && (first != [] ==> Rank(first[0]) == rank) && Ranked(rest, rank + 1)
    ensures Ranked(first + rest, rank)
  {
    if first == [] {
      EmptyFirst(first, rest);
    } else {
      assert (first + rest)[1..] == rest;
    }
  }

  /** A frame dispatches what the queues yield and nothing else, but for the timers. */
  predicate IsInput(input: Input, e: Event) {
    match e
    case FromReferee(output) => input.output == Some(output)
    case StatusFrom(source, status) => input.status == Some(Received(source, status))
    case TransactionFrom(source, transaction) => input.transaction == Some(Received(source, transaction))
    case Timers(_, now) => now == input.now
  }

  lemma OneFrame(input: Input, frame: FrameNumber, pingFrequency: nat)
    requires pingFrequency > 0
    ensures AllEvents([input], frame, pingFrequency)
         == OutputEvents(input) + (StatusEvents(input) + (TransactionEvents(input) +
            [TimerEvent(FrameAfter(frame, 1), pingFrequency, input.now)]))
  {
    var timer := TimerEvent(FrameAfter(frame, 1), pingFrequency, input.now);
    assert [input][1..] == [] && [timer] + [] == [timer];
  }

  lemma MessagesInOrder(input: Input, timer: Event)
    requires timer.Timers?
    ensures Ranked(OutputEvents(input) + (StatusEvents(input) + (TransactionEvents(input) + [timer])), 0)
  {
    RankedFirst([timer], [], 3);
    RankedFirst(TransactionEvents(input), [timer], 2);
    RankedFirst(StatusEvents(input), TransactionEvents(input) + [timer], 1);
    RankedFirst(OutputEvents(input), StatusEvents(input) + (TransactionEvents(input) + [timer]), 0);
  }

  /** A message of the referee comes before a client's status, that before a client's transaction, and the timers
      come last, always. */
  lemma FrameInOrder(input: Input, frame: FrameNumber, pingFrequency: nat, e: Event)
    requires pingFrequency > 0
    ensures var events := AllEvents([input], frame, pingFrequency);
            && Ranked(events, 0)
            && (e in events <==>
                  IsInput(input, e) && (e.Timers? ==> e.pingDue == IsDue(FrameAfter(frame, 1), pingFrequency, 0)))
  {
    OneFrame(input, frame, pingFrequency);
    MessagesInOrder(input, TimerEvent(FrameAfter(frame, 1), pingFrequency, input.now));
  }

  /** A run is its first frame and then the rest of it, one frame later. */
  lemma FrameByFrame(inputs: seq<Input>, frame: FrameNumber, pingFrequency: nat)
    requires pingFrequency > 0 && inputs != []
    ensures AllEvents(inputs, frame, pingFrequency)
         == AllEvents(inputs[..1], frame, pingFrequency) +
            AllEvents(inputs[1..], FrameAfter(frame, 1), pingFrequency)
  {
    var a, b, c := OutputEvents(inputs[0]), StatusEvents(inputs[0]), TransactionEvents(inputs[0]);
    var timer := TimerEvent(FrameAfter(frame, 1), pingFrequency, inputs[0].now);
    var rest := AllEvents(inputs[1..], FrameAfter(frame, 1), pingFrequency);
    assert inputs[..1] == [inputs[0]];
    OneFrame(inputs[0], frame, pingFrequency);
    Associates(c, [timer], rest);
    Associates(b, c + [timer], rest);
    Associates(a, b + (c + [timer]), rest);
  }

  class Server {
    const handle: BasicHandle
    const config: Config
    var frame: FrameNumber

    ghost predicate Valid()
      reads this, handle, if handle.roster == null then {} else handle.roster.Repr()
    {
      && config.pingFrequency > 0 && config.simulationFrequency > 0 && config.snapshotFrequency > 0
      && handle.Live()
    }

    constructor (ends: Ends, config: Config)
      requires Linked(ends)
      requires config.pingFrequency > 0 && config.simulationFrequency > 0 && config.snapshotFrequency > 0
      ensures Valid() && fresh(handle) && fresh(handle.enrollment) && fresh(handle.monitor)
      ensures handle.Owns() == ends && handle.Value() == INITIAL_STATE && frame == 0
      ensures this.config == config
    {
      this.config := config;
      handle := new BasicHandle(ends, Waiting);
      frame := 0;
    }

    /** The result of an event becomes the live handle, under the label of the event's return type. */
    method Restore(output: BasicHandle, stateValue: Phase)
      requires output != handle && output.Live()
      modifies handle, output
      ensures handle.Live() && handle.Owns() == old(output.Owns()) && handle.Holds() == old(output.Holds())
      ensures handle.Value() == old(output.Value()).(phase := stateValue)
      ensures Sent(handle.Owns()) == old(Sent(output.Owns()))
    {
      handle.AssignFrom(output, stateValue);
    }

    /** An event that does nothing but pass the handle on. */
    method Continue(body: Phase, stateValue: Phase)
      requires handle.Live()
      modifies handle
      ensures handle.Live() && handle.Owns() == old(handle.Owns()) && handle.Holds() == old(handle.Holds())
      ensures handle.Value() == old(handle.Value()).(phase := stateValue)
      ensures Sent(handle.Owns()) == old(Sent(handle.Owns()))
    {
      var output := Passed(handle, handle.serverState, body);
      Restore(output, stateValue);
    }

    /** Before the first frame a waiting server sends the referee the rules. */
    method Spawn()
      requires handle.Live()
      modifies handle, handle.refInputProducer
      ensures handle.Live() && handle.Owns() == old(handle.Owns()) && handle.Holds() == old(handle.Holds())
      ensures handle.Value() == old(handle.Value())
      ensures Sent(handle.Owns()) == Append(old(Sent(handle.Owns())), Greeting(old(handle.Value()), config))
    {
      AppendNothing(Sent(handle.Owns()));
      if handle.serverState == Waiting {
        var result := RefSpawned(handle, config.matchHalfLength);
        Restore(result, Waiting);
      }
    }

    method DispatchReferee(output: RefOutput)
      requires handle.Live() && Safe(handle.Value(), FromReferee(output))
      modifies handle, handle.serverTransProducer
      ensures handle.Live() && handle.Owns() == old(handle.Owns()) && handle.monitor == old(handle.monitor)
      ensures handle.enrollment == null || handle.enrollment == old(handle.enrollment)
      ensures handle.Value() == Dispatch(old(handle.Value()), FromReferee(output)).0
      ensures Sent(handle.Owns())
           == Append(old(Sent(handle.Owns())), Dispatch(old(handle.Value()), FromReferee(output)).1)
    {
      ghost var sent := Sent(handle.Owns());
      AppendNothing(sent);
      match handle.serverState {
        case Waiting =>
          if output.RosterFinalised? {
            var result := HandleRosterFinalised(handle);
            Restore(result, OnBreak);
          } else if output.RefCrashed? {
            Continue(Waiting, Waiting);
          }
        case OnBreak =>
          if output.FieldOpen? {
            Continue(Playing, Playing);
          } else if output.RefCrashed? {
            Continue(Waiting, OnBreak);
          }
        case Playing =>
          if output.PlayJudgement? {
            Continue(Playing, Playing);
          } else if output.MatchClose? || output.MatchAbort? {
            Continue(Waiting, Waiting);
          } else if output.RefCrashed? {
            Continue(Playing, Playing);
          }
      }
    }

    method DispatchStatus(source: EndpointId, status: ClientStatus)
      requires handle.Live()
      modifies handle, handle.monitor
      ensures handle.Live() && handle.Owns() == old(handle.Owns()) && handle.Holds() == old(handle.Holds())
      ensures handle.Value() == Dispatch(old(handle.Value()), StatusFrom(source, status)).0
      ensures Sent(handle.Owns())
           == Append(old(Sent(handle.Owns())), Dispatch(old(handle.Value()), StatusFrom(source, status)).1)
    {
      AppendNothing(Sent(handle.Owns()));
      if handle.serverState == OnBreak {
        if status.PongStatus? {
          var result := HandleReceivedPong(handle, source, status.pong);
          Restore(result, OnBreak);
        }
      } else if handle.serverState == Playing {
        Continue(Playing, Playing);
      }
    }

    method DispatchTransaction(source: EndpointId, transaction: ClientTransaction)
      requires handle.Live() && Safe(handle.Value(), TransactionFrom(source, transaction))
      modifies handle, handle.enrollment, handle.refInputProducer, handle.serverTransProducer
      ensures handle.Live() && handle.Owns() == old(handle.Owns()) && handle.Holds() == old(handle.Holds())
      ensures handle.Value() == Dispatch(old(handle.Value()), TransactionFrom(source, transaction)).0
      ensures Sent(handle.Owns())
           == Append(old(Sent(handle.Owns())), Dispatch(old(handle.Value()), TransactionFrom(source, transaction)).1)
    {
      AppendNothing(Sent(handle.Owns()));
      var current := handle.serverState;
      if current == Waiting || current == Playing {
        if transaction.RegistrationRequest? {
          var result := HandleRegistration(handle, current, source, transaction.details);
          Restore(result, current);
        } else if transaction.Disconnect? || current == Playing {
          Continue(current, current);
        }
      }
    }

    method DispatchTimers(pingDue: bool, simulationDue: bool, snapshotDue: bool, now: int)
      requires handle.Live() && Safe(handle.Value(), Timers(pingDue, now))
      modifies handle, handle.monitor, handle.serverStatusProducer
      ensures handle.Live() && handle.Owns() == old(handle.Owns()) && handle.Holds() == old(handle.Holds())
      ensures handle.Value() == Dispatch(old(handle.Value()), Timers(pingDue, now)).0
      ensures Sent(handle.Owns())
           == Append(old(Sent(handle.Owns())), Dispatch(old(handle.Value()), Timers(pingDue, now)).1)
    {
      AppendNothing(Sent(handle.Owns()));
      if handle.serverState == OnBreak {
        if pingDue {
          var result := HandlePingTimedOut(handle, now);
          Restore(result, OnBreak);
        }
      } else if handle.serverState == Playing {
        if simulationDue {
          Continue(Playing, Playing);
        }
        if snapshotDue {
          Continue(Playing, Playing);
        }
      }
    }

    method TakeOutput(input: Input, ghost t: Task, ghost rest: seq<Event>)
      requires handle.Live()
      requires OnTrack(t, handle.Value(), Sent(handle.Owns()), OutputEvents(input) + rest)
      modifies handle, handle.serverTransProducer
      ensures handle.Live() && handle.Owns() == old(handle.Owns()) && handle.monitor == old(handle.monitor)
      ensures handle.enrollment == null || handle.enrollment == old(handle.enrollment)
      ensures OnTrack(t, handle.Value(), Sent(handle.Owns()), rest)
    {
      assert OutputEvents(input) == [] ==> OutputEvents(input) + rest == rest;
      if input.output.Some? {
        StepOnTrack(t, handle.Value(), Sent(handle.Owns()), FromReferee(input.output.value), rest);
        DispatchReferee(input.output.value);
      }
    }

    method TakeStatus(input: Input, ghost t: Task, ghost rest: seq<Event>)
      requires handle.Live()
      requires OnTrack(t, handle.Value(), Sent(handle.Owns()), StatusEvents(input) + rest)
      modifies handle, handle.monitor
      ensures handle.Live() && handle.Owns() == old(handle.Owns()) && handle.Holds() == old(handle.Holds())
      ensures OnTrack(t, handle.Value(), Sent(handle.Owns()), rest)
    {
      assert StatusEvents(input) == [] ==> StatusEvents(input) + rest == rest;
      if input.status.Some? {
        var Received(source, body) := input.status.value;
        StepOnTrack(t, handle.Value(), Sent(handle.Owns()), StatusFrom(source, body), rest);
        DispatchStatus(source, body);
      }
    }

    method TakeTransaction(input: Input, ghost t: Task, ghost rest: seq<Event>)
      requires handle.Live()
      requires OnTrack(t, handle.Value(), Sent(handle.Owns()), TransactionEvents(input) + rest)
      modifies handle, handle.enrollment, handle.refInputProducer, handle.serverTransProducer
      ensures handle.Live() && handle.Owns() == old(handle.Owns()) && handle.Holds() == old(handle.Holds())
      ensures OnTrack(t, handle.Value(), Sent(handle.Owns()), rest)
    {
      assert TransactionEvents(input) == [] ==> TransactionEvents(input) + rest == rest;
      if input.transaction.Some? {
        var Received(source, body) := input.transaction.value;
        StepOnTrack(t, handle.Value(), Sent(handle.Owns()), TransactionFrom(source, body), rest);
        DispatchTransaction(source, body);
      }
    }

    method TakeMessages(input: Input, ghost t: Task, ghost rest: seq<Event>)
      requires handle.Live()
      requires OnTrack(t, handle.Value(), Sent(handle.Owns()),
                       OutputEvents(input) + (StatusEvents(input) + (TransactionEvents(input) + rest)))
      modifies handle, handle.enrollment, handle.monitor, handle.refInputProducer, handle.serverTransProducer
      ensures handle.Live() && handle.Owns() == old(handle.Owns()) && handle.monitor == old(handle.monitor)
      ensures handle.enrollment == null || handle.enrollment == old(handle.enrollment)
      ensures OnTrack(t, handle.Value(), Sent(handle.Owns()), rest)
    {
      TakeOutput(input, t, StatusEvents(input) + (TransactionEvents(input) + rest));
      TakeStatus(input, t, TransactionEvents(input) + rest);
      TakeTransaction(input, t, rest);
    }

    method TakeTimers(now: int, ghost t: Task, ghost rest: seq<Event>)
      requires Valid()
      requires OnTrack(t, handle.Value(), Sent(handle.Owns()), [TimerEvent(frame, config.pingFrequency, now)] + rest)
      modifies handle, handle.monitor, handle.serverStatusProducer
      ensures Valid() && handle.Owns() == old(handle.Owns()) && handle.Holds() == old(handle.Holds())
      ensures OnTrack(t, handle.Value(), Sent(handle.Owns()), rest)
    {
      StepOnTrack(t, handle.Value(), Sent(handle.Owns()), TimerEvent(frame, config.pingFrequency, now), rest);
      DispatchTimers(
        IsDue(frame, config.pingFrequency, 0),
        IsDue(frame, config.simulationFrequency, config.simulationStartFrame),
        IsDue(frame, config.snapshotFrequency, config.snapshotStartFrame),
        now);
    }

    /** One frame: at most one message of each kind, in this order, and then the timers. */
    method RunFrame(input: Input, ghost t: Task, ghost rest: seq<Event>)
      requires Valid()
      requires OnTrack(t, handle.Value(), Sent(handle.Owns()),
                       OutputEvents(input) + (StatusEvents(input) + (TransactionEvents(input) +
                       ([TimerEvent(FrameAfter(frame, 1), config.pingFrequency, input.now)] + rest))))
      modifies this, handle, handle.enrollment, handle.monitor
      modifies handle.refInputProducer, handle.serverTransProducer, handle.serverStatusProducer
      ensures Valid() && frame == FrameAfter(old(frame), 1)
      ensures handle.Owns() == old(handle.Owns()) && handle.monitor == old(handle.monitor)
      ensures handle.enrollment == null || handle.enrollment == old(handle.enrollment)
      ensures OnTrack(t, handle.Value(), Sent(handle.Owns()), rest)
    {
      frame := FrameAfter(frame, 1);
      TakeMessages(input, t, [TimerEvent(frame, config.pingFrequency, input.now)] + rest);
      TakeTimers(input.now, t, rest);
    }

    method RunNext(inputs: seq<Input>, ghost t: Task)
      requires Valid() && inputs != []
      requires OnTrack(t, handle.Value(), Sent(handle.Owns()), AllEvents(inputs, frame, config.pingFrequency))
      modifies this, handle, handle.enrollment, handle.monitor
      modifies handle.refInputProducer, handle.serverTransProducer, handle.serverStatusProducer
      ensures Valid() && frame == FrameAfter(old(frame), 1)
      ensures handle.Owns() == old(handle.Owns()) && handle.monitor == old(handle.monitor)
      ensures handle.enrollment == null || handle.enrollment == old(handle.enrollment)
      ensures OnTrack(t, handle.Value(), Sent(handle.Owns()), AllEvents(inputs[1..], frame, config.pingFrequency))
    {
      RunFrame(inputs[0], t, AllEvents(inputs[1..], FrameAfter(frame, 1), config.pingFrequency));
    }

    method RunFrames(inputs: seq<Input>, ghost t: Task)
      requires Valid()
      requires OnTrack(t, handle.Value(), Sent(handle.Owns()), AllEvents(inputs, frame, config.pingFrequency))
      modifies this, handle, handle.enrollment, handle.monitor
      modifies handle.refInputProducer, handle.serverTransProducer, handle.serverStatusProducer
      ensures Valid() && frame == FrameAfter(old(frame), |inputs|)
      ensures handle.Owns() == old(handle.Owns())
      ensures OnTrack(t, handle.Value(), Sent(handle.Owns()), [])
    {
      OneFrameMore(frame, 0);
      for i := 0 to |inputs|
        invariant Valid() && frame == FrameAfter(old(frame), i)
        invariant handle.Owns() == old(handle.Owns()) && handle.monitor == old(handle.monitor)
        invariant handle.enrollment == null || handle.enrollment == old(handle.enrollment)
        invariant OnTrack(t, handle.Value(), Sent(handle.Owns()), AllEvents(inputs[i..], frame, config.pingFrequency))
      {
        assert inputs[i..][1..] == inputs[i + 1..];
        OneFrameMore(old(frame), i);
        RunNext(inputs[i..], t);
      }
    }

    /** The run of the server, frame by frame: the handle ends up with all the ends and pools that it began with,
        in the state, under the label and having sent what the dispatches of the run make of the first state. */
    method Run(inputs: seq<Input>)
      requires Valid() && SafeRun(handle.Value(), AllEvents(inputs, frame, config.pingFrequency))
      modifies this, handle, handle.enrollment, handle.monitor
      modifies handle.refInputProducer, handle.serverTransProducer, handle.serverStatusProducer
      ensures Valid() && frame == FrameAfter(old(frame), |inputs|)
      ensures handle.Owns() == old(handle.Owns())
      ensures var run := RunAll(old(handle.Value()), AllEvents(inputs, old(frame), config.pingFrequency));
              && handle.Value() == run.0
              && Sent(handle.Owns())
              == Append(Append(old(Sent(handle.Owns())), Greeting(old(handle.Value()), config)), run.1)
      ensures Consistent(old(handle.Value()))
              && FirstMatch(old(handle.Value()), AllEvents(inputs, old(frame), config.pingFrequency))
              ==> Consistent(handle.Value())
    {
      Spawn();
      ghost var t := Task(handle.Value(), AllEvents(inputs, frame, config.pingFrequency), Sent(handle.Owns()));
      RunFrames(inputs, t);
      AppendNothing(Sent(handle.Owns()));
      if Consistent(t.start) && FirstMatch(t.start, t.all) {
        RunIsFirstMatch(t.start, t.all);
      }
    }
  }
}
