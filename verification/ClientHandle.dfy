/** The client's handle, its event functions and the loop that dispatches on its label. What the queues from the bot
    and the server yield in a frame is an input. */
module ClientHandle {
  import opened Endpoint
  import opened Entity
  import opened Frames
  import opened Monitor
  import opened Messages
  import opened Roster
  import opened Enrollment
  import opened ClientState
  import opened Sequences

  /** The game of a registered client: only its player is part of this model. */
  class ClientGame {
    const player: PlayerConfig

    constructor (uniform: UniformNumber, team: TeamId, playerType: PlayerType)
      ensures player == ConfigOf(uniform, team, playerType)
    {
      player := PlayerConfig(UniformToId(uniform, team), uniform, team, playerType);
    }
  }

  /** A pong as it is sent: the number of the ping and the client's clock. */
  datatype PongReply = PongReply(sequenceNum: SequenceNum, now: int)

  datatype Ends = Ends(
    botInputs: Queue?<BotInput>,
    botOutputs: Queue?<BotOutput>,
    clientStatuses: Queue?<PongReply>,
    clientTransactions: Queue?<ClientTransaction>,
    serverStatuses: Queue?<ServerStatus>,
    serverTransactions: Queue?<ServerTransaction>,
    botInboundPool: BufferPool?,
    botOutboundPool: BufferPool?,
    clientOutboundPool: BufferPool?,
    serverInboundPool: BufferPool?)

  const NO_ENDS := Ends(null, null, null, null, null, null, null, null, null, null)

  ghost predicate Linked(e: Ends) {
    && e.botInputs != null && e.botOutputs != null && e.clientStatuses != null && e.clientTransactions != null
    && e.serverStatuses != null && e.serverTransactions != null
    && e.botInboundPool != null && e.botOutboundPool != null
    && e.clientOutboundPool != null && e.serverInboundPool != null
    && e.clientStatuses as object != e.clientTransactions as object
  }

  class BasicHandle {
    var botInputProducer: Queue?<BotInput>
    var botOutputConsumer: Queue?<BotOutput>
    var clientStatusProducer: Queue?<PongReply>
    var clientTransProducer: Queue?<ClientTransaction>
    var serverStatusConsumer: Queue?<ServerStatus>
    var serverTransConsumer: Queue?<ServerTransaction>
    var botInboundPool: BufferPool?
    var botOutboundPool: BufferPool?
    var clientOutboundPool: BufferPool?
    var serverInboundPool: BufferPool?
    var gameState: ClientGame?
    var clientState: Phase

    ghost function Owns(): Ends
      reads this
    {
      Ends(
        botInputProducer, botOutputConsumer, clientStatusProducer, clientTransProducer, serverStatusConsumer,
        serverTransConsumer, botInboundPool, botOutboundPool, clientOutboundPool, serverInboundPool)
    }

    /** The handle is live: it owns every end and pool. */
    ghost predicate Live()
      reads this
    {
      Linked(Owns())
    }

    ghost function Value(): State
      reads this
    {
      State(clientState, if gameState == null then None else Some(gameState.player))
    }

    constructor (ends: Ends, phase: Phase)
      ensures Owns() == ends && Value() == State(phase, None)
    {
      botInputProducer, botOutputConsumer := ends.botInputs, ends.botOutputs;
      clientStatusProducer, clientTransProducer := ends.clientStatuses, ends.clientTransactions;
      serverStatusConsumer, serverTransConsumer := ends.serverStatuses, ends.serverTransactions;
      botInboundPool, botOutboundPool := ends.botInboundPool, ends.botOutboundPool;
      clientOutboundPool, serverInboundPool := ends.clientOutboundPool, ends.serverInboundPool;
      gameState := null;
      clientState := phase;
    }

    /** Moving takes everything, the label too, and leaves nothing but the label. */
    constructor Move(other: BasicHandle)
      modifies other
      ensures Owns() == old(other.Owns()) && Value() == old(other.Value())
      ensures other.Owns() == NO_ENDS && other.gameState == null && other.clientState == old(other.clientState)
    {
      new;
      Assign(other);
    }

    /** The conversion between handle types moves, and sets the label to that of the type it converts to. */
    static method Convert(other: BasicHandle, stateValue: Phase) returns (handle: BasicHandle)
      modifies other
      ensures fresh(handle)
      ensures handle.Owns() == old(other.Owns()) && handle.Value() == old(other.Value()).(phase := stateValue)
      ensures other.Owns() == NO_ENDS && other.gameState == null
    {
      handle := new BasicHandle.Move(other);
      handle.clientState := stateValue;
    }

    /** Copies the pointers and clears the source. */
    method TakeQueues(other: BasicHandle)
      modifies this`botInputProducer, this`botOutputConsumer, this`clientStatusProducer
      modifies this`clientTransProducer, this`serverStatusConsumer, this`serverTransConsumer
      modifies other`botInputProducer, other`botOutputConsumer, other`clientStatusProducer
      modifies other`clientTransProducer, other`serverStatusConsumer, other`serverTransConsumer
      ensures other.botInputProducer == null
      ensures other != this ==> botInputProducer == old(other.botInputProducer)
      ensures other.botOutputConsumer == null
      ensures other != this ==> botOutputConsumer == old(other.botOutputConsumer)
      ensures other.clientStatusProducer == null
      ensures other != this ==> clientStatusProducer == old(other.clientStatusProducer)
      ensures other.clientTransProducer == null
      ensures other != this ==> clientTransProducer == old(other.clientTransProducer)
      ensures other.serverStatusConsumer == null
      ensures other != this ==> serverStatusConsumer == old(other.serverStatusConsumer)
      ensures other.serverTransConsumer == null
      ensures other != this ==> serverTransConsumer == old(other.serverTransConsumer)
    {
      botInputProducer := other.botInputProducer;
      botOutputConsumer := other.botOutputConsumer;
      clientStatusProducer := other.clientStatusProducer;
      clientTransProducer := other.clientTransProducer;
      serverStatusConsumer := other.serverStatusConsumer;
      serverTransConsumer := other.serverTransConsumer;
      other.botInputProducer := null;
      other.botOutputConsumer := null;
      other.clientStatusProducer := null;
      other.clientTransProducer := null;
      other.serverStatusConsumer := null;
      other.serverTransConsumer := null;
    }

    /** Releases the pools from the source before it takes them. */
    method TakePools(other: BasicHandle)
      modifies this`botInboundPool, this`botOutboundPool, this`clientOutboundPool
      modifies this`serverInboundPool
      modifies other`botInboundPool, other`botOutboundPool, other`clientOutboundPool
      modifies other`serverInboundPool
      ensures botInboundPool == old(other.botInboundPool)
      ensures other != this ==> other.botInboundPool == null
      ensures botOutboundPool == old(other.botOutboundPool)
      ensures other != this ==> other.botOutboundPool == null
      ensures clientOutboundPool == old(other.clientOutboundPool)
      ensures other != this ==> other.clientOutboundPool == null
      ensures serverInboundPool == old(other.serverInboundPool)
      ensures other != this ==> other.serverInboundPool == null
    {
      var botInboundPool := other.botInboundPool;
      other.botInboundPool := null;
      this.botInboundPool := botInboundPool;
      var botOutboundPool := other.botOutboundPool;
      other.botOutboundPool := null;
      this.botOutboundPool := botOutboundPool;
      var clientOutboundPool := other.clientOutboundPool;
      other.clientOutboundPool := null;
      this.clientOutboundPool := clientOutboundPool;
      var serverInboundPool := other.serverInboundPool;
      other.serverInboundPool := null;
      this.serverInboundPool := serverInboundPool;
    }

    /** Likewise the game. */
    method TakeGame(other: BasicHandle)
      modifies this`gameState
      modifies other`gameState
      ensures gameState == old(other.gameState)
      ensures other != this ==> other.gameState == null
    {
      var gameState := other.gameState;
      other.gameState := null;
      this.gameState := gameState;
    }

    /** Takes everything, the label too, and leaves nothing but the label. Assigning a handle to itself keeps the
        pools and the game but loses the ends of the queues. */
    method Assign(other: BasicHandle)
      modifies this, other
      ensures Value() == old(other.Value()) && other.clientState == old(other.clientState)
      ensures other != this ==> Owns() == old(other.Owns()) && other.Owns() == NO_ENDS && other.gameState == null
      ensures other == this ==>
                Owns() == old(Owns()).(
                  botInputs := null, botOutputs := null, clientStatuses := null, clientTransactions := null,
                  serverStatuses := null, serverTransactions := null)
    {
      TakeQueues(other);
      TakePools(other);
      TakeGame(other);
      clientState := other.clientState;
    }

    /** Assigning the result of an event sets the label to the state that the event returns. */
    method AssignFrom(other: BasicHandle, stateValue: Phase)
      modifies this, other
      ensures Value() == old(other.Value()).(phase := stateValue)
      ensures other != this ==> Owns() == old(other.Owns()) && other.Owns() == NO_ENDS && other.gameState == null
      ensures other == this ==>
                Owns() == old(Owns()).(
                  botInputs := null, botOutputs := null, clientStatuses := null, clientTransactions := null,
                  serverStatuses := null, serverTransactions := null)
    {
      Assign(other);
      clientState := stateValue;
    }
  }

  // ----- the event functions -----

  datatype Config = Config(
    team: string,
    uniform: UniformNumber,
    goalie: bool,
    simulationFrequency: nat,
    simulationStartFrame: nat,
    sensorFrequency: nat,
    sensorStartFrame: nat,
    uploadFrequency: nat,
    uploadStartFrame: nat)

  /** The registration that a configuration asks for, under the current version. */
  function RequestOf(config: Config): Registration {
    Registration(CURRENT_VERSION, config.team, config.uniform, if config.goalie then GoalKeeper else OutField)
  }

  /** A client's request is never refused for its version; if it is accepted, the client has the slot of the team and
      uniform configured, as a goalkeeper exactly if it is configured as one. */
  lemma RequestIsServed(b: Book, client: EndpointId, config: Config)
    ensures var (after, result) := Register(b, client, RequestOf(config));
            && result != VersionMismatch
            && (result.RegisterSuccess? ==>
                  var slot := At(after, config.team, config.uniform);
                  slot.Some? && slot.value.id == client && (slot.value.ptype == GoalKeeper <==> config.goalie))
  {
    AnswerIsObjection(b, client, RequestOf(config));
    if Register(b, client, RequestOf(config)).1.RegisterSuccess? {
      AcceptedIsAdded(b, client, RequestOf(config));
    }
  }

  /** How every event function ends: the input moves into a local handle of the type it returns. */
  method Passed(input: BasicHandle, next: Phase) returns (output: BasicHandle)
    requires input.Live()
    modifies input
    ensures fresh(output) && output.Live()
    ensures output.Owns() == old(input.Owns()) && output.Value() == old(input.Value()).(phase := next)
    ensures input.Owns() == NO_ENDS && input.gameState == null
  {
    var local := BasicHandle.Convert(input, next);
    output := BasicHandle.Convert(local, next);
  }

  method Spawned(input: BasicHandle, config: Config) returns (output: BasicHandle)
    requires input.Live() && input.clientState == Unregistered
    modifies input, input.clientTransProducer
    ensures fresh(output) && output.Live()
    ensures output.Owns() == old(input.Owns()) && output.Value() == old(input.Value())
    ensures output.clientTransProducer.items
         == old(input.clientTransProducer.items) + [RegistrationRequest(RequestOf(config))]
    ensures output.clientStatusProducer.items == old(input.clientStatusProducer.items)
  {
    var playerType := if config.goalie then GoalKeeper else OutField;
    var details := Registration(CURRENT_VERSION, config.team, config.uniform, playerType);
    input.clientTransProducer.Push(RegistrationRequest(details));
    output := Passed(input, Unregistered);
  }

  method RegistrationSucceeded(
      input: BasicHandle, uniform: UniformNumber, team: TeamId, playerType: PlayerType)
    returns (output: BasicHandle)
    requires input.Live() && input.clientState == Unregistered
    modifies input
    ensures fresh(output) && output.Live()
    ensures output.Owns() == old(input.Owns())
    ensures output.Value() == State(OnBench, Some(ConfigOf(uniform, team, playerType)))
  {
    output := Passed(input, OnBench);
    output.gameState := new ClientGame(uniform, team, playerType);
  }

  method ReceivedPing(input: BasicHandle, sequenceNum: SequenceNum, now: int) returns (output: BasicHandle)
    requires input.Live() && input.clientState == OnBench
    modifies input, input.clientStatusProducer
    ensures fresh(output) && output.Live()
    ensures output.Owns() == old(input.Owns()) && output.Value() == old(input.Value())
    ensures output.clientStatusProducer.items
         == old(input.clientStatusProducer.items) + [PongReply(sequenceNum, now)]
    ensures output.clientTransProducer.items == old(input.clientTransProducer.items)
  {
    input.clientStatusProducer.Push(PongReply(sequenceNum, now));
    output := Passed(input, OnBench);
  }

  // ----- the loop -----

  /** What the three queues yield in a frame, and the time read by the handler of a ping. */
  datatype Input = Input(
    output: Option<BotOutput>,
    status: Option<ServerStatus>,
    transaction: Option<ServerTransaction>,
    now: int)

  function OutputEvents(input: Input): seq<Event> {
    if input.output.Some? then [FromBot(input.output.value)] else []
  }

  function StatusEvents(input: Input): seq<Event> {
    if input.status.Some? then [StatusFromServer(input.status.value, input.now)] else []
  }

  function TransactionEvents(input: Input): seq<Event> {
    if input.transaction.Some? then [FromServer(input.transaction.value)] else []
  }

  function FrameEvents(input: Input): seq<Event> {
    OutputEvents(input) + StatusEvents(input) + TransactionEvents(input)
  }

  function Rank(e: Event): nat {
    match e
    case FromBot(_) => 0
    case StatusFromServer(_, _) => 1
    case FromServer(_) => 2
  }

  /** A frame dispatches what the queues yield and nothing else. */
  predicate IsInput(input: Input, e: Event) {
    match e
    case FromBot(output) => input.output == Some(output)
    case StatusFromServer(status, now) => input.status == Some(status) && now == input.now
    case FromServer(transaction) => input.transaction == Some(transaction)
  }

  /** What the bot says comes before the server's status, and that before the server's transaction. */
  lemma FrameInOrder(input: Input, e: Event)
    ensures var events := FrameEvents(input);
            && (forall i, j | 0 <= i < j < |events| :: Rank(events[i]) < Rank(events[j]))
            && (e in events <==> IsInput(input, e))
  {
  }

  ghost function AllEvents(inputs: seq<Input>): seq<Event> {
    if inputs == [] then [] else AllEvents(inputs[..|inputs| - 1]) + FrameEvents(inputs[|inputs| - 1])
  }

  lemma NextEvents(history: seq<Event>, inputs: seq<Input>, i: nat)
    requires i < |inputs|
    ensures history + AllEvents(inputs[..i]) + FrameEvents(inputs[i]) == history + AllEvents(inputs[..i + 1])
  {
    assert inputs[..i + 1][..i] == inputs[..i];
    Associates(history, AllEvents(inputs[..i]), FrameEvents(inputs[i]));
  }

  ghost function ReplyTo(s: State, e: Event): seq<PongReply> {
    if e.StatusFromServer? && Dispatch(s, e).1.Some? then [PongReply(Dispatch(s, e).1.value, e.now)] else []
  }

  /** The pongs sent in a run. */
  ghost function Replies(events: seq<Event>): seq<PongReply> {
    if events == [] then [] else
      var before, e := events[..|events| - 1], events[|events| - 1];
      Replies(before) + ReplyTo(StateAfter(before), e)
  }

  class Client {
    const handle: BasicHandle
    const config: Config
    var frame: FrameNumber
    ghost var history: seq<Event>

    /** The handle is where the history of dispatches leads to, and has sent all that they answer. */
    ghost predicate Valid()
      reads this, handle, handle.clientStatusProducer
    {
      && config.simulationFrequency > 0 && config.sensorFrequency > 0 && config.uploadFrequency > 0
      && handle.Live()
      && handle.Value() == StateAfter(history)
      && handle.clientStatusProducer.items == Replies(history)
    }

    constructor (ends: Ends, config: Config)
      requires Linked(ends) && ends.clientStatuses.items == []
      requires config.simulationFrequency > 0 && config.sensorFrequency > 0 && config.uploadFrequency > 0
      ensures Valid() && fresh(handle) && handle.Owns() == ends && history == [] && frame == 0
      ensures this.config == config
    {
      this.config := config;
      handle := new BasicHandle(ends, Unregistered);
      frame := 0;
      history := [];
    }

    /** The result of an event becomes the live handle, under the label of the event's return type. */
    method Restore(output: BasicHandle, stateValue: Phase)
      requires output != handle && output.Live()
      modifies handle, output
      ensures handle.Live() && handle.Owns() == old(output.Owns())
      ensures handle.Value() == old(output.Value()).(phase := stateValue)
    {
      handle.AssignFrom(output, stateValue);
    }

    /** An event that does nothing but pass the handle on. */
    method Continue(next: Phase)
      requires handle.Live()
      modifies handle
      ensures handle.Live() && handle.Owns() == old(handle.Owns())
      ensures handle.Value() == old(handle.Value()).(phase := next)
    {
      var output := Passed(handle, next);
      Restore(output, next);
    }

    /** Before the first frame an unregistered client asks to be registered. */
    method Spawn()
      requires Valid()
      modifies handle, handle.clientTransProducer
      ensures Valid() && handle.Owns() == old(handle.Owns())
      ensures handle.clientTransProducer.items
           == old(handle.clientTransProducer.items) +
              if old(handle.clientState) == Unregistered then [RegistrationRequest(RequestOf(config))] else []
    {
      if handle.clientState == Unregistered {
        var result := Spawned(handle, config);
        Restore(result, Unregistered);
      }
    }

    method DispatchBot(output: BotOutput)
      requires handle.Live()
      modifies handle
      ensures handle.Live() && handle.Owns() == old(handle.Owns())
      ensures handle.Value() == Dispatch(old(handle.Value()), FromBot(output)).0
    {
      match handle.clientState {
        case Playing =>
          if output.BotAction? || output.BotQuery? {
            Continue(Playing);
          } else if output.BotCrash? {
            Continue(OnBench);
          }
        case OnBench =>
          if output.BotQuery? || output.BotCrash? {
            Continue(OnBench);
          }
        case Unregistered =>
          if output.BotShutDown? || output.BotCrash? {
            Continue(Unregistered);
          }
      }
    }

    method DispatchStatus(status: ServerStatus, now: int)
      requires handle.Live()
      modifies handle, handle.clientStatusProducer
      ensures handle.Live() && handle.Owns() == old(handle.Owns())
      ensures handle.Value() == Dispatch(old(handle.Value()), StatusFromServer(status, now)).0
      ensures handle.clientStatusProducer.items
           == old(handle.clientStatusProducer.items) + ReplyTo(old(handle.Value()), StatusFromServer(status, now))
    {
      if handle.clientState == OnBench {
        if status.PingStatus? {
          var result := ReceivedPing(handle, status.sequenceNum, now);
          Restore(result, OnBench);
        }
      } else if handle.clientState == Playing {
        Continue(Playing);
      }
    }

    /** The handlers of a transaction are tried in this order; a second one for the bench is never reached. */
    method DispatchTransaction(transaction: ServerTransaction)
      requires handle.Live()
      modifies handle
      ensures handle.Live() && handle.Owns() == old(handle.Owns())
      ensures handle.Value() == Dispatch(old(handle.Value()), FromServer(transaction)).0
    {
      match handle.clientState {
        case Playing =>
          if transaction.PlayJudged? {
            Continue(Playing);
          } else if transaction.MatchClosed? || transaction.MatchAborted? || transaction.ServerDisconnect? {
            Continue(Unregistered);
          }
        case OnBench =>
          if transaction.FieldOpened? {
            Continue(Playing);
          } else if transaction.MatchAborted? || transaction.ServerDisconnect? {
            Continue(Unregistered);
          }
        case Unregistered =>
          if transaction.RegAck? {
            var RegAck(uniform, team, playerType) := transaction;
            var result := RegistrationSucceeded(handle, uniform, team, playerType);
            Restore(result, OnBench);
          } else if transaction.RegError? {
            Continue(Unregistered);
          }
      }
    }

    method DispatchTimers()
      requires Valid()
      modifies handle
      ensures Valid() && handle.Owns() == old(handle.Owns())
    {
      if handle.clientState == Playing {
        if frame % config.simulationFrequency == config.simulationStartFrame {
          Continue(Playing);
        }
        if frame % config.sensorFrequency == config.sensorStartFrame {
          Continue(Playing);
        }
        if frame % config.uploadFrequency == config.uploadStartFrame {
          Continue(Playing);
        }
      }
    }

    ghost method Extend(s: State, e: Event)
      requires s == StateAfter(history)
      modifies this`history
      ensures history == old(history) + [e]
      ensures StateAfter(history) == Dispatch(s, e).0
      ensures Replies(history) == Replies(old(history)) + ReplyTo(s, e)
      ensures !e.StatusFromServer? ==> Replies(history) == Replies(old(history))
    {
      history := history + [e];
      assert history[..|history| - 1] == old(history);
      assert Replies(old(history)) + [] == Replies(old(history));
    }

    method TakeOutput(input: Input)
      requires Valid()
      modifies this`history, handle
      ensures Valid() && handle.Owns() == old(handle.Owns())
      ensures history == old(history) + OutputEvents(input)
    {
      if input.output.Some? {
        Extend(handle.Value(), FromBot(input.output.value));
        DispatchBot(input.output.value);
        assert Valid();
      } else {
        assert history + [] == history;
      }
    }

    method TakeStatus(input: Input)
      requires Valid()
      modifies this`history, handle, handle.clientStatusProducer
      ensures Valid() && handle.Owns() == old(handle.Owns())
      ensures history == old(history) + StatusEvents(input)
    {
      if input.status.Some? {
        Extend(handle.Value(), StatusFromServer(input.status.value, input.now));
        DispatchStatus(input.status.value, input.now);
        assert Valid();
      } else {
        assert history + [] == history;
      }
    }

    method TakeTransaction(input: Input)
      requires Valid()
      modifies this`history, handle
      ensures Valid() && handle.Owns() == old(handle.Owns())
      ensures history == old(history) + TransactionEvents(input)
    {
      if input.transaction.Some? {
        Extend(handle.Value(), FromServer(input.transaction.value));
        DispatchTransaction(input.transaction.value);
        assert Valid();
      } else {
        assert history + [] == history;
      }
    }

    /** One frame: at most one message of each kind, in this order, and then the timers. */
    method RunFrame(input: Input)
      requires Valid()
      modifies this`frame, this`history, handle, handle.clientStatusProducer
      ensures Valid() && handle.Owns() == old(handle.Owns())
      ensures history == old(history) + FrameEvents(input) && frame == FrameAfter(old(frame), 1)
    {
      TakeOutput(input);
      TakeStatus(input);
      TakeTransaction(input);
      DispatchTimers();
      frame := FrameAfter(frame, 1);
      Associates(old(history), OutputEvents(input), StatusEvents(input));
      Associates(old(history), OutputEvents(input) + StatusEvents(input), TransactionEvents(input));
    }

    /** The run of the client, frame by frame: the handle ends up with all the ends and pools that it began with,
        in the state, under the label and having sent the pongs that the whole history of dispatches leads to; it has
        asked to be registered once, if it began unregistered. */
    method Run(inputs: seq<Input>)
      requires Valid()
      modifies this`frame, this`history, handle, handle.clientStatusProducer, handle.clientTransProducer
      ensures Valid() && handle.Owns() == old(handle.Owns())
      ensures history == old(history) + AllEvents(inputs) && frame == FrameAfter(old(frame), |inputs|)
      ensures handle.clientState != Unregistered ==> handle.gameState != null
      ensures handle.clientTransProducer.items
           == old(handle.clientTransProducer.items) +
              if old(handle.clientState) == Unregistered then [RegistrationRequest(RequestOf(config))] else []
    {
      Spawn();
      ghost var requests := handle.clientTransProducer.items;
      OneFrameMore(frame, 0);
      for i := 0 to |inputs|
        invariant Valid() && handle.Owns() == old(handle.Owns())
        invariant handle.clientTransProducer.items == requests
        invariant history == old(history) + AllEvents(inputs[..i]) && frame == FrameAfter(old(frame), i)
      {
        NextEvents(old(history), inputs, i);
        OneFrameMore(old(frame), i);
        RunFrame(inputs[i]);
      }
      assert inputs[..|inputs|] == inputs;
      LifeCycle(history);
    }
  }
}
