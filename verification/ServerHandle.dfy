/** The server's handle, which moves from one owner to the next with every event, and the event functions. */
module ServerHandle {
  import opened Endpoint
  import opened Entity
  import opened Roster
  import opened Enrollment
  import opened Messages
  import opened Monitor
  import opened ServerState
  import T = EnrollmentTable

  /** The ends of queues and the pools that a handle owns. */
  datatype Ends = Ends(
    refInputs: Queue?<RefInput>,
    refOutputs: Queue?<RefOutput>,
    serverStatuses: Queue?<Mail<ServerStatus>>,
    serverTransactions: Queue?<Mail<ServerTransaction>>,
    clientStatuses: Queue?<Received<ClientStatus>>,
    clientTransactions: Queue?<Received<ClientTransaction>>,
    refInboundPool: BufferPool?,
    refOutboundPool: BufferPool?,
    serverOutboundPool: BufferPool?,
    clientInboundPool: BufferPool?)

  datatype Tables = Tables(
    enrollment: T.EnrollmentTable?, roster: RosterTable?, monitor: ClockMonitor?, gameState: GameState?)

  const NO_ENDS := Ends(null, null, null, null, null, null, null, null, null, null)
  const NO_TABLES := Tables(null, null, null, null)

  ghost predicate Linked(e: Ends) {
    && e.refInputs != null && e.refOutputs != null && e.serverStatuses != null && e.serverTransactions != null
    && e.clientStatuses != null && e.clientTransactions != null
    && e.refInboundPool != null && e.refOutboundPool != null
    && e.serverOutboundPool != null && e.clientInboundPool != null
    && e.refInputs as object != e.serverStatuses as object
    && e.refInputs as object != e.serverTransactions as object
    && e.serverStatuses as object != e.serverTransactions as object
  }

  /** All that was sent and not yet taken. */
  ghost function Sent(e: Ends): Outbox
    requires Linked(e)
    reads e.refInputs, e.serverTransactions, e.serverStatuses
  {
    Outbox(e.refInputs.items, e.serverTransactions.items, e.serverStatuses.items)
  }

  ghost predicate Sound(t: Tables)
    reads if t.roster == null then {} else t.roster.Repr()
  {
    t.monitor != null && (t.roster != null ==> t.roster.Valid())
  }

  ghost function StateOf(t: Tables, phase: Phase): State
    requires Sound(t)
    reads t.enrollment, t.monitor, if t.roster == null then {} else t.roster.Repr()
  {
    State(
      phase,
      if t.enrollment == null then None else Some(t.enrollment.Value()),
      if t.roster == null then None else Some(t.roster.Value()),
      t.monitor.State(),
      t.gameState != null)
  }

  class BasicHandle {
    var refInputProducer: Queue?<RefInput>
    var refOutputConsumer: Queue?<RefOutput>
    var serverStatusProducer: Queue?<Mail<ServerStatus>>
    var serverTransProducer: Queue?<Mail<ServerTransaction>>
    var clientStatusConsumer: Queue?<Received<ClientStatus>>
    var clientTransConsumer: Queue?<Received<ClientTransaction>>
    var refInboundPool: BufferPool?
    var refOutboundPool: BufferPool?
    var serverOutboundPool: BufferPool?
    var clientInboundPool: BufferPool?
    var enrollment: T.EnrollmentTable?
    var roster: RosterTable?
    var monitor: ClockMonitor?
    var gameState: GameState?
    var serverState: Phase

    ghost function Owns(): Ends
      reads this
    {
      Ends(
        refInputProducer, refOutputConsumer, serverStatusProducer, serverTransProducer, clientStatusConsumer,
        clientTransConsumer, refInboundPool, refOutboundPool, serverOutboundPool, clientInboundPool)
    }

    ghost function Holds(): Tables
      reads this
    {
      Tables(enrollment, roster, monitor, gameState)
    }

    /** The handle is live: it owns every end and pool, and a monitor. */
    ghost predicate Live()
      reads this, if roster == null then {} else roster.Repr()
    {
      Linked(Owns()) && Sound(Holds())
    }

    ghost function Value(): State
      requires Sound(Holds())
      reads this, enrollment, monitor, if roster == null then {} else roster.Repr()
    {
      StateOf(Holds(), serverState)
    }

    constructor (ends: Ends, phase: Phase)
      ensures Owns() == ends && serverState == phase
      ensures fresh(enrollment) && roster == null && fresh(monitor) && gameState == null
      ensures Sound(Holds()) && Value() == INITIAL_STATE.(phase := phase)
    {
      refInputProducer, refOutputConsumer := ends.refInputs, ends.refOutputs;
      serverStatusProducer, serverTransProducer := ends.serverStatuses, ends.serverTransactions;
      clientStatusConsumer, clientTransConsumer := ends.clientStatuses, ends.clientTransactions;
      refInboundPool, refOutboundPool := ends.refInboundPool, ends.refOutboundPool;
      serverOutboundPool, clientInboundPool := ends.serverOutboundPool, ends.clientInboundPool;
      enrollment := new T.EnrollmentTable();
      roster := null;
      monitor := new ClockMonitor(TARGET_SAMPLE_SIZE);
      gameState := null;
      serverState := phase;
    }

    /** Moving takes everything, the label too, and leaves nothing but the label. */
    constructor Move(other: BasicHandle)
      modifies other
      ensures Owns() == old(other.Owns()) && Holds() == old(other.Holds()) && serverState == old(other.serverState)
      ensures other.Owns() == NO_ENDS && other.Holds() == NO_TABLES && other.serverState == old(other.serverState)
    {
      new;
      Assign(other);
    }

    /** The conversion between handle types moves, and sets the label to that of the type it converts from. */
    static method Convert(other: BasicHandle, otherState: Phase) returns (handle: BasicHandle)
      modifies other
      ensures fresh(handle) && handle.serverState == otherState
      ensures handle.Owns() == old(other.Owns()) && handle.Holds() == old(other.Holds())
      ensures other.Owns() == NO_ENDS && other.Holds() == NO_TABLES
    {
      handle := new BasicHandle.Move(other);
      handle.serverState := otherState;
    }

    /** Copies the pointers and clears the source. */
    method TakeQueues(other: BasicHandle)
      modifies this`refInputProducer, this`refOutputConsumer, this`serverStatusProducer
      modifies this`serverTransProducer, this`clientStatusConsumer, this`clientTransConsumer
      modifies other`refInputProducer, other`refOutputConsumer, other`serverStatusProducer
      modifies other`serverTransProducer, other`clientStatusConsumer, other`clientTransConsumer
      ensures other.refInputProducer == null
      ensures other != this ==> refInputProducer == old(other.refInputProducer)
      ensures other.refOutputConsumer == null
      ensures other != this ==> refOutputConsumer == old(other.refOutputConsumer)
      ensures other.serverStatusProducer == null
      ensures other != this ==> serverStatusProducer == old(other.serverStatusProducer)
      ensures other.serverTransProducer == null
      ensures other != this ==> serverTransProducer == old(other.serverTransProducer)
      ensures other.clientStatusConsumer == null
      ensures other != this ==> clientStatusConsumer == old(other.clientStatusConsumer)
      ensures other.clientTransConsumer == null
      ensures other != this ==> clientTransConsumer == old(other.clientTransConsumer)
    {
      refInputProducer := other.refInputProducer;
      refOutputConsumer := other.refOutputConsumer;
      serverStatusProducer := other.serverStatusProducer;
      serverTransProducer := other.serverTransProducer;
      clientStatusConsumer := other.clientStatusConsumer;
      clientTransConsumer := other.clientTransConsumer;
      other.refInputProducer := null;
      other.refOutputConsumer := null;
      other.serverStatusProducer := null;
      other.serverTransProducer := null;
      other.clientStatusConsumer := null;
      other.clientTransConsumer := null;
    }

    /** Releases the pools from the source before it takes them. */
    method TakePools(other: BasicHandle)
      modifies this`refInboundPool, this`refOutboundPool, this`serverOutboundPool
      modifies this`clientInboundPool
      modifies other`refInboundPool, other`refOutboundPool, other`serverOutboundPool
      modifies other`clientInboundPool
      ensures refInboundPool == old(other.refInboundPool)
      ensures other != this ==> other.refInboundPool == null
      ensures refOutboundPool == old(other.refOutboundPool)
      ensures other != this ==> other.refOutboundPool == null
      ensures serverOutboundPool == old(other.serverOutboundPool)
      ensures other != this ==> other.serverOutboundPool == null
      ensures clientInboundPool == old(other.clientInboundPool)
      ensures other != this ==> other.clientInboundPool == null
    {
      var refInboundPool := other.refInboundPool;
      other.refInboundPool := null;
      this.refInboundPool := refInboundPool;
      var refOutboundPool := other.refOutboundPool;
      other.refOutboundPool := null;
      this.refOutboundPool := refOutboundPool;
      var serverOutboundPool := other.serverOutboundPool;
      other.serverOutboundPool := null;
      this.serverOutboundPool := serverOutboundPool;
      var clientInboundPool := other.clientInboundPool;
      other.clientInboundPool := null;
      this.clientInboundPool := clientInboundPool;
    }

    /** Likewise the tables. */
    method TakeTables(other: BasicHandle)
      modifies this`enrollment, this`roster, this`monitor
      modifies this`gameState
      modifies other`enrollment, other`roster, other`monitor
      modifies other`gameState
      ensures enrollment == old(other.enrollment)
      ensures other != this ==> other.enrollment == null
      ensures roster == old(other.roster)
      ensures other != this ==> other.roster == null
      ensures monitor == old(other.monitor)
      ensures other != this ==> other.monitor == null
      ensures gameState == old(other.gameState)
      ensures other != this ==> other.gameState == null
    {
      var enrollment := other.enrollment;
      other.enrollment := null;
      this.enrollment := enrollment;
      var roster := other.roster;
      other.roster := null;
      this.roster := roster;
      var monitor := other.monitor;
      other.monitor := null;
      this.monitor := monitor;
      var gameState := other.gameState;
      other.gameState := null;
      this.gameState := gameState;
    }

    /** Takes everything, the label too, and leaves nothing but the label. Assigning a handle to itself keeps the
        pools and the tables but loses the ends of the queues. */
    method Assign(other: BasicHandle)
      modifies this, other
      ensures serverState == old(other.serverState) && Holds() == old(other.Holds())
      ensures other.serverState == old(other.serverState)
      ensures other != this ==>
                Owns() == old(other.Owns()) && other.Owns() == NO_ENDS && other.Holds() == NO_TABLES
      ensures other == this ==>
                Owns() == old(Owns()).(
                  refInputs := null, refOutputs := null, serverStatuses := null, serverTransactions := null,
                  clientStatuses := null, clientTransactions := null)
    {
      TakeQueues(other);
      TakePools(other);
      TakeTables(other);
      serverState := other.serverState;
    }

    /** Assigning the result of an event sets the label to the state that the event returns. */
    method AssignFrom(other: BasicHandle, stateValue: Phase)
      modifies this, other
      ensures serverState == stateValue && Holds() == old(other.Holds())
      ensures other != this ==>
                Owns() == old(other.Owns()) && other.Owns() == NO_ENDS && other.Holds() == NO_TABLES
      ensures other == this ==>
                Owns() == old(Owns()).(
                  refInputs := null, refOutputs := null, serverStatuses := null, serverTransactions := null,
                  clientStatuses := null, clientTransactions := null)
    {
      Assign(other);
      serverState := stateValue;
    }
  }

  // ----- the event functions -----

  /** How every event function ends: the input moves into a local handle of type body, which is returned. */
  method Passed(input: BasicHandle, from: Phase, body: Phase) returns (output: BasicHandle)
    requires input.Live() && input.serverState == from
    modifies input
    ensures fresh(output) && output.Live()
    ensures output.Owns() == old(input.Owns()) && output.Holds() == old(input.Holds()) && output.serverState == body
    ensures output.Value() == old(input.Value()).(phase := body)
    ensures Sent(output.Owns()) == old(Sent(input.Owns()))
    ensures input.Owns() == NO_ENDS && input.Holds() == NO_TABLES
  {
    var local := BasicHandle.Convert(input, from);
    output := BasicHandle.Convert(local, body);
  }

  method RefSpawned(input: BasicHandle, halfDuration: nat) returns (output: BasicHandle)
    requires input.Live() && input.serverState == Waiting
    modifies input, input.refInputProducer
    ensures fresh(output) && output.Live() && output.serverState == Waiting
    ensures output.Owns() == old(input.Owns()) && output.Holds() == old(input.Holds())
    ensures output.Value() == old(input.Value())
    ensures Sent(output.Owns()) == Append(old(Sent(input.Owns())), NOTHING.(toReferee := [Rules(halfDuration)]))
  {
    input.refInputProducer.Push(Rules(halfDuration));
    output := Passed(input, Waiting, Waiting);
  }

  method HandleRegistration(input: BasicHandle, current: Phase, client: EndpointId, details: Registration)
    returns (output: BasicHandle)
    requires input.Live() && input.serverState == current && input.enrollment != null
    modifies input, input.enrollment, input.refInputProducer, input.serverTransProducer
    ensures fresh(output) && output.Live() && output.serverState == current
    ensures output.Owns() == old(input.Owns()) && output.Holds() == old(input.Holds())
    ensures output.Value() == RegistrationRequested(old(input.Value()), client, details).0
    ensures Sent(output.Owns())
         == Append(old(Sent(input.Owns())), RegistrationRequested(old(input.Value()), client, details).1)
  {
    Enroll(input, client, details);
    output := Passed(input, current, current);
  }

  method Enroll(input: BasicHandle, client: EndpointId, details: Registration)
    requires input.Live() && input.enrollment != null
    modifies input.enrollment, input.refInputProducer, input.serverTransProducer
    ensures input.Live()
    ensures input.Value() == RegistrationRequested(old(input.Value()), client, details).0
    ensures Sent(input.Owns())
         == Append(old(Sent(input.Owns())), RegistrationRequested(old(input.Value()), client, details).1)
  {
    var result := input.enrollment.RegisterClient(client, details);
    if result == RegisterSuccess {
      input.refInputProducer.Push(RefRegistration(client, details));
    } else {
      input.serverTransProducer.Push(Mail(client, RegError(result)));
    }
  }

  method HandleRosterFinalised(input: BasicHandle) returns (output: BasicHandle)
    requires input.Live() && input.serverState == Waiting
    requires input.enrollment != null && Full(input.enrollment.Value())
    modifies input, input.serverTransProducer
    ensures fresh(output) && output.Live() && output.serverState == OnBreak
    ensures output.Owns() == old(input.Owns()) && output.monitor == old(input.monitor)
    ensures output.enrollment == null && output.roster != null && fresh(output.roster.Repr())
    ensures output.Value() == RosterIsFinalised(old(input.Value())).0
    ensures Sent(output.Owns()) == Append(old(Sent(input.Owns())), RosterIsFinalised(old(input.Value())).1)
  {
    var roster := input.enrollment.Finalise();
    output := ReleaseRoster(input, roster, roster.Value());
  }

  /** The part of the event after finalising. */
  method ReleaseRoster(input: BasicHandle, roster: RosterTable, ghost r: Sheet) returns (output: BasicHandle)
    requires input.Live() && input.serverState == Waiting
    requires roster.Valid() && roster.Value() == r
    modifies input, input.serverTransProducer
    ensures fresh(output) && output.Live() && output.serverState == OnBreak
    ensures output.Owns() == old(input.Owns()) && output.monitor == old(input.monitor)
    ensures output.enrollment == null && output.roster == roster
    ensures output.Value()
         == old(input.Value()).(phase := OnBreak, enrollment := None, roster := Some(r), game := true)
    ensures Sent(output.Owns()) == Append(old(Sent(input.Owns())), NOTHING.(transactions := Acks(r)))
  {
    InstallRoster(input, roster, r);
    Acknowledge(input, r);
    output := Passed(input, Waiting, OnBreak);
    StartGame(output);
  }

  method InstallRoster(input: BasicHandle, roster: RosterTable, ghost r: Sheet)
    requires input.Live() && roster.Valid() && roster.Value() == r
    modifies input`roster, input`enrollment
    ensures input.Live() && input.Owns() == old(input.Owns()) && Sent(input.Owns()) == old(Sent(input.Owns()))
    ensures input.enrollment == null && input.roster == roster
    ensures input.Value() == old(input.Value()).(enrollment := None, roster := Some(r))
  {
    input.roster := roster;
    input.enrollment := null;
  }

  method StartGame(output: BasicHandle)
    requires output.Live()
    modifies output`gameState
    ensures output.Live() && output.Value() == old(output.Value()).(game := true)
    ensures output.Owns() == old(output.Owns()) && Sent(output.Owns()) == old(Sent(output.Owns()))
  {
    output.gameState := new GameState();
  }

  method Acknowledge(input: BasicHandle, ghost r: Sheet)
    requires input.Live() && input.roster != null && input.roster.Value() == r
    modifies input.serverTransProducer
    ensures input.Live() && input.Value() == old(input.Value())
    ensures Sent(input.Owns()) == Append(old(Sent(input.Owns())), NOTHING.(transactions := Acks(r)))
  {
    SendAcks(input.roster, input.serverTransProducer);
  }

  method SendAcks(roster: RosterTable, queue: Queue<Mail<ServerTransaction>>)
    requires roster.Valid()
    modifies queue
    ensures queue.items == old(queue.items) + Acks(roster.Value())
  {
    for i := 0 to roster.players.Length
      invariant queue.items == old(queue.items) + Acks(roster.Value())[..i]
    {
      var (number, team) := IdToUniform(i);
      queue.Push(Mail(roster.players[i], RegAck(number, team, OutField)));
    }
  }

  method HandlePingTimedOut(input: BasicHandle, now: int) returns (output: BasicHandle)
    requires input.Live() && input.serverState == OnBreak
    requires input.roster != null && SafeTransmit(input.monitor.State())
    modifies input, input.monitor, input.serverStatusProducer
    ensures fresh(output) && output.Live() && output.serverState == OnBreak
    ensures output.Owns() == old(input.Owns()) && output.Holds() == old(input.Holds())
    ensures output.Value() == PingTimedOut(old(input.Value()), now).0
    ensures Sent(output.Owns()) == Append(old(Sent(input.Owns())), PingTimedOut(old(input.Value()), now).1)
  {
    var sequenceNum := input.monitor.RecordTransmit(now);
    SendPings(input.roster, sequenceNum, input.serverStatusProducer);
    output := Passed(input, OnBreak, OnBreak);
  }

  method SendPings(roster: RosterTable, sequenceNum: SequenceNum, queue: Queue<Mail<ServerStatus>>)
    requires roster.Valid()
    modifies queue
    ensures queue.items == old(queue.items) + Pings(roster.Value(), sequenceNum)
  {
    for i := 0 to roster.players.Length
      invariant queue.items == old(queue.items) + Pings(roster.Value(), sequenceNum)[..i]
    {
      queue.Push(Mail(roster.players[i], PingStatus(sequenceNum)));
    }
  }

  method HandleReceivedPong(input: BasicHandle, client: EndpointId, pong: Pong) returns (output: BasicHandle)
    requires input.Live() && input.serverState == OnBreak
    modifies input, input.monitor
    ensures fresh(output) && output.Live() && output.serverState == OnBreak
    ensures output.Owns() == old(input.Owns()) && output.Holds() == old(input.Holds())
    ensures output.Value() == old(input.Value()).(clock := Receive(old(input.Value()).clock, client, pong))
    ensures Sent(output.Owns()) == old(Sent(input.Owns()))
  {
    input.monitor.RecordReceive(client, pong.sequenceNum, pong.clientTime, pong.receiveTime);
    output := Passed(input, OnBreak, OnBreak);
  }
}
