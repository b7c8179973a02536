/** The messages between clients, server and referee, and the queues that carry them. */
module Messages {
  import opened Endpoint
  import opened Entity
  import opened Monitor
  import opened Enrollment

  datatype RefInput = Rules(halfDuration: nat) | RefRegistration(client: EndpointId, details: Registration)

  datatype RefOutput = RefReady | RosterFinalised | FieldOpen | MatchClose | MatchAbort | PlayJudgement | RefCrashed

  datatype ClientTransaction = RegistrationRequest(details: Registration) | PlayerAction | Disconnect

  datatype ClientStatus = PlayerStatus | PongStatus(pong: Pong) | PlayerAndPong

  datatype ServerTransaction =
    | RegAck(uniform: UniformNumber, team: TeamId, playerType: PlayerType)
    | RegError(error: RegisterResult)
    | FieldOpened
    | MatchClosed
    | MatchAborted
    | PlayJudged
    | ServerDisconnect
    | OtherTransaction

  datatype ServerStatus = Snapshot | PingStatus(sequenceNum: SequenceNum) | SnapshotAndPing

  datatype BotOutput = BotAction | BotQuery | BotCrash | BotShutDown | OtherOutput

  /** What a bot is told is not part of this model. */
  datatype BotInput = BotInput

  /** A message and the endpoint it is addressed to. */
  datatype Mail<T> = Mail(to: EndpointId, body: T)

  /** A message and the endpoint it came from. */
  datatype Received<T> = Received(source: EndpointId, body: T)

  /** A queue between two threads, as the sequence of its messages. A full queue is not modelled: senders retry
      until there is room. */
  class Queue<T> {
    var items: seq<T>

    constructor ()
      ensures items == []
    {
      items := [];
    }

    method Push(item: T)
      modifies this
      ensures items == old(items) + [item]
    {
      items := items + [item];
    }

    method Pop() returns (item: T)
      requires items != []
      modifies this
      ensures [item] + items == old(items)
    {
      item, items := items[0], items[1..];
    }
  }

  /** Stands for a pool of message buffers. */
  class BufferPool {
    constructor () {}
  }

  /** Stands for the state of the game on the field, which is not part of this model. */
  class GameState {
    constructor () {}
  }
}
