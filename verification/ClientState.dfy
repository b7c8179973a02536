/** What a client does with each message, as a function on its abstract state. */
module ClientState {
  import opened Entity
  import opened Monitor
  import opened Messages
  import opened Roster

  datatype Phase = Unregistered | OnBench | Playing

  datatype PlayerConfig = PlayerConfig(
    playerId: PlayerId, uniform: UniformNumber, team: TeamId, playerType: PlayerType)

  datatype State = State(phase: Phase, game: Option<PlayerConfig>)

  const INITIAL_STATE := State(Unregistered, None)

  datatype Event =
    | FromBot(output: BotOutput)
    | StatusFromServer(status: ServerStatus, now: int)
    | FromServer(transaction: ServerTransaction)

  /** The player a client becomes on an acknowledgement. */
  function ConfigOf(uniform: UniformNumber, team: TeamId, playerType: PlayerType): PlayerConfig {
    PlayerConfig(UniformToId(uniform, team), uniform, team, playerType)
  }

  /** The next state, and the number of the ping that is answered, if any. */
  function Dispatch(s: State, e: Event): (State, Option<SequenceNum>) {
    match e
    case FromBot(output) =>
      (if s.phase.Playing? && output.BotCrash? then s.(phase := OnBench) else s, None)
    case StatusFromServer(status, _) =>
      (s, if s.phase.OnBench? && status.PingStatus? then Some(status.sequenceNum) else None)
    case FromServer(transaction) =>
      (match s.phase
       case Unregistered =>
         if transaction.RegAck?
         then State(OnBench, Some(ConfigOf(transaction.uniform, transaction.team, transaction.playerType)))
         else s
       case OnBench =>
         if transaction.FieldOpened? then s.(phase := Playing)
         else if transaction.MatchAborted? || transaction.ServerDisconnect? then s.(phase := Unregistered)
         else s
       case Playing =>
         if transaction.MatchClosed? || transaction.MatchAborted? || transaction.ServerDisconnect?
         then s.(phase := Unregistered)
         else s,
       None)
  }

  ghost function StateAfter(events: seq<Event>): State {
    if events == [] then INITIAL_STATE
    else Dispatch(StateAfter(events[..|events| - 1]), events[|events| - 1]).0
  }

  /** The acknowledgement that was handled last, that is, received while unregistered. */
  ghost function LastAck(events: seq<Event>): Option<ServerTransaction> {
    if events == [] then None else
      var before, e := events[..|events| - 1], events[|events| - 1];
      if StateAfter(before).phase.Unregistered? && e.FromServer? && e.transaction.RegAck?
      then Some(e.transaction)
      else LastAck(before)
  }

  /** On the bench and while playing there is a game, and it is always that of the last acknowledgement handled,
      under the identifier that names this uniform of this team on the roster. */
  lemma {:induction false} LifeCycle(events: seq<Event>)
    ensures var s := StateAfter(events);
            && (!s.phase.Unregistered? ==> s.game.Some?)
            && (s.game.Some? <==> LastAck(events).Some?)
            && (s.game.Some? ==>
                  var PlayerConfig(id, uniform, team, playerType) := s.game.value;
                  && LastAck(events).value == RegAck(uniform, team, playerType)
                  && id < MAX_ROSTER_SIZE && IdToUniform(id) == (uniform, team))
  {
    if events != [] {
      var before, e := events[..|events| - 1], events[|events| - 1];
      LifeCycle(before);
      if e.FromServer? && e.transaction.RegAck? {
        UniformRoundTrip(e.transaction.uniform, e.transaction.team);
      }
    }
  }

  // ----- the phases of a run -----

  /** Ends the play: the bot crashes, the match is closed or aborted, or the server disconnects. */
  predicate EndsPlay(e: Event) {
    || e == FromBot(BotCrash)
    || e == FromServer(MatchClosed) || e == FromServer(MatchAborted) || e == FromServer(ServerDisconnect)
  }

  /** Ends the stay on the bench: the field is opened, the match is aborted, or the server disconnects. */
  predicate EndsBench(e: Event) {
    e == FromServer(FieldOpened) || e == FromServer(MatchAborted) || e == FromServer(ServerDisconnect)
  }

  /** A client on the bench learns that the field is open. */
  ghost predicate StartsPlay(events: seq<Event>, i: nat)
    requires i < |events|
  {
    StateAfter(events[..i]).phase.OnBench? && events[i] == FromServer(FieldOpened)
  }

  /** An unregistered client is acknowledged, or the bot of a playing one crashes. */
  ghost predicate StartsBench(events: seq<Event>, i: nat)
    requires i < |events|
  {
    || (StateAfter(events[..i]).phase.Unregistered? && events[i].FromServer? && events[i].transaction.RegAck?)
    || (StateAfter(events[..i]).phase.Playing? && events[i] == FromBot(BotCrash))
  }

  ghost predicate PlayGoesOn(events: seq<Event>) {
    exists i | 0 <= i < |events| :: StartsPlay(events, i) && forall j | i < j < |events| :: !EndsPlay(events[j])
  }

  ghost predicate BenchGoesOn(events: seq<Event>) {
    exists i | 0 <= i < |events| :: StartsBench(events, i) && forall j | i < j < |events| :: !EndsBench(events[j])
  }

  lemma PlayLast(before: seq<Event>, e: Event)
    ensures PlayGoesOn(before + [e])
            <==> (PlayGoesOn(before) && !EndsPlay(e))
                 || (StateAfter(before).phase.OnBench? && e == FromServer(FieldOpened))
  {
    var events := before + [e];
    assert events[..|before|] == before;
    assert forall k | 0 <= k <= |before| :: events[..k] == before[..k];
    if PlayGoesOn(before) && !EndsPlay(e) {
      var i :| 0 <= i < |before| && StartsPlay(before, i) && forall j | i < j < |before| :: !EndsPlay(before[j]);
      assert StartsPlay(events, i);
    }
    if StateAfter(before).phase.OnBench? && e == FromServer(FieldOpened) {
      assert StartsPlay(events, |before|);
    }
    if PlayGoesOn(events) {
      var i :| 0 <= i < |events| && StartsPlay(events, i) && forall j | i < j < |events| :: !EndsPlay(events[j]);
      if i < |before| {
        assert StartsPlay(before, i) && !EndsPlay(events[|before|]);
        assert forall j | i < j < |before| :: before[j] == events[j];
      }
    }
  }

  lemma BenchLast(before: seq<Event>, e: Event)
    ensures BenchGoesOn(before + [e])
            <==> (BenchGoesOn(before) && !EndsBench(e))
                 || (StateAfter(before).phase.Unregistered? && e.FromServer? && e.transaction.RegAck?)
                 || (StateAfter(before).phase.Playing? && e == FromBot(BotCrash))
  {
    var events := before + [e];
    assert events[..|before|] == before;
    assert forall k | 0 <= k <= |before| :: events[..k] == before[..k];
    if BenchGoesOn(before) && !EndsBench(e) {
      var i :| 0 <= i < |before| && StartsBench(before, i) && forall j | i < j < |before| :: !EndsBench(before[j]);
      assert StartsBench(events, i);
    }
    if StartsBench(events, |before|) {
      assert BenchGoesOn(events);
    }
    if BenchGoesOn(events) {
      var i :| 0 <= i < |events| && StartsBench(events, i) && forall j | i < j < |events| :: !EndsBench(events[j]);
      if i < |before| {
        assert StartsBench(before, i) && !EndsBench(events[|before|]);
        assert forall j | i < j < |before| :: before[j] == events[j];
      }
    }
  }

  /** A client is playing exactly if it learned on the bench that the field is open and nothing has ended the play
      since, and on the bench exactly if it was acknowledged or its bot crashed and nothing has ended that since. */
  lemma {:induction false} PhaseOfRun(events: seq<Event>)
    ensures StateAfter(events).phase.Playing? <==> PlayGoesOn(events)
    ensures StateAfter(events).phase.OnBench? <==> BenchGoesOn(events)
  {
    if events != [] {
      var before, e := events[..|events| - 1], events[|events| - 1];
      assert events == before + [e];
      PhaseOfRun(before);
      PlayLast(before, e);
      BenchLast(before, e);
    }
  }
}
