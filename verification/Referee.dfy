/** The referee: a replica of the server's enrollment that announces when the roster is final. */
module Referee {
  import opened Endpoint
  import opened Roster
  import opened Enrollment
  import opened Finalise
  import opened Messages
  import opened Sequences
  import T = EnrollmentTable

  /** The abstract value of a referee. */
  datatype RefereeState = RefereeState(enrollment: Option<Book>, roster: Option<Sheet>, playing: bool)

  const INITIAL_REFEREE := RefereeState(Some(EMPTY_BOOK), None, false)

  /** A registration dereferences the enrollment, which is dropped when the roster is final. */
  predicate Accepts(s: RefereeState, input: RefInput) {
    input.RefRegistration? ==> s.enrollment.Some?
  }

  ghost function Adjudicate(s: RefereeState, input: RefInput): (RefereeState, seq<RefOutput>)
    requires Accepts(s, input)
  {
    match input
    case Rules(_) => (s, [])
    case RefRegistration(client, details) =>
      var book := Register(s.enrollment.value, client, details).0;
      if Full(book) then (RefereeState(None, Some(Finalised(book)), true), [RosterFinalised])
      else (s.(enrollment := Some(book)), [])
  }

  ghost predicate AcceptsAll(s: RefereeState, inputs: seq<RefInput>)
    decreases |inputs|
  {
    inputs == [] || (Accepts(s, inputs[0]) && AcceptsAll(Adjudicate(s, inputs[0]).0, inputs[1..]))
  }

  ghost function AdjudicateAll(s: RefereeState, inputs: seq<RefInput>): (RefereeState, seq<RefOutput>)
    requires AcceptsAll(s, inputs)
    decreases |inputs|
  {
    if inputs == [] then (s, []) else
      var (next, output) := Adjudicate(s, inputs[0]);
      var (last, outputs) := AdjudicateAll(next, inputs[1..]);
      (last, output + outputs)
  }

  /** Having sent some outputs for a part of the inputs, the rest of the work completes it. */
  ghost predicate Draining(
      start: RefereeState, all: seq<RefInput>, sent: seq<RefOutput>, s: RefereeState, rest: seq<RefInput>)
  {
    && AcceptsAll(start, all) && AcceptsAll(s, rest)
    && AdjudicateAll(start, all).0 == AdjudicateAll(s, rest).0
    && AdjudicateAll(start, all).1 == sent + AdjudicateAll(s, rest).1
  }

  lemma DrainStep(
      start: RefereeState, all: seq<RefInput>, sent: seq<RefOutput>,
      s: RefereeState, first: RefInput, rest: seq<RefInput>)
    requires Draining(start, all, sent, s, [first] + rest)
    ensures Accepts(s, first)
    ensures Draining(start, all, sent + Adjudicate(s, first).1, Adjudicate(s, first).0, rest)
  {
    assert ([first] + rest)[1..] == rest;
  }

  class Referee {
    var enrollment: T.EnrollmentTable?
    var roster: RosterTable?
    var gameState: GameState?

    ghost predicate Valid()
      reads this, if roster == null then {} else roster.Repr()
    {
      roster != null ==> roster.Valid()
    }

    ghost function Value(): RefereeState
      reads this, enrollment
      reads if roster == null then {} else roster.Repr()
    {
      RefereeState(
        if enrollment == null then None else Some(enrollment.Value()),
        if roster == null then None else Some(roster.Value()),
        gameState != null)
    }

    constructor ()
      ensures Valid() && fresh(enrollment) && Value() == INITIAL_REFEREE
    {
      enrollment := new T.EnrollmentTable();
      roster, gameState := null, null;
    }

    /** Drains the input queue. */
    method Process(input: Queue<RefInput>, output: Queue<RefOutput>)
      requires Valid() && AcceptsAll(Value(), input.items)
      requires input as object != output as object
      modifies this, enrollment, input, output
      ensures Valid() && input.items == []
      ensures Value() == AdjudicateAll(old(Value()), old(input.items)).0
      ensures output.items == old(output.items) + AdjudicateAll(old(Value()), old(input.items)).1
      ensures enrollment == null || enrollment == old(enrollment)
    {
      ghost var start, all := Value(), input.items;
      ghost var sent: seq<RefOutput> := [];
      while |input.items| > 0
        invariant Valid() && (enrollment == null || enrollment == old(enrollment))
        invariant output.items == old(output.items) + sent
        invariant Draining(start, all, sent, Value(), input.items)
        decreases |input.items|
      {
        ghost var added := ProcessNext(input, output, start, all, sent);
        Associates(old(output.items), sent, added);
        sent := sent + added;
      }
    }

    /** Takes one input from the queue. */
    method ProcessNext(
        input: Queue<RefInput>, output: Queue<RefOutput>, ghost start: RefereeState, ghost all: seq<RefInput>,
        ghost sent: seq<RefOutput>) returns (ghost added: seq<RefOutput>)
      requires Valid() && input.items != [] && input as object != output as object
      requires Draining(start, all, sent, Value(), input.items)
      modifies this, enrollment, input, output
      ensures Valid() && (enrollment == null || enrollment == old(enrollment))
      ensures input.items == old(input.items)[1..]
      ensures output.items == old(output.items) + added
      ensures Draining(start, all, sent + added, Value(), input.items)
    {
      ghost var before, pending := Value(), input.items;
      var statement := input.Pop();
      assert pending == [statement] + input.items;
      DrainStep(start, all, sent, before, statement, input.items);
      ProcessOne(statement, output);
      assert Valid();
      added := Adjudicate(before, statement).1;
    }

    method ProcessOne(input: RefInput, output: Queue<RefOutput>)
      requires Valid() && Accepts(Value(), input)
      modifies this, enrollment, output
      ensures Valid() && (enrollment == null || enrollment == old(enrollment))
      ensures Value() == Adjudicate(old(Value()), input).0
      ensures output.items == old(output.items) + Adjudicate(old(Value()), input).1
    {
      match input {
        case Rules(_) =>
        case RefRegistration(client, details) => ProcessRegistration(client, details, output);
      }
    }

    method ProcessRegistration(client: EndpointId, details: Registration, output: Queue<RefOutput>)
      requires Valid() && enrollment != null
      modifies this, enrollment, output
      ensures Valid() && (enrollment == null || enrollment == old(enrollment))
      ensures Value() == Adjudicate(old(Value()), RefRegistration(client, details)).0
      ensures output.items == old(output.items) + Adjudicate(old(Value()), RefRegistration(client, details)).1
    {
      ghost var book := Register(enrollment.Value(), client, details).0;
      var result := enrollment.RegisterClient(client, details);
      assert enrollment.Value() == book;
      var full := enrollment.IsFull();
      if full {
        output.Push(RosterFinalised);
        roster := enrollment.Finalise();
        enrollment := null;
        gameState := new GameState();
        assert Value() == RefereeState(None, Some(Finalised(book)), true);
      }
    }
  }
}
