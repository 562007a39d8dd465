/** Replaying a history: the left fold of an evolve function over events,
    stopping at the first event that fails. */
module Projection {
  import opened Wrappers
  import opened BankAccounts

  function Replay(evolve: (Event, State) -> Result<State, Error>, state: State, events: seq<Event>): Result<State, Error>
    decreases |events|
  {
    if events == [] then Success(state)
    else
      var next :- evolve(events[0], state);
      Replay(evolve, next, events[1..])
  }

  /** One step of a replay: the first event, then the rest. */
  lemma ReplayStep(evolve: (Event, State) -> Result<State, Error>, state: State, events: seq<Event>, next: State)
    requires events != [] && evolve(events[0], state) == Success(next)
    ensures Replay(evolve, state, events) == Replay(evolve, next, events[1..])
  {
  }

  /** Replaying two histories one after the other is replaying their concatenation. */
  lemma {:induction false} ReplayConcat(evolve: (Event, State) -> Result<State, Error>, state: State, first: seq<Event>, second: seq<Event>)
    ensures Replay(evolve, state, first + second) ==
      match Replay(evolve, state, first)
      case Success(middle) => Replay(evolve, middle, second)
      case Failure(e) => Failure(e)
    decreases |first|
  {
    if first == [] {
      assert first + second == second;
    } else {
      assert (first + second)[0] == first[0];
      assert (first + second)[1..] == first[1..] + second;
      if evolve(first[0], state).Success? {
        ReplayConcat(evolve, evolve(first[0], state).value, first[1..], second);
      }
    }
  }
}
