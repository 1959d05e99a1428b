/** The event handler: a locked event vector, its wake-up state, and the batch the run loop works on. */
module EventQueue {

  datatype Event = Event(id: int, param: string)

  datatype State = State(queue: seq<Event>, signalled: bool, batch: seq<Event>, index: nat, handled: seq<Event>)

  /** The atomic sections; events added by handlers while a batch runs are `Add` steps like any other. */
  datatype Step = Add(event: Event) | Wake | Dispatch

  const INITIAL := State([], false, [], 0, [])

  predicate Enabled(s: State, step: Step) {
    match step
    case Add(_) => true
    case Wake => s.index >= |s.batch| && s.signalled
    case Dispatch => s.index < |s.batch|
  }

  function Next(s: State, step: Step): State
    requires Enabled(s, step)
  {
    match step
    case Add(e) => s.(queue := s.queue + [e], signalled := true)
    case Wake => s.(queue := [], signalled := false, batch := s.queue, index := 0)
    case Dispatch => s.(index := s.index + 1, handled := s.handled + [s.batch[s.index]])
  }

  /** Handled events, then the rest of the batch, then the queue. */
  function InOrder(s: State): seq<Event> {
    s.handled + (if s.index <= |s.batch| then s.batch[s.index..] else []) + s.queue
  }

  predicate Inv(s: State) {
    s.index <= |s.batch| && (s.queue != [] ==> s.signalled)
  }

  function Added(steps: seq<Step>): seq<Event> {
    if steps == [] then []
    else
      var last := steps[|steps| - 1];
      Added(steps[..|steps| - 1]) + if last.Add? then [last.event] else []
  }

  ghost predicate IsRun(states: seq<State>, steps: seq<Step>) {
    && |states| == |steps| + 1 && states[0] == INITIAL
    && forall i | 0 <= i < |steps| :: Enabled(states[i], steps[i]) && states[i + 1] == Next(states[i], steps[i])
  }

  /** In every run nothing is lost, repeated or reordered, and a non-empty queue is always signalled, so the
      run loop never sleeps on it. */
  lemma {:induction false} RunKeepsOrder(states: seq<State>, steps: seq<Step>)
    requires IsRun(states, steps)
    ensures InOrder(states[|steps|]) == Added(steps)
    ensures Inv(states[|steps|])
  {
    if steps != [] {
      var n := |steps| - 1;
      RunKeepsOrder(states[..n + 1], steps[..n]);
      StepKeepsOrder(states[n], steps[n]);
    }
  }

  lemma StepKeepsOrder(s: State, step: Step)
    requires Inv(s) && Enabled(s, step)
    ensures Inv(Next(s, step))
    ensures InOrder(Next(s, step)) == InOrder(s) + if step.Add? then [step.event] else []
  {
    if step.Dispatch? {
      assert s.batch[s.index..] == [s.batch[s.index]] + s.batch[s.index + 1..];
    }
  }

  /** When the loop is about to sleep, every event added so far has been handled, in order. */
  lemma SleepsOnlyWhenDone(states: seq<State>, steps: seq<Step>)
    requires IsRun(states, steps)
    requires var s := states[|steps|]; s.index >= |s.batch| && !s.signalled
    ensures states[|steps|].handled == Added(steps)
  {
    RunKeepsOrder(states, steps);
  }

  class EventHandler {
    var vectorEvent: seq<Event>
    var signalled: bool
    var vectorTemp: seq<Event>
    var index: nat
    ghost var handled: seq<Event>

    ghost function Abs(): State
      reads this
    {
      State(vectorEvent, signalled, vectorTemp, index, handled)
    }

    constructor ()
      ensures Abs() == INITIAL
    {
      vectorEvent, signalled, vectorTemp, index, handled := [], false, [], 0, [];
    }

    method AddEvent(event: Event)
      modifies this`vectorEvent, this`signalled
      ensures Abs() == Next(old(Abs()), Add(event))
    {
      signalled := true;
      vectorEvent := vectorEvent + [event];
    }

    /** The locked section of `run`. An empty queue leaves the old batch in place, which has been worked off. */
    method TakeBatch() returns (eventCount: nat)
      requires Inv(Abs()) && Enabled(Abs(), Wake)
      modifies this`vectorEvent, this`signalled, this`vectorTemp, this`index
      ensures eventCount == |old(vectorEvent)| && Abs() == Next(old(Abs()), Wake)
    {
      eventCount := |vectorEvent|;
      vectorTemp := [];
      if 0 < eventCount {
        vectorTemp := vectorEvent;
        vectorEvent := [];
      }
      index := 0;
      signalled := false;
    }

    /** One turn of the batch loop, up to the call of the handler. */
    method DispatchNext() returns (event: Event)
      requires Enabled(Abs(), Dispatch)
      modifies this`index, this`handled
      ensures event == old(vectorTemp[index]) && Abs() == Next(old(Abs()), Dispatch)
    {
      event := vectorTemp[index];
      index := index + 1;
      handled := handled + [event];
    }
  }
}
