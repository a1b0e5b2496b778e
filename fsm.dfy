/** The finite state machine component: `MachineState`, `Transition`,
    `NeutralTransition` and the driver `FiniteStateMachineComponent`.
    What the driver makes observable (hook calls, events and errors) is appended to
    its `log`; the states the scene tree holds are handed to `Ready` as a list. */
module FiniteStateMachine {
  import opened Common
  import opened Text

  /** The optional parameter dictionary of a change request; its values are modelled as
      strings. */
  type Parameters = map<string, string>

  // ---------------------------------------------------------------------
  // MachineState

  /** A state node. Its hooks are empty unless a subclass overrides them; the driver
      records each call it makes in its log. */
  class MachineState {
    const name: string
    /** The back-reference the driver sets on registration. */
    var fsm: FiniteStateMachineComponent?
    /** Whether the node processes (`Enable()`/`Disable()`). */
    var enabled: bool

    constructor(name: string)
      ensures this.name == name && fsm == null && enabled
    {
      this.name := name;
      fsm := null;
      enabled := true;
    }

    method Ready() {
    }

    method Enter() {
    }

    method Exit(nextState: MachineState) {
    }

    method HandleInput(inputEvent: InputEvent) {
    }

    method PhysicsUpdate(delta: real) {
    }

    method Update(delta: real) {
    }
  }

  datatype InputEvent = InputEvent(description: string)

  // ---------------------------------------------------------------------
  // Transition and NeutralTransition

  /** A guard: what `ShouldTransition` decides from the scratch fields. */
  type Guard = (MachineState?, MachineState?, Option<Parameters>) -> bool

  const ALWAYS: Guard := (from: MachineState?, to: MachineState?, parameters: Option<Parameters>) => true

  /** A transition object. `className` is its runtime class name, under which
      `RegisterTransition` files it; `guard` is its `ShouldTransition`; its
      `OnTransition` effect is recorded in the driver's log. */
  class Transition {
    const className: string
    const guard: Guard
    var fromState: MachineState?
    var toState: MachineState?
    var parameters: Option<Parameters>

    /** A subclass instance: scratch fields start empty. A bare `Transition` is
        `Transition("Transition", ALWAYS)`. */
    constructor(className: string, guard: Guard)
      ensures this.className == className && this.guard == guard
      ensures fromState == null && toState == null && parameters.None?
    {
      this.className := className;
      this.guard := guard;
      fromState := null;
      toState := null;
      parameters := None;
    }

    /** `new NeutralTransition()`: always allows the change. */
    constructor Neutral()
      ensures className == "NeutralTransition" && guard == ALWAYS
      ensures fromState == null && toState == null && parameters.None?
    {
      className := "NeutralTransition";
      guard := ALWAYS;
      fromState := null;
      toState := null;
      parameters := None;
    }

    predicate ShouldTransition()
      reads this
    {
      guard(fromState, toState, parameters)
    }

    /** The scratch fields `RunTransition` fills in before asking the guard. */
    method Bind(from: MachineState?, to: MachineState?, parameters: Option<Parameters>)
      modifies this
      ensures fromState == from && toState == to && this.parameters == parameters
    {
      fromState := from;
      toState := to;
      this.parameters := parameters;
    }

    /** The effect; the driver records the call. */
    method OnTransition() {
    }
  }

  // ---------------------------------------------------------------------
  // The driver

  datatype FsmEvent =
    | StateChanged(from: MachineState?, to: MachineState?)
    | StateChangeFailed(from: MachineState?, to: MachineState?)
    | StackPushed(newState: MachineState, stack: seq<MachineState>)
    | StackFlushed(stack: seq<MachineState>)
    | ReadyCalled(state: MachineState)
    | EnterCalled(state: MachineState)
    | ExitCalled(state: MachineState, nextState: MachineState)
    | OnTransitionCalled(transition: Transition)
    | HandleInputCalled(state: MachineState, inputEvent: InputEvent)
    | PhysicsUpdateCalled(state: MachineState, delta: real)
    | UpdateCalled(state: MachineState, delta: real)
    | UnknownStateError(name: string)
    | MissingInitialStateError

  /** Which branch a change request took. */
  datatype ChangeOutcome =
    | UnknownState      // the name is not a registered key: an error is reported
    | AlreadyCurrent    // the request names the current state
    | NoCurrentState    // the object overload with no current state does nothing
    | Crashed           // a missing current state is dereferenced
    | Busy              // the generic overload refuses while a change is under way
    | Changed           // the transition ran and its guard allowed the change
    | Refused           // the transition ran and its guard refused the change

  /** The history stack after `PushStateToStack(state)`. */
  function StackAfterPush(stack: seq<MachineState>, state: MachineState, enableStack: bool,
                          capacity: int, flushWhenFull: bool): (r: seq<MachineState>)
    ensures !(enableStack && capacity > 0) ==> r == stack
    ensures enableStack && capacity > 0 ==> |r| >= 1 && r[|r| - 1] == state
    ensures enableStack && capacity > 0 && |stack| <= capacity ==> |r| <= capacity
    ensures enableStack && capacity > 0 && |stack| < capacity ==> r == stack + [state]
    ensures enableStack && capacity > 0 && |stack| >= capacity && flushWhenFull ==> r == [state]
    ensures enableStack && capacity > 0 && |stack| >= capacity && !flushWhenFull ==> r == stack[1..] + [state]
  {
    if enableStack && capacity > 0 then
      if |stack| >= capacity then
        if flushWhenFull then [state] else stack[1..] + [state]
      else stack + [state]
    else stack
  }

  /** The events of `PushStateToStack(state)`: `StackFlushed` with the emptied stack
      when a full stack is flushed, then `StackPushed` with the new stack. */
  function StackEvents(stack: seq<MachineState>, state: MachineState, enableStack: bool,
                       capacity: int, flushWhenFull: bool): (r: seq<FsmEvent>)
    ensures !(enableStack && capacity > 0) <==> r == []
    ensures r != [] ==> r[|r| - 1] == StackPushed(state, StackAfterPush(stack, state, enableStack, capacity, flushWhenFull))
    ensures |r| == 2 <==> enableStack && capacity > 0 && |stack| >= capacity && flushWhenFull
    ensures |r| == 2 ==> r[0] == StackFlushed([])
  {
    if enableStack && capacity > 0 then
      (if |stack| >= capacity && flushWhenFull then [StackFlushed([])] else [])
      + [StackPushed(state, StackAfterPush(stack, state, enableStack, capacity, flushWhenFull))]
    else []
  }

  /** The common tail of both keys into `to`: "To", the trimmed name, "Transition". */
  function TransitionNameTail(to: MachineState): string {
    "To" + Trim(to.name) + "Transition"
  }

  /** The key of the transition specific to the pair. */
  function SpecificTransitionName(from: MachineState, to: MachineState): string {
    Trim(from.name) + TransitionNameTail(to)
  }

  /** The key of the wildcard transition into `to`. */
  function WildcardTransitionName(to: MachineState): string {
    "Any" + TransitionNameTail(to)
  }

  lemma CancelSuffix(a: string, b: string, s: string)
    requires a + s == b + s
    ensures a == b
  {
    assert |a| == |b|;
    assert a == (a + s)[..|a|];
    assert b == (b + s)[..|b|];
  }

  /** The two keys coincide only for a source state whose trimmed name is "Any". */
  lemma SpecificIsWildcardOnlyFromAny(from: MachineState, to: MachineState)
    ensures SpecificTransitionName(from, to) == WildcardTransitionName(to) <==> Trim(from.name) == "Any"
  {
    if SpecificTransitionName(from, to) == WildcardTransitionName(to) {
      CancelSuffix(Trim(from.name), "Any", TransitionNameTail(to));
    }
  }

  class FiniteStateMachineComponent {
    // The exported settings.
    const enableStack: bool
    const stackCapacity: int
    const flushStackWhenReachCapacity: bool

    var currentState: MachineState?
    var states: map<string, MachineState>
    var transitions: map<string, Transition>
    var statesStack: seq<MachineState>
    var isTransitioning: bool
    /** Whether `OnStateChanged` and `OnStateChangeFailed` are subscribed. */
    var handlersSubscribed: bool
    /** What the driver made observable, oldest first. */
    var log: seq<FsmEvent>

    /** States are filed under their names, and pushes keep the stack within capacity. */
    predicate Valid()
      reads this
    {
      (forall k :: k in states ==> states[k].name == k)
      && (enableStack && stackCapacity > 0 ==> |statesStack| <= stackCapacity)
    }

    /** The exported settings and initial state, before `_Ready`. */
    constructor(enableStack: bool, stackCapacity: int, flushStackWhenReachCapacity: bool,
                initialState: MachineState?)
      ensures Valid()
      ensures this.enableStack == enableStack && this.stackCapacity == stackCapacity
      ensures this.flushStackWhenReachCapacity == flushStackWhenReachCapacity
      ensures currentState == initialState && states == map[] && transitions == map[]
      ensures statesStack == [] && !isTransitioning && !handlersSubscribed && log == []
    {
      this.enableStack := enableStack;
      this.stackCapacity := stackCapacity;
      this.flushStackWhenReachCapacity := flushStackWhenReachCapacity;
      currentState := initialState;
      states := map[];
      transitions := map[];
      statesStack := [];
      isTransitioning := false;
      handlersSubscribed := false;
      log := [];
    }

    /** Only the log changed. */
    twostate predicate OnlyLogChanged()
      reads this
    {
      currentState == old(currentState) && states == old(states) && transitions == old(transitions)
      && statesStack == old(statesStack) && isTransitioning == old(isTransitioning)
      && handlersSubscribed == old(handlersSubscribed)
    }

    // --- queries

    predicate StateExists(name: string)
      reads this
    {
      name in states
    }

    /** `StateExists(MachineState)`: by the state's name, not by identity. */
    predicate StateExistsFor(state: MachineState)
      reads this
    {
      StateExists(state.name)
    }

    function GetStateByName(name: string): (r: MachineState?)
      reads this
      ensures r == null <==> name !in states
      ensures r != null ==> r == states[name]
    {
      if name in states then states[name] else null
    }

    function LastState(): (r: MachineState?)
      reads this
      ensures r == null <==> statesStack == []
      ensures r != null ==> r == statesStack[|statesStack| - 1]
    {
      if |statesStack| > 0 then statesStack[|statesStack| - 1] else null
    }

    /** `CurrentStateIs(string)`: trimmed, case-insensitive name comparison. */
    predicate CurrentStateIs(name: string)
      reads this
      requires currentState != null
    {
      ToLower(Trim(name)) == ToLower(Trim(currentState.name))
    }

    /** `CurrentStateIs(MachineState)`: identity. */
    predicate CurrentStateIsState(state: MachineState)
      reads this
    {
      state == currentState
    }

    /** `CurrentStateIsNot(string[])`: none of the names is the current state. `Any` on
        an empty array never calls `CurrentStateIs`, so then no current state is needed. */
    predicate CurrentStateIsNot(names: seq<string>)
      reads this
      requires names != [] ==> currentState != null
      ensures CurrentStateIsNot(names) <==> forall i :: 0 <= i < |names| ==> !CurrentStateIs(names[i])
    {
      if names == [] then true else !CurrentStateIs(names[0]) && CurrentStateIsNot(names[1..])
    }

    /** `BuildTransitionName(from, to)`: the specific key when it is registered,
        otherwise the wildcard key. */
    function BuildTransitionName(from: MachineState, to: MachineState): (r: string)
      reads this
      ensures SpecificTransitionName(from, to) in transitions ==> r == SpecificTransitionName(from, to)
      ensures SpecificTransitionName(from, to) !in transitions ==> r == WildcardTransitionName(to)
      ensures Trim(from.name) != "Any" ==>
                (r == SpecificTransitionName(from, to) <==> SpecificTransitionName(from, to) in transitions)
    {
      SpecificIsWildcardOnlyFromAny(from, to);
      var transitionName := SpecificTransitionName(from, to);
      if transitionName !in transitions then WildcardTransitionName(to) else transitionName
    }

    // --- registration

    /** `AddStateToDictionary`: `Add` under the state's name (a name already present
        throws before anything changes), then the back-reference, then `Ready`. */
    method AddStateToDictionary(state: MachineState) returns (thrown: bool)
      requires Valid()
      modifies this, state
      ensures Valid()
      ensures thrown <==> state.name in old(states)
      ensures thrown ==> states == old(states) && log == old(log) && state.fsm == old(state.fsm)
      ensures !thrown ==> states == old(states)[state.name := state] && state.fsm == this
                          && log == old(log) + [ReadyCalled(state)]
      ensures state.enabled == old(state.enabled)
      ensures currentState == old(currentState) && transitions == old(transitions)
      ensures statesStack == old(statesStack) && isTransitioning == old(isTransitioning)
      ensures handlersSubscribed == old(handlersSubscribed)
    {
      if state.name in states {
        return true;
      }
      states := states[state.name := state];
      state.fsm := this;
      state.Ready();
      log := log + [ReadyCalled(state)];
      return false;
    }

    /** `RegisterTransition`: `Add` under the runtime class name; a name already present
        (registered, or cached as a neutral fallback) throws. */
    method RegisterTransition(transition: Transition) returns (thrown: bool)
      modifies this
      ensures thrown <==> transition.className in old(transitions)
      ensures thrown ==> transitions == old(transitions)
      ensures !thrown ==> transitions == old(transitions)[transition.className := transition]
      ensures currentState == old(currentState) && states == old(states) && log == old(log)
      ensures statesStack == old(statesStack) && isTransitioning == old(isTransitioning)
      ensures handlersSubscribed == old(handlersSubscribed)
    {
      if transition.className in transitions {
        return true;
      }
      transitions := transitions[transition.className := transition];
      return false;
    }

    /** `RegisterTransitions`: each in order; the first collision throws and ends the
        batch, with the earlier ones registered. */
    method RegisterTransitions(batch: seq<Transition>) returns (registered: nat, thrown: bool)
      modifies this
      ensures registered <= |batch| && (thrown <==> registered < |batch|)
      ensures thrown ==> batch[registered].className in transitions
      ensures transitions == TransitionsAfter(old(transitions), batch[..registered])
      ensures currentState == old(currentState) && states == old(states) && log == old(log)
      ensures statesStack == old(statesStack) && isTransitioning == old(isTransitioning)
      ensures handlersSubscribed == old(handlersSubscribed)
    {
      registered := 0;
      while registered < |batch|
        invariant registered <= |batch|
        invariant transitions == TransitionsAfter(old(transitions), batch[..registered])
        invariant currentState == old(currentState) && states == old(states) && log == old(log)
        invariant statesStack == old(statesStack) && isTransitioning == old(isTransitioning)
        invariant handlersSubscribed == old(handlersSubscribed)
      {
        thrown := RegisterTransition(batch[registered]);
        if thrown {
          return;
        }
        assert batch[..registered + 1] == batch[..registered] + [batch[registered]];
        TransitionsAfterSnoc(old(transitions), batch[..registered], batch[registered]);
        registered := registered + 1;
      }
      return registered, false;
    }

    // --- events and hooks

    /** Raising `StateChanged`: the internal handler, once subscribed, clears
        `IsTransitioning`. */
    method RaiseStateChanged(from: MachineState?, to: MachineState?)
      modifies this
      ensures log == old(log) + [StateChanged(from, to)]
      ensures isTransitioning == (old(isTransitioning) && !handlersSubscribed)
      ensures currentState == old(currentState) && states == old(states) && transitions == old(transitions)
      ensures statesStack == old(statesStack) && handlersSubscribed == old(handlersSubscribed)
    {
      log := log + [StateChanged(from, to)];
      if handlersSubscribed {
        isTransitioning := false;
      }
    }

    /** Raising `StateChangeFailed`, likewise handled. */
    method RaiseStateChangeFailed(from: MachineState?, to: MachineState?)
      modifies this
      ensures log == old(log) + [StateChangeFailed(from, to)]
      ensures isTransitioning == (old(isTransitioning) && !handlersSubscribed)
      ensures currentState == old(currentState) && states == old(states) && transitions == old(transitions)
      ensures statesStack == old(statesStack) && handlersSubscribed == old(handlersSubscribed)
    {
      log := log + [StateChangeFailed(from, to)];
      if handlersSubscribed {
        isTransitioning := false;
      }
    }

    method EnterState(state: MachineState)
      modifies this
      ensures log == old(log) + [EnterCalled(state)] && OnlyLogChanged()
    {
      state.Enter();
      log := log + [EnterCalled(state)];
    }

    /** `ExitState`: `Exit` receives the incoming state. */
    method ExitState(state: MachineState, nextState: MachineState)
      modifies this
      ensures log == old(log) + [ExitCalled(state, nextState)] && OnlyLogChanged()
    {
      state.Exit(nextState);
      log := log + [ExitCalled(state, nextState)];
    }

    /** `PushStateToStack`. */
    method PushStateToStack(state: MachineState)
      requires Valid()
      modifies this
      ensures Valid()
      ensures statesStack == StackAfterPush(old(statesStack), state, enableStack, stackCapacity, flushStackWhenReachCapacity)
      ensures log == old(log) + StackEvents(old(statesStack), state, enableStack, stackCapacity, flushStackWhenReachCapacity)
      ensures currentState == old(currentState) && states == old(states) && transitions == old(transitions)
      ensures isTransitioning == old(isTransitioning) && handlersSubscribed == old(handlersSubscribed)
    {
      if enableStack && stackCapacity > 0 {
        if |statesStack| >= stackCapacity {
          if flushStackWhenReachCapacity {
            statesStack := [];
            log := log + [StackFlushed(statesStack)];
          } else {
            statesStack := statesStack[1..];
          }
        }
        statesStack := statesStack + [state];
        log := log + [StackPushed(state, statesStack)];
      }
    }

    /** The `ForEach(state => state.Disable())` and `Enable()` passes over the registered
        states. */
    method SetAllStatesEnabled(value: bool)
      modifies states.Values
      ensures forall s :: s in states.Values ==> s.enabled == value
      ensures forall s :: s in states.Values ==> s.fsm == old(s.fsm)
    {
      var remaining := states.Values;
      while remaining != {}
        invariant remaining <= states.Values
        invariant forall s :: s in states.Values && s !in remaining ==> s.enabled == value
        invariant forall s :: s in states.Values ==> s.fsm == old(s.fsm)
        decreases remaining
      {
        var state :| state in remaining;
        state.enabled := value;
        remaining := remaining - {state};
      }
    }

    // --- the change protocol

    // --- _Ready

    /** `InitializeStateNodes`: the found states are registered in order; a name
        collision throws, with the earlier states registered. `registered` counts the
        states added. */
    method InitializeStateNodes(found: seq<MachineState>) returns (registered: nat, thrown: bool)
      requires Valid()
      modifies this, found
      ensures Valid()
      ensures registered <= |found| && (thrown <==> registered < |found|)
      ensures AddsCleanly(old(states).Keys, found[..registered])
      ensures thrown ==> found[registered].name in states
      ensures states == StatesAfter(old(states), found[..registered])
      ensures forall i :: 0 <= i < registered ==> found[i].fsm == this
      ensures log == old(log) + ReadyEvents(found[..registered])
      ensures currentState == old(currentState) && transitions == old(transitions)
      ensures statesStack == old(statesStack) && isTransitioning == old(isTransitioning)
      ensures handlersSubscribed == old(handlersSubscribed)
    {
      registered := 0;
      while registered < |found|
        invariant RegisteredUpTo(old(states), old(log), found, registered)
        invariant currentState == old(currentState) && transitions == old(transitions)
        invariant statesStack == old(statesStack) && isTransitioning == old(isTransitioning)
        invariant handlersSubscribed == old(handlersSubscribed)
      {
        thrown := RegisterFoundState(old(states), old(log), found, registered);
        if thrown {
          return;
        }
        registered := registered + 1;
      }
      return registered, false;
    }

    /** The first `k` found states are registered, in order and without collision,
        starting from the dictionary `states0` and the log `log0`. */
    ghost predicate RegisteredUpTo(states0: map<string, MachineState>, log0: seq<FsmEvent>,
                                   found: seq<MachineState>, k: nat)
      reads this, found
    {
      RegisteredPrefix(states0, log0, found, k, states, log) && Valid()
      && (forall i :: 0 <= i < k ==> found[i].fsm == this)
    }

    /** One step of `InitializeStateNodes`: `Add` the next found state, or throw on its
        name. */
    method RegisterFoundState(ghost states0: map<string, MachineState>, ghost log0: seq<FsmEvent>,
                              found: seq<MachineState>, k: nat) returns (thrown: bool)
      requires k < |found| && RegisteredUpTo(states0, log0, found, k)
      modifies this, found[k]
      ensures thrown <==> found[k].name in old(states)
      ensures RegisteredUpTo(states0, log0, found, if thrown then k else k + 1)
      ensures currentState == old(currentState) && transitions == old(transitions)
      ensures statesStack == old(statesStack) && isTransitioning == old(isTransitioning)
      ensures handlersSubscribed == old(handlersSubscribed)
    {
      var state := found[k];
      if state.name !in states {
        RegisterStep(states0, log0, found, k, states, log);
      }
      thrown := AddStateToDictionary(state);
    }

    /** `_Ready`: after registration, a missing initial state is reported; otherwise
        the handlers are subscribed and the initial state entered. A collision during
        registration throws out of `_Ready`. */
    method Ready(found: seq<MachineState>) returns (registered: nat, crashed: bool)
      requires Valid()
      modifies this, found
      ensures Valid()
      ensures registered <= |found| && (crashed <==> registered < |found|)
      ensures AddsCleanly(old(states).Keys, found[..registered])
      ensures crashed ==> found[registered].name in states
      ensures states == StatesAfter(old(states), found[..registered])
      ensures forall i :: 0 <= i < registered ==> found[i].fsm == this
      ensures crashed ==> log == old(log) + ReadyEvents(found[..registered])
      ensures !crashed && old(currentState) == null ==>
                log == old(log) + ReadyEvents(found) + [MissingInitialStateError]
      ensures !crashed && old(currentState) != null ==>
                log == old(log) + ReadyEvents(found) + [EnterCalled(old(currentState))]
      ensures handlersSubscribed == (old(handlersSubscribed) || (!crashed && old(currentState) != null))
      ensures currentState == old(currentState) && transitions == old(transitions)
      ensures statesStack == old(statesStack) && isTransitioning == old(isTransitioning)
    {
      registered, crashed := InitializeStateNodes(found);
      if crashed {
        return;
      }
      assert found[..registered] == found;
      if currentState == null {
        log := log + [MissingInitialStateError];
        return;
      }
      handlersSubscribed := true;
      EnterState(currentState);
    }

    // --- change requests

    /** `ChangeStateTo(MachineState, parameters)`: the state must be registered by name;
        the current state itself, or no current state, changes nothing. */
    method ChangeStateTo(nextState: MachineState, parameters: Option<Parameters>)
      returns (outcome: ChangeOutcome, transition: Transition?)
      requires Valid()
      modifies this, states.Values, transitions.Values
      ensures Valid()
      ensures outcome == UnknownState <==> !old(StateExistsFor(nextState))
      ensures outcome == AlreadyCurrent <==> old(StateExistsFor(nextState)) && old(currentState) == nextState
      ensures outcome == NoCurrentState <==>
                old(StateExistsFor(nextState)) && old(currentState) != nextState && old(currentState) == null
      ensures outcome in {UnknownState, AlreadyCurrent, NoCurrentState, Changed, Refused}
      ensures outcome == UnknownState ==> log == old(log) + [UnknownStateError(nextState.name)] && OnlyLogChanged()
      ensures outcome in {AlreadyCurrent, NoCurrentState} ==> log == old(log) && OnlyLogChanged()
      ensures outcome in {Changed, Refused} ==>
                old(currentState) != null && transition != null
                && var name := old(BuildTransitionName(currentState, nextState));
                name in transitions && transitions[name] == transition
                && (name in old(transitions) ==> transitions == old(transitions))
                && (name !in old(transitions) ==>
                      fresh(transition) && transition.className == "NeutralTransition"
                      && transitions == old(transitions)[name := transition] && outcome == Changed)
                && transition.fromState == old(currentState) && transition.toState == nextState
                && transition.parameters == parameters
                && (outcome == Changed <==> transition.ShouldTransition())
                && isTransitioning == !handlersSubscribed
      ensures outcome == Changed ==>
                transition != null && currentState == nextState
                && statesStack == StackAfterPush(old(statesStack), old(currentState), enableStack, stackCapacity, flushStackWhenReachCapacity)
                && log == old(log) + [OnTransitionCalled(transition)]
                          + StackEvents(old(statesStack), old(currentState), enableStack, stackCapacity, flushStackWhenReachCapacity)
                          + [ExitCalled(old(currentState), nextState), StateChanged(old(currentState), nextState), EnterCalled(nextState)]
                && forall s :: s in old(states).Values ==> s.enabled && s.fsm == old(s.fsm)
      ensures outcome == Refused ==>
                currentState == old(currentState) && statesStack == old(statesStack)
                && log == old(log) + [StateChangeFailed(old(currentState), nextState)]
                && unchanged(old(states).Values)
      ensures outcome !in {Changed, Refused} ==> transition == null
      ensures states == old(states) && handlersSubscribed == old(handlersSubscribed)
    {
      transition := null;
      if !StateExistsFor(nextState) {
        log := log + [UnknownStateError(nextState.name)];
        return UnknownState, null;
      }
      if CurrentStateIsState(nextState) {
        return AlreadyCurrent, null;
      }
      if currentState == null {
        return NoCurrentState, null;
      }
      var name, allowed;
      name, transition, allowed := ExecuteTransition(currentState, nextState, parameters);
      outcome := if allowed then Changed else Refused;
    }

    /** `ChangeStateTo(string, parameters)`: the name must be a registered key; the
        comparison with the current state is trimmed and case-insensitive, and it
        dereferences the current state, so a missing one crashes. */
    method ChangeStateToName(nextState: string, parameters: Option<Parameters>)
      returns (outcome: ChangeOutcome, transition: Transition?)
      requires Valid()
      modifies this, states.Values, transitions.Values
      ensures Valid()
      ensures outcome == UnknownState <==> nextState !in old(states)
      ensures outcome == Crashed <==> nextState in old(states) && old(currentState) == null
      ensures outcome == AlreadyCurrent <==>
                nextState in old(states) && old(currentState) != null && old(CurrentStateIs(nextState))
      ensures outcome in {UnknownState, Crashed, AlreadyCurrent, Changed, Refused}
      ensures outcome == UnknownState ==> log == old(log) + [UnknownStateError(nextState)] && OnlyLogChanged()
      ensures outcome in {Crashed, AlreadyCurrent} ==> log == old(log) && OnlyLogChanged()
      ensures outcome in {Changed, Refused} ==>
                old(currentState) != null && transition != null
                && var name := old(BuildTransitionName(currentState, states[nextState]));
                name in transitions && transitions[name] == transition
                && (name in old(transitions) ==> transitions == old(transitions))
                && (name !in old(transitions) ==>
                      fresh(transition) && transition.className == "NeutralTransition"
                      && transitions == old(transitions)[name := transition] && outcome == Changed)
                && transition.fromState == old(currentState) && transition.toState == old(states)[nextState]
                && transition.parameters == parameters
                && (outcome == Changed <==> transition.ShouldTransition())
                && isTransitioning == !handlersSubscribed
      ensures outcome == Changed ==>
                transition != null && currentState == old(states)[nextState]
                && statesStack == StackAfterPush(old(statesStack), old(currentState), enableStack, stackCapacity, flushStackWhenReachCapacity)
                && log == old(log) + [OnTransitionCalled(transition)]
                          + StackEvents(old(statesStack), old(currentState), enableStack, stackCapacity, flushStackWhenReachCapacity)
                          + [ExitCalled(old(currentState), old(states)[nextState]), StateChanged(old(currentState), old(states)[nextState]), EnterCalled(old(states)[nextState])]
                && forall s :: s in old(states).Values ==> s.enabled && s.fsm == old(s.fsm)
      ensures outcome == Refused ==>
                currentState == old(currentState) && statesStack == old(statesStack)
                && log == old(log) + [StateChangeFailed(old(currentState), old(states)[nextState])]
                && unchanged(old(states).Values)
      ensures outcome !in {Changed, Refused} ==> transition == null
      ensures states == old(states) && handlersSubscribed == old(handlersSubscribed)
    {
      transition := null;
      if !StateExists(nextState) {
        log := log + [UnknownStateError(nextState)];
        return UnknownState, null;
      }
      if currentState == null {
        return Crashed, null;
      }
      if CurrentStateIs(nextState) {
        return AlreadyCurrent, null;
      }
      var next := GetStateByName(nextState);
      var name, allowed;
      name, transition, allowed := ExecuteTransition(currentState, next, parameters);
      outcome := if allowed then Changed else Refused;
    }

    /** `ChangeStateTo<T>(parameters)`: as the name overload with the type's name, but a
        request made while a change is under way is dropped. */
    method ChangeStateToType(typeName: string, parameters: Option<Parameters>)
      returns (outcome: ChangeOutcome, transition: Transition?)
      requires Valid()
      modifies this, states.Values, transitions.Values
      ensures Valid()
      ensures outcome == UnknownState <==> typeName !in old(states)
      ensures outcome == Crashed <==> typeName in old(states) && old(currentState) == null
      ensures outcome == AlreadyCurrent <==>
                typeName in old(states) && old(currentState) != null && old(CurrentStateIs(typeName))
      ensures outcome == Busy <==>
                typeName in old(states) && old(currentState) != null && !old(CurrentStateIs(typeName))
                && old(isTransitioning)
      ensures outcome in {UnknownState, Crashed, AlreadyCurrent, Busy, Changed, Refused}
      ensures outcome == UnknownState ==> log == old(log) + [UnknownStateError(typeName)] && OnlyLogChanged()
      ensures outcome in {Crashed, AlreadyCurrent, Busy} ==> log == old(log) && OnlyLogChanged()
      ensures outcome in {Changed, Refused} ==>
                old(currentState) != null && transition != null
                && var name := old(BuildTransitionName(currentState, states[typeName]));
                name in transitions && transitions[name] == transition
                && (name in old(transitions) ==> transitions == old(transitions))
                && (name !in old(transitions) ==>
                      fresh(transition) && transition.className == "NeutralTransition"
                      && transitions == old(transitions)[name := transition] && outcome == Changed)
                && transition.fromState == old(currentState) && transition.toState == old(states)[typeName]
                && transition.parameters == parameters
                && (outcome == Changed <==> transition.ShouldTransition())
                && isTransitioning == !handlersSubscribed
      ensures outcome == Changed ==>
                transition != null && currentState == old(states)[typeName]
                && statesStack == StackAfterPush(old(statesStack), old(currentState), enableStack, stackCapacity, flushStackWhenReachCapacity)
                && log == old(log) + [OnTransitionCalled(transition)]
                          + StackEvents(old(statesStack), old(currentState), enableStack, stackCapacity, flushStackWhenReachCapacity)
                          + [ExitCalled(old(currentState), old(states)[typeName]), StateChanged(old(currentState), old(states)[typeName]), EnterCalled(old(states)[typeName])]
                && forall s :: s in old(states).Values ==> s.enabled && s.fsm == old(s.fsm)
      ensures outcome == Refused ==>
                currentState == old(currentState) && statesStack == old(statesStack)
                && log == old(log) + [StateChangeFailed(old(currentState), old(states)[typeName])]
                && unchanged(old(states).Values)
      ensures outcome !in {Changed, Refused} ==> transition == null
      ensures states == old(states) && handlersSubscribed == old(handlersSubscribed)
    {
      transition := null;
      if !StateExists(typeName) {
        log := log + [UnknownStateError(typeName)];
        return UnknownState, null;
      }
      if currentState == null {
        return Crashed, null;
      }
      if CurrentStateIs(typeName) {
        return AlreadyCurrent, null;
      }
      if isTransitioning {
        return Busy, null;
      }
      var next := GetStateByName(typeName);
      var name, allowed;
      name, transition, allowed := ExecuteTransition(currentState, next, parameters);
      outcome := if allowed then Changed else Refused;
    }

    // --- the per-frame callbacks

    /** `_UnhandledInput`: forwarded to the current state; none crashes. */
    method UnhandledInput(inputEvent: InputEvent) returns (crashed: bool)
      modifies this
      ensures crashed <==> old(currentState) == null
      ensures !crashed ==> log == old(log) + [HandleInputCalled(old(currentState), inputEvent)]
      ensures crashed ==> log == old(log)
      ensures OnlyLogChanged()
    {
      if currentState == null {
        return true;
      }
      currentState.HandleInput(inputEvent);
      log := log + [HandleInputCalled(currentState, inputEvent)];
      return false;
    }

    /** `_PhysicsProcess`. */
    method PhysicsProcess(delta: real) returns (crashed: bool)
      modifies this
      ensures crashed <==> old(currentState) == null
      ensures !crashed ==> log == old(log) + [PhysicsUpdateCalled(old(currentState), delta)]
      ensures crashed ==> log == old(log)
      ensures OnlyLogChanged()
    {
      if currentState == null {
        return true;
      }
      currentState.PhysicsUpdate(delta);
      log := log + [PhysicsUpdateCalled(currentState, delta)];
      return false;
    }

    /** `_Process`. */
    method Process(delta: real) returns (crashed: bool)
      modifies this
      ensures crashed <==> old(currentState) == null
      ensures !crashed ==> log == old(log) + [UpdateCalled(old(currentState), delta)]
      ensures crashed ==> log == old(log)
      ensures OnlyLogChanged()
    {
      if currentState == null {
        return true;
      }
      currentState.Update(delta);
      log := log + [UpdateCalled(currentState, delta)];
      return false;
    }

    /** The `TryGetValue` on the built name, with a new neutral transition cached under
        it when it is unregistered. */
    method TransitionNamed(name: string) returns (transition: Transition)
      modifies this
      ensures name in transitions && transitions[name] == transition
      ensures name in old(transitions) ==> transitions == old(transitions)
      ensures name !in old(transitions) ==>
                fresh(transition) && transitions == old(transitions)[name := transition]
                && transition.className == "NeutralTransition" && transition.guard == ALWAYS
      ensures currentState == old(currentState) && states == old(states) && log == old(log)
      ensures statesStack == old(statesStack) && handlersSubscribed == old(handlersSubscribed)
      ensures isTransitioning == old(isTransitioning)
    {
      if name in transitions {
        transition := transitions[name];
      } else {
        transition := new Transition.Neutral();
        transitions := transitions[name := transition];
      }
    }

    /** The first half of `RunTransition`: `IsTransitioning` is set, and the transition
        under the name built from `CurrentState` (a new neutral one, cached under that
        name, when it is unregistered) receives the scratch fields. */
    method PrepareTransition(to: MachineState, parameters: Option<Parameters>)
      returns (name: string, transition: Transition)
      requires currentState != null
      modifies this, transitions.Values
      ensures name == old(BuildTransitionName(currentState, to))
      ensures name in transitions && transitions[name] == transition
      ensures name in old(transitions) ==> transitions == old(transitions)
      ensures name !in old(transitions) ==>
                fresh(transition) && transitions == old(transitions)[name := transition]
                && transition.className == "NeutralTransition" && transition.guard == ALWAYS
      ensures transition.fromState == currentState && transition.toState == to
      ensures transition.parameters == parameters
      ensures isTransitioning
      ensures currentState == old(currentState) && states == old(states) && log == old(log)
      ensures statesStack == old(statesStack) && handlersSubscribed == old(handlersSubscribed)
      ensures unchanged(states.Values)
    {
      name := BuildTransitionName(currentState, to);
      isTransitioning := true;
      transition := TransitionNamed(name);
      transition.Bind(currentState, to, parameters);
    }

    /** The second half of `RunTransition` when the guard allows the change:
        `OnTransition`, the push of `from`, `Exit`, the switch with every registered
        state disabled and then enabled, `StateChanged` and `Enter`, in that order. */
    method CompleteTransition(transition: Transition, from: MachineState, to: MachineState)
      requires Valid()
      requires transition.fromState == currentState && transition.toState == to
      modifies this, states.Values
      ensures Valid()
      ensures currentState == to
      ensures statesStack == StackAfterPush(old(statesStack), from, enableStack, stackCapacity, flushStackWhenReachCapacity)
      ensures log == old(log) + [OnTransitionCalled(transition)]
                     + StackEvents(old(statesStack), from, enableStack, stackCapacity, flushStackWhenReachCapacity)
                     + [ExitCalled(from, to), StateChanged(old(currentState), to), EnterCalled(to)]
      ensures forall s :: s in old(states).Values ==> s.enabled && s.fsm == old(s.fsm)
      ensures isTransitioning == (old(isTransitioning) && !handlersSubscribed)
      ensures states == old(states) && transitions == old(transitions)
      ensures handlersSubscribed == old(handlersSubscribed)
      ensures unchanged(transition)
    {
      transition.OnTransition();
      log := log + [OnTransitionCalled(transition)];
      PushStateToStack(from);
      ExitState(from, to);
      SetAllStatesEnabled(false);
      currentState := to;
      SetAllStatesEnabled(true);
      RaiseStateChanged(transition.fromState, transition.toState);
      EnterState(to);
    }

    /** `RunTransition(from, to, parameters)`, called directly. It sets `IsTransitioning`
        first and then dereferences `CurrentState` to build the name, so without a current
        state it crashes with the flag left set; otherwise it is `ExecuteTransition`. */
    method RunTransition(from: MachineState, to: MachineState, parameters: Option<Parameters>)
      returns (outcome: ChangeOutcome, transition: Transition?)
      requires Valid()
      modifies this, states.Values, transitions.Values
      ensures Valid()
      ensures outcome in {Crashed, Changed, Refused}
      ensures outcome == Crashed <==> old(currentState) == null
      ensures outcome == Crashed ==>
                isTransitioning && log == old(log) && currentState == old(currentState)
                && transitions == old(transitions) && statesStack == old(statesStack)
      ensures outcome in {Changed, Refused} ==>
                old(currentState) != null && transition != null
                && var name := old(BuildTransitionName(currentState, to));
                name in transitions && transitions[name] == transition
                && (name in old(transitions) ==> transitions == old(transitions))
                && (name !in old(transitions) ==>
                      fresh(transition) && transition.className == "NeutralTransition"
                      && transitions == old(transitions)[name := transition] && outcome == Changed)
                && transition.fromState == old(currentState) && transition.toState == to
                && transition.parameters == parameters
                && (outcome == Changed <==> transition.ShouldTransition())
                && isTransitioning == !handlersSubscribed
      ensures outcome == Changed ==>
                transition != null && currentState == to
                && statesStack == StackAfterPush(old(statesStack), from, enableStack, stackCapacity, flushStackWhenReachCapacity)
                && log == old(log) + [OnTransitionCalled(transition)]
                          + StackEvents(old(statesStack), from, enableStack, stackCapacity, flushStackWhenReachCapacity)
                          + [ExitCalled(from, to), StateChanged(old(currentState), to), EnterCalled(to)]
                && forall s :: s in old(states).Values ==> s.enabled && s.fsm == old(s.fsm)
      ensures outcome == Refused ==>
                currentState == old(currentState) && statesStack == old(statesStack)
                && log == old(log) + [StateChangeFailed(old(currentState), to)]
                && unchanged(old(states).Values)
      ensures outcome !in {Changed, Refused} ==> transition == null
      ensures states == old(states) && handlersSubscribed == old(handlersSubscribed)
    {
      if currentState == null {
        isTransitioning := true;
        return Crashed, null;
      }
      var name, allowed;
      name, transition, allowed := ExecuteTransition(from, to, parameters);
      outcome := if allowed then Changed else Refused;
    }

    /** The body of `RunTransition` once `CurrentState` is present. The transition's name
        and its `FromState` come from `CurrentState`, while the push and `Exit` use `from`;
        if the guard refuses, only `StateChangeFailed` fires. Either way the subscribed
        handlers end the change. */
    method ExecuteTransition(from: MachineState, to: MachineState, parameters: Option<Parameters>)
      returns (name: string, transition: Transition, allowed: bool)
      requires Valid() && currentState != null
      modifies this, states.Values, transitions.Values
      ensures Valid()
      ensures name == old(BuildTransitionName(currentState, to))
      ensures name in transitions && transition == transitions[name]
      ensures name in old(transitions) ==> transitions == old(transitions)
      ensures name !in old(transitions) ==>
                fresh(transition) && transition.className == "NeutralTransition" && allowed
                && transitions == old(transitions)[name := transition]
      ensures transition.fromState == old(currentState) && transition.toState == to
      ensures transition.parameters == parameters
      ensures allowed == transition.ShouldTransition()
      ensures allowed ==> currentState == to
      ensures allowed ==> statesStack == StackAfterPush(old(statesStack), from, enableStack, stackCapacity, flushStackWhenReachCapacity)
      ensures allowed ==>
                log == old(log) + [OnTransitionCalled(transition)]
                       + StackEvents(old(statesStack), from, enableStack, stackCapacity, flushStackWhenReachCapacity)
                       + [ExitCalled(from, to), StateChanged(old(currentState), to), EnterCalled(to)]
      ensures !allowed ==> currentState == old(currentState) && statesStack == old(statesStack)
      ensures !allowed ==> log == old(log) + [StateChangeFailed(old(currentState), to)]
      ensures !allowed ==> unchanged(old(states).Values)
      ensures allowed ==> forall s :: s in old(states).Values ==> s.enabled && s.fsm == old(s.fsm)
      ensures isTransitioning == !handlersSubscribed
      ensures states == old(states) && handlersSubscribed == old(handlersSubscribed)
    {
      name, transition := PrepareTransition(to, parameters);
      allowed := ResolveTransition(transition, from, to);
    }

    /** The guard's answer on the prepared transition, and then either the change or
        `StateChangeFailed`. */
    method ResolveTransition(transition: Transition, from: MachineState, to: MachineState)
      returns (allowed: bool)
      requires Valid()
      requires transition.fromState == currentState && transition.toState == to
      modifies this, states.Values
      ensures Valid()
      ensures allowed == transition.ShouldTransition() && unchanged(transition)
      ensures allowed ==> currentState == to
      ensures allowed ==> statesStack == StackAfterPush(old(statesStack), from, enableStack, stackCapacity, flushStackWhenReachCapacity)
      ensures allowed ==>
                log == old(log) + [OnTransitionCalled(transition)]
                       + StackEvents(old(statesStack), from, enableStack, stackCapacity, flushStackWhenReachCapacity)
                       + [ExitCalled(from, to), StateChanged(old(currentState), to), EnterCalled(to)]
      ensures !allowed ==> currentState == old(currentState) && statesStack == old(statesStack)
      ensures !allowed ==> log == old(log) + [StateChangeFailed(old(currentState), to)]
      ensures !allowed ==> unchanged(old(states).Values)
      ensures allowed ==> forall s :: s in old(states).Values ==> s.enabled && s.fsm == old(s.fsm)
      ensures isTransitioning == (old(isTransitioning) && !handlersSubscribed)
      ensures states == old(states) && transitions == old(transitions)
      ensures handlersSubscribed == old(handlersSubscribed)
    {
      allowed := transition.ShouldTransition();
      if allowed {
        CompleteTransition(transition, from, to);
      } else {
        RaiseStateChangeFailed(transition.fromState, transition.toState);
      }
    }
  }

  /** A request along an edge with no registered transition (specific or wildcard) always
      succeeds: the cached `NeutralTransition` allows it, the target becomes current and
      the old current state is the newest entry of an enabled stack. */
  method UnregisteredEdgeChanges(m: FiniteStateMachineComponent, next: MachineState)
    requires m.Valid() && m.StateExistsFor(next)
    requires m.currentState != null && m.currentState != next
    requires m.BuildTransitionName(m.currentState, next) !in m.transitions
    modifies m, m.states.Values, m.transitions.Values
    ensures m.currentState == next && m.isTransitioning == !m.handlersSubscribed
    ensures m.enableStack && m.stackCapacity > 0 ==>
              m.statesStack != [] && m.statesStack[|m.statesStack| - 1] == old(m.currentState)
  {
    var outcome, transition := m.ChangeStateTo(next, None);
    assert outcome == Changed;
  }

  function TransitionsAfter(transitions: map<string, Transition>, batch: seq<Transition>): map<string, Transition> {
    if batch == [] then transitions
    else TransitionsAfter(transitions, batch[..|batch| - 1])[batch[|batch| - 1].className := batch[|batch| - 1]]
  }

  lemma TransitionsAfterSnoc(transitions: map<string, Transition>, batch: seq<Transition>, t: Transition)
    ensures TransitionsAfter(transitions, batch + [t]) == TransitionsAfter(transitions, batch)[t.className := t]
  {
    assert (batch + [t])[..|batch|] == batch;
  }

  // ---------------------------------------------------------------------
  // Registering found states

  /** No found state's name is already a key, and the found names are distinct. */
  predicate AddsCleanly(existing: set<string>, found: seq<MachineState>) {
    (forall i :: 0 <= i < |found| ==> found[i].name !in existing)
    && (forall i, j :: 0 <= i < j < |found| ==> found[i].name != found[j].name)
  }

  /** The dictionary after `Add`ing each found state under its name. */
  function StatesAfter(states: map<string, MachineState>, found: seq<MachineState>): map<string, MachineState> {
    if found == [] then states
    else StatesAfter(states, found[..|found| - 1])[found[|found| - 1].name := found[|found| - 1]]
  }

  /** The `Ready` calls of registering the found states. */
  function ReadyEvents(found: seq<MachineState>): (r: seq<FsmEvent>)
    ensures |r| == |found| && forall i :: 0 <= i < |found| ==> r[i] == ReadyCalled(found[i])
  {
    if found == [] then [] else ReadyEvents(found[..|found| - 1]) + [ReadyCalled(found[|found| - 1])]
  }

  /** Registering adds exactly the found names as keys, each filed under its own name;
      the earlier keys keep their states. */
  lemma {:induction false} StatesAfterKeys(states: map<string, MachineState>, found: seq<MachineState>)
    ensures StatesAfter(states, found).Keys == states.Keys + set i | 0 <= i < |found| :: found[i].name
    ensures (forall k :: k in states ==> states[k].name == k) ==>
              forall k :: k in StatesAfter(states, found) ==> StatesAfter(states, found)[k].name == k
    decreases |found|
  {
    if found != [] {
      var init := found[..|found| - 1];
      StatesAfterKeys(states, init);
      var initNames := set i | 0 <= i < |init| :: init[i].name;
      var names := set i | 0 <= i < |found| :: found[i].name;
      assert names == initNames + {found[|found| - 1].name} by {
        forall n | n in names ensures n in initNames + {found[|found| - 1].name} {
          var i :| 0 <= i < |found| && found[i].name == n;
          if i < |init| {
            assert init[i] == found[i];
          }
        }
        forall n | n in initNames ensures n in names {
          var i :| 0 <= i < |init| && init[i].name == n;
          assert found[i] == init[i];
        }
      }
    }
  }

  /** The dictionary and log after registering the first `k` found states from
      `states0` and `log0`, every key filing a state of its own name. */
  ghost predicate RegisteredPrefix(states0: map<string, MachineState>, log0: seq<FsmEvent>,
                                   found: seq<MachineState>, k: nat,
                                   states: map<string, MachineState>, log: seq<FsmEvent>)
  {
    k <= |found|
    && AddsCleanly(states0.Keys, found[..k])
    && states == StatesAfter(states0, found[..k])
    && log == log0 + ReadyEvents(found[..k])
  }

  /** Registering the next found state, when its name is free, extends the prefix by one;
      it is none of the states registered before it. */
  lemma RegisterStep(states0: map<string, MachineState>, log0: seq<FsmEvent>,
                     found: seq<MachineState>, k: nat,
                     states: map<string, MachineState>, log: seq<FsmEvent>)
    requires k < |found| && RegisteredPrefix(states0, log0, found, k, states, log)
    requires found[k].name !in states
    ensures RegisteredPrefix(states0, log0, found, k + 1,
                             states[found[k].name := found[k]], log + [ReadyCalled(found[k])])
    ensures forall i :: 0 <= i < k ==> found[i] != found[k]
  {
    var state := found[k];
    StatesAfterKeys(states0, found[..k]);
    RegisteredNamesPresent(states0, found[..k]);
    assert forall i :: 0 <= i < k ==> found[..k][i] == found[i];
    var next := found[..k + 1];
    assert next[..k] == found[..k] && next[k] == state;
    assert next == found[..k] + [state];
    AddsCleanlySnoc(states0.Keys, found[..k], state);
  }

  /** Every found name is a key once registered. */
  lemma RegisteredNamesPresent(states: map<string, MachineState>, found: seq<MachineState>)
    ensures forall i :: 0 <= i < |found| ==> found[i].name in StatesAfter(states, found)
  {
    StatesAfterKeys(states, found);
    forall i | 0 <= i < |found| ensures found[i].name in StatesAfter(states, found) {
      assert found[i].name in set j | 0 <= j < |found| :: found[j].name;
    }
  }

  /** When nothing collides, every found state is reachable under its name. */
  lemma {:induction false} StatesAfterFinds(states: map<string, MachineState>, found: seq<MachineState>, i: nat)
    requires AddsCleanly(states.Keys, found) && i < |found|
    ensures found[i].name in StatesAfter(states, found)
    ensures StatesAfter(states, found)[found[i].name] == found[i]
    decreases |found|
  {
    var last := |found| - 1;
    if i < last {
      var init := found[..last];
      assert AddsCleanly(states.Keys, init) by {
        forall a | 0 <= a < |init| ensures init[a].name !in states.Keys {
          assert init[a] == found[a];
        }
        forall a, b | 0 <= a < b < |init| ensures init[a].name != init[b].name {
          assert init[a] == found[a] && init[b] == found[b];
        }
      }
      assert init[i] == found[i];
      StatesAfterFinds(states, init, i);
      assert found[i].name != found[last].name;
    }
  }

  lemma AddsCleanlySnoc(existing: set<string>, found: seq<MachineState>, state: MachineState)
    requires AddsCleanly(existing, found)
    requires state.name !in existing + set i | 0 <= i < |found| :: found[i].name
    ensures AddsCleanly(existing, found + [state])
  {
    var next := found + [state];
    forall i, j | 0 <= i < j < |next| ensures next[i].name != next[j].name {
      if j == |found| {
        assert next[i] == found[i];
      } else {
        assert next[i] == found[i] && next[j] == found[j];
      }
    }
    forall i | 0 <= i < |next| ensures next[i].name !in existing {
      if i < |found| {
        assert next[i] == found[i];
      }
    }
  }
}
