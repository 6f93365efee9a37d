/** The lifecycle of one service (services/basic_service.go). */
module BasicServices {
  import opened ServiceStates

  // The critical sections of its lock as methods of a class, and all interleavings of the main goroutine with callers
  // of StartAsync, StopAsync and AddListener as a state machine.

  const CAPACITY: int := 4

  /** The channel of a listener, with the state in which it was added and everything ever sent on it. */
  datatype Channel = Channel(since: ServiceState, sent: seq<Event>, received: nat, closed: bool)

  /** What the lock protects. The waiter channels are only ever closed. */
  datatype Core = Core(
    state: ServiceState, failure: bool, listeners: seq<Channel>, runningClosed: bool, terminatedClosed: bool)

  function Sent(ch: Channel, e: Event, close: bool): Channel {
    ch.(sent := ch.sent + [e], closed := ch.closed || close)
  }

  /** Whether switching to a state lets the waiters for Running go. */
  predicate ReleasesRunning(from: ServiceState, to: ServiceState) {
    Depth(from) <= 1 && to != Starting
  }

  /** The effect of a successful switch of states, with everything that happens under the lock. */
  function Switched(c: Core, to: ServiceState): Core {
    Core(to, c.failure || to == Failed,
         seq(|c.listeners|, i requires 0 <= i < |c.listeners| =>
           Sent(c.listeners[i], Event(c.state, to), Terminal(to))),
         c.runningClosed || ReleasesRunning(c.state, to),
         c.terminatedClosed || Terminal(to))
  }

  /** Closing a channel twice and sending on a closed one panic. */
  predicate SwitchPanics(c: Core, to: ServiceState) {
    || (c.runningClosed && ReleasesRunning(c.state, to))
    || (c.terminatedClosed && Terminal(to))
    || exists i :: 0 <= i < |c.listeners| && c.listeners[i].closed
  }

  /** Sending on a full channel would block with the lock held. */
  predicate SwitchBlocks(c: Core) {
    exists i :: 0 <= i < |c.listeners| && |c.listeners[i].sent| - c.listeners[i].received >= CAPACITY
  }

  // ---------------------------------------------------------------- the critical sections

  class BasicService {
    var state: ServiceState
    var failureCase: bool
    var listeners: seq<Channel>
    var runningWaitersClosed: bool
    var terminatedWaitersClosed: bool

    constructor ()
      ensures View() == Core(New, false, [], false, false)
    {
      state, failureCase, listeners, runningWaitersClosed, terminatedWaitersClosed := New, false, [], false, false;
    }

    function View(): Core
      reads this
    {
      Core(state, failureCase, listeners, runningWaitersClosed, terminatedWaitersClosed)
    }

    method NotifyListeners(e: Event, closeChan: bool)
      requires forall i :: 0 <= i < |listeners| ==>
        !listeners[i].closed && |listeners[i].sent| - listeners[i].received < CAPACITY
      modifies this`listeners
      ensures |listeners| == |old(listeners)|
      ensures forall i :: 0 <= i < |listeners| ==> listeners[i] == Sent(old(listeners)[i], e, closeChan)
    {
      ghost var before := listeners;
      for i := 0 to |listeners|
        invariant |listeners| == |before|
        invariant forall j :: 0 <= j < i ==> listeners[j] == Sent(before[j], e, closeChan)
        invariant forall j :: i <= j < |listeners| ==> listeners[j] == before[j]
      {
        var ch := listeners[i];
        ch := ch.(sent := ch.sent + [e]);
        if closeChan {
          ch := ch.(closed := true);
        }
        listeners := listeners[i := ch];
      }
    }

    /** StartAsync. The main goroutine starts if and only if the switch succeeds. */
    method StartAsync() returns (switched: bool)
      requires state == New ==> !SwitchPanics(View(), Starting) && !SwitchBlocks(View())
      modifies this
      ensures switched <==> old(state) == New
      ensures View() == if switched then Switched(old(View()), Starting) else old(View())
    {
      if state != New {
        return false;
      }
      state := Starting;
      NotifyListeners(Event(New, Starting), false);
      switched := true;
    }

    /** main: StartingFn has failed. */
    method FailStarting()
      requires state == Starting && !SwitchPanics(View(), Failed) && !SwitchBlocks(View())
      modifies this
      ensures View() == Switched(old(View()), Failed)
    {
      state := Failed;
      failureCase := true;
      runningWaitersClosed := true;
      terminatedWaitersClosed := true;
      NotifyListeners(Event(Starting, Failed), true);
    }

    /** main: StartingFn has succeeded. */
    method EnterRunning()
      requires state == Starting && !SwitchPanics(View(), Running) && !SwitchBlocks(View())
      modifies this
      ensures View() == Switched(old(View()), Running)
    {
      state := Running;
      runningWaitersClosed := true;
      NotifyListeners(Event(Starting, Running), false);
    }

    /** main: RunningFn has returned, or the context was cancelled while starting. */
    method EnterStopping(stoppingFrom: ServiceState)
      requires state == stoppingFrom && (stoppingFrom == Starting || stoppingFrom == Running)
      requires !SwitchPanics(View(), Stopping) && !SwitchBlocks(View())
      modifies this
      ensures View() == Switched(old(View()), Stopping)
    {
      state := Stopping;
      if stoppingFrom == Starting {
        runningWaitersClosed := true;
      }
      NotifyListeners(Event(stoppingFrom, Stopping), false);
    }

    /** main: StoppingFn has returned. */
    method Finish(failure: bool)
      requires state == Stopping && !SwitchBlocks(View())
      requires !SwitchPanics(View(), if failure then Failed else Terminated)
      modifies this
      ensures View() == Switched(old(View()), if failure then Failed else Terminated)
    {
      if failure {
        state := Failed;
        failureCase := true;
        terminatedWaitersClosed := true;
        NotifyListeners(Event(Stopping, Failed), true);
      } else {
        state := Terminated;
        terminatedWaitersClosed := true;
        NotifyListeners(Event(Stopping, Terminated), true);
      }
    }

    /** StopAsync: a service that has not been started never will be. */
    method TerminateIfNew() returns (terminated: bool)
      requires state == New ==> !SwitchPanics(View(), Terminated) && !SwitchBlocks(View())
      modifies this
      ensures terminated <==> old(state) == New
      ensures View() == if terminated then Switched(old(View()), Terminated) else old(View())
    {
      if state != New {
        return false;
      }
      state := Terminated;
      runningWaitersClosed := true;
      terminatedWaitersClosed := true;
      NotifyListeners(Event(New, Terminated), true);
      terminated := true;
    }

    method AddListener()
      modifies this`listeners
      ensures View() == WithListener(old(View()))
    {
      if state == Terminated || state == Failed {
        return;
      }
      listeners := listeners + [Channel(state, [], 0, false)];
    }
  }

  function WithListener(c: Core): Core {
    if Terminal(c.state) then c else c.(listeners := c.listeners + [Channel(c.state, [], 0, false)])
  }

  // ---------------------------------------------------------------- all interleavings

  /** Where the main goroutine is: in a user function, or about to take the lock. */
  datatype Main =
    | NotStarted | InStartingFn | FailingToStart | CheckingContext | ToRunning | InRunningFn
    | ToStopping(from: ServiceState, failure: bool) | InStoppingFn(failure: bool) | ToEnd(failure: bool) | Returned

  /**
   * A caller of StopAsync that has found the service alive: about to try the switch, or about to cancel the context.
   */
  datatype Stopper = Trying | Cancelling

  /** contextSet: StartAsync has created the context and its cancel function. */
  datatype State = State(core: Core, contextSet: bool, cancelled: bool, main: Main, stoppers: map<nat, Stopper>)

  datatype Step =
    | CallStart
    | MainStep(err: bool)
    | BeginStop(t: nat)
    | TryStop(t: nat)
    | CancelContext(t: nat)
    | CancelParent
    | AddListener
    | Receive(l: nat)

  predicate Initial(s: State) {
    s == State(Core(New, false, [], false, false), false, false, NotStarted, map[])
  }

  predicate Enabled(s: State, step: Step) {
    match step
    case CallStart => true
    case MainStep(_) => !s.main.NotStarted? && !s.main.Returned?
    case BeginStop(t) => t !in s.stoppers
    case TryStop(t) => t in s.stoppers && s.stoppers[t] == Trying
    case CancelContext(t) => t in s.stoppers && s.stoppers[t] == Cancelling
    case CancelParent => s.contextSet
    case AddListener => true
    case Receive(l) => l < |s.core.listeners| && s.core.listeners[l].received < |s.core.listeners[l].sent|
  }

  /** The switch of states that a step makes, with the state it insists on if it is one that must succeed. */
  function Target(s: State, step: Step): (r: (bool, ServiceState, ServiceState)) {
    match step
    case CallStart => (s.core.state == New, New, Starting)
    case TryStop(_) => (s.core.state == New, New, Terminated)
    case MainStep(_) => (
      match s.main
      case FailingToStart => (true, Starting, Failed)
      case ToRunning => (true, Starting, Running)
      case ToStopping(from, _) => (true, from, Stopping)
      case ToEnd(failure) => (true, Stopping, if failure then Failed else Terminated)
      case _ => (false, New, New))
    case _ => (false, New, New)
  }

  /** mustSwitchState finds another state, a channel is closed twice or sent on when closed, or no context exists. */
  predicate Panics(s: State, step: Step) {
    var (switches, from, to) := Target(s, step);
    || (switches && (s.core.state != from || SwitchPanics(s.core, to)))
    || (step.CancelContext? && !s.contextSet)
  }

  predicate Blocks(s: State, step: Step) {
    Target(s, step).0 && SwitchBlocks(s.core)
  }

  function Next(s: State, step: Step): State
    requires Enabled(s, step)
  {
    var (switches, _, to) := Target(s, step);
    var core := if switches then Switched(s.core, to) else s.core;
    match step
    case CallStart => if switches then s.(core := core, contextSet := true, main := InStartingFn) else s
    case MainStep(err) => (
      match s.main
      case InStartingFn => s.(main := if err then FailingToStart else CheckingContext)
      case FailingToStart => s.(core := core, cancelled := true, main := Returned)
      case CheckingContext => s.(main := if s.cancelled then ToStopping(Starting, false) else ToRunning)
      case ToRunning => s.(core := core, main := InRunningFn)
      case InRunningFn => s.(main := ToStopping(Running, err))
      case ToStopping(_, failure) => s.(core := core, main := InStoppingFn(failure))
      case InStoppingFn(failure) => s.(cancelled := true, main := ToEnd(failure || err))
      case _ => s.(core := core, main := Returned))
    case BeginStop(t) =>
      if Depth(s.core.state) >= 3 then s else s.(stoppers := s.stoppers[t := Trying])
    case TryStop(t) =>
      if switches then s.(core := core, stoppers := s.stoppers - {t}) else s.(stoppers := s.stoppers[t := Cancelling])
    case CancelContext(t) => s.(cancelled := true, stoppers := s.stoppers - {t})
    case CancelParent => s.(cancelled := true)
    case AddListener => s.(core := WithListener(s.core))
    case Receive(l) =>
      var ch := s.core.listeners[l];
      s.(core := s.core.(listeners := s.core.listeners[l := ch.(received := ch.received + 1)]))
  }

  predicate IsRun(states: seq<State>, steps: seq<Step>) {
    && |states| == |steps| + 1 && Initial(states[0])
    && forall i :: 0 <= i < |steps| ==> Enabled(states[i], steps[i]) && states[i + 1] == Next(states[i], steps[i])
  }

  /** The state that the main goroutine believes in is the actual one. */
  predicate MainFits(main: Main, state: ServiceState) {
    match main
    case NotStarted => state == New || state == Terminated
    case InStartingFn => state == Starting
    case FailingToStart => state == Starting
    case CheckingContext => state == Starting
    case ToRunning => state == Starting
    case InRunningFn => state == Running
    case ToStopping(from, _) => state == from && (from == Starting || from == Running)
    case InStoppingFn(_) => state == Stopping
    case ToEnd(_) => state == Stopping
    case Returned => Terminal(state)
  }

  /**
   * Waiters are released exactly when they should be, and every listener has been told the way from its first state.
   */
  predicate CoreInv(c: Core) {
    && (c.runningClosed <==> Depth(c.state) >= 2)
    && (c.terminatedClosed <==> Terminal(c.state))
    && (c.failure <==> c.state == Failed)
    && forall i :: 0 <= i < |c.listeners| ==> ChannelInv(c.listeners[i], c.state)
  }

  predicate ChannelInv(ch: Channel, state: ServiceState) {
    IsPath(ch.since, ch.sent, state) && (ch.closed <==> Terminal(state)) && ch.received <= |ch.sent|
  }

  predicate Inv(s: State) {
    && CoreInv(s.core) && MainFits(s.main, s.core.state)
    && (s.contextSet <==> s.main != NotStarted)
    && (forall t :: t in s.stoppers && s.stoppers[t] == Cancelling ==> s.core.state != New)
  }

  lemma SwitchKeepsCoreInv(c: Core, to: ServiceState)
    requires CoreInv(c) && Legal(c.state, to)
    ensures CoreInv(Switched(c, to)) && !SwitchPanics(c, to) && !SwitchBlocks(c)
  {
    forall i | 0 <= i < |c.listeners|
      ensures ChannelInv(Switched(c, to).listeners[i], to)
      ensures !c.listeners[i].closed && |c.listeners[i].sent| - c.listeners[i].received < CAPACITY
    {
      var ch := c.listeners[i];
      PathsAreShort(ch.since, ch.sent, c.state);
      assert (ch.sent + [Event(c.state, to)])[..|ch.sent|] == ch.sent;
    }
  }

  lemma StepKeepsInv(s: State, step: Step)
    requires Inv(s) && Enabled(s, step)
    ensures Inv(Next(s, step))
    ensures !Blocks(s, step)
    ensures Panics(s, step) <==> step.CancelContext? && !s.contextSet
  {
    var (switches, _, to) := Target(s, step);
    if switches {
      SwitchKeepsCoreInv(s.core, to);
    }
  }

  /**
   * In every run, mustSwitchState never finds another state, no channel is closed twice or sent on when closed, and
   * no send blocks with the lock held. What can go wrong is StopAsync, and exactly when there never was a context.
   */
  lemma {:induction false} OnlyCancelCanPanic(states: seq<State>, steps: seq<Step>, i: nat)
    requires IsRun(states, steps) && i < |states|
    ensures Inv(states[i])
    ensures i < |steps| ==> !Blocks(states[i], steps[i])
    ensures i < |steps| ==> (Panics(states[i], steps[i]) <==> steps[i].CancelContext? && !states[i].contextSet)
  {
    if i > 0 {
      OnlyCancelCanPanic(states, steps, i - 1);
      StepKeepsInv(states[i - 1], steps[i - 1]);
    }
    if i < |steps| {
      StepKeepsInv(states[i], steps[i]);
    }
  }

  /** A listener gets at most four events, each starting where the one before ended. */
  lemma ListenersAreToldTheWay(states: seq<State>, steps: seq<Step>, i: nat, l: nat)
    requires IsRun(states, steps) && i < |states| && l < |states[i].core.listeners|
    ensures var ch := states[i].core.listeners[l];
      && |ch.sent| <= CAPACITY && IsPath(ch.since, ch.sent, states[i].core.state)
      && (ch.closed <==> Terminal(states[i].core.state))
  {
    OnlyCancelCanPanic(states, steps, i);
    var ch := states[i].core.listeners[l];
    PathsAreShort(ch.since, ch.sent, states[i].core.state);
  }

  // ---------------------------------------------------------------- waiting

  /** awaitState, once the channel it waits for has been closed: the state is read again, and may have moved on. */
  datatype Awaited = Blocked | AsExpected | OtherState(failure: bool)

  function AwaitRunning(c: Core): Awaited {
    if !c.runningClosed then Blocked else if c.state == Running then AsExpected else OtherState(c.failure)
  }

  function AwaitTerminated(c: Core): Awaited {
    if !c.terminatedClosed then Blocked else if c.state == Terminated then AsExpected else OtherState(c.failure)
  }

  /** States only move on, and a service that ends without a context never gets one. */
  predicate MovesOn(s: State, s': State) {
    && Depth(s.core.state) <= Depth(s'.core.state)
    && (Depth(s.core.state) == Depth(s'.core.state) ==> s.core.state == s'.core.state)
    && (!s.contextSet && s.core.state == Terminated ==> !s'.contextSet)
  }

  lemma StepMovesOn(s: State, step: Step)
    requires Inv(s) && Enabled(s, step)
    ensures MovesOn(s, Next(s, step))
  {
  }

  lemma RunMovesOn(states: seq<State>, steps: seq<Step>, i: nat)
    requires IsRun(states, steps) && i < |steps|
    ensures MovesOn(states[i], states[i + 1])
  {
    OnlyCancelCanPanic(states, steps, i);
    StepMovesOn(states[i], steps[i]);
  }

  lemma {:induction false} MovesOnAllTheWay(states: seq<State>, i: nat, j: nat)
    requires i <= j < |states| && forall h :: i <= h < j ==> MovesOn(states[h], states[h + 1])
    ensures MovesOn(states[i], states[j])
    decreases j
  {
    if i < j {
      MovesOnAllTheWay(states, i, j - 1);
      assert MovesOn(states[j - 1], states[j - 1 + 1]);
      MovesOnIsTransitive(states[i], states[j - 1], states[j]);
    }
  }

  lemma StatesMoveOn(states: seq<State>, steps: seq<Step>, i: nat, j: nat)
    requires IsRun(states, steps) && i <= j < |states|
    ensures MovesOn(states[i], states[j])
  {
    forall h | i <= h < j ensures MovesOn(states[h], states[h + 1]) {
      RunMovesOn(states, steps, h);
    }
    MovesOnAllTheWay(states, i, j);
  }

  lemma MovesOnIsTransitive(a: State, b: State, c: State)
    requires MovesOn(a, b) && MovesOn(b, c)
    ensures MovesOn(a, c)
  {
  }

  /**
   * Waiting for the end gives one verdict, whenever it is asked for: it blocks until the service has ended, and then
   * says for good whether it terminated, with the failure if it did not.
   */
  lemma AwaitTerminatedIsFinal(states: seq<State>, steps: seq<Step>, i: nat, j: nat)
    requires IsRun(states, steps) && i <= j < |states|
    ensures AwaitTerminated(states[i].core) == Blocked <==> !Terminal(states[i].core.state)
    ensures AwaitTerminated(states[i].core) != Blocked ==>
      AwaitTerminated(states[j].core) == AwaitTerminated(states[i].core)
    ensures AwaitTerminated(states[i].core) in {Blocked, AsExpected, OtherState(true)}
  {
    OnlyCancelCanPanic(states, steps, i);
    OnlyCancelCanPanic(states, steps, j);
    StatesMoveOn(states, steps, i, j);
  }

  /** Waiting for Running blocks until it is reached or cannot be reached any more, and never succeeds after that. */
  lemma AwaitRunningIsHonest(states: seq<State>, steps: seq<Step>, i: nat, j: nat)
    requires IsRun(states, steps) && i <= j < |states|
    ensures AwaitRunning(states[i].core) == Blocked <==> states[i].core.state in {New, Starting}
    ensures AwaitRunning(states[i].core).OtherState? ==> AwaitRunning(states[j].core).OtherState?
    ensures AwaitRunning(states[i].core) != Blocked ==> AwaitRunning(states[j].core) != Blocked
  {
    OnlyCancelCanPanic(states, steps, i);
    OnlyCancelCanPanic(states, steps, j);
    StatesMoveOn(states, steps, i, j);
  }

  // ---------------------------------------------------------------- stopping twice

  /** Two calls of StopAsync for a service that is never started: the loser calls a cancel function that is not set. */
  lemma TwoStopsCanPanic() returns (states: seq<State>, steps: seq<Step>)
    ensures IsRun(states, steps) && |steps| == 5 && Panics(states[4], steps[4])
  {
    steps := [BeginStop(0), BeginStop(1), TryStop(0), TryStop(1), CancelContext(1)];
    var s0 := State(Core(New, false, [], false, false), false, false, NotStarted, map[]);
    var s1 := Next(s0, steps[0]);
    var s2 := Next(s1, steps[1]);
    var s3 := Next(s2, steps[2]);
    var s4 := Next(s3, steps[3]);
    states := [s0, s1, s2, s3, s4, Next(s4, steps[4])];
  }

  /** With step g another caller switches the service away from New, while t is between its check and its own switch. */
  predicate Overtakes(states: seq<State>, steps: seq<Step>, g: nat, t: nat)
    requires g < |steps| && g < |states|
  {
    && steps[g].TryStop? && steps[g].t != t && states[g].core.state == New
    && t in states[g].stoppers && states[g].stoppers[t] == Trying
  }

  /** A caller of a service that has ended without a context has been overtaken. */
  lemma {:induction false} WasOvertaken(states: seq<State>, steps: seq<Step>, j: nat, t: nat) returns (g: nat)
    requires IsRun(states, steps) && j < |states| && !states[j].contextSet && states[j].core.state != New
    requires t in states[j].stoppers
    ensures g < j && Overtakes(states, steps, g, t)
  {
    if j == 0 {
      assert false;
    } else {
      var s, step := states[j - 1], steps[j - 1];
      OnlyCancelCanPanic(states, steps, j - 1);
      assert states[j] == Next(s, step);
      if s.core.state == New {
        g := j - 1;
      } else {
        g := WasOvertaken(states, steps, j - 1, t);
      }
    }
  }

  /**
   * A call of StopAsync panics if and only if another one terminates the New service between its check and its
   * switch.
   */
  lemma StopPanicsExactly(states: seq<State>, steps: seq<Step>, i: nat, t: nat)
    requires IsRun(states, steps) && i < |steps| && steps[i] == CancelContext(t)
    ensures Panics(states[i], steps[i]) <==> exists g: nat :: g < i && Overtakes(states, steps, g, t)
  {
    OnlyCancelCanPanic(states, steps, i);
    if Panics(states[i], steps[i]) {
      var g := WasOvertaken(states, steps, i, t);
    }
    if g: nat :| g < i && Overtakes(states, steps, g, t) {
      OnlyCancelCanPanic(states, steps, g);
      assert states[g + 1] == Next(states[g], steps[g]);
      StatesMoveOn(states, steps, g + 1, i);
    }
  }

  /** In particular nothing panics as long as calls of StopAsync do not overlap. */
  lemma OneStopAtATimeIsSafe(states: seq<State>, steps: seq<Step>, i: nat)
    requires IsRun(states, steps) && i < |steps|
    requires forall j :: 0 <= j <= i ==> |states[j].stoppers| <= 1
    ensures !Panics(states[i], steps[i])
  {
    OnlyCancelCanPanic(states, steps, i);
    if Panics(states[i], steps[i]) {
      var t := steps[i].t;
      StopPanicsExactly(states, steps, i, t);
      var g: nat :| g < i && Overtakes(states, steps, g, t);
      assert Enabled(states[g], steps[g]);
      TwoOfThem(states[g].stoppers, t, steps[g].t);
    }
  }

  lemma TwoOfThem(m: map<nat, Stopper>, t: nat, u: nat)
    requires t in m && u in m && t != u
    ensures |m| >= 2
  {
    assert |m.Keys - {t} - {u}| == |m.Keys| - 2;
  }
}
