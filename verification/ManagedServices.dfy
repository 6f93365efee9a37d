/** Services and their manager together (services/basic_service.go, services/manager.go). */
module ManagedServices {
  import opened ServiceStates
  import B = BasicServices
  import M = ServiceManagers

  // The manager is the first listener of each of its services. Its goroutine for a service takes one event after the
  // other from the channel of that listener and calls serviceStateChanged with it.

  datatype State = State(services: seq<B.State>, manager: M.State)

  /** A step of service i, which may be that the manager takes its next event, or a step of a user of the manager. */
  datatype Step = ServiceStep(i: nat, step: B.Step) | ManagerStep(move: M.Step)

  /** NewManager has added its listener to services that are all New. */
  predicate Initial(s: State) {
    && |s.services| > 0 && M.Initial(s.manager, |s.services|)
    && forall i :: 0 <= i < |s.services| ==>
         s.services[i] == B.State(B.Core(New, false, [B.Channel(New, [], 0, false)], false, false), false, false,
                                  B.NotStarted, map[])
  }

  predicate Enabled(s: State, step: Step) {
    match step
    case ServiceStep(i, st) => i < |s.services| && |s.services[i].core.listeners| > 0 && B.Enabled(s.services[i], st)
    case ManagerStep(st) => !st.Deliver? && M.Enabled(s.manager, st)
  }

  /** The event that the manager takes next from service i. */
  function NextEvent(b: B.State): Event
    requires |b.core.listeners| > 0 && B.Enabled(b, B.Receive(0))
  {
    b.core.listeners[0].sent[b.core.listeners[0].received]
  }

  /** What the manager is told with a step; nothing, if the service is not as the manager believes. */
  function Told(m: M.State, i: nat, e: Event): M.State {
    if M.Enabled(m, M.Deliver(i, e.to)) && m.view[i] == e.from then M.Next(m, M.Deliver(i, e.to)) else m
  }

  function Next(s: State, step: Step): State
    requires Enabled(s, step)
  {
    match step
    case ServiceStep(i, st) =>
      var m := if st == B.Receive(0) then Told(s.manager, i, NextEvent(s.services[i])) else s.manager;
      State(s.services[i := B.Next(s.services[i], st)], m)
    case ManagerStep(st) => s.(manager := M.Next(s.manager, st))
  }

  predicate IsRun(states: seq<State>, steps: seq<Step>) {
    && |states| == |steps| + 1 && Initial(states[0])
    && forall i :: 0 <= i < |steps| ==> Enabled(states[i], steps[i]) && states[i + 1] == Next(states[i], steps[i])
  }

  /** The state after the first n events of a path that starts in New. */
  function After(events: seq<Event>, n: nat): ServiceState
    requires n <= |events|
  {
    if n == 0 then New else events[n - 1].to
  }

  /** What the manager knows of a service is what it has been told so far. */
  predicate Knows(b: B.State, known: ServiceState) {
    && B.Inv(b) && |b.core.listeners| > 0 && b.core.listeners[0].since == New
    && b.core.listeners[0].received <= |b.core.listeners[0].sent|
    && known == After(b.core.listeners[0].sent, b.core.listeners[0].received)
  }

  predicate Inv(s: State) {
    |s.manager.view| == |s.services| && forall i :: 0 <= i < |s.services| ==> Knows(s.services[i], s.manager.view[i])
  }

  /** The first listener only gets further events, and has taken one more exactly if it is the one that receives. */
  lemma FirstListener(b: B.State, step: B.Step)
    requires B.Inv(b) && |b.core.listeners| > 0 && B.Enabled(b, step)
    ensures var next := B.Next(b, step);
      && |next.core.listeners| > 0 && next.core.listeners[0].since == b.core.listeners[0].since
      && b.core.listeners[0].sent <= next.core.listeners[0].sent
      && next.core.listeners[0].received == b.core.listeners[0].received + if step == B.Receive(0) then 1 else 0
  {
  }

  lemma NextEventIsLegal(b: B.State, known: ServiceState)
    requires Knows(b, known) && B.Enabled(b, B.Receive(0))
    ensures NextEvent(b).from == known && Legal(known, NextEvent(b).to)
  {
    var ch := b.core.listeners[0];
    assert B.ChannelInv(ch, b.core.state);
    PathsAreConnected(ch.since, ch.sent, b.core.state, ch.received);
  }

  lemma StillKnows(b: B.State, known: ServiceState, step: B.Step)
    requires Knows(b, known) && B.Enabled(b, step)
    ensures Knows(B.Next(b, step), if step == B.Receive(0) then NextEvent(b).to else known)
  {
    B.StepKeepsInv(b, step);
    FirstListener(b, step);
    var next := B.Next(b, step);
    assert B.ChannelInv(next.core.listeners[0], next.core.state);
  }

  /** Whatever the manager takes from a channel, it is a move from the state it knows, and legal. */
  lemma DeliveryIsEnabled(s: State, i: nat)
    requires Inv(s) && i < |s.services| && B.Enabled(s.services[i], B.Receive(0))
    ensures s.manager.view[i] == NextEvent(s.services[i]).from
    ensures M.Enabled(s.manager, M.Deliver(i, NextEvent(s.services[i]).to))
  {
    NextEventIsLegal(s.services[i], s.manager.view[i]);
  }

  lemma InitialInv(s: State)
    requires Initial(s)
    ensures Inv(s)
  {
    forall i | 0 <= i < |s.services| ensures Knows(s.services[i], s.manager.view[i]) {
      assert s.services[i].core.listeners[0].sent == [];
    }
  }

  lemma StepKeepsInv(s: State, step: Step)
    requires Inv(s) && Enabled(s, step)
    ensures Inv(Next(s, step))
  {
    match step
    case ServiceStep(i, st) =>
      StillKnows(s.services[i], s.manager.view[i], st);
      if st == B.Receive(0) {
        DeliveryIsEnabled(s, i);
      }
    case ManagerStep(_) =>
  }

  lemma {:induction false} RunKeepsInv(states: seq<State>, steps: seq<Step>, i: nat)
    requires IsRun(states, steps) && i < |states|
    ensures Inv(states[i])
  {
    if i == 0 {
      InitialInv(states[0]);
    } else {
      RunKeepsInv(states, steps, i - 1);
      StepKeepsInv(states[i - 1], steps[i - 1]);
    }
  }

  /** What the step means for the manager: one of its own steps, or none. */
  function ManagerPart(s: State, step: Step): seq<M.Step>
    requires Enabled(s, step)
  {
    match step
    case ServiceStep(i, st) => if st == B.Receive(0) then [M.Deliver(i, NextEvent(s.services[i]).to)] else []
    case ManagerStep(st) => [st]
  }

  lemma PartIsAStep(s: State, step: Step)
    requires Inv(s) && Enabled(s, step)
    ensures ManagerPart(s, step) == [] ==> Next(s, step).manager == s.manager
    ensures ManagerPart(s, step) != [] ==>
      && M.Enabled(s.manager, ManagerPart(s, step)[0])
      && Next(s, step).manager == M.Next(s.manager, ManagerPart(s, step)[0])
  {
    if step.ServiceStep? && step.step == B.Receive(0) {
      DeliveryIsEnabled(s, step.i);
    }
  }

  lemma OneMoreStep(count: nat, managers: seq<M.State>, parts: seq<M.Step>, part: M.Step)
    requires M.IsRun(count, managers, parts) && M.Enabled(managers[|parts|], part)
    ensures M.IsRun(count, managers + [M.Next(managers[|parts|], part)], parts + [part])
  {
  }

  /** What services and manager do together is, seen from the manager, one of its runs: all services move legally. */
  lemma {:induction false} IsRunOfManager(states: seq<State>, steps: seq<Step>, i: nat)
    returns (managers: seq<M.State>, parts: seq<M.Step>)
    requires IsRun(states, steps) && i < |states|
    ensures M.IsRun(|states[0].services|, managers, parts) && managers[|parts|] == states[i].manager
  {
    if i == 0 {
      managers, parts := [states[0].manager], [];
    } else {
      managers, parts := IsRunOfManager(states, steps, i - 1);
      var s, step := states[i - 1], steps[i - 1];
      RunKeepsInv(states, steps, i - 1);
      PartIsAStep(s, step);
      if ManagerPart(s, step) != [] {
        OneMoreStep(|states[0].services|, managers, parts, ManagerPart(s, step)[0]);
        managers, parts := managers + [states[i].manager], parts + ManagerPart(s, step);
      }
    }
  }

  lemma {:induction false} ServicesStay(states: seq<State>, steps: seq<Step>, i: nat)
    requires IsRun(states, steps) && i < |states|
    ensures |states[i].services| == |states[0].services|
  {
    if i > 0 {
      ServicesStay(states, steps, i - 1);
    }
  }

  /** All events of all services have been taken. */
  predicate AllDelivered(s: State) {
    forall i :: 0 <= i < |s.services| ==>
      |s.services[i].core.listeners| > 0
      && s.services[i].core.listeners[0].received == |s.services[i].core.listeners[0].sent|
  }

  /** Once all events have been taken, the manager knows the actual state of each service. */
  lemma ManagerKnowsAll(states: seq<State>, steps: seq<Step>, i: nat)
    requires IsRun(states, steps) && i < |states| && AllDelivered(states[i])
    ensures |states[i].manager.view| == |states[i].services|
    ensures forall k :: 0 <= k < |states[i].services| ==> states[i].manager.view[k] == states[i].services[k].core.state
  {
    var s := states[i];
    RunKeepsInv(states, steps, i);
    forall k | 0 <= k < |s.services| ensures s.manager.view[k] == s.services[k].core.state {
      var ch := s.services[k].core.listeners[0];
      assert B.ChannelInv(ch, s.services[k].core.state);
    }
  }

  predicate AllAreRunning(s: State) {
    forall k :: 0 <= k < |s.services| ==> s.services[k].core.state == Running
  }

  predicate AllHaveEnded(s: State) {
    forall k :: 0 <= k < |s.services| ==> Terminal(s.services[k].core.state)
  }

  /**
   * And then it is healthy exactly if all services are running, and stopped exactly if all have ended: its channels are
   * closed at most once, whatever happened before.
   */
  lemma ManagerIsRight(states: seq<State>, steps: seq<Step>, i: nat)
    requires IsRun(states, steps) && i < |states| && AllDelivered(states[i])
    ensures var s := states[i];
      && (s.manager.group.state == M.Healthy <==> AllAreRunning(s))
      && (s.manager.group.state == M.Stopped <==> AllHaveEnded(s))
      && s.manager.group.healthyCloses <= 1 && s.manager.group.stoppedCloses <= 1
  {
    ManagerKnowsAll(states, steps, i);
    var managers, parts := IsRunOfManager(states, steps, i);
    M.ManagerIsSafe(|states[0].services|, managers, parts, |parts|);
  }
}
