/**
 * The manager of a group of services (services/manager.go): its methods on state changes, and every interleaving of the
 * lifecycles of its services.
 */
module ServiceManagers {
  import opened ServiceStates
  import opened Sets

  datatype ManagerState = Unknown | Healthy | Stopped

  datatype Notice = HealthyNotice | StoppedNotice | FailureNotice(service: nat)

  /** The channel of a listener and everything ever sent on it. */
  datatype Listener = Listener(sent: seq<Notice>, received: nat, closed: bool)

  type ByState = map<ServiceState, seq<nat>>

  /** What the lock protects, and how often the two channels for waiters have been closed. */
  datatype Group = Group(
    count: nat, state: ManagerState, byState: ByState, healthyClosed: bool, healthyCloses: nat, stoppedCloses: nat,
    listeners: seq<Listener>)

  function In(byState: ByState, s: ServiceState): seq<nat> {
    if s in byState then byState[s] else []
  }

  /** The list without the first occurrence. */
  function Without(list: seq<nat>, s: nat): seq<nat> {
    if list == [] then []
    else if list[0] == s then list[1..]
    else [list[0]] + Without(list[1..], s)
  }

  /** The lists after a service has moved; no empty list is kept. */
  function Moved(byState: ByState, s: nat, from: ServiceState, to: ServiceState): ByState {
    var rest := Kept(byState, from, Without(In(byState, from), s));
    rest[to := In(rest, to) + [s]]
  }

  function Kept(byState: ByState, s: ServiceState, list: seq<nat>): ByState {
    if |list| == 0 then byState - {s} else byState[s := list]
  }

  function Told(listeners: seq<Listener>, n: Notice, close: bool): (r: seq<Listener>) {
    seq(|listeners|, i requires 0 <= i < |listeners| =>
      Listener(listeners[i].sent + [n], listeners[i].received, listeners[i].closed || close))
  }

  function Done(byState: ByState): nat {
    |In(byState, Terminated)| + |In(byState, Failed)|
  }

  predicate AllRunning(g: Group) {
    |In(g.byState, Running)| == g.count
  }

  predicate AllDone(g: Group) {
    Done(g.byState) == g.count
  }

  /** Not all services can be running any more. */
  predicate Hopeless(g: Group) {
    Done(g.byState) > 0 || |In(g.byState, Stopping)| > 0
  }

  function TellFailure(g: Group, s: nat, to: ServiceState): Group {
    if to == Failed then g.(listeners := Told(g.listeners, FailureNotice(s), false)) else g
  }

  function Settled(g: Group): Group {
    if AllRunning(g) then
      g.(healthyCloses := g.healthyCloses + 1, state := Healthy, healthyClosed := true,
         listeners := Told(g.listeners, HealthyNotice, false))
    else if AllDone(g) then
      g.(healthyCloses := g.healthyCloses + (if g.healthyClosed then 0 else 1), healthyClosed := true,
         stoppedCloses := g.stoppedCloses + 1, state := Stopped, listeners := Told(g.listeners, StoppedNotice, true))
    else if !g.healthyClosed && Hopeless(g) then
      g.(healthyCloses := g.healthyCloses + 1, healthyClosed := true, state := Unknown)
    else
      g.(state := Unknown)
  }

  /** A service has moved, and the listeners know if it failed. */
  function Recorded(g: Group, s: nat, from: ServiceState, to: ServiceState): Group {
    TellFailure(g.(byState := Moved(g.byState, s, from, to)), s, to)
  }

  /** The effect of one state change, with everything that happens under the lock. */
  function Changed(g: Group, s: nat, from: ServiceState, to: ServiceState): Group {
    Settled(Recorded(g, s, from, to))
  }

  /** Some listener cannot be sent to: its channel is closed, which panics, or full, which blocks. */
  predicate CannotTell(g: Group) {
    exists i :: 0 <= i < |g.listeners|
      && (g.listeners[i].closed || |g.listeners[i].sent| - g.listeners[i].received >= g.count + 2)
  }

  /** Settling would send to such a listener, or close a channel again. */
  predicate CannotSettle(g: Group) {
    if AllRunning(g) then g.healthyCloses > 0 || CannotTell(g)
    else if AllDone(g) then (!g.healthyClosed && g.healthyCloses > 0) || g.stoppedCloses > 0 || CannotTell(g)
    else !g.healthyClosed && Hopeless(g) && g.healthyCloses > 0
  }

  /** serviceStateChanged would panic or block. */
  predicate Fails(g: Group, s: nat, from: ServiceState, to: ServiceState) {
    (to == Failed && CannotTell(g)) || CannotSettle(Recorded(g, s, from, to))
  }

  method RemoveFirst(list: seq<nat>, s: nat) returns (fs: seq<nat>)
    ensures fs == Without(list, s)
  {
    fs := list;
    for ix := 0 to |list|
      invariant fs == list
      invariant Without(list, s) == list[..ix] + Without(list[ix..], s)
    {
      LookAt(list, s, ix);
      if fs[ix] == s {
        return fs[..ix] + fs[ix + 1..];
      }
    }
    assert list[..|list|] == list;
  }

  lemma LookAt(list: seq<nat>, s: nat, ix: nat)
    requires ix < |list|
    ensures list[ix] == s ==> list[..ix] + Without(list[ix..], s) == list[..ix] + list[ix + 1..]
    ensures list[ix] != s ==> list[..ix] + Without(list[ix..], s) == list[..ix + 1] + Without(list[ix + 1..], s)
  {
    assert list[ix..][1..] == list[ix + 1..];
    assert list[..ix + 1] == list[..ix] + [list[ix]];
  }

  class Manager {
    const count: nat
    var state: ManagerState
    var byState: ByState
    var healthyClosed: bool
    var healthyCloses: nat
    var stoppedCloses: nat
    var listeners: seq<Listener>

    constructor (count: nat)
      ensures View() == NewGroup(count)
    {
      this.count := count;
      state, healthyClosed, healthyCloses, stoppedCloses, listeners := Unknown, false, 0, 0, [];
      byState := map[New := seq(count, i => i)];
    }

    function View(): Group
      reads this
    {
      Group(count, state, byState, healthyClosed, healthyCloses, stoppedCloses, listeners)
    }

    method CloseHealthy()
      requires healthyCloses == 0
      modifies this`healthyCloses
      ensures healthyCloses == 1
    {
      healthyCloses := healthyCloses + 1;
    }

    method CloseStopped()
      requires stoppedCloses == 0
      modifies this`stoppedCloses
      ensures stoppedCloses == 1
    {
      stoppedCloses := stoppedCloses + 1;
    }

    method NotifyListeners(n: Notice, closeChan: bool)
      requires forall i :: 0 <= i < |listeners| ==>
        !listeners[i].closed && |listeners[i].sent| - listeners[i].received < count + 2
      modifies this`listeners
      ensures listeners == Told(old(listeners), n, closeChan)
    {
      ghost var before := listeners;
      for i := 0 to |listeners|
        invariant |listeners| == |before|
        invariant forall j :: 0 <= j < i ==> listeners[j] == Told(before, n, closeChan)[j]
        invariant forall j :: i <= j < |listeners| ==> listeners[j] == before[j]
      {
        var ch := listeners[i];
        ch := ch.(sent := ch.sent + [n]);
        if closeChan {
          ch := ch.(closed := true);
        }
        listeners := listeners[i := ch];
      }
    }

    /** The first part of serviceStateChanged. */
    method MoveService(s: nat, from: ServiceState, to: ServiceState)
      modifies this`byState
      ensures byState == Moved(old(byState), s, from, to)
    {
      var fs := RemoveFirst(if from in byState then byState[from] else [], s);
      var rest := if |fs| == 0 then byState - {from} else byState[from := fs];
      assert rest == Kept(byState, from, fs);
      byState := rest[to := (if to in rest then rest[to] else []) + [s]];
    }

    method ServiceStateChanged(s: nat, from: ServiceState, to: ServiceState)
      requires !Fails(View(), s, from, to)
      modifies this
      ensures View() == Changed(old(View()), s, from, to)
    {
      MoveService(s, from, to);
      if to == Failed {
        NotifyListeners(FailureNotice(s), false);
      }
      assert View() == Recorded(old(View()), s, from, to);
      Settle();
    }

    /** The second part of serviceStateChanged. */
    method Settle()
      requires !CannotSettle(View())
      modifies this
      ensures View() == Settled(old(View()))
    {
      var running := if Running in byState then |byState[Running]| else 0;
      var stopping := if Stopping in byState then |byState[Stopping]| else 0;
      var terminated := if Terminated in byState then |byState[Terminated]| else 0;
      var failed := if Failed in byState then |byState[Failed]| else 0;
      var done := terminated + failed;
      if running == count {
        CloseHealthy();
        state := Healthy;
        healthyClosed := true;
        NotifyListeners(HealthyNotice, false);
      } else if done == count {
        if !healthyClosed {
          CloseHealthy();
          healthyClosed := true;
        }
        CloseStopped();
        state := Stopped;
        NotifyListeners(StoppedNotice, true);
      } else {
        if !healthyClosed && (done > 0 || stopping > 0) {
          CloseHealthy();
          healthyClosed := true;
        }
        state := Unknown;
      }
    }

    method AddListener()
      modifies this`listeners
      ensures View() == WithListener(old(View()))
    {
      if state == Stopped {
        return;
      }
      listeners := listeners + [Listener([], 0, false)];
    }
  }

  /** NewManager wants at least one service, and all of them New. */
  method NewManager(states: seq<ServiceState>) returns (m: Manager?)
    ensures m == null <==> states == [] || exists i :: 0 <= i < |states| && states[i] != New
    ensures m != null ==> fresh(m) && m.View() == NewGroup(|states|)
  {
    if |states| == 0 {
      return null;
    }
    for i := 0 to |states|
      invariant forall j :: 0 <= j < i ==> states[j] == New
    {
      if states[i] != New {
        return null;
      }
    }
    m := new Manager(|states|);
  }

  function NewGroup(count: nat): Group {
    Group(count, Unknown, map[New := seq(count, i => i)], false, 0, 0, [])
  }

  function WithListener(g: Group): Group {
    if g.state == Stopped then g else g.(listeners := g.listeners + [Listener([], 0, false)])
  }

  // ---------------------------------------------------------------- all interleavings

  /**
   * The states of the services as far as their events have been delivered. wasHealthy: the listeners have been told
   * that all services are running. Both are bookkeeping.
   */
  datatype State = State(group: Group, view: seq<ServiceState>, wasHealthy: bool)

  /** Deliver: the goroutine of a service's listener calls serviceStateChanged with the next event. */
  datatype Step = Deliver(s: nat, to: ServiceState) | AddListener | Receive(l: nat)

  predicate Initial(s: State, count: nat) {
    count > 0 && s == State(NewGroup(count), seq(count, i => New), false)
  }

  /** A service moves only along its diagram. */
  predicate Enabled(s: State, step: Step) {
    match step
    case Deliver(i, to) => i < |s.view| && Legal(s.view[i], to)
    case AddListener => true
    case Receive(l) => l < |s.group.listeners| && s.group.listeners[l].received < |s.group.listeners[l].sent|
  }

  predicate StepFails(s: State, step: Step)
    requires Enabled(s, step)
  {
    step.Deliver? && Fails(s.group, step.s, s.view[step.s], step.to)
  }

  function Next(s: State, step: Step): State
    requires Enabled(s, step)
  {
    match step
    case Deliver(i, to) =>
      var g := Changed(s.group, i, s.view[i], to);
      State(g, s.view[i := to], s.wasHealthy || AllRunning(g))
    case AddListener => s.(group := WithListener(s.group))
    case Receive(l) =>
      var ch := s.group.listeners[l];
      s.(group := s.group.(listeners := s.group.listeners[l := ch.(received := ch.received + 1)]))
  }

  predicate IsRun(count: nat, states: seq<State>, steps: seq<Step>) {
    && |states| == |steps| + 1 && Initial(states[0], count)
    && forall i :: 0 <= i < |steps| ==> Enabled(states[i], steps[i]) && states[i + 1] == Next(states[i], steps[i])
  }

  // ---------------------------------------------------------------- the partition

  function Where(view: seq<ServiceState>, s: ServiceState): set<nat> {
    set i: nat | i < |view| && view[i] == s
  }

  /** The list names every element of the set exactly once. */
  ghost predicate Lists(list: seq<nat>, members: set<nat>) {
    && (forall i, j :: 0 <= i < j < |list| ==> list[i] != list[j])
    && (forall x :: x in list <==> x in members)
  }

  /** byState is a partition of the services by their states. */
  ghost predicate IsPartition(byState: ByState, view: seq<ServiceState>) {
    && (forall s :: Lists(In(byState, s), Where(view, s)))
    && (forall s :: s in byState ==> byState[s] != [])
  }

  lemma {:induction false} ListCount(list: seq<nat>, members: set<nat>)
    requires Lists(list, members)
    ensures |list| == |members|
  {
    if list == [] {
      assert members == {};
    } else {
      var x := list[0];
      assert x in members;
      forall y ensures y in list[1..] <==> y in members - {x} {
        if y in members - {x} {
          var i :| 0 <= i < |list| && list[i] == y;
          assert list[1..][i - 1] == y;
        }
      }
      ListCount(list[1..], members - {x});
    }
  }

  lemma {:induction false} WithoutLists(list: seq<nat>, members: set<nat>, x: nat)
    requires Lists(list, members)
    ensures Lists(Without(list, x), members - {x})
  {
    if list != [] {
      var rest := members - {list[0]};
      assert list == [list[0]] + list[1..];
      assert Lists(list[1..], rest) by {
        forall y ensures y in list[1..] <==> y in rest {
          assert y in list <==> y == list[0] || y in list[1..];
        }
      }
      if list[0] != x {
        WithoutLists(list[1..], rest, x);
        PrependLists(Without(list[1..], x), rest - {x}, list[0]);
        assert rest - {x} + {list[0]} == members - {x};
      }
    }
  }

  lemma PrependLists(list: seq<nat>, members: set<nat>, x: nat)
    requires Lists(list, members) && x !in members
    ensures Lists([x] + list, members + {x})
  {
    assert forall i :: 0 <= i < |list| ==> list[i] in list;
  }

  lemma AppendLists(list: seq<nat>, members: set<nat>, x: nat)
    requires Lists(list, members) && x !in members
    ensures Lists(list + [x], members + {x})
  {
    assert forall i :: 0 <= i < |list| ==> list[i] in list;
  }

  lemma MoveKeepsPartition(byState: ByState, view: seq<ServiceState>, s: nat, to: ServiceState)
    requires IsPartition(byState, view) && s < |view| && view[s] != to
    ensures IsPartition(Moved(byState, s, view[s], to), view[s := to])
  {
    forall st ensures Lists(In(Moved(byState, s, view[s], to), st), Where(view[s := to], st)) {
      MoveAt(byState, view, s, to, st);
    }
    assert forall st :: st in byState ==> byState[st] != [];
  }

  lemma InMoved(byState: ByState, s: nat, from: ServiceState, to: ServiceState, st: ServiceState)
    requires from != to
    ensures In(Moved(byState, s, from, to), st)
      == if st == from then Without(In(byState, st), s) else if st == to then In(byState, st) + [s] else In(byState, st)
  {
    var rest := Kept(byState, from, Without(In(byState, from), s));
    assert In(rest, st) == if st == from then Without(In(byState, st), s) else In(byState, st);
  }

  lemma WhereMoved(view: seq<ServiceState>, s: nat, to: ServiceState, st: ServiceState)
    requires s < |view| && view[s] != to
    ensures Where(view[s := to], st)
      == if st == view[s] then Where(view, st) - {s} else if st == to then Where(view, st) + {s} else Where(view, st)
  {
  }

  lemma MoveAt(byState: ByState, view: seq<ServiceState>, s: nat, to: ServiceState, st: ServiceState)
    requires s < |view| && view[s] != to && Lists(In(byState, st), Where(view, st))
    ensures Lists(In(Moved(byState, s, view[s], to), st), Where(view[s := to], st))
  {
    InMoved(byState, s, view[s], to, st);
    WhereMoved(view, s, to, st);
    if st == view[s] {
      WithoutLists(In(byState, st), Where(view, st), s);
    } else if st == to {
      AppendLists(In(byState, st), Where(view, st), s);
    }
  }

  // ---------------------------------------------------------------- counting

  predicate Everywhere(view: seq<ServiceState>, s: ServiceState) {
    forall i :: 0 <= i < |view| ==> view[i] == s
  }

  predicate EverywhereTerminal(view: seq<ServiceState>) {
    forall i :: 0 <= i < |view| ==> Terminal(view[i])
  }

  predicate SomeBeyond(view: seq<ServiceState>, depth: nat) {
    exists i :: 0 <= i < |view| && Depth(view[i]) >= depth
  }

  predicate AllBeyond(view: seq<ServiceState>, depth: nat) {
    forall i :: 0 <= i < |view| ==> Depth(view[i]) >= depth
  }

  lemma FullSet(part: set<nat>, n: nat)
    requires part <= Below(n)
    ensures |part| == n <==> part == Below(n)
  {
    CountBelow(n);
    assert |Below(n) - part| == n - |part|;
  }

  /** What the counts in serviceStateChanged mean. */
  lemma CountsMean(g: Group, view: seq<ServiceState>)
    requires IsPartition(g.byState, view) && g.count == |view|
    ensures AllRunning(g) <==> Everywhere(view, Running)
    ensures AllDone(g) <==> EverywhereTerminal(view)
    ensures Hopeless(g) <==> SomeBeyond(view, 3)
  {
    CountRunning(g, view);
    CountDone(g, view);
    CountHopeless(g, view);
  }

  lemma CountRunning(g: Group, view: seq<ServiceState>)
    requires IsPartition(g.byState, view) && g.count == |view|
    ensures AllRunning(g) <==> Everywhere(view, Running)
  {
    ListCount(In(g.byState, Running), Where(view, Running));
    FullSet(Where(view, Running), |view|);
    if Where(view, Running) == Below(|view|) {
      forall i | 0 <= i < |view| ensures view[i] == Running {
        assert i in Below(|view|);
      }
    }
    if Everywhere(view, Running) {
      assert Where(view, Running) == Below(|view|);
    }
  }

  lemma CountDone(g: Group, view: seq<ServiceState>)
    requires IsPartition(g.byState, view) && g.count == |view|
    ensures AllDone(g) <==> EverywhereTerminal(view)
  {
    var t, f := Where(view, Terminated), Where(view, Failed);
    ListCount(In(g.byState, Terminated), t);
    ListCount(In(g.byState, Failed), f);
    assert t !! f;
    assert |t + f| == |t| + |f|;
    FullSet(t + f, |view|);
    if t + f == Below(|view|) {
      forall i | 0 <= i < |view| ensures Terminal(view[i]) {
        assert i in Below(|view|);
      }
    }
    if EverywhereTerminal(view) {
      assert t + f == Below(|view|);
    }
  }

  lemma CountHopeless(g: Group, view: seq<ServiceState>)
    requires IsPartition(g.byState, view)
    ensures Hopeless(g) <==> SomeBeyond(view, 3)
  {
    ListCount(In(g.byState, Terminated), Where(view, Terminated));
    ListCount(In(g.byState, Failed), Where(view, Failed));
    ListCount(In(g.byState, Stopping), Where(view, Stopping));
    if SomeBeyond(view, 3) {
      var i: nat :| i < |view| && Depth(view[i]) >= 3;
      assert i in Where(view, view[i]);
    }
    if Hopeless(g) {
      var st: ServiceState :| (st == Terminated || st == Failed || st == Stopping) && |In(g.byState, st)| > 0;
      assert In(g.byState, st)[0] in Where(view, st);
    }
  }

  // ---------------------------------------------------------------- safety

  function Count(b: bool): nat {
    if b then 1 else 0
  }

  ghost predicate GroupInv(s: State) {
    var g := s.group;
    && g.count == |s.view| > 0 && IsPartition(g.byState, s.view)
    && (g.healthyClosed <==> s.wasHealthy || SomeBeyond(s.view, 3))
    && g.healthyCloses == Count(g.healthyClosed)
    && g.stoppedCloses == Count(EverywhereTerminal(s.view))
    && (g.state == Healthy <==> Everywhere(s.view, Running))
    && (g.state == Stopped <==> EverywhereTerminal(s.view))
    && (s.wasHealthy ==> AllBeyond(s.view, 2))
  }

  /** What a listener has been told is true, was told once, and its channel is closed when nothing more can come. */
  ghost predicate ListenerInv(s: State, l: Listener) {
    && l.received <= |l.sent| && (l.closed <==> EverywhereTerminal(s.view))
    && NoRepetition(l.sent) && forall n :: n in l.sent ==> Holds(s, n)
  }

  ghost predicate NoRepetition(notices: seq<Notice>) {
    forall i, j :: 0 <= i < j < |notices| ==> notices[i] != notices[j]
  }

  predicate Holds(s: State, n: Notice) {
    match n
    case HealthyNotice => s.wasHealthy
    case StoppedNotice => EverywhereTerminal(s.view)
    case FailureNotice(i) => i < |s.view| && s.view[i] == Failed
  }

  ghost predicate Inv(s: State) {
    GroupInv(s) && forall i :: 0 <= i < |s.group.listeners| ==> ListenerInv(s, s.group.listeners[i])
  }

  // ---- how much a listener can have been told

  function Possible(count: nat): (r: set<Notice>)
    ensures forall i: nat :: i < count ==> FailureNotice(i) in r
    ensures HealthyNotice in r && StoppedNotice in r
  {
    if count == 0 then {HealthyNotice, StoppedNotice} else Possible(count - 1) + {FailureNotice(count - 1)}
  }

  lemma {:induction false} CountPossible(count: nat)
    ensures |Possible(count)| <= count + 2
  {
    if count > 0 {
      CountPossible(count - 1);
      assert |Possible(count)| <= |Possible(count - 1)| + 1;
    }
  }

  lemma {:induction false} FewNotices(notices: seq<Notice>, all: set<Notice>)
    requires NoRepetition(notices) && forall n :: n in notices ==> n in all
    ensures |notices| <= |all|
  {
    if notices != [] {
      var last, front := notices[|notices| - 1], notices[..|notices| - 1];
      assert notices == front + [last];
      assert forall i :: 0 <= i < |front| ==> front[i] == notices[i];
      FewNotices(front, all - {last});
    }
  }

  lemma AtMostSoMany(s: State, l: Listener)
    requires ListenerInv(s, l)
    ensures |l.sent| <= |s.view| + 2
  {
    CountPossible(|s.view|);
    FewNotices(l.sent, Possible(|s.view|));
  }

  // ---- one state change

  /** A listener in the middle of a state change: its channel is still open. */
  ghost predicate OpenInv(s: State, l: Listener) {
    l.received <= |l.sent| && !l.closed && NoRepetition(l.sent) && forall n :: n in l.sent ==> Holds(s, n)
  }

  ghost predicate AllOpen(s: State, listeners: seq<Listener>) {
    forall i :: 0 <= i < |listeners| ==> OpenInv(s, listeners[i])
  }

  /** Nobody has been told yet. */
  ghost predicate IsNews(listeners: seq<Listener>, n: Notice) {
    forall i :: 0 <= i < |listeners| ==> n !in listeners[i].sent
  }

  lemma NewsCanBeTold(s: State, g: Group, n: Notice)
    requires AllOpen(s, g.listeners) && g.count == |s.view| && IsNews(g.listeners, n) && n in Possible(|s.view|)
    ensures !CannotTell(g)
  {
    forall i | 0 <= i < |g.listeners|
      ensures !g.listeners[i].closed && |g.listeners[i].sent| - g.listeners[i].received < g.count + 2
    {
      var l := g.listeners[i];
      CountPossible(|s.view|);
      InPossible(s, l.sent);
      assert NoRepetition(l.sent + [n]);
      FewNotices(l.sent + [n], Possible(|s.view|));
    }
  }

  lemma InPossible(s: State, notices: seq<Notice>)
    requires forall n :: n in notices ==> Holds(s, n)
    ensures forall n :: n in notices ==> n in Possible(|s.view|)
  {
  }

  lemma TellingKeepsOpen(s: State, listeners: seq<Listener>, n: Notice)
    requires AllOpen(s, listeners) && IsNews(listeners, n) && Holds(s, n)
    ensures AllOpen(s, Told(listeners, n, false))
  {
    forall i | 0 <= i < |listeners| ensures OpenInv(s, Told(listeners, n, false)[i]) {
      assert OpenInv(s, listeners[i]);
      AddNews(s, listeners[i].sent, n);
    }
  }

  lemma AddNews(s: State, notices: seq<Notice>, n: Notice)
    requires NoRepetition(notices) && n !in notices && Holds(s, n) && forall m :: m in notices ==> Holds(s, m)
    ensures NoRepetition(notices + [n]) && forall m :: m in notices + [n] ==> Holds(s, m)
  {
  }

  /** Moving a service along the diagram makes no earlier notice false. */
  lemma NoticesStayTrue(s: State, i: nat, to: ServiceState, after: State, n: Notice)
    requires i < |s.view| && Legal(s.view[i], to) && after.view == s.view[i := to]
    requires (s.wasHealthy ==> after.wasHealthy)
    requires Holds(s, n)
    ensures Holds(after, n)
  {
  }

  /** Before anything is sent. */
  lemma StillOpen(s: State, i: nat, to: ServiceState, after: State)
    requires Inv(s) && i < |s.view| && Legal(s.view[i], to) && after.view == s.view[i := to]
    requires s.wasHealthy ==> after.wasHealthy
    ensures AllOpen(after, s.group.listeners)
    ensures to == Failed ==> IsNews(s.group.listeners, FailureNotice(i))
    ensures !s.wasHealthy ==> IsNews(s.group.listeners, HealthyNotice)
    ensures IsNews(s.group.listeners, StoppedNotice)
  {
    assert !Terminal(s.view[i]);
    forall j | 0 <= j < |s.group.listeners| ensures OpenInv(after, s.group.listeners[j]) {
      var l := s.group.listeners[j];
      assert ListenerInv(s, l);
      forall n | n in l.sent ensures Holds(after, n) {
        NoticesStayTrue(s, i, to, after, n);
      }
    }
    forall j | 0 <= j < |s.group.listeners|
      ensures to == Failed ==> FailureNotice(i) !in s.group.listeners[j].sent
      ensures !s.wasHealthy ==> HealthyNotice !in s.group.listeners[j].sent
      ensures StoppedNotice !in s.group.listeners[j].sent
    {
      assert ListenerInv(s, s.group.listeners[j]);
      assert !Holds(s, StoppedNotice) && !Holds(s, FailureNotice(i));
    }
  }

  /** The move itself and, if the service failed, the notice about it. */
  lemma RecordKeepsOpen(s: State, i: nat, to: ServiceState, after: State)
    requires Inv(s) && i < |s.view| && Legal(s.view[i], to) && after.view == s.view[i := to]
    requires s.wasHealthy ==> after.wasHealthy
    ensures var rec := Recorded(s.group, i, s.view[i], to);
      && rec.count == |after.view| && IsPartition(rec.byState, after.view)
      && AllOpen(after, rec.listeners)
      && (!s.wasHealthy ==> IsNews(rec.listeners, HealthyNotice)) && IsNews(rec.listeners, StoppedNotice)
    ensures to == Failed ==> !CannotTell(s.group)
  {
    MoveKeepsPartition(s.group.byState, s.view, i, to);
    StillOpen(s, i, to, after);
    if to == Failed {
      NewsCanBeTold(after, s.group, FailureNotice(i));
      TellingKeepsOpen(after, s.group.listeners, FailureNotice(i));
    }
  }

  /** All services are running for the first time. */
  lemma FirstTimeHealthy(s: State, i: nat, to: ServiceState)
    requires Inv(s) && i < |s.view| && Legal(s.view[i], to) && Everywhere(s.view[i := to], Running)
    ensures !s.wasHealthy && !s.group.healthyClosed && s.group.healthyCloses == 0
    ensures !SomeBeyond(s.view[i := to], 3) && !EverywhereTerminal(s.view[i := to]) && !EverywhereTerminal(s.view)
  {
    var after := s.view[i := to];
    assert after[i] == to == Running;
    assert s.view[i] == Starting;
    forall j | 0 <= j < |s.view| ensures Depth(s.view[j]) < 3 {
      assert j != i ==> after[j] == s.view[j];
    }
  }

  lemma BeyondStays(view: seq<ServiceState>, i: nat, to: ServiceState)
    requires i < |view| && Legal(view[i], to)
    ensures SomeBeyond(view, 3) ==> SomeBeyond(view[i := to], 3)
    ensures AllBeyond(view, 2) ==> AllBeyond(view[i := to], 2) && (view[i := to][i] == to)
    ensures !EverywhereTerminal(view)
    ensures EverywhereTerminal(view[i := to]) ==> SomeBeyond(view[i := to], 3)
  {
    var after := view[i := to];
    assert after[i] == to;
    if SomeBeyond(view, 3) {
      var j :| 0 <= j < |view| && Depth(view[j]) >= 3;
      assert Depth(after[j]) >= 3;
    }
    if EverywhereTerminal(after) {
      assert Depth(after[i]) >= 3;
    }
  }

  /** What is known once the service has moved and its failure has been told. */
  ghost predicate Halfway(s: State, i: nat, to: ServiceState, after: State, rec: Group) {
    && Inv(s) && i < |s.view| && Legal(s.view[i], to)
    && rec == Recorded(s.group, i, s.view[i], to) && after == Next(s, Deliver(i, to))
    && rec.count == |after.view| && IsPartition(rec.byState, after.view) && AllOpen(after, rec.listeners)
    && (AllRunning(rec) <==> Everywhere(after.view, Running))
    && (AllDone(rec) <==> EverywhereTerminal(after.view))
    && (Hopeless(rec) <==> SomeBeyond(after.view, 3))
  }

  lemma ReachHalfway(s: State, i: nat, to: ServiceState)
    requires Inv(s) && i < |s.view| && Legal(s.view[i], to)
    ensures var rec := Recorded(s.group, i, s.view[i], to);
      && Halfway(s, i, to, Next(s, Deliver(i, to)), rec)
      && (!s.wasHealthy ==> IsNews(rec.listeners, HealthyNotice)) && IsNews(rec.listeners, StoppedNotice)
    ensures to == Failed ==> !CannotTell(s.group)
  {
    var after := Next(s, Deliver(i, to));
    RecordKeepsOpen(s, i, to, after);
    CountsMean(Recorded(s.group, i, s.view[i], to), after.view);
  }

  lemma SettleHealthy(s: State, i: nat, to: ServiceState, after: State, rec: Group)
    requires Halfway(s, i, to, after, rec) && AllRunning(rec)
    requires !s.wasHealthy ==> IsNews(rec.listeners, HealthyNotice)
    ensures !CannotSettle(rec) && Inv(after)
  {
    FirstTimeHealthy(s, i, to);
    NewsCanBeTold(after, rec, HealthyNotice);
    TellingKeepsOpen(after, rec.listeners, HealthyNotice);
    OpenIsEnough(after, Told(rec.listeners, HealthyNotice, false));
  }

  lemma SettleStopped(s: State, i: nat, to: ServiceState, after: State, rec: Group)
    requires Halfway(s, i, to, after, rec) && !AllRunning(rec) && AllDone(rec) && IsNews(rec.listeners, StoppedNotice)
    ensures !CannotSettle(rec) && Inv(after)
  {
    BeyondStays(s.view, i, to);
    NewsCanBeTold(after, rec, StoppedNotice);
    TellingKeepsOpen(after, rec.listeners, StoppedNotice);
    var told := Told(rec.listeners, StoppedNotice, false);
    forall j | 0 <= j < |rec.listeners| ensures ListenerInv(after, after.group.listeners[j]) {
      assert OpenInv(after, told[j]);
      assert after.group.listeners[j] == told[j].(closed := true);
    }
  }

  lemma SettleUnknown(s: State, i: nat, to: ServiceState, after: State, rec: Group)
    requires Halfway(s, i, to, after, rec) && !AllRunning(rec) && !AllDone(rec)
    ensures !CannotSettle(rec) && Inv(after)
  {
    BeyondStays(s.view, i, to);
    OpenIsEnough(after, rec.listeners);
  }

  lemma OpenIsEnough(s: State, listeners: seq<Listener>)
    requires AllOpen(s, listeners) && !EverywhereTerminal(s.view)
    ensures forall i :: 0 <= i < |listeners| ==> ListenerInv(s, listeners[i])
  {
    forall i | 0 <= i < |listeners| ensures ListenerInv(s, listeners[i]) {
      assert OpenInv(s, listeners[i]);
    }
  }

  lemma DeliverIsSafe(s: State, i: nat, to: ServiceState)
    requires Inv(s) && i < |s.view| && Legal(s.view[i], to)
    ensures !Fails(s.group, i, s.view[i], to)
    ensures Inv(Next(s, Deliver(i, to)))
  {
    ReachHalfway(s, i, to);
    var after, rec := Next(s, Deliver(i, to)), Recorded(s.group, i, s.view[i], to);
    if AllRunning(rec) {
      SettleHealthy(s, i, to, after, rec);
    } else if AllDone(rec) {
      SettleStopped(s, i, to, after, rec);
    } else {
      SettleUnknown(s, i, to, after, rec);
    }
  }

  lemma StepIsSafe(s: State, step: Step)
    requires Inv(s) && Enabled(s, step)
    ensures !StepFails(s, step) && Inv(Next(s, step))
  {
    match step
    case Deliver(i, to) => DeliverIsSafe(s, i, to);
    case AddListener => AddListenerKeepsInv(s);
    case Receive(l) =>
      forall i | 0 <= i < |s.group.listeners| ensures ListenerInv(Next(s, step), Next(s, step).group.listeners[i]) {
        assert ListenerInv(s, s.group.listeners[i]);
      }
  }

  lemma AddListenerKeepsInv(s: State)
    requires Inv(s)
    ensures Inv(Next(s, AddListener))
  {
    var after := Next(s, AddListener);
    forall i | 0 <= i < |after.group.listeners| ensures ListenerInv(after, after.group.listeners[i]) {
      if i < |s.group.listeners| {
        assert ListenerInv(s, s.group.listeners[i]);
      }
    }
  }

  lemma NewGroupIsGood(s: State, count: nat)
    requires Initial(s, count)
    ensures Inv(s)
  {
    assert s.view[0] == New;
    assert In(s.group.byState, New) == seq(count, i => i);
    forall x ensures x in seq(count, i => i) <==> x in Where(s.view, New) {
      if x in Where(s.view, New) {
        assert seq(count, i => i)[x] == x;
      }
    }
    assert forall st :: st != New ==> In(s.group.byState, st) == [];
  }

  /**
   * Whatever the services do and in whatever order their events arrive: byState stays a partition by their states,
   * the two channels for waiters are closed at most once, nothing is sent to a closed or full channel, and the
   * manager is healthy or stopped exactly when all services are running or have ended.
   */
  lemma {:induction false} ManagerIsSafe(count: nat, states: seq<State>, steps: seq<Step>, i: nat)
    requires IsRun(count, states, steps) && i < |states|
    ensures Inv(states[i])
    ensures i < |steps| ==> !StepFails(states[i], steps[i])
  {
    if i == 0 {
      NewGroupIsGood(states[0], count);
    } else {
      ManagerIsSafe(count, states, steps, i - 1);
      StepIsSafe(states[i - 1], steps[i - 1]);
    }
    if i < |steps| {
      StepIsSafe(states[i], steps[i]);
    }
  }

  /** A listener is told at most once per service that it failed, at most once that all run and that all ended. */
  lemma ListenersHearLittle(count: nat, states: seq<State>, steps: seq<Step>, i: nat, l: nat)
    requires IsRun(count, states, steps) && i < |states| && l < |states[i].group.listeners|
    ensures |states[i].group.listeners[l].sent| <= |states[i].view| + 2
    ensures NoRepetition(states[i].group.listeners[l].sent)
    ensures forall n :: n in states[i].group.listeners[l].sent ==> Holds(states[i], n)
  {
    ManagerIsSafe(count, states, steps, i);
    AtMostSoMany(states[i], states[i].group.listeners[l]);
  }
}
