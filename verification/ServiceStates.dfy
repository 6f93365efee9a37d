/** The states of a service and the ways through them (services/service.go, services/basic_service.go). */
module ServiceStates {

  datatype ServiceState = New | Starting | Running | Stopping | Terminated | Failed

  /** What a listener is told. */
  datatype Event = Event(from: ServiceState, to: ServiceState)

  predicate Terminal(s: ServiceState) {
    s == Terminated || s == Failed
  }

  /** The moves the code makes. The documented diagram leaves out the one from Starting to Stopping. */
  predicate Legal(from: ServiceState, to: ServiceState) {
    match from
    case New => to == Starting || to == Terminated
    case Starting => to == Running || to == Stopping || to == Failed
    case Running => to == Stopping
    case Stopping => to == Terminated || to == Failed
    case _ => false
  }

  function Depth(s: ServiceState): nat {
    match s
    case New => 0
    case Starting => 1
    case Running => 2
    case Stopping => 3
    case _ => 4
  }

  /** The events lead from one state to the other along the diagram. */
  predicate IsPath(since: ServiceState, events: seq<Event>, now: ServiceState) {
    if events == [] then since == now
    else
      var last := events[|events| - 1];
      last.to == now && Legal(last.from, now) && IsPath(since, events[..|events| - 1], last.from)
  }

  lemma {:induction false} PathsAreShort(since: ServiceState, events: seq<Event>, now: ServiceState)
    requires IsPath(since, events, now)
    ensures Depth(since) + |events| <= Depth(now)
  {
    if events != [] {
      PathsAreShort(since, events[..|events| - 1], events[|events| - 1].from);
    }
  }

  /** Each event of a path starts where the one before ended. */
  lemma {:induction false} PathsAreConnected(since: ServiceState, events: seq<Event>, now: ServiceState, i: nat)
    requires IsPath(since, events, now) && i < |events|
    ensures events[i].from == (if i == 0 then since else events[i - 1].to) && Legal(events[i].from, events[i].to)
  {
    var front := events[..|events| - 1];
    if i < |front| {
      PathsAreConnected(since, front, events[|events| - 1].from, i);
    } else if i > 0 {
      assert front[|front| - 1].to == events[|events| - 1].from;
    }
  }
}
