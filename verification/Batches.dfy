/** Sending a batch of keyed items (ring/batch.go). */
module Batches {
  import opened Replication
  import opened Sets

  // DoBatch and batchTracker.record: one callback per instance, atomic counters per item, and two channels of
  // capacity one that carry the verdict.

  /** Per item: how many successes it needs and how many failures it tolerates. */
  datatype Item = Item(minSuccess: int, maxFailures: int)

  /** Where the goroutine of one instance is. Each step is one atomic operation. */
  datatype Pc =
    | Calling
    | Recording(pos: nat, ok: bool)   // about to count item pos
    | Passed(pos: nat, ok: bool)      // item pos crossed its threshold, the batch counter comes next
    | Sending(pos: nat, ok: bool)     // the batch counter says: signal
    | Finished

  /** items: the numbers of the items sent to this instance, with repetitions if two replicas share an address. */
  datatype Call = Call(items: seq<nat>, pc: Pc)

  datatype State = State(
    succeeded: seq<nat>, failed: seq<nat>, rpcsPending: int, rpcsFailed: nat, done: nat, err: nat, calls: seq<Call>)

  datatype Step = Return(g: nat, ok: bool) | Count(g: nat) | Tally(g: nat) | Send(g: nat)

  ghost predicate Enabled(s: State, step: Step) {
    step.g < |s.calls| &&
    match step
    case Return(g, _) => s.calls[g].pc.Calling?
    case Count(g) => s.calls[g].pc.Recording?
    case Tally(g) => s.calls[g].pc.Passed?
    case Send(g) => s.calls[g].pc.Sending?
  }

  ghost predicate WellFormed(items: seq<Item>, s: State) {
    && |s.succeeded| == |s.failed| == |items|
    && forall g :: 0 <= g < |s.calls| ==> CallFits(s.calls[g], |items|)
  }

  ghost predicate CallFits(c: Call, n: nat) {
    && (forall p :: 0 <= p < |c.items| ==> c.items[p] < n)
    && match c.pc
       case Recording(pos, _) => pos <= |c.items|
       case Passed(pos, _) => pos < |c.items|
       case Sending(pos, _) => pos < |c.items|
       case _ => true
  }

  ghost function Next(items: seq<Item>, s: State, step: Step): State
    requires WellFormed(items, s) && Enabled(s, step)
  {
    var c := s.calls[step.g];
    match step
    case Return(g, ok) => s.(calls := s.calls[g := c.(pc := Recording(0, ok))])
    case Count(g) =>
      var pos, ok := c.pc.pos, c.pc.ok;
      if pos == |c.items| then s.(calls := s.calls[g := c.(pc := Finished)])
      else
        var i := c.items[pos];
        if !ok then
          var n := s.failed[i] + 1;
          s.(failed := s.failed[i := n],
             calls := s.calls[g := c.(pc :=
               if n <= items[i].maxFailures then Recording(pos + 1, ok) else Passed(pos, ok))])
        else
          var n := s.succeeded[i] + 1;
          s.(succeeded := s.succeeded[i := n],
             calls := s.calls[g := c.(pc :=
               if n != items[i].minSuccess then Recording(pos + 1, ok) else Passed(pos, ok))])
    case Tally(g) =>
      var pos, ok := c.pc.pos, c.pc.ok;
      if !ok then
        s.(rpcsFailed := s.rpcsFailed + 1,
           calls := s.calls[g := c.(pc := if s.rpcsFailed + 1 == 1 then Sending(pos, ok) else Recording(pos + 1, ok))])
      else
        s.(rpcsPending := s.rpcsPending - 1,
           calls := s.calls[g := c.(pc := if s.rpcsPending - 1 == 0 then Sending(pos, ok) else Recording(pos + 1, ok))])
    case Send(g) =>
      s.(done := if c.pc.ok then s.done + 1 else s.done,
         err := if c.pc.ok then s.err else s.err + 1,
         calls := s.calls[g := c.(pc := Recording(c.pc.pos + 1, c.pc.ok))])
  }

  // ---------------------------------------------------------------- counting

  function Occurrences(items: seq<nat>, i: nat): nat {
    if items == [] then 0 else (if items[0] == i then 1 else 0) + Occurrences(items[1..], i)
  }

  lemma {:induction false} OccurrencesAppend(items: seq<nat>, x: nat, i: nat)
    ensures Occurrences(items + [x], i) == Occurrences(items, i) + if x == i then 1 else 0
  {
    if items == [] {
      assert items + [x] == [x];
      assert Occurrences([x], i) == (if x == i then 1 else 0) + Occurrences([], i);
    } else {
      OccurrencesAppend(items[1..], x, i);
      assert (items + [x])[1..] == items[1..] + [x];
    }
  }

  /** How often the call will still count item i. */
  function Remaining(c: Call, i: nat): nat {
    match c.pc
    case Calling => Occurrences(c.items, i)
    case Recording(pos, _) => if pos <= |c.items| then Occurrences(c.items[pos..], i) else 0
    case Passed(pos, _) => if pos < |c.items| then Occurrences(c.items[pos + 1..], i) else 0
    case Sending(pos, _) => if pos < |c.items| then Occurrences(c.items[pos + 1..], i) else 0
    case Finished => 0
  }

  function TotalRemaining(calls: seq<Call>, i: nat): nat {
    if calls == [] then 0 else Remaining(calls[0], i) + TotalRemaining(calls[1..], i)
  }

  lemma {:induction false} RemainingUpdate(calls: seq<Call>, g: nat, c: Call, i: nat)
    requires g < |calls|
    ensures TotalRemaining(calls[g := c], i) + Remaining(calls[g], i) == TotalRemaining(calls, i) + Remaining(c, i)
  {
    if g == 0 {
      assert calls[0 := c][1..] == calls[1..];
    } else {
      RemainingUpdate(calls[1..], g - 1, c, i);
      assert calls[g := c][1..] == calls[1..][g - 1 := c];
    }
  }

  /** Calls that have crossed a threshold (sending == false) or are about to signal (sending == true). */
  predicate Is(c: Call, sending: bool, ok: bool) {
    if sending then c.pc.Sending? && c.pc.ok == ok else c.pc.Passed? && c.pc.ok == ok
  }

  function Number(calls: seq<Call>, sending: bool, ok: bool): nat {
    if calls == [] then 0 else (if Is(calls[0], sending, ok) then 1 else 0) + Number(calls[1..], sending, ok)
  }

  lemma {:induction false} NumberUpdate(calls: seq<Call>, g: nat, c: Call, sending: bool, ok: bool)
    requires g < |calls|
    ensures Number(calls[g := c], sending, ok) + (if Is(calls[g], sending, ok) then 1 else 0)
      == Number(calls, sending, ok) + if Is(c, sending, ok) then 1 else 0
  {
    if g == 0 {
      assert calls[0 := c][1..] == calls[1..];
    } else {
      NumberUpdate(calls[1..], g - 1, c, sending, ok);
      assert calls[g := c][1..] == calls[1..][g - 1 := c];
    }
  }

  /** The items that reached their minimum. */
  function Crossed(items: seq<Item>, succeeded: seq<nat>): set<nat>
    requires |items| == |succeeded|
  {
    set i: nat | i < |items| && succeeded[i] >= items[i].minSuccess
  }

  ghost predicate SomeItemFailed(items: seq<Item>, failed: seq<nat>)
    requires |items| == |failed|
  {
    exists i :: 0 <= i < |items| && failed[i] > items[i].maxFailures
  }

  // ---------------------------------------------------------------- the invariant

  /** Every item is sent to minSuccess + maxFailures replicas: what was counted and what is to come add up to that. */
  ghost predicate CountsAddUp(items: seq<Item>, s: State)
    requires WellFormed(items, s)
  {
    forall i: nat :: i < |items| ==>
      s.succeeded[i] + s.failed[i] + TotalRemaining(s.calls, i) == items[i].minSuccess + items[i].maxFailures
  }

  ghost predicate PendingAddsUp(items: seq<Item>, s: State)
    requires WellFormed(items, s)
  {
    s.rpcsPending + |Crossed(items, s.succeeded)| == |items| + Number(s.calls, false, true)
  }

  ghost predicate FailuresAddUp(items: seq<Item>, s: State)
    requires WellFormed(items, s)
  {
    s.rpcsFailed + Number(s.calls, false, false) > 0 <==> SomeItemFailed(items, s.failed)
  }

  /** Each channel gets its one value from the one step that brought its counter to the mark. */
  ghost predicate SignalsAddUp(s: State) {
    && s.done + Number(s.calls, true, true) == (if s.rpcsPending <= 0 then 1 else 0)
    && s.err + Number(s.calls, true, false) == (if s.rpcsFailed > 0 then 1 else 0)
  }

  ghost predicate Positive(items: seq<Item>) {
    forall i :: 0 <= i < |items| ==> items[i].minSuccess >= 1 && items[i].maxFailures >= 0
  }

  ghost predicate Inv(items: seq<Item>, s: State) {
    WellFormed(items, s) && CountsAddUp(items, s) && PendingAddsUp(items, s)
    && FailuresAddUp(items, s) && SignalsAddUp(s)
  }

  lemma RemainingAfter(c: Call, pos: nat, i: nat)
    requires pos < |c.items|
    ensures Occurrences(c.items[pos..], i) == (if c.items[pos] == i then 1 else 0) + Occurrences(c.items[pos + 1..], i)
  {
    assert c.items[pos..][1..] == c.items[pos + 1..];
  }

  lemma StepKeepsForm(items: seq<Item>, s: State, step: Step)
    requires WellFormed(items, s) && Enabled(s, step)
    ensures WellFormed(items, Next(items, s, step))
  {
    var s' := Next(items, s, step);
    assert CallFits(s.calls[step.g], |items|);
    assert CallFits(s'.calls[step.g], |items|);
    assert forall g :: 0 <= g < |s.calls| && g != step.g ==> s'.calls[g] == s.calls[g];
  }

  /** A step counts at most one item, and counts it once. */
  lemma StepCounts(items: seq<Item>, s: State, step: Step, i: nat)
    requires WellFormed(items, s) && Enabled(s, step) && i < |items| && WellFormed(items, Next(items, s, step))
    ensures var s' := Next(items, s, step);
      s'.succeeded[i] + s'.failed[i] + TotalRemaining(s'.calls, i)
        == s.succeeded[i] + s.failed[i] + TotalRemaining(s.calls, i)
  {
    var s' := Next(items, s, step);
    var c, c' := s.calls[step.g], s'.calls[step.g];
    assert s'.calls == s.calls[step.g := c'];
    RemainingUpdate(s.calls, step.g, c', i);
    assert CallFits(c, |items|);
    CallCounts(items, s, step, i);
  }

  /** What one call has yet to count goes down by what it counts in this step. */
  lemma CallCounts(items: seq<Item>, s: State, step: Step, i: nat)
    requires WellFormed(items, s) && Enabled(s, step) && i < |items| && CallFits(s.calls[step.g], |items|)
    ensures var s' := Next(items, s, step);
      && |s'.succeeded| == |s'.failed| == |items|
      && s'.succeeded[i] + s'.failed[i] + Remaining(s'.calls[step.g], i)
         == s.succeeded[i] + s.failed[i] + Remaining(s.calls[step.g], i)
  {
    var c := s.calls[step.g];
    match step
    case Count(g) =>
      if c.pc.pos < |c.items| {
        RemainingAfter(c, c.pc.pos, i);
      } else {
        assert c.items[c.pc.pos..] == [];
      }
    case Return(g, ok) =>
      assert c.items[0..] == c.items;
    case _ =>
  }

  lemma StepKeepsCounts(items: seq<Item>, s: State, step: Step)
    requires WellFormed(items, s) && Enabled(s, step) && CountsAddUp(items, s)
    requires WellFormed(items, Next(items, s, step))
    ensures CountsAddUp(items, Next(items, s, step))
  {
    forall i: nat | i < |items|
      ensures var s' := Next(items, s, step);
        s'.succeeded[i] + s'.failed[i] + TotalRemaining(s'.calls, i) == items[i].minSuccess + items[i].maxFailures
    {
      StepCounts(items, s, step, i);
    }
  }

  lemma CrossedUpdate(items: seq<Item>, succeeded: seq<nat>, i: nat)
    requires |items| == |succeeded| && i < |items|
    ensures var n := succeeded[i] + 1;
      |Crossed(items, succeeded[i := n])| == |Crossed(items, succeeded)| + if n == items[i].minSuccess then 1 else 0
  {
    var n := succeeded[i] + 1;
    if n == items[i].minSuccess {
      assert Crossed(items, succeeded[i := n]) == Crossed(items, succeeded) + {i};
    } else {
      assert Crossed(items, succeeded[i := n]) == Crossed(items, succeeded);
    }
  }

  lemma StepKeepsPending(items: seq<Item>, s: State, step: Step)
    requires WellFormed(items, s) && Enabled(s, step) && PendingAddsUp(items, s)
    requires WellFormed(items, Next(items, s, step))
    ensures PendingAddsUp(items, Next(items, s, step))
  {
    var s' := Next(items, s, step);
    var c, c' := s.calls[step.g], s'.calls[step.g];
    NumberUpdate(s.calls, step.g, c', false, true);
    assert s'.calls == s.calls[step.g := c'];
    if step.Count? && c.pc.pos < |c.items| && c.pc.ok {
      CrossedUpdate(items, s.succeeded, c.items[c.pc.pos]);
    }
  }

  lemma StepKeepsFailures(items: seq<Item>, s: State, step: Step)
    requires WellFormed(items, s) && Enabled(s, step) && FailuresAddUp(items, s)
    requires WellFormed(items, Next(items, s, step))
    ensures FailuresAddUp(items, Next(items, s, step))
  {
    var s' := Next(items, s, step);
    var c, c' := s.calls[step.g], s'.calls[step.g];
    NumberUpdate(s.calls, step.g, c', false, false);
    assert s'.calls == s.calls[step.g := c'];
    if step.Count? && c.pc.pos < |c.items| && !c.pc.ok {
      var i := c.items[c.pc.pos];
      if SomeItemFailed(items, s.failed) {
        var k :| 0 <= k < |items| && s.failed[k] > items[k].maxFailures;
        assert s'.failed[k] > items[k].maxFailures;
      }
      if s'.failed[i] > items[i].maxFailures {
        assert SomeItemFailed(items, s'.failed);
      } else if SomeItemFailed(items, s'.failed) {
        var k :| 0 <= k < |items| && s'.failed[k] > items[k].maxFailures;
        assert s.failed[k] > items[k].maxFailures;
      }
    }
  }

  lemma CrossedAtMostAll(items: seq<Item>, succeeded: seq<nat>)
    requires |items| == |succeeded|
    ensures |Crossed(items, succeeded)| <= |items|
    ensures |Crossed(items, succeeded)| == |items| ==>
      forall i :: 0 <= i < |items| ==> succeeded[i] >= items[i].minSuccess
  {
    var crossed := Crossed(items, succeeded);
    CountBelow(|items|);
    SubsetIsSmaller(crossed, Below(|items|));
    if |crossed| == |items| {
      assert |Below(|items|) - crossed| == |Below(|items|)| - |crossed|;
      forall i: nat | i < |items| ensures succeeded[i] >= items[i].minSuccess {
        assert i in Below(|items|);
        assert i !in Below(|items|) - crossed;
      }
    }
  }

  /** Whoever has crossed an item's threshold has not tallied it yet, so the batch counter is still above zero. */
  lemma PassedMeansPending(items: seq<Item>, s: State, g: nat)
    requires WellFormed(items, s) && PendingAddsUp(items, s) && g < |s.calls| && Is(s.calls[g], false, true)
    ensures s.rpcsPending >= 1
  {
    CrossedAtMostAll(items, s.succeeded);
    CountedAtLeastOnce(s.calls, g, false, true);
  }

  lemma {:induction false} CountedAtLeastOnce(calls: seq<Call>, g: nat, sending: bool, ok: bool)
    requires g < |calls| && Is(calls[g], sending, ok)
    ensures Number(calls, sending, ok) >= 1
  {
    if g > 0 {
      CountedAtLeastOnce(calls[1..], g - 1, sending, ok);
    }
  }

  lemma StepKeepsSignals(items: seq<Item>, s: State, step: Step)
    requires Inv(items, s) && Enabled(s, step)
    ensures SignalsAddUp(Next(items, s, step))
  {
    var s' := Next(items, s, step);
    var c, c' := s.calls[step.g], s'.calls[step.g];
    NumberUpdate(s.calls, step.g, c', true, true);
    NumberUpdate(s.calls, step.g, c', true, false);
    assert s'.calls == s.calls[step.g := c'];
    if step.Tally? && c.pc.ok {
      PassedMeansPending(items, s, step.g);
    }
  }

  lemma StepKeepsInv(items: seq<Item>, s: State, step: Step)
    requires Inv(items, s) && Enabled(s, step)
    ensures Inv(items, Next(items, s, step))
  {
    StepKeepsForm(items, s, step);
    StepKeepsCounts(items, s, step);
    StepKeepsPending(items, s, step);
    StepKeepsFailures(items, s, step);
    StepKeepsSignals(items, s, step);
  }

  // ---------------------------------------------------------------- runs

  /** DoBatch before any callback has returned. */
  ghost predicate Initial(items: seq<Item>, s: State) {
    && WellFormed(items, s) && items != [] && Positive(items)
    && (forall i :: 0 <= i < |items| ==> s.succeeded[i] == 0 && s.failed[i] == 0)
    && (forall g :: 0 <= g < |s.calls| ==> s.calls[g].pc == Calling)
    && s.rpcsPending == |items| && s.rpcsFailed == 0 && s.done == 0 && s.err == 0
    && forall i: nat :: i < |items| ==> TotalRemaining(s.calls, i) == items[i].minSuccess + items[i].maxFailures
  }

  ghost predicate IsRun(items: seq<Item>, states: seq<State>, steps: seq<Step>) {
    && |states| == |steps| + 1 && Initial(items, states[0])
    && forall k :: 0 <= k < |steps| ==> CanStep(items, states[k], steps[k], states[k + 1])
  }

  ghost predicate CanStep(items: seq<Item>, s: State, step: Step, s': State) {
    WellFormed(items, s) && Enabled(s, step) && s' == Next(items, s, step)
  }

  lemma {:induction false} NobodyYet(calls: seq<Call>, sending: bool, ok: bool)
    requires forall g :: 0 <= g < |calls| ==> calls[g].pc == Calling
    ensures Number(calls, sending, ok) == 0
  {
    if calls != [] {
      NobodyYet(calls[1..], sending, ok);
    }
  }

  lemma InitialInv(items: seq<Item>, s: State)
    requires Initial(items, s)
    ensures Inv(items, s)
  {
    NobodyYet(s.calls, false, true);
    NobodyYet(s.calls, false, false);
    NobodyYet(s.calls, true, true);
    NobodyYet(s.calls, true, false);
    assert Crossed(items, s.succeeded) == {};
  }

  lemma {:induction false} RunKeepsInv(items: seq<Item>, states: seq<State>, steps: seq<Step>, k: nat)
    requires IsRun(items, states, steps) && k < |states|
    ensures Inv(items, states[k])
  {
    if k == 0 {
      InitialInv(items, states[0]);
    } else {
      RunKeepsInv(items, states, steps, k - 1);
      assert CanStep(items, states[k - 1], steps[k - 1], states[k]);
      StepKeepsInv(items, states[k - 1], steps[k - 1]);
    }
  }

  /** A success signal is only given when every item reached its minimum, an error only when some item cannot. */
  lemma SignalsAreTrue(items: seq<Item>, s: State)
    requires Inv(items, s)
    ensures s.done + Number(s.calls, true, true) > 0 ==>
      forall i :: 0 <= i < |items| ==> s.succeeded[i] >= items[i].minSuccess
    ensures s.err + Number(s.calls, true, false) > 0 ==> SomeItemFailed(items, s.failed)
  {
    CrossedAtMostAll(items, s.succeeded);
  }

  /** No item can both reach its minimum and exceed its failures. */
  lemma SignalsExclude(items: seq<Item>, s: State)
    requires Inv(items, s)
    ensures !(s.done + Number(s.calls, true, true) > 0 && s.err + Number(s.calls, true, false) > 0)
  {
    SignalsAreTrue(items, s);
    if SomeItemFailed(items, s.failed) {
      var i: nat :| i < |items| && s.failed[i] > items[i].maxFailures;
      assert s.succeeded[i] < items[i].minSuccess;
    }
  }

  /**
   * In every state of every run: at most one value has been sent in all, a goroutine about to send finds the channel
   * empty, done means that every item succeeded often enough, err that some item failed too often.
   */
  lemma OneVerdict(items: seq<Item>, states: seq<State>, steps: seq<Step>, k: nat)
    requires IsRun(items, states, steps) && k < |states|
    ensures var s := states[k];
      && WellFormed(items, s) && s.done + s.err <= 1
      && (forall g :: 0 <= g < |s.calls| && s.calls[g].pc.Sending? ==> s.done == 0 && s.err == 0)
      && (s.done == 1 ==> forall i :: 0 <= i < |items| ==> s.succeeded[i] >= items[i].minSuccess)
      && (s.err == 1 ==> SomeItemFailed(items, s.failed))
  {
    var s := states[k];
    RunKeepsInv(items, states, steps, k);
    SignalsExclude(items, s);
    SignalsAreTrue(items, s);
    forall g | 0 <= g < |s.calls| && s.calls[g].pc.Sending? ensures s.done == 0 && s.err == 0 {
      CountedAtLeastOnce(s.calls, g, true, s.calls[g].pc.ok);
    }
  }

  lemma {:induction false} NothingLeft(calls: seq<Call>, i: nat)
    requires forall g :: 0 <= g < |calls| ==> calls[g].pc == Finished
    ensures TotalRemaining(calls, i) == 0
    ensures forall sending, ok :: Number(calls, sending, ok) == 0
  {
    if calls != [] {
      NothingLeft(calls[1..], i);
    }
  }

  /** Once every callback has returned and been recorded, exactly one of the two channels has its value. */
  lemma VerdictInTheEnd(items: seq<Item>, states: seq<State>, steps: seq<Step>, k: nat)
    requires IsRun(items, states, steps) && k < |states|
    requires forall g :: 0 <= g < |states[k].calls| ==> states[k].calls[g].pc == Finished
    ensures WellFormed(items, states[k]) && states[k].done + states[k].err == 1
    ensures states[k].done == 1 <==> !SomeItemFailed(items, states[k].failed)
  {
    var s := states[k];
    RunKeepsInv(items, states, steps, k);
    SignalsExclude(items, s);
    NothingLeft(s.calls, 0);
    if !SomeItemFailed(items, s.failed) {
      forall i: nat | i < |items| ensures i in Crossed(items, s.succeeded) {
        NothingLeft(s.calls, i);
        assert s.failed[i] <= items[i].maxFailures;
      }
      assert Crossed(items, s.succeeded) == Below(|items|);
      CountBelow(|items|);
    }
  }

  // ---------------------------------------------------------------- building the batch

  ghost function MapOccurrences(m: map<string, seq<nat>>, i: nat): nat
    decreases |m|
  {
    if m == map[] then 0
    else
      var k :| k in m;
      assert |(m - {k}).Keys| == |m.Keys| - 1 by { assert (m - {k}).Keys == m.Keys - {k}; }
      Occurrences(m[k], i) + MapOccurrences(m - {k}, i)
  }

  /** Any key may be taken out first. */
  lemma {:induction false} MapOccurrencesWithout(m: map<string, seq<nat>>, k: string, i: nat)
    requires k in m
    ensures MapOccurrences(m, i) == Occurrences(m[k], i) + MapOccurrences(m - {k}, i)
    decreases |m|
  {
    var j :| j in m && MapOccurrences(m, i) == Occurrences(m[j], i) + MapOccurrences(m - {j}, i);
    if j != k {
      assert (m - {j}).Keys == m.Keys - {j} && (m - {k}).Keys == m.Keys - {k};
      MapOccurrencesWithout(m - {j}, k, i);
      assert (m - {j}) - {k} == (m - {k}) - {j};
      MapOccurrencesWithout(m - {k}, j, i);
    }
  }

  /** The number of replicas of item i. */
  function Replicas(sets: seq<ReplicationSet>, i: nat): nat {
    if i < |sets| then |sets[i].instances| else 0
  }

  lemma MapOccurrencesAppend(m: map<string, seq<nat>>, addr: string, x: nat, i: nat)
    ensures var prior := if addr in m then m[addr] else [];
      MapOccurrences(m[addr := prior + [x]], i) == MapOccurrences(m, i) + if x == i then 1 else 0
  {
    var prior := if addr in m then m[addr] else [];
    var m' := m[addr := prior + [x]];
    MapOccurrencesWithout(m', addr, i);
    OccurrencesAppend(prior, x, i);
    assert m' - {addr} == m - {addr};
    if addr in m {
      MapOccurrencesWithout(m, addr, i);
    } else {
      assert m - {addr} == m;
    }
  }

  /** The loop over the keys: which items go to which address. */
  method GroupByAddress(sets: seq<ReplicationSet>) returns (instances: map<string, seq<nat>>)
    ensures forall i: nat :: MapOccurrences(instances, i) == Replicas(sets, i)
    ensures forall addr :: addr in instances ==> forall i :: i in instances[addr] ==> i < |sets|
  {
    instances := map[];
    for i := 0 to |sets|
      invariant forall k: nat :: MapOccurrences(instances, k) == if k < i then Replicas(sets, k) else 0
      invariant forall addr :: addr in instances ==> forall k :: k in instances[addr] ==> k < |sets|
    {
      for j := 0 to |sets[i].instances|
        invariant forall k: nat ::
          MapOccurrences(instances, k) == if k < i then Replicas(sets, k) else if k == i then j else 0
        invariant forall addr :: addr in instances ==> forall k :: k in instances[addr] ==> k < |sets|
      {
        var addr := sets[i].instances[j].desc.addr;
        var curr := if addr in instances then instances[addr] else [];
        forall k: nat
          ensures MapOccurrences(instances[addr := curr + [i]], k)
            == MapOccurrences(instances, k) + if i == k then 1 else 0
        {
          MapOccurrencesAppend(instances, addr, i, k);
        }
        instances := instances[addr := curr + [i]];
      }
    }
  }

  /**
   * DoBatch up to the point where the callbacks are started. Replication sets as Get returns them, at least one and
   * each with a positive minimum, lead to an initial state: every item is counted once per replica.
   */
  method StartBatch(sets: seq<ReplicationSet>) returns (items: seq<Item>, s: State)
    requires sets != []
    requires forall i :: 0 <= i < |sets| ==> 0 <= sets[i].maxErrors < |sets[i].instances|
    ensures Initial(items, s)
    ensures |items| == |sets|
    ensures forall i :: 0 <= i < |sets| ==>
      items[i] == Item(|sets[i].instances| - sets[i].maxErrors, sets[i].maxErrors)
  {
    items := seq(|sets|, i requires 0 <= i < |sets| =>
      Item(|sets[i].instances| - sets[i].maxErrors, sets[i].maxErrors));
    var instances := GroupByAddress(sets);
    var calls: seq<Call> := [];
    var todo := instances;
    while todo != map[]
      invariant forall i: nat :: TotalRemaining(calls, i) + MapOccurrences(todo, i) == Replicas(sets, i)
      invariant forall g :: 0 <= g < |calls| ==> calls[g].pc == Calling && CallFits(calls[g], |sets|)
      invariant forall addr :: addr in todo ==> forall k :: k in todo[addr] ==> k < |sets|
      decreases |todo|
    {
      var addr :| addr in todo;
      var c := Call(todo[addr], Calling);
      forall i: nat ensures TotalRemaining(calls + [c], i) + MapOccurrences(todo - {addr}, i) == Replicas(sets, i) {
        MapOccurrencesWithout(todo, addr, i);
        RemainingAppend(calls, c, i);
      }
      assert forall p :: 0 <= p < |c.items| ==> c.items[p] in todo[addr];
      assert (todo - {addr}).Keys == todo.Keys - {addr};
      calls := calls + [c];
      todo := todo - {addr};
    }
    s := State(seq(|items|, i => 0), seq(|items|, i => 0), |items|, 0, 0, 0, calls);
    assert forall i: nat :: i < |items| ==> MapOccurrences(todo, i) == 0;
  }

  lemma {:induction false} RemainingAppend(calls: seq<Call>, c: Call, i: nat)
    ensures TotalRemaining(calls + [c], i) == TotalRemaining(calls, i) + Remaining(c, i)
  {
    if calls == [] {
      assert calls + [c] == [c];
      assert TotalRemaining([c], i) == Remaining(c, i) + TotalRemaining([], i);
    } else {
      RemainingAppend(calls[1..], c, i);
      assert (calls + [c])[1..] == calls[1..] + [c];
    }
  }
}
