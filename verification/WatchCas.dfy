/** Writers and watchers of one key, interleaved. */
module WatchCas {
  import opened RingTypes
  import opened KVStore

  // Compare-and-swap callers, receivers of gossip, and watchers with a one-place notification channel, one step per
  // critical section (CAS, trySingleCas, NotifyMsg, WatchKey, notifyWatchers in kv/memberlist/memberlist_client.go,
  // with tombstone expiry off).

  /** basis is the whole value behind the visible one that the callback was given. */
  datatype Writer = Idle | Computing(version: nat, basis: Option<Ingesters>) | OwesNotify

  /**
   * token: a notification is queued. reading: it was taken, the value not yet read. seen: the version read last, if
   * any. since: the version that was stored when the watcher registered, which it does not read.
   */
  datatype Watcher = Watcher(token: bool, reading: bool, seen: Option<nat>, since: nat)

  /** history lists the value of every version so far; it is bookkeeping for the proofs. */
  datatype State = State(
    slot: Slot, history: seq<Option<Ingesters>>, writers: map<nat, Writer>, watchers: map<nat, Watcher>)

  datatype Step =
    | BeginCas(t: nat)
    | CommitCas(t: nat, out: Ingesters, now: int)
    | AbandonCas(t: nat)
    | Receive(t: nat, incoming: Ingesters, now: int)
    | Notify(t: nat)
    | Register(w: nat)
    | Take(w: nat)
    | Read(w: nat)
    | Leave(w: nat)

  ghost predicate Initial(s: State) {
    && s.slot == EMPTY_SLOT && s.history == [None] && s.watchers == map[]
    && forall t :: t in s.writers ==> s.writers[t] == Idle
  }

  predicate Enabled(s: State, step: Step) {
    match step
    case BeginCas(t) => t in s.writers && s.writers[t].Idle?
    case CommitCas(t, _, _) => t in s.writers && s.writers[t].Computing?
    case AbandonCas(t) => t in s.writers && s.writers[t].Computing?
    case Receive(t, _, _) => t in s.writers && s.writers[t].Idle?
    case Notify(t) => t in s.writers && s.writers[t].OwesNotify?
    case Register(w) => w !in s.watchers
    case Take(w) => w in s.watchers && s.watchers[w].token && !s.watchers[w].reading
    case Read(w) => w in s.watchers && s.watchers[w].reading
    case Leave(w) => w in s.watchers
  }

  /** The store lock is held: the value is merged, and a change makes the writer owe the watchers a notification. */
  ghost function Write(s: State, t: nat, incoming: Ingesters, casVersion: nat, now: int): State {
    var (slot', outcome) := Put(s.slot, incoming, casVersion, now, None);
    if outcome.Stored? then
      s.(slot := slot', history := s.history + [slot'.value], writers := s.writers[t := OwesNotify])
    else
      s.(slot := slot', writers := s.writers[t := Idle])
  }

  ghost function Next(s: State, step: Step): State
    requires Enabled(s, step)
  {
    match step
    case BeginCas(t) => s.(writers := s.writers[t := Computing(s.slot.version, s.slot.value)])
    case CommitCas(t, out, now) => Write(s, t, out, s.writers[t].version, now)
    case AbandonCas(t) => s.(writers := s.writers[t := Idle])
    case Receive(t, incoming, now) => Write(s, t, incoming, 0, now)
    case Notify(t) =>
      // a full channel already holds a pending notification
      s.(writers := s.writers[t := Idle], watchers := map w | w in s.watchers :: s.watchers[w].(token := true))
    case Register(w) => s.(watchers := s.watchers[w := Watcher(false, false, None, s.slot.version)])
    case Take(w) => s.(watchers := s.watchers[w := s.watchers[w].(token := false, reading := true)])
    case Read(w) => s.(watchers := s.watchers[w := s.watchers[w].(reading := false, seen := Some(s.slot.version))])
    case Leave(w) => s.(watchers := s.watchers - {w})
  }

  /** A run: each state follows from the one before by an enabled step. */
  ghost predicate IsRun(states: seq<State>, steps: seq<Step>) {
    && |states| == |steps| + 1 && Initial(states[0])
    && forall i :: 0 <= i < |steps| ==> Enabled(states[i], steps[i]) && states[i + 1] == Next(states[i], steps[i])
  }

  ghost predicate VersionsAreNamed(s: State) {
    && |s.history| == s.slot.version + 1 && s.history[s.slot.version] == s.slot.value
    && forall t :: t in s.writers && s.writers[t].Computing? ==>
        s.writers[t].version <= s.slot.version && s.history[s.writers[t].version] == s.writers[t].basis
  }

  ghost predicate SomeoneOwes(s: State) {
    exists t :: t in s.writers && s.writers[t].OwesNotify?
  }

  /** Nothing was stored since the watcher last read, or else since it registered. */
  predicate UpToDate(s: State, w: nat)
    requires w in s.watchers
  {
    s.watchers[w].seen == Some(s.slot.version) || s.watchers[w].since == s.slot.version
  }

  /** The watcher is up to date, or something is on its way that will make it look. */
  ghost predicate WillSee(s: State, w: nat)
    requires w in s.watchers
  {
    UpToDate(s, w) || s.watchers[w].token || s.watchers[w].reading || SomeoneOwes(s)
  }

  ghost predicate Inv(s: State) {
    VersionsAreNamed(s) && forall w :: w in s.watchers ==> WillSee(s, w)
  }

  lemma WriteKeepsInv(s: State, t: nat, incoming: Ingesters, casVersion: nat, now: int)
    requires Inv(s) && t in s.writers && !s.writers[t].OwesNotify?
    ensures Inv(Write(s, t, incoming, casVersion, now))
  {
    PutRaisesVersionByOne(s.slot, incoming, casVersion, now);
    var s' := Write(s, t, incoming, casVersion, now);
    if Put(s.slot, incoming, casVersion, now, None).1.Stored? {
      assert s'.writers[t].OwesNotify?;
    } else {
      assert forall u :: u in s.writers && s.writers[u].OwesNotify? ==> s'.writers[u].OwesNotify?;
    }
  }

  lemma StepKeepsInv(s: State, step: Step)
    requires Inv(s) && Enabled(s, step)
    ensures Inv(Next(s, step))
  {
    match step
    case CommitCas(t, out, now) => WriteKeepsInv(s, t, out, s.writers[t].version, now);
    case Receive(t, incoming, now) => WriteKeepsInv(s, t, incoming, 0, now);
    case Notify(t) =>
    case _ =>
      assert forall u :: u in s.writers && s.writers[u].OwesNotify? ==> Next(s, step).writers[u].OwesNotify?;
  }

  /** No wakeup is lost, in any state of any run; and every version names one value. */
  lemma {:induction false} NoWakeupIsLost(states: seq<State>, steps: seq<Step>, i: nat)
    requires IsRun(states, steps) && i < |states|
    ensures Inv(states[i])
  {
    if i > 0 {
      NoWakeupIsLost(states, steps, i - 1);
      StepKeepsInv(states[i - 1], steps[i - 1]);
    }
  }

  /**
   * Once nothing is pending, every watcher has read the newest version, unless that was already stored when it
   * registered.
   */
  lemma QuietMeansSeen(states: seq<State>, steps: seq<Step>, i: nat, w: nat)
    requires IsRun(states, steps) && i < |states| && w in states[i].watchers
    requires forall t :: t in states[i].writers ==> !states[i].writers[t].OwesNotify?
    requires !states[i].watchers[w].token && !states[i].watchers[w].reading
    ensures UpToDate(states[i], w)
  {
    NoWakeupIsLost(states, steps, i);
    assert WillSee(states[i], w);
  }

  /**
   * A compare-and-swap from a non-zero version gets past the version check exactly when nothing was stored since
   * its callback was called, and then it merges onto the very value behind the one the callback was given.
   */
  lemma CommitMergesOntoWhatWasRead(states: seq<State>, steps: seq<Step>, i: nat)
    requires IsRun(states, steps) && i < |steps| && steps[i].CommitCas?
    requires states[i].writers[steps[i].t].version > 0
    ensures var w := states[i].writers[steps[i].t];
      var outcome := Put(states[i].slot, steps[i].out, w.version, steps[i].now, None).1;
      && (outcome.VersionMismatch? <==> w.version < states[i].slot.version)
      && (!outcome.VersionMismatch? ==> states[i].slot.value == w.basis)
      && (outcome.Stored? ==> states[i + 1].slot.value == Some(NewValue(w.basis, steps[i].out, true, steps[i].now).0))
  {
    NoWakeupIsLost(states, steps, i);
  }

  /** What the callback of a compare-and-swap was given, in any later state before it commits. */
  lemma {:induction false} CallbackWasGiven(states: seq<State>, steps: seq<Step>, i: nat, j: nat, t: nat)
    requires IsRun(states, steps) && i < j < |states| && steps[i] == BeginCas(t)
    requires forall h :: i < h <= j ==> t in states[h].writers && states[h].writers[t].Computing?
    requires forall h :: i < h < j ==> steps[h] != AbandonCas(t)
    ensures states[j].writers[t] == Computing(states[i].slot.version, states[i].slot.value)
  {
    if j > i + 1 {
      CallbackWasGiven(states, steps, i, j - 1, t);
      assert states[j] == Next(states[j - 1], steps[j - 1]);
    } else {
      assert states[j] == Next(states[i], steps[i]);
    }
  }

  /** Versions never go down, and two states of a run with the same version hold the same value. */
  lemma {:induction false} SameVersionSameValue(states: seq<State>, steps: seq<Step>, i: nat, j: nat)
    requires IsRun(states, steps) && i <= j < |states|
    ensures states[i].slot.version <= states[j].slot.version <= states[i].slot.version + (j - i)
    ensures states[i].slot.version == states[j].slot.version ==> states[i].slot.value == states[j].slot.value
  {
    if i < j {
      SameVersionSameValue(states, steps, i, j - 1);
      var s, step := states[j - 1], steps[j - 1];
      assert states[j] == Next(s, step);
      match step
      case CommitCas(t, out, now) => PutRaisesVersionByOne(s.slot, out, s.writers[t].version, now);
      case Receive(t, incoming, now) => PutRaisesVersionByOne(s.slot, incoming, 0, now);
      case _ =>
    }
  }
}
