/** When the drop counter is exact, read off the schedule alone: which calls ran between the load
    and the store of another call's unlocked increment. */
module DropSchedule {
  import opened Machine
  import opened LogRing
  import opened DropCount

  /** The next step of the running call loses a line: it stores its count of a truncation, or takes
      the lock and finds too little room. */
  predicate Loses(lineSize: nat, s: State)
    requires 1 <= lineSize && WellFormed(s.ring)
  {
    s.stack != [] &&
    var top := s.stack[|s.stack| - 1];
    top.Loaded? || (top.Lock? && Free(s.ring) < |Kept(lineSize, top.text)|)
  }

  /** The call at this depth of the nesting has loaded the counter and not stored it yet. */
  predicate HoldsLoad(s: State, depth: nat) {
    depth < |s.stack| && s.stack[depth].Loaded?
  }

  /** Step a loads the counter for the call at its depth, which holds the load up to state k. */
  predicate LoadHeld(trace: seq<State>, a: nat, k: nat)
    requires a < k < |trace|
  {
    && trace[a].stack != [] && trace[a].stack[|trace[a].stack| - 1].Start?
    && forall j :: a < j <= k ==> HoldsLoad(trace[j], |trace[a].stack| - 1)
  }

  /** Step a is the load and step b the store of one increment. */
  predicate Window(trace: seq<State>, steps: seq<Step>, a: nat, b: nat)
    requires |trace| == |steps| + 1 && a < b < |steps|
  {
    steps[a] == Run && steps[b] == Run && LoadHeld(trace, a, b) && |trace[b].stack| == |trace[a].stack|
  }

  predicate LosesAt(lineSize: nat, trace: seq<State>, steps: seq<Step>, m: nat)
    requires IsRun(lineSize, trace, steps) && m < |steps|
  {
    Enabled(trace[m], steps[m]) && steps[m] == Run && Loses(lineSize, trace[m])
  }

  /** Some other call loses a line between the load and the store of an increment. */
  predicate Overtaken(lineSize: nat, trace: seq<State>, steps: seq<Step>, i: nat)
    requires IsRun(lineSize, trace, steps) && i < |trace|
  {
    exists a, m, b :: 0 <= a < m < b < i && Window(trace, steps, a, b) && LosesAt(lineSize, trace, steps, m)
  }

  // ----- one step under a waiting load -----

  lemma LockUnderLoad(lineSize: nat, s: State, depth: nat)
    requires 1 <= lineSize && Enabled(s, Run) && s.stack[|s.stack| - 1].Lock? && HoldsLoad(s, depth)
    ensures var s' := RunTop(lineSize, s);
      && HoldsLoad(s', depth) && s'.stack[depth] == s.stack[depth]
      && s'.losses == s.losses + (if Loses(lineSize, s) then 1 else 0)
      && s'.ring.dropped == if Loses(lineSize, s) then Wrap32(s.ring.dropped + 1) else s.ring.dropped
  {
    PushLineRefinesQueue(s.ring, Kept(lineSize, s.stack[|s.stack| - 1].text));
  }

  /** While a call holds its load, every loss takes the counter above the loaded value, and nothing
      else moves it. */
  lemma StepUnderLoad(lineSize: nat, s: State, step: Step, depth: nat)
    requires 1 <= lineSize && CountInvOf(s) && Enabled(s, step) && HoldsLoad(s, depth)
    requires HoldsLoad(Apply(lineSize, s, step), depth) && Apply(lineSize, s, step).losses < TWO32
    ensures var s', lost := Apply(lineSize, s, step), step == Run && Loses(lineSize, s);
      && s'.stack[depth] == s.stack[depth]
      && (lost ==> s'.ring.dropped > s.stack[depth].value)
      && (!lost ==> s'.ring.dropped == s.ring.dropped)
      && s.stack[depth].value <= s.ring.dropped
  {
    if step == Run && s.stack[|s.stack| - 1].Lock? {
      LockUnderLoad(lineSize, s, depth);
    }
  }

  lemma LoadOpensWindow(lineSize: nat, s: State, step: Step, depth: nat)
    requires 1 <= lineSize && Enabled(s, step) && HoldsLoad(Apply(lineSize, s, step), depth)
    ensures HoldsLoad(s, depth)
      || (step == Run && |s.stack| == depth + 1 && s.stack[depth].Start?
          && Apply(lineSize, s, step).stack[depth].value == s.ring.dropped)
  {
  }

  lemma LossesCount(lineSize: nat, s: State, step: Step)
    requires 1 <= lineSize && Enabled(s, step)
    ensures Apply(lineSize, s, step).losses == s.losses + if step == Run && Loses(lineSize, s) then 1 else 0
  {
  }

  // ----- runs -----

  lemma {:induction false} FewerLossesBefore(lineSize: nat, trace: seq<State>, steps: seq<Step>, i: nat, j: nat)
    requires IsRun(lineSize, trace, steps) && i <= j < |trace|
    ensures trace[i].losses <= trace[j].losses
    decreases j - i
  {
    if i < j {
      FewerLossesBefore(lineSize, trace, steps, i, j - 1);
      LossesCount(lineSize, trace[j - 1], steps[j - 1]);
    }
  }

  /** Every held load goes back to the step that loaded it. */
  lemma {:induction false} LoadStep(lineSize: nat, trace: seq<State>, steps: seq<Step>, depth: nat, k: nat)
    returns (a: nat)
    requires IsRun(lineSize, trace, steps) && k < |trace| && HoldsLoad(trace[k], depth)
    ensures a < k && steps[a] == Run && |trace[a].stack| == depth + 1 && LoadHeld(trace, a, k)
  {
    LoadOpensWindow(lineSize, trace[k - 1], steps[k - 1], depth);
    if HoldsLoad(trace[k - 1], depth) {
      a := LoadStep(lineSize, trace, steps, depth, k - 1);
    } else {
      a := k - 1;
    }
  }

  lemma {:induction false} LostStep(lineSize: nat, trace: seq<State>, steps: seq<Step>, i: nat, k: nat)
    returns (m: nat)
    requires IsRun(lineSize, trace, steps) && i <= k < |trace| && trace[i].losses < trace[k].losses
    ensures i <= m < k && LosesAt(lineSize, trace, steps, m)
  {
    m := k - 1;
    LossesCount(lineSize, trace[m], steps[m]);
    if !LosesAt(lineSize, trace, steps, m) {
      m := LostStep(lineSize, trace, steps, i, k - 1);
    }
  }

  lemma LostStepCounts(lineSize: nat, trace: seq<State>, steps: seq<Step>, i: nat, m: nat, k: nat)
    requires IsRun(lineSize, trace, steps) && i <= m < k < |trace| && LosesAt(lineSize, trace, steps, m)
    ensures trace[i].losses < trace[k].losses
  {
    FewerLossesBefore(lineSize, trace, steps, i, m);
    LossesCount(lineSize, trace[m], steps[m]);
    FewerLossesBefore(lineSize, trace, steps, m + 1, k);
  }

  /** The counter against a loaded value: the same while there are no losses beyond those before, and
      above it from then on. */
  predicate Tracks(s: State, depth: nat, value: nat, before: nat) {
    && HoldsLoad(s, depth) && s.stack[depth].value == value
    && before <= s.losses
    && (if before < s.losses then s.ring.dropped > value else s.ring.dropped == value)
  }

  lemma StepTracks(lineSize: nat, trace: seq<State>, steps: seq<Step>, k: nat, depth: nat, value: nat, before: nat)
    requires IsRun(lineSize, trace, steps) && k < |steps| && Tracks(trace[k], depth, value, before)
    requires HoldsLoad(trace[k + 1], depth) && trace[k + 1].losses < TWO32
    ensures Tracks(trace[k + 1], depth, value, before)
  {
    RunKeeps(lineSize, trace, steps, k);
    StepUnderLoad(lineSize, trace[k], steps[k], depth);
    LossesCount(lineSize, trace[k], steps[k]);
  }

  lemma LoadTracks(lineSize: nat, trace: seq<State>, steps: seq<Step>, a: nat)
    requires IsRun(lineSize, trace, steps) && a < |steps| && LoadHeld(trace, a, a + 1)
    ensures Tracks(trace[a + 1], |trace[a].stack| - 1, trace[a].ring.dropped, trace[a + 1].losses)
  {
    HeldEarlier(trace, a, a + 1);
    LoadOpensWindow(lineSize, trace[a], steps[a], |trace[a].stack| - 1);
  }

  lemma HeldEarlier(trace: seq<State>, a: nat, k: nat)
    requires a < k < |trace| && LoadHeld(trace, a, k)
    ensures HoldsLoad(trace[k], |trace[a].stack| - 1)
    ensures a + 1 < k ==> LoadHeld(trace, a, k - 1)
  {
  }

  /** Between load and store the counter equals the loaded value until a line is lost, and stays
      above it from then on. */
  lemma {:induction false} LoadedValueTracks(lineSize: nat, trace: seq<State>, steps: seq<Step>, a: nat, k: nat)
    requires IsRun(lineSize, trace, steps) && a < k < |trace| && trace[k].losses < TWO32
    requires LoadHeld(trace, a, k)
    ensures Tracks(trace[k], |trace[a].stack| - 1, trace[a].ring.dropped, trace[a + 1].losses)
    decreases k
  {
    if k == a + 1 {
      LoadTracks(lineSize, trace, steps, a);
    } else {
      HeldEarlier(trace, a, k);
      FewerLossesBefore(lineSize, trace, steps, k - 1, k);
      LoadedValueTracks(lineSize, trace, steps, a, k - 1);
      StepTracks(lineSize, trace, steps, k - 1, |trace[a].stack| - 1, trace[a].ring.dropped, trace[a + 1].losses);
    }
  }

  lemma {:induction false} SomeStoreIsStale(trace: seq<State>, steps: seq<Step>, i: nat)
    requires |trace| == |steps| + 1 && i < |trace|
    ensures StaleStores(trace, steps, i) > 0 <==> exists b :: 0 <= b < i && steps[b].Run? && StoresStale(trace[b])
  {
    if i > 0 {
      SomeStoreIsStale(trace, steps, i - 1);
    }
  }

  lemma StaleStoreIsOvertaken(lineSize: nat, trace: seq<State>, steps: seq<Step>, b: nat, i: nat)
    requires IsRun(lineSize, trace, steps) && b < i < |trace| && trace[i].losses < TWO32
    requires steps[b].Run? && StoresStale(trace[b])
    ensures Overtaken(lineSize, trace, steps, i)
  {
    var a := LoadStep(lineSize, trace, steps, |trace[b].stack| - 1, b);
    FewerLossesBefore(lineSize, trace, steps, b, i);
    LoadedValueTracks(lineSize, trace, steps, a, b);
    var m := LostStep(lineSize, trace, steps, a + 1, b);
    assert Window(trace, steps, a, b);
  }

  lemma TrackedStoreIsStale(s: State, value: nat, before: nat)
    requires s.stack != [] && Tracks(s, |s.stack| - 1, value, before) && before < s.losses
    ensures StoresStale(s)
  {
  }

  lemma OvertakenStoreIsStale(lineSize: nat, trace: seq<State>, steps: seq<Step>, i: nat)
    requires IsRun(lineSize, trace, steps) && i < |trace| && trace[i].losses < TWO32
    requires Overtaken(lineSize, trace, steps, i)
    ensures exists b :: 0 <= b < i && steps[b].Run? && StoresStale(trace[b])
  {
    var a, m, b :| 0 <= a < m < b < i && Window(trace, steps, a, b) && LosesAt(lineSize, trace, steps, m);
    FewerLossesBefore(lineSize, trace, steps, b, i);
    LoadedValueTracks(lineSize, trace, steps, a, b);
    LostStepCounts(lineSize, trace, steps, a + 1, m, b);
    TrackedStoreIsStale(trace[b], trace[a].ring.dropped, trace[a + 1].losses);
  }

  /** Loss accounting by the schedule: with all calls finished and fewer than 2^32 losses, the counter
      is right if and only if no call lost a line between another call's load and its store. */
  lemma CounterExactIffNoneOvertaken(lineSize: nat, trace: seq<State>, steps: seq<Step>, i: nat)
    requires IsRun(lineSize, trace, steps) && i < |trace|
    requires trace[i].stack == [] && Losses(lineSize, trace[i].done) < TWO32
    ensures trace[i].ring.dropped == Losses(lineSize, trace[i].done) <==> !Overtaken(lineSize, trace, steps, i)
  {
    RunKeeps(lineSize, trace, steps, i);
    CounterExactIffNoStaleStore(lineSize, trace, steps, i);
    SomeStoreIsStale(trace, steps, i);
    if StaleStores(trace, steps, i) > 0 {
      var b: nat :| b < i && steps[b].Run? && StoresStale(trace[b]);
      StaleStoreIsOvertaken(lineSize, trace, steps, b, i);
    } else if Overtaken(lineSize, trace, steps, i) {
      OvertakenStoreIsStale(lineSize, trace, steps, i);
    }
  }
}
