/** AppLog_Printf under nested interrupts: a call may be interrupted anywhere outside its
    critical section, the interrupting call runs to its end first, and the drop counter is
    loaded and stored in two steps when a line is truncated. */
module DropCount {
  import opened Machine
  import opened LogRing

  /** Where one call stands: before the truncation test, between the load and the store of the
      unlocked increment, or before the critical section. */
  datatype Call =
    | Start(text: seq<Byte>)
    | Loaded(value: nat, text: seq<Byte>)
    | Lock(text: seq<Byte>)

  /** A finished call: its formatted text, and the free space it found under the lock. */
  datatype Outcome = Outcome(text: seq<Byte>, free: nat)

  /** stack holds the running calls, the interrupting one last; stale says that some store has
      overwritten increments made since its load. */
  datatype State = State(ring: Ring, stack: seq<Call>, losses: nat, stale: bool,
                         removed: seq<Byte>, done: seq<Outcome>)

  datatype Step = Interrupt(text: seq<Byte>) | Run | Drain(n: nat)

  predicate Init(s: State) {
    && WellFormed(s.ring) && Contents(s.ring) == [] && s.ring.dropped == 0
    && s.stack == [] && s.losses == 0 && !s.stale && s.removed == [] && s.done == []
  }

  /** The part of a formatted text that fits the line buffer. */
  function Kept(lineSize: nat, text: seq<Byte>): seq<Byte>
    requires 1 <= lineSize
  {
    if |text| >= lineSize then text[..lineSize - 1] else text
  }

  predicate Enabled(s: State, step: Step) {
    WellFormed(s.ring) &&
    match step
    case Interrupt(text) => text != []
    case Run => s.stack != []
    case Drain(n) => n <= |Contents(s.ring)| && s.ring.tail + n <= |s.ring.cells|
  }

  function RunTop(lineSize: nat, s: State): State
    requires 1 <= lineSize && Enabled(s, Run)
  {
    var below, top := s.stack[..|s.stack| - 1], s.stack[|s.stack| - 1];
    match top
    case Start(text) =>
      s.(stack := below + [if |text| >= lineSize then Loaded(s.ring.dropped, text) else Lock(text)])
    case Loaded(value, text) =>
      s.(ring := s.ring.(dropped := Wrap32(value + 1)), losses := s.losses + 1,
         stale := s.stale || s.ring.dropped != value, stack := below + [Lock(text)])
    case Lock(text) =>
      var line := Kept(lineSize, text);
      s.(ring := PushLine(s.ring, line),
         losses := s.losses + (if Free(s.ring) < |line| then 1 else 0),
         stack := below,
         done := s.done + [Outcome(text, Free(s.ring))])
  }

  function Apply(lineSize: nat, s: State, step: Step): State
    requires 1 <= lineSize && Enabled(s, step)
  {
    match step
    case Interrupt(text) => s.(stack := s.stack + [Start(text)])
    case Run => RunTop(lineSize, s)
    case Drain(n) => s.(ring := AdvanceTail(s.ring, n), removed := s.removed + Contents(s.ring)[..n])
  }

  predicate IsRun(lineSize: nat, trace: seq<State>, steps: seq<Step>) {
    && 1 <= lineSize
    && |trace| == |steps| + 1
    && Init(trace[0])
    && forall i {:trigger steps[i]} :: 0 <= i < |steps| ==>
         Enabled(trace[i], steps[i]) && trace[i + 1] == Apply(lineSize, trace[i], steps[i])
  }

  /** A call that nothing interrupts leaves the ring as LogRing.PrintLine says, which is what the
      method AppLog.Log.Printf does. */
  lemma UndisturbedCallIsPrintf(lineSize: nat, s: State, text: seq<Byte>)
    requires 1 <= lineSize && Enabled(s, Run) && s.stack[|s.stack| - 1] == Start(text)
    ensures var s1 := RunTop(lineSize, s);
      var s2 := if |text| >= lineSize then RunTop(lineSize, s1) else s1;
      var s3 := RunTop(lineSize, s2);
      s3.ring == PrintLine(s.ring, lineSize, text) && s3.stack == s.stack[..|s.stack| - 1]
  {
    assert text[..|text|] == text;
  }

  // ----- what the finished calls should have done -----

  function TruncationsOf(lineSize: nat, o: Outcome): nat {
    if |o.text| >= lineSize then 1 else 0
  }

  /** A truncated line is one loss, and a line that meets a full ring is one loss. */
  function LossesOf(lineSize: nat, o: Outcome): nat
    requires 1 <= lineSize
  {
    TruncationsOf(lineSize, o) + if o.free < |Kept(lineSize, o.text)| then 1 else 0
  }

  function Losses(lineSize: nat, done: seq<Outcome>): nat
    requires 1 <= lineSize
  {
    if done == [] then 0
    else Losses(lineSize, done[..|done| - 1]) + LossesOf(lineSize, done[|done| - 1])
  }

  /** The bytes a call adds: one prefix, as long as the text, the line buffer and the free
      space allow. */
  function Added(lineSize: nat, o: Outcome): seq<Byte>
    requires 1 <= lineSize
  {
    o.text[..Min(Min(|o.text|, lineSize - 1), o.free)]
  }

  function AllAdded(lineSize: nat, done: seq<Outcome>): seq<Byte>
    requires 1 <= lineSize
  {
    if done == [] then []
    else AllAdded(lineSize, done[..|done| - 1]) + Added(lineSize, done[|done| - 1])
  }

  // ----- invariants -----

  predicate StreamInv(lineSize: nat, s: State)
    requires 1 <= lineSize
  {
    WellFormed(s.ring) && s.removed + Contents(s.ring) == AllAdded(lineSize, s.done)
  }

  function PendingOf(lineSize: nat, call: Call): nat {
    if call.Lock? && |call.text| >= lineSize then 1 else 0
  }

  /** Truncations already counted by calls that wait for the lock. */
  function Pending(lineSize: nat, stack: seq<Call>): nat {
    if stack == [] then 0
    else Pending(lineSize, stack[..|stack| - 1]) + PendingOf(lineSize, stack[|stack| - 1])
  }

  /** Only a text that does not fit is counted as truncated. */
  predicate LoadedOverlong(lineSize: nat, stack: seq<Call>) {
    forall i :: 0 <= i < |stack| && stack[i].Loaded? ==> |stack[i].text| >= lineSize
  }

  predicate LossInv(lineSize: nat, s: State)
    requires 1 <= lineSize
  {
    && s.losses == Losses(lineSize, s.done) + Pending(lineSize, s.stack)
    && LoadedOverlong(lineSize, s.stack)
  }

  /** Loaded values never exceed the counter and grow with the nesting depth. */
  predicate Nested(stack: seq<Call>, dropped: nat) {
    && (forall i :: 0 <= i < |stack| && stack[i].Loaded? ==> stack[i].value <= dropped)
    && (forall i, j :: 0 <= i < j < |stack| && stack[i].Loaded? && stack[j].Loaded? ==>
          stack[i].value <= stack[j].value)
  }

  predicate CountInv(dropped: nat, losses: nat, stale: bool, stack: seq<Call>) {
    losses < TWO32 ==>
      && dropped <= losses
      && (dropped == losses <==> !stale)
      && Nested(stack, dropped)
  }

  // ----- every step keeps them -----

  lemma KeptPrefix(lineSize: nat, text: seq<Byte>, free: nat)
    requires 1 <= lineSize
    ensures Kept(lineSize, text)[..Min(|Kept(lineSize, text)|, free)] == Added(lineSize, Outcome(text, free))
  {
  }

  lemma AllAddedPush(lineSize: nat, done: seq<Outcome>, o: Outcome)
    requires 1 <= lineSize
    ensures AllAdded(lineSize, done + [o]) == AllAdded(lineSize, done) + Added(lineSize, o)
  {
  }

  lemma ConcatAssociates(a: seq<Byte>, b: seq<Byte>, c: seq<Byte>)
    ensures a + (b + c) == a + b + c
  {
  }

  lemma LockKeepsStream(lineSize: nat, s: State)
    requires 1 <= lineSize && StreamInv(lineSize, s) && Enabled(s, Run) && s.stack[|s.stack| - 1].Lock?
    ensures StreamInv(lineSize, RunTop(lineSize, s))
  {
    var text := s.stack[|s.stack| - 1].text;
    var line, o := Kept(lineSize, text), Outcome(text, Free(s.ring));
    PushLineRefinesQueue(s.ring, line);
    KeptPrefix(lineSize, text, Free(s.ring));
    AllAddedPush(lineSize, s.done, o);
    ConcatAssociates(s.removed, Contents(s.ring), Added(lineSize, o));
  }

  lemma DrainKeepsStream(ring: Ring, n: nat, removed: seq<Byte>)
    requires WellFormed(ring) && n <= |Contents(ring)| && ring.tail + n <= |ring.cells|
    ensures WellFormed(AdvanceTail(ring, n))
    ensures removed + Contents(ring)[..n] + Contents(AdvanceTail(ring, n)) == removed + Contents(ring)
  {
    AdvanceTailRefinesQueue(ring, n);
    assert Contents(ring) == Contents(ring)[..n] + Contents(ring)[n..];
    ConcatAssociates(removed, Contents(ring)[..n], Contents(ring)[n..]);
  }

  lemma StreamKeeps(lineSize: nat, s: State, step: Step)
    requires 1 <= lineSize && StreamInv(lineSize, s) && Enabled(s, step)
    ensures StreamInv(lineSize, Apply(lineSize, s, step))
  {
    if step.Drain? {
      DrainKeepsStream(s.ring, step.n, s.removed);
    } else if step.Run? && s.stack[|s.stack| - 1].Lock? {
      LockKeepsStream(lineSize, s);
    }
  }

  lemma PendingPush(lineSize: nat, below: seq<Call>, call: Call)
    ensures Pending(lineSize, below + [call]) == Pending(lineSize, below) + PendingOf(lineSize, call)
  {
  }

  lemma LossesPush(lineSize: nat, done: seq<Outcome>, o: Outcome)
    requires 1 <= lineSize
    ensures Losses(lineSize, done + [o]) == Losses(lineSize, done) + LossesOf(lineSize, o)
  {
  }

  lemma LockKeepsLoss(lineSize: nat, s: State)
    requires 1 <= lineSize && LossInv(lineSize, s) && Enabled(s, Run) && s.stack[|s.stack| - 1].Lock?
    ensures LossInv(lineSize, RunTop(lineSize, s))
  {
    LossesPush(lineSize, s.done, Outcome(s.stack[|s.stack| - 1].text, Free(s.ring)));
  }

  lemma UnlockedKeepsLoss(lineSize: nat, s: State)
    requires 1 <= lineSize && LossInv(lineSize, s) && Enabled(s, Run) && !s.stack[|s.stack| - 1].Lock?
    ensures LossInv(lineSize, RunTop(lineSize, s))
  {
    var below := s.stack[..|s.stack| - 1];
    PendingPush(lineSize, below, RunTop(lineSize, s).stack[|below|]);
  }

  lemma LossKeeps(lineSize: nat, s: State, step: Step)
    requires 1 <= lineSize && LossInv(lineSize, s) && Enabled(s, step)
    ensures LossInv(lineSize, Apply(lineSize, s, step))
  {
    match step
    case Interrupt(text) => PendingPush(lineSize, s.stack, Start(text));
    case Drain(_) =>
    case Run =>
      if s.stack[|s.stack| - 1].Lock? {
        LockKeepsLoss(lineSize, s);
      } else {
        UnlockedKeepsLoss(lineSize, s);
      }
  }

  lemma LockKeepsCount(dropped: nat, losses: nat, stale: bool, below: seq<Call>, top: Call, hit: bool)
    requires CountInv(dropped, losses, stale, below + [top])
    ensures CountInv(if hit then Wrap32(dropped + 1) else dropped, losses + (if hit then 1 else 0), stale, below)
  {
    assert forall i :: 0 <= i < |below| ==> (below + [top])[i] == below[i];
  }

  lemma CallKeepsCount(dropped: nat, losses: nat, stale: bool, below: seq<Call>, text: seq<Byte>)
    requires CountInv(dropped, losses, stale, below)
    ensures CountInv(dropped, losses, stale, below + [Start(text)])
  {
  }

  predicate CountInvOf(s: State) {
    CountInv(s.ring.dropped, s.losses, s.stale, s.stack)
  }

  lemma LockStepKeepsCount(lineSize: nat, s: State)
    requires 1 <= lineSize && CountInvOf(s) && Enabled(s, Run) && s.stack[|s.stack| - 1].Lock?
    ensures CountInvOf(RunTop(lineSize, s))
  {
    var below, top := s.stack[..|s.stack| - 1], s.stack[|s.stack| - 1];
    var line := Kept(lineSize, top.text);
    assert below + [top] == s.stack;
    PushLineRefinesQueue(s.ring, line);
    LockKeepsCount(s.ring.dropped, s.losses, s.stale, below, top, Free(s.ring) < |line|);
  }

  lemma UnlockedStepKeepsCount(lineSize: nat, s: State)
    requires 1 <= lineSize && CountInvOf(s) && Enabled(s, Run) && !s.stack[|s.stack| - 1].Lock?
    ensures CountInvOf(RunTop(lineSize, s))
  {
  }

  lemma CountKeeps(lineSize: nat, s: State, step: Step)
    requires 1 <= lineSize && CountInvOf(s) && Enabled(s, step)
    ensures CountInvOf(Apply(lineSize, s, step))
  {
    match step
    case Interrupt(text) => CallKeepsCount(s.ring.dropped, s.losses, s.stale, s.stack, text);
    case Drain(_) =>
    case Run =>
      if s.stack[|s.stack| - 1].Lock? {
        LockStepKeepsCount(lineSize, s);
      } else {
        UnlockedStepKeepsCount(lineSize, s);
      }
  }

  predicate Inv(lineSize: nat, s: State)
    requires 1 <= lineSize
  {
    StreamInv(lineSize, s) && LossInv(lineSize, s) && CountInvOf(s)
  }

  lemma InitHolds(lineSize: nat, s: State)
    requires 1 <= lineSize && Init(s)
    ensures Inv(lineSize, s)
  {
  }

  lemma StepKeeps(lineSize: nat, s: State, step: Step)
    requires 1 <= lineSize && Enabled(s, step) && Inv(lineSize, s)
    ensures Inv(lineSize, Apply(lineSize, s, step))
  {
    StreamKeeps(lineSize, s, step);
    LossKeeps(lineSize, s, step);
    CountKeeps(lineSize, s, step);
  }

  lemma {:induction false} RunKeeps(lineSize: nat, trace: seq<State>, steps: seq<Step>, i: nat)
    requires IsRun(lineSize, trace, steps) && i < |trace|
    ensures Inv(lineSize, trace[i])
  {
    if i == 0 {
      InitHolds(lineSize, trace[0]);
    } else {
      RunKeeps(lineSize, trace, steps, i - 1);
      StepKeeps(lineSize, trace[i - 1], steps[i - 1]);
    }
  }

  // ----- the results -----

  /** Line atomicity: the byte stream is the concatenation of one prefix per finished call, in
      the order of their critical sections, however the calls interrupt each other. */
  lemma LinesAreAtomic(lineSize: nat, trace: seq<State>, steps: seq<Step>, i: nat)
    requires IsRun(lineSize, trace, steps) && i < |trace|
    ensures WellFormed(trace[i].ring)
    ensures trace[i].removed + Contents(trace[i].ring) == AllAdded(lineSize, trace[i].done)
  {
    RunKeeps(lineSize, trace, steps, i);
  }

  /** Loss accounting: with all calls finished and fewer than 2^32 losses, the counter is never
      above the number of losses, and equals it exactly when no unlocked increment was
      overtaken by another one between its load and its store. */
  lemma CounterExactIffNoStaleStore(lineSize: nat, trace: seq<State>, steps: seq<Step>, i: nat)
    requires IsRun(lineSize, trace, steps) && i < |trace|
    requires trace[i].stack == [] && Losses(lineSize, trace[i].done) < TWO32
    ensures trace[i].ring.dropped <= Losses(lineSize, trace[i].done)
    ensures trace[i].ring.dropped == Losses(lineSize, trace[i].done) <==> StaleStores(trace, steps, i) == 0
  {
    RunKeeps(lineSize, trace, steps, i);
    StaleIffStaleStore(lineSize, trace, steps, i);
  }

  /** The next store would overwrite increments made since its load. */
  predicate StoresStale(s: State) {
    s.stack != [] &&
    var top := s.stack[|s.stack| - 1];
    top.Loaded? && top.value != s.ring.dropped
  }

  /** Stores up to state i that found the counter changed since their load. */
  function StaleStores(trace: seq<State>, steps: seq<Step>, i: nat): nat
    requires |trace| == |steps| + 1 && i < |trace|
  {
    if i == 0 then 0
    else
      StaleStores(trace, steps, i - 1) + (if steps[i - 1].Run? && StoresStale(trace[i - 1]) then 1 else 0)
  }

  lemma StaleStep(lineSize: nat, s: State, step: Step)
    requires 1 <= lineSize && Enabled(s, step)
    ensures Apply(lineSize, s, step).stale <==> s.stale || (step.Run? && StoresStale(s))
  {
  }

  lemma {:induction false} StaleIffStaleStore(lineSize: nat, trace: seq<State>, steps: seq<Step>, i: nat)
    requires IsRun(lineSize, trace, steps) && i < |trace|
    ensures trace[i].stale <==> StaleStores(trace, steps, i) > 0
  {
    if i > 0 {
      StaleIffStaleStore(lineSize, trace, steps, i - 1);
      StaleStep(lineSize, trace[i - 1], steps[i - 1]);
    }
  }

  // ----- the counter does fall behind -----

  predicate Leads(lineSize: nat, s: State, step: Step, s': State)
    requires 1 <= lineSize
  {
    Enabled(s, step) && s' == Apply(lineSize, s, step)
  }

  lemma Extend(lineSize: nat, trace: seq<State>, steps: seq<Step>, step: Step, s': State)
    returns (trace': seq<State>, steps': seq<Step>)
    requires IsRun(lineSize, trace, steps) && Leads(lineSize, trace[|steps|], step, s')
    ensures IsRun(lineSize, trace', steps') && trace'[|steps'|] == s'
    ensures trace'[0] == trace[0]
  {
    trace', steps' := trace + [s'], steps + [step];
  }

  function At(ring: Ring, stack: seq<Call>, losses: nat, stale: bool, done: seq<Outcome>): State {
    State(ring, stack, losses, stale, [], done)
  }

  /** The first call loads the counter, is interrupted, and the second call loads it too. */
  lemma BothCallsLoad(lineSize: nat, r: Ring, a: seq<Byte>, b: seq<Byte>)
    requires 1 <= lineSize <= |a| && lineSize <= |b| && WellFormed(r)
    ensures var v := r.dropped;
      && Leads(lineSize, At(r, [], 0, false, []), Interrupt(a), At(r, [Start(a)], 0, false, []))
      && Leads(lineSize, At(r, [Start(a)], 0, false, []), Run, At(r, [Loaded(v, a)], 0, false, []))
      && Leads(lineSize, At(r, [Loaded(v, a)], 0, false, []), Interrupt(b),
               At(r, [Loaded(v, a), Start(b)], 0, false, []))
      && Leads(lineSize, At(r, [Loaded(v, a), Start(b)], 0, false, []), Run,
               At(r, [Loaded(v, a), Loaded(v, b)], 0, false, []))
  {
  }

  /** A call that loaded zero, on top of others, stores its count and pushes its line. */
  lemma CallEnds(lineSize: nat, r: Ring, below: seq<Call>, text: seq<Byte>, losses: nat, stale: bool,
                 done: seq<Outcome>)
    requires 1 <= lineSize <= |text| && WellFormed(r)
    ensures var r1 := r.(dropped := 1);
      var r2, full := PushLine(r1, Kept(lineSize, text)), Free(r1) < |Kept(lineSize, text)|;
      && Leads(lineSize, At(r, below + [Loaded(0, text)], losses, stale, done), Run,
               At(r1, below + [Lock(text)], losses + 1, stale || r.dropped != 0, done))
      && Leads(lineSize, At(r1, below + [Lock(text)], losses + 1, stale || r.dropped != 0, done), Run,
               At(r2, below, losses + 1 + (if full then 1 else 0), stale || r.dropped != 0,
                  done + [Outcome(text, Free(r1))]))
      && WellFormed(r2) && r2.dropped == if full then 2 else 1
  {
    PushLineRefinesQueue(r.(dropped := 1), Kept(lineSize, text));
  }

  lemma EndCall(lineSize: nat, trace: seq<State>, steps: seq<Step>, r: Ring, below: seq<Call>, text: seq<Byte>,
                losses: nat, stale: bool, done: seq<Outcome>)
    returns (trace': seq<State>, steps': seq<Step>)
    requires IsRun(lineSize, trace, steps) && lineSize <= |text| && WellFormed(r)
    requires trace[|steps|] == At(r, below + [Loaded(0, text)], losses, stale, done)
    ensures IsRun(lineSize, trace', steps') && trace'[0] == trace[0]
    ensures var s := trace'[|steps'|];
      && s == At(s.ring, below, s.losses, stale || r.dropped != 0, s.done)
      && WellFormed(s.ring) && s.ring.dropped != 0 && losses + 1 <= s.losses <= losses + 2
      && |s.done| == |done| + 1
  {
    CallEnds(lineSize, r, below, text, losses, stale, done);
    var kept, r1 := Kept(lineSize, text), r.(dropped := 1);
    trace', steps' := Extend(lineSize, trace, steps, Run,
                             At(r1, below + [Lock(text)], losses + 1, stale || r.dropped != 0, done));
    trace', steps' := Extend(lineSize, trace', steps', Run,
                             At(PushLine(r1, kept), below, losses + 1 + (if Free(r1) < |kept| then 1 else 0),
                                stale || r.dropped != 0, done + [Outcome(text, Free(r1))]));
  }

  /** For every line size and every empty ring, and any two overlong texts, the second call
      interrupting the first between its load and its store: the counter ends below the losses. */
  lemma OvertakenIncrementIsLost(lineSize: nat, r: Ring, a: seq<Byte>, b: seq<Byte>)
    returns (trace: seq<State>, steps: seq<Step>)
    requires 1 <= lineSize <= |a| && lineSize <= |b|
    requires WellFormed(r) && Contents(r) == [] && r.dropped == 0
    ensures IsRun(lineSize, trace, steps) && trace[0] == At(r, [], 0, false, []) && trace[|steps|].stack == []
    ensures |trace[|steps|].done| == 2 && 2 <= Losses(lineSize, trace[|steps|].done) <= 4
    ensures trace[|steps|].ring.dropped < Losses(lineSize, trace[|steps|].done)
  {
    BothCallsLoad(lineSize, r, a, b);
    trace, steps := [At(r, [], 0, false, [])], [];
    trace, steps := Extend(lineSize, trace, steps, Interrupt(a), At(r, [Start(a)], 0, false, []));
    trace, steps := Extend(lineSize, trace, steps, Run, At(r, [Loaded(0, a)], 0, false, []));
    trace, steps := Extend(lineSize, trace, steps, Interrupt(b), At(r, [Loaded(0, a), Start(b)], 0, false, []));
    trace, steps := Extend(lineSize, trace, steps, Run, At(r, [Loaded(0, a), Loaded(0, b)], 0, false, []));
    trace, steps := EndCall(lineSize, trace, steps, r, [Loaded(0, a)], b, 0, false, []);
    var s := trace[|steps|];
    trace, steps := EndCall(lineSize, trace, steps, s.ring, [], a, s.losses, false, s.done);
    RunKeeps(lineSize, trace, steps, |steps|);
  }
}
