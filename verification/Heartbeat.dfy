/** heartbeat.c: a deadline on a 32-bit tick counter that wraps. Polls are described by the
    unbounded time at which they read the counter. */
module Heartbeat {
  import opened Machine

  /** Heartbeat_GetPeriodTick; lsi is CAB_LSIFQ. The product is 64 bits wide, the result 32. */
  function PeriodTick(periodMs: nat, lsi: nat): (p: nat)
    requires periodMs < TWO32 && lsi < TWO32
    ensures 1 <= p < TWO32
  {
    TicksOf(periodMs * (lsi / 2))
  }

  function TicksOf(product: nat): (p: nat)
    ensures 1 <= p < TWO32
    ensures p == product / 1000 <==> 1000 <= product < 1000 * TWO32
    ensures product < 1000 ==> p == 1
  {
    var p := Wrap32(product % 0x1_0000_0000_0000_0000 / 1000);
    if p == 0 then 1 else p
  }

  /** next_deadline_tick and led_on. */
  datatype Context = Context(led: bool, deadline: nat)

  function Started(now: nat, period: nat): Context
    requires now < TWO32
  {
    Context(false, Wrap32(now + period))
  }

  /** The signed comparison of Heartbeat_Process. */
  predicate Due(now: nat, deadline: nat)
    requires now < TWO32 && deadline < TWO32
  {
    Signed32(Wrap32(now - deadline)) >= 0
  }

  function Polled(ctx: Context, now: nat, period: nat): Context
    requires now < TWO32 && ctx.deadline < TWO32
  {
    if Due(now, ctx.deadline) then Context(!ctx.led, Wrap32(ctx.deadline + period)) else ctx
  }

  /** heartbeat_ctx_t with the methods that update it; RTC_GetCounter and the period are passed in,
      and output records the level written to the pin. */
  class Timer {
    var initialized: bool
    var ledOn: bool
    var nextDeadlineTick: nat
    var output: bool

    constructor ()
      ensures !initialized && nextDeadlineTick == 0
    {
      initialized, ledOn, nextDeadlineTick, output := false, false, 0, false;
    }

    ghost function Value(): Context
      reads this
    {
      Context(ledOn, nextDeadlineTick)
    }

    ghost predicate Valid()
      reads this
    {
      nextDeadlineTick < TWO32 && (initialized ==> output == ledOn)
    }

    /** Heartbeat_Init */
    method Init(now: nat, period: nat)
      requires now < TWO32
      modifies this
      ensures Valid() && initialized && Value() == Started(now, period) && !output
    {
      initialized := true;
      ledOn := false;
      output := false;
      nextDeadlineTick := Wrap32(now + period);
    }

    /** Heartbeat_Process */
    method Process(now: nat, period: nat)
      requires Valid() && now < TWO32
      modifies this
      ensures Valid() && initialized == old(initialized)
      ensures Value() == if initialized then Polled(old(Value()), now, period) else old(Value())
      ensures output == if initialized then ledOn else old(output)
    {
      if !initialized {
        return;
      }
      if Signed32(Wrap32(now - nextDeadlineTick)) < 0 {
        return;
      }
      ledOn := !ledOn;
      output := ledOn;
      nextDeadlineTick := Wrap32(nextDeadlineTick + period);
    }
  }

  // ----- one comparison -----

  /** The signed compare against an unbounded deadline that is not over 2^31 ticks ahead is right
      exactly when the lateness, cut to 32 bits, has its top bit clear. */
  lemma DueIsExactIff(t: nat, d: nat)
    requires d - t <= TWO31
    ensures Due(Wrap32(t), Wrap32(d)) == (t >= d) <==> t < d || (t - d) % TWO32 < TWO31
  {
    WrapSub(t, d);
  }

  /** So a poll sees the deadline exactly when it has passed and the lateness, cut to 32 bits, has its
      top bit clear. */
  predicate Seen(t: nat, d: nat) {
    t >= d && (t - d) % TWO32 < TWO31
  }

  lemma DueIsSeen(t: nat, d: nat)
    requires d <= t + TWO31
    ensures Due(Wrap32(t), Wrap32(d)) <==> Seen(t, d)
  {
    WrapSub(t, d);
  }

  // ----- runs of polls -----

  /** The state after polls at the given times, and how often the LED has toggled. */
  function Run(t0: nat, period: nat, times: seq<nat>): (r: (Context, nat))
    ensures r.0.deadline < TWO32
  {
    if times == [] then (Started(Wrap32(t0), period), 0)
    else
      var (ctx, toggles) := Run(t0, period, times[..|times| - 1]);
      var now := Wrap32(times[|times| - 1]);
      (Polled(ctx, now, period), toggles + if Due(now, ctx.deadline) then 1 else 0)
  }

  function Last(t0: nat, times: seq<nat>): nat {
    if times == [] then t0 else times[|times| - 1]
  }

  /** Poll times do not go back. */
  predicate Ordered(t0: nat, times: seq<nat>) {
    forall i :: 0 <= i < |times| ==> Last(t0, times[..i]) <= times[i]
  }

  function Gap(t0: nat, times: seq<nat>): int
    requires times != []
  {
    times[|times| - 1] - Last(t0, times[..|times| - 1])
  }

  /** The unbounded deadline after some toggles. */
  function DeadlineAfter(t0: nat, period: nat, toggles: nat): nat {
    t0 + (toggles + 1) * period
  }

  /** The time by which gaps exceed one period, added up. */
  function Excess(t0: nat, period: nat, times: seq<nat>): nat
    requires Ordered(t0, times)
  {
    if times == [] then 0
    else
      OrderedPrefix(t0, times);
      Excess(t0, period, times[..|times| - 1]) + Max0(Gap(t0, times) - period)
  }

  function Max0(x: int): nat {
    if x < 0 then 0 else x
  }

  /** Before every poll, the excess so far and the gap stay within 2^31: the caller's condition. */
  predicate WithinHalfRange(t0: nat, period: nat, times: seq<nat>)
    requires Ordered(t0, times)
  {
    times == [] ||
    (OrderedPrefix(t0, times);
     var before := times[..|times| - 1];
     && WithinHalfRange(t0, period, before)
     && Excess(t0, period, before) + Gap(t0, times) <= TWO31)
  }

  lemma OrderedPrefix(t0: nat, times: seq<nat>)
    requires Ordered(t0, times) && times != []
    ensures Ordered(t0, times[..|times| - 1]) && Gap(t0, times) >= 0
  {
  }

  lemma NextDeadline(t0: nat, period: nat, toggles: nat)
    ensures DeadlineAfter(t0, period, toggles + 1) == DeadlineAfter(t0, period, toggles) + period
  {
  }

  // ----- any gaps -----

  /** The stored context stands for unbounded deadline d after some toggles. */
  predicate StandsFor(ctx: Context, toggles: nat, d: nat) {
    ctx.deadline == Wrap32(d) && ctx.led == (toggles % 2 == 1)
  }

  lemma PollStandsFor(ctx: Context, toggles: nat, d: nat, period: nat, t: nat)
    requires StandsFor(ctx, toggles, d)
    ensures var due := Due(Wrap32(t), ctx.deadline);
      StandsFor(Polled(ctx, Wrap32(t), period), if due then toggles + 1 else toggles, if due then d + period else d)
  {
    WrapAdd(d, period);
  }

  /** Whatever the gaps, after k toggles the stored deadline is t0 + (k + 1) P modulo 2^32 and the LED
      is on exactly for odd k. */
  lemma {:induction false} DeadlineIsExact(t0: nat, period: nat, times: seq<nat>)
    ensures var (ctx, toggles) := Run(t0, period, times);
      StandsFor(ctx, toggles, DeadlineAfter(t0, period, toggles))
    decreases |times|
  {
    if times == [] {
      WrapAdd(t0, period);
      assert DeadlineAfter(t0, period, 0) == t0 + period;
    } else {
      var before := times[..|times| - 1];
      DeadlineIsExact(t0, period, before);
      var (ctx, toggles) := Run(t0, period, before);
      PollStandsFor(ctx, toggles, DeadlineAfter(t0, period, toggles), period, times[|times| - 1]);
      NextDeadline(t0, period, toggles);
    }
  }

  /** Whatever the gaps, the deadline is never more than one period ahead. */
  lemma {:induction false} DeadlineIsNear(t0: nat, period: nat, times: seq<nat>)
    requires 1 <= period <= TWO31 && Ordered(t0, times)
    ensures DeadlineAfter(t0, period, Run(t0, period, times).1) <= Last(t0, times) + period
    decreases |times|
  {
    if times == [] {
      assert DeadlineAfter(t0, period, 0) == t0 + period;
    } else {
      var before := times[..|times| - 1];
      OrderedPrefix(t0, times);
      DeadlineIsNear(t0, period, before);
      DeadlineIsExact(t0, period, before);
      var toggles := Run(t0, period, before).1;
      DueIsSeen(times[|times| - 1], DeadlineAfter(t0, period, toggles));
      NextDeadline(t0, period, toggles);
    }
  }

  /** Whatever the gaps, a poll toggles exactly when it sees the deadline: never early, and a poll that
      is due is missed if and only if its lateness modulo 2^32 is at least 2^31. */
  lemma TogglesIffSeen(t0: nat, period: nat, times: seq<nat>)
    requires 1 <= period <= TWO31 && Ordered(t0, times) && times != []
    ensures var before := Run(t0, period, times[..|times| - 1]);
      Run(t0, period, times).1 ==
        before.1 + if Seen(times[|times| - 1], DeadlineAfter(t0, period, before.1)) then 1 else 0
  {
    var before := times[..|times| - 1];
    OrderedPrefix(t0, times);
    DeadlineIsNear(t0, period, before);
    DeadlineIsExact(t0, period, before);
    DueIsSeen(times[|times| - 1], DeadlineAfter(t0, period, Run(t0, period, before).1));
  }

  lemma DeadlineParts(t0: nat, period: nat, toggles: nat)
    ensures DeadlineAfter(t0, period, toggles) == t0 + toggles * period + period
  {
  }

  /** Whatever the gaps, the LED has never toggled more often than periods have passed. */
  lemma NeverAhead(t0: nat, period: nat, times: seq<nat>)
    requires 1 <= period <= TWO31 && Ordered(t0, times)
    ensures Run(t0, period, times).1 * period <= Last(t0, times) - t0
  {
    DeadlineIsNear(t0, period, times);
    DeadlineParts(t0, period, Run(t0, period, times).1);
  }

  /** The last poll has toggled before the deadline had come. */
  predicate TogglesEarly(t0: nat, period: nat, times: seq<nat>) {
    times != [] &&
    var before := Run(t0, period, times[..|times| - 1]);
    Run(t0, period, times).1 > before.1 && times[|times| - 1] < DeadlineAfter(t0, period, before.1)
  }

  lemma LongPeriodTogglesEarly(t0: nat, period: nat)
    requires TWO31 < period < TWO32
    ensures Ordered(t0, [t0]) && TogglesEarly(t0, period, [t0])
  {
    assert [t0][..0] == [];
    assert Run(t0, period, []) == (Started(Wrap32(t0), period), 0);
    WrapAdd(t0, period);
    WrapSub(t0, t0 + period);
  }

  /** No toggle is early in any run if and only if the period is at most 2^31 ticks; with a longer one,
      a poll at the start already toggles. */
  lemma NeverEarlyIff(period: nat)
    requires 1 <= period < TWO32
    ensures (forall t0: nat, times: seq<nat> :: Ordered(t0, times) ==> !TogglesEarly(t0, period, times))
       <==> period <= TWO31
  {
    if period <= TWO31 {
      forall t0: nat, times: seq<nat> | Ordered(t0, times) ensures !TogglesEarly(t0, period, times) {
        if times != [] {
          TogglesIffSeen(t0, period, times);
        }
      }
    } else {
      LongPeriodTogglesEarly(0, period);
    }
  }

  // ----- gaps within half the range -----

  /** One poll: with the previous poll at most excess - 1 ticks late, the deadline is seen whenever it
      has passed, and the new lateness is bounded. */
  lemma PollStep(d: nat, period: nat, last: nat, t: nat, excess: nat)
    requires 1 <= period <= TWO31 && last <= t && last < d + excess
    requires excess + (t - last) <= TWO31
    ensures Seen(t, d) == (t >= d)
    ensures t < (if t >= d then d + period else d) + excess + Max0(t - last - period)
  {
  }

  /** The stored context stands for unbounded deadline d after some toggles, at time t. */
  predicate Tracks(ctx: Context, toggles: nat, d: nat, period: nat, t: nat, excess: nat) {
    && StandsFor(ctx, toggles, d)
    && d <= t + period
    && t < d + excess
  }

  /** The deadline is behind by less than the accumulated excess, as long as that and the next gap
      stay within 2^31. */
  lemma {:induction false} LagIsBounded(t0: nat, period: nat, times: seq<nat>)
    requires 1 <= period <= TWO31 && Ordered(t0, times) && WithinHalfRange(t0, period, times)
    ensures Last(t0, times) < DeadlineAfter(t0, period, Run(t0, period, times).1) + Excess(t0, period, times)
    decreases |times|
  {
    if times == [] {
      assert DeadlineAfter(t0, period, 0) == t0 + period;
    } else {
      var before := times[..|times| - 1];
      OrderedPrefix(t0, times);
      LagIsBounded(t0, period, before);
      TogglesIffSeen(t0, period, times);
      var toggles := Run(t0, period, before).1;
      PollStep(DeadlineAfter(t0, period, toggles), period, Last(t0, before), times[|times| - 1],
               Excess(t0, period, before));
      NextDeadline(t0, period, toggles);
    }
  }

  /** Lag bound: the stored deadline is the one after the toggles made, at most one period ahead, and
      behind by less than the accumulated excess. */
  lemma LagBound(t0: nat, period: nat, times: seq<nat>)
    requires 1 <= period <= TWO31 && Ordered(t0, times) && WithinHalfRange(t0, period, times)
    ensures var (ctx, toggles) := Run(t0, period, times);
      Tracks(ctx, toggles, DeadlineAfter(t0, period, toggles), period, Last(t0, times), Excess(t0, period, times))
  {
    DeadlineIsExact(t0, period, times);
    DeadlineIsNear(t0, period, times);
    LagIsBounded(t0, period, times);
  }

  /** Under that bound no due poll is missed: a poll toggles exactly when the unbounded deadline has
      passed. */
  lemma TogglesWhenDue(t0: nat, period: nat, times: seq<nat>)
    requires 1 <= period <= TWO31 && times != []
    requires Ordered(t0, times) && WithinHalfRange(t0, period, times)
    ensures var before := Run(t0, period, times[..|times| - 1]);
      Run(t0, period, times).1 ==
        before.1 + if times[|times| - 1] >= DeadlineAfter(t0, period, before.1) then 1 else 0
  {
    var before := times[..|times| - 1];
    OrderedPrefix(t0, times);
    LagIsBounded(t0, period, before);
    TogglesIffSeen(t0, period, times);
    PollStep(DeadlineAfter(t0, period, Run(t0, period, before).1), period, Last(t0, before), times[|times| - 1],
             Excess(t0, period, before));
  }

  /** Consecutive polls are at most one period apart. */
  predicate Frequent(t0: nat, period: nat, times: seq<nat>) {
    forall i :: 0 <= i < |times| ==> times[i] - Last(t0, times[..i]) <= period
  }

  lemma {:induction false} FrequentHasNoExcess(t0: nat, period: nat, times: seq<nat>)
    requires 1 <= period <= TWO31 && Ordered(t0, times) && Frequent(t0, period, times)
    ensures Excess(t0, period, times) == 0 && WithinHalfRange(t0, period, times)
    decreases |times|
  {
    if times != [] {
      var before := times[..|times| - 1];
      OrderedPrefix(t0, times);
      forall i | 0 <= i < |before| ensures before[i] - Last(t0, before[..i]) <= period {
        assert before[..i] == times[..i];
      }
      FrequentHasNoExcess(t0, period, before);
    }
  }

  /** Wrap-exact heartbeat: polled at least once per period, the LED has toggled floor((t - t0) / P)
      times by the latest poll, across any number of counter wraps, is on exactly when that is
      odd, and the next deadline lies in (t, t + P]. */
  lemma WrapExact(t0: nat, period: nat, times: seq<nat>)
    requires 1 <= period <= TWO31 && Ordered(t0, times) && Frequent(t0, period, times)
    ensures var (ctx, toggles) := Run(t0, period, times);
      var t := Last(t0, times);
      && t >= t0
      && toggles == (t - t0) / period
      && ctx.led == (toggles % 2 == 1)
      && ctx.deadline == Wrap32(DeadlineAfter(t0, period, toggles))
      && t < DeadlineAfter(t0, period, toggles) <= t + period
  {
    FrequentHasNoExcess(t0, period, times);
    LagBound(t0, period, times);
    var (ctx, toggles) := Run(t0, period, times);
    var t := Last(t0, times);
    DeadlineParts(t0, period, toggles);
    assert t >= t0 + toggles * period;
    QuotientIs(t - t0, period, toggles);
  }

  /** Past that condition the compare fails: a poll 2^31 ticks after the deadline looks early and
      does not toggle. */
  lemma LatePollIsMissed()
    ensures var period := 8000;
      var times := [period + TWO31];
      && Ordered(0, times) && times[0] >= DeadlineAfter(0, period, 0)
      && Run(0, period, times).1 == 0
      && !WithinHalfRange(0, period, times)
  {
  }

  /** At 500 ms and a 32 kHz oscillator the period is 8000 ticks; the conversion is exact if and only if
      the tick count fits 32 bits and is not zero. */
  lemma PeriodIsExact(periodMs: nat, lsi: nat)
    requires periodMs < TWO32 && lsi < TWO32
    ensures PeriodTick(periodMs, lsi) == periodMs * (lsi / 2) / 1000
       <==> 1000 <= periodMs * (lsi / 2) < 1000 * TWO32
    ensures periodMs * (lsi / 2) < 1000 ==> PeriodTick(periodMs, lsi) == 1
    ensures PeriodTick(500, 32000) == 8000
  {
  }
}
