/** The clock set-up of system_ch32v20x.c and the code that reads the set-up back. One parameter
    stands for the compile-time choice of the target; the start-up times of the oscillators are
    parameters of the run. */
module ClockTree {
  import opened Machine

  /** The chip families the file distinguishes; the crystal of a D6 part is 8 or 12 MHz. */
  datatype Chip = D6(crystal12: bool) | D8(usb5: bool) | D8W

  datatype Speed = S48 | S56 | S72 | S96 | S120 | S144

  /** SYSCLK_FREQ_HSE, SYSCLK_FREQ_xxMHz_HSE, SYSCLK_FREQ_xxMHz_HSI, or none of them. */
  datatype Target = Hse | HsePll(speed: Speed) | HsiPll(speed: Speed) | Hsi

  const HSI_VALUE: nat := 8_000_000

  function HseValue(chip: Chip): nat {
    match chip
    case D6(crystal12) => if crystal12 then 12_000_000 else 8_000_000
    case _ => 32_000_000
  }

  function Hertz(speed: Speed): nat {
    match speed
    case S48 => 48_000_000
    case S56 => 56_000_000
    case S72 => 72_000_000
    case S96 => 96_000_000
    case S120 => 120_000_000
    case S144 => 144_000_000
  }

  /** The frequency that the target's name promises. */
  function Promised(chip: Chip, target: Target): nat {
    match target
    case Hse => HseValue(chip)
    case HsePll(speed) => Hertz(speed)
    case HsiPll(speed) => Hertz(speed)
    case Hsi => HSI_VALUE
  }

  // ----- register bits -----

  const HSEON: bv32 := 0x0001_0000
  const PLLON: bv32 := 0x0100_0000
  const SW: bv32 := 0x3
  const SW_HSE: bv32 := 0x1
  const SW_PLL: bv32 := 0x2
  const SWS: bv32 := 0xC
  const HPRE: bv32 := 0xF0
  const HPRE_DIV2: bv32 := 0x80
  const PPRE1_DIV2: bv32 := 0x400
  const PLLSRC: bv32 := 0x1_0000
  const PLLXTPRE: bv32 := 0x2_0000
  const PLLMULL: bv32 := 0x3C_0000
  const USBPRE: bv32 := 0xC0_0000
  const PLL_HSI_PRE: bv32 := 0x10

  /** RCC_PLLMULL6 to RCC_PLLMULL18 */
  function MullBits(speed: Speed): bv32 {
    match speed
    case S48 => 0x10_0000
    case S56 => 0x14_0000
    case S72 => 0x1C_0000
    case S96 => 0x28_0000
    case S120 => 0x34_0000
    case S144 => 0x3C_0000
  }

  // ----- reading the registers back -----

  const AHB_PRESC_TABLE: seq<nat> := [0, 0, 0, 0, 0, 0, 0, 0, 1, 2, 3, 4, 6, 7, 8, 9]

  function Pow2(n: nat): (p: nat)
    ensures p >= 1
  {
    if n == 0 then 1 else 2 * Pow2(n - 1)
  }

  function PllMultiplier(cfgr0: bv32): nat {
    var m := ((cfgr0 & PLLMULL) >> 18) as nat + 2;
    if m == 17 then 18 else m
  }

  /** RCC_USB5PRE_JUDGE; on a D8 part it depends on the silicon. */
  predicate Usb5PreJudge(chip: Chip) {
    match chip
    case D6(_) => false
    case D8(usb5) => usb5
    case D8W => true
  }

  function PllClock(chip: Chip, cfgr0: bv32, exten: bv32): nat {
    var m := PllMultiplier(cfgr0);
    if cfgr0 & PLLSRC == 0 then
      if exten & PLL_HSI_PRE != 0 then HSI_VALUE * m else HSI_VALUE / 2 * m
    else
      match chip
      case D6(_) => if cfgr0 & PLLXTPRE != 0 then HseValue(chip) / 2 * m else HseValue(chip) * m
      case _ =>
        if cfgr0 & USBPRE == USBPRE && Usb5PreJudge(chip) then HseValue(chip) / 2 * m
        else if cfgr0 & PLLXTPRE != 0 then HseValue(chip) / 4 / 2 * m
        else HseValue(chip) / 4 * m
  }

  function Prescaler(cfgr0: bv32): nat {
    AHB_PRESC_TABLE[((cfgr0 & HPRE) >> 4) as nat]
  }

  /** SystemCoreClockUpdate */
  function CoreClock(chip: Chip, cfgr0: bv32, exten: bv32): nat {
    var sws := cfgr0 & SWS;
    var sys := if sws == 0x4 then HseValue(chip) else if sws == 0x8 then PllClock(chip, cfgr0, exten) else HSI_VALUE;
    var divisor := Pow2(Prescaler(cfgr0));
    sys / divisor
  }

  /** The same in numbers, for any register content: the clock that the PLL multiplies. */
  lemma PllInputInNumbers(chip: Chip, cfgr0: bv32, exten: bv32)
    ensures PllClock(chip, cfgr0, exten) == PllMultiplier(cfgr0) *
      if cfgr0 & 0x1_0000 == 0 then (if exten & 0x10 != 0 then 8_000_000 else 4_000_000)
      else match chip
        case D6(false) => if cfgr0 & 0x2_0000 != 0 then 4_000_000 else 8_000_000
        case D6(true) => if cfgr0 & 0x2_0000 != 0 then 6_000_000 else 12_000_000
        case _ =>
          if cfgr0 & 0xC0_0000 == 0xC0_0000 && chip != D8(false) then 16_000_000
          else if cfgr0 & 0x2_0000 != 0 then 4_000_000
          else 8_000_000
  {
  }

  lemma AhbDivisorInNumbers(cfgr0: bv32)
    ensures Pow2(Prescaler(cfgr0)) ==
      match cfgr0 & 0xF0
      case 0x80 => 2
      case 0x90 => 4
      case 0xA0 => 8
      case 0xB0 => 16
      case 0xC0 => 64
      case 0xD0 => 128
      case 0xE0 => 256
      case 0xF0 => 512
      case _ => 1
  {
    assert Pow2(4) == 16 && Pow2(6) == 64 && Pow2(7) == 128 && Pow2(8) == 256 && Pow2(9) == 512;
  }

  /** PPRE1 and PPRE2: what divides HCLK for the two peripheral buses. */
  function Apb1Divisor(cfgr0: bv32): nat {
    match cfgr0 & 0x700
    case 0x400 => 2
    case 0x500 => 4
    case 0x600 => 8
    case 0x700 => 16
    case _ => 1
  }

  function Apb2Divisor(cfgr0: bv32): nat {
    match cfgr0 & 0x3800
    case 0x2000 => 2
    case 0x2800 => 4
    case 0x3000 => 8
    case 0x3800 => 16
    case _ => 1
  }

  // ----- what SystemInit leaves behind -----

  /** The low 28 bits of CFGR0 after a set-up that went through. */
  function SetUpBits(chip: Chip, target: Target): bv32 {
    match target
    case Hsi => 0
    case Hse => SW_HSE | 0x4
    case HsiPll(speed) => PPRE1_DIV2 | MullBits(speed) | SW_PLL | 0x8
    case HsePll(speed) =>
      (if speed == S120 && chip.D8W? then USBPRE | HPRE_DIV2 else 0)
      | PPRE1_DIV2 | PLLSRC | MullBits(speed) | SW_PLL | 0x8
  }

  /** The external oscillator counts as started if it is ready at one of the 0x1000 reads of the
      loop or at the one after it. */
  predicate HseStarts(readyAt: nat) {
    readyAt <= 0x1000
  }

  predicate UsesHse(target: Target) {
    target.Hse? || target.HsePll?
  }

  /** The set-up goes through: it needs no external oscillator, or that one starts. */
  predicate Goes(target: Target, readyAt: nat) {
    !UsesHse(target) || HseStarts(readyAt)
  }

  /** The register words in numbers. */
  lemma SetUpBitsInNumbers(chip: Chip, target: Target)
    ensures SetUpBits(chip, target) ==
      match target
      case Hsi => 0
      case Hse => 0x5
      case HsiPll(S48) => 0x10_040A
      case HsiPll(S56) => 0x14_040A
      case HsiPll(S72) => 0x1C_040A
      case HsiPll(S96) => 0x28_040A
      case HsiPll(S120) => 0x34_040A
      case HsiPll(S144) => 0x3C_040A
      case HsePll(S48) => 0x11_040A
      case HsePll(S56) => 0x15_040A
      case HsePll(S72) => 0x1D_040A
      case HsePll(S96) => 0x29_040A
      case HsePll(S120) => if chip.D8W? then 0xF5_048A else 0x35_040A
      case HsePll(S144) => 0x3D_040A
  {
  }

  lemma StartBitsInNumbers(target: Target, readyAt: nat)
    ensures StartBits(target, readyAt) ==
      match target
      case Hsi => 0
      case HsiPll(_) => 0x0100_0000
      case Hse => 0x0001_0000
      case HsePll(_) => if readyAt <= 0x1000 then 0x0101_0000 else 0x0001_0000
  {
  }

  lemma ClearedBelow(cfgr0: bv32)
    ensures (cfgr0 & 0xF000_0000) & 0x0FFF_FFFF == 0
  {
  }

  /** The low 28 bits of CFGR0 after SetSysClock. */
  function ClockBits(chip: Chip, target: Target, readyAt: nat): bv32 {
    if Goes(target, readyAt) then SetUpBits(chip, target) else 0
  }

  /** The bits of CTLR that SetSysClock switches on. */
  function StartBits(target: Target, readyAt: nat): bv32 {
    match target
    case Hsi => 0
    case HsiPll(_) => PLLON
    case Hse => HSEON
    case HsePll(_) => if HseStarts(readyAt) then HSEON | PLLON else HSEON
  }

  /** The RCC and EXTEN registers. Reads of the ready flags are numbered; a flag reads as set from
      a given read on. The hardware copies SW to SWS some reads after SW was written. */
  class Registers {
    var ctlr: bv32
    var cfgr0: bv32
    var intr: bv32
    var exten: bv32

    constructor (ctlr: bv32, cfgr0: bv32, intr: bv32, exten: bv32)
      ensures this.ctlr == ctlr && this.cfgr0 == cfgr0 && this.intr == intr && this.exten == exten
    {
      this.ctlr, this.cfgr0, this.intr, this.exten := ctlr, cfgr0, intr, exten;
    }

    /** The bounded wait for HSERDY, with the final read after it. */
    method StartHse(readyAt: nat) returns (ready: bool)
      modifies this`ctlr
      ensures ready == (readyAt <= 0x1000)
      ensures ctlr == old(ctlr) | HSEON
    {
      ctlr := ctlr | HSEON;
      var startUpCounter, status := 0, false;
      while startUpCounter == 0 || (!status && startUpCounter != 0x1000)
        invariant 0 <= startUpCounter <= 0x1000
        invariant status <==> startUpCounter > 0 && readyAt <= startUpCounter - 1
        decreases 0x1000 - startUpCounter
      {
        status := readyAt <= startUpCounter;
        startUpCounter := startUpCounter + 1;
      }
      ready := readyAt <= startUpCounter;
    }

    /** PLLON and the wait for PLLRDY, which ends when the PLL locks. */
    method StartPll(lockedAt: nat)
      modifies this`ctlr
      ensures ctlr == old(ctlr) | PLLON
    {
      ctlr := ctlr | PLLON;
      var polls := 0;
      while polls < lockedAt
      {
        polls := polls + 1;
      }
    }

    /** Selects the system clock and waits until SWS shows it. */
    method Switch(source: bv32, switchedAt: nat)
      requires source & 0x3 == source
      modifies this`cfgr0
      ensures cfgr0 == (old(cfgr0) & 0xFFFF_FFF0) | source | (source << 2)
    {
      cfgr0 := cfgr0 & !SW;
      cfgr0 := cfgr0 | source;
      var polls := 0;
      while polls < switchedAt
      {
        polls := polls + 1;
      }
      cfgr0 := (cfgr0 & !SWS) | ((cfgr0 & SW) << 2);
    }

    /** The SetSysClockTo functions for a PLL clock, once their oscillator runs. */
    method SelectPll(chip: Chip, target: Target, lockedAt: nat, switchedAt: nat)
      requires target.HsePll? || target.HsiPll?
      requires cfgr0 & 0x0FFF_FFFF == 0
      modifies this`ctlr, this`cfgr0
      ensures ctlr == old(ctlr) | PLLON
      ensures cfgr0 == old(cfgr0) | SetUpBits(chip, target)
    {
      ghost var start := cfgr0;
      if target.HsePll? && target.speed == S120 && chip.D8W? {
        cfgr0 := cfgr0 | USBPRE;
        cfgr0 := cfgr0 | HPRE_DIV2;
      }
      cfgr0 := cfgr0 | PPRE1_DIV2;
      cfgr0 := cfgr0 & !(PLLSRC | PLLXTPRE | PLLMULL);
      cfgr0 := cfgr0 | ((if target.HsePll? then PLLSRC else 0) | MullBits(target.speed));
      StartPll(lockedAt);
      Switch(SW_PLL, switchedAt);
    }

    /** The first part of SystemInit: internal oscillator, no PLL, no prescalers. */
    method Reset()
      modifies this`ctlr, this`cfgr0, this`intr
      ensures ctlr == (old(ctlr) | 0x1) & 0xFEF2_FFFF
      ensures cfgr0 == old(cfgr0) & 0xF000_0000
      ensures intr == 0x009F_0000
    {
      ctlr := ctlr | 0x0000_0001;
      cfgr0 := cfgr0 & 0xF0FF_0000;
      ctlr := ctlr & 0xFEF6_FFFF;
      ctlr := ctlr & 0xFFFB_FFFF;
      cfgr0 := cfgr0 & 0xFF00_FFFF;
      intr := 0x009F_0000;
    }

    /** SetSysClock: the SetSysClockTo function of the target. */
    method SetSysClock(chip: Chip, target: Target, readyAt: nat, lockedAt: nat, switchedAt: nat)
      requires cfgr0 & 0x0FFF_FFFF == 0
      modifies this`ctlr, this`cfgr0, this`exten
      ensures cfgr0 == old(cfgr0) | ClockBits(chip, target, readyAt)
      ensures ctlr == old(ctlr) | StartBits(target, readyAt)
      ensures exten == if target.HsiPll? then old(exten) | PLL_HSI_PRE else old(exten)
    {
      match target
      case Hsi =>
      case HsiPll(_) =>
        exten := exten | PLL_HSI_PRE;
        SelectPll(chip, target, lockedAt, switchedAt);
      case Hse =>
        var ready := StartHse(readyAt);
        if ready {
          Switch(SW_HSE, switchedAt);
        }
      case HsePll(_) =>
        var ready := StartHse(readyAt);
        if ready {
          SelectPll(chip, target, lockedAt, switchedAt);
        }
    }

    /** SystemInit */
    method SystemInit(chip: Chip, target: Target, readyAt: nat, lockedAt: nat, switchedAt: nat)
      modifies this
      ensures cfgr0 == (old(cfgr0) & 0xF000_0000) | ClockBits(chip, target, readyAt)
      ensures ctlr == ((old(ctlr) | 0x1) & 0xFEF2_FFFF) | StartBits(target, readyAt)
      ensures intr == 0x009F_0000
      ensures exten == if target.HsiPll? then old(exten) | 0x10 else old(exten)
    {
      Reset();
      ClearedBelow(old(cfgr0));
      SetSysClock(chip, target, readyAt, lockedAt, switchedAt);
    }
  }

  // ----- set-up and read-back agree -----

  lemma CoreClockIgnoresKept(chip: Chip, keep: bv32, bits: bv32, exten: bv32)
    requires keep & 0x0FFF_FFFF == 0
    ensures CoreClock(chip, keep | bits, exten) == CoreClock(chip, bits, exten)
  {
  }

  /** The fields of the set-up bits for a PLL target. */
  lemma PllFields(chip: Chip, target: Target)
    requires target.HsePll? || target.HsiPll?
    ensures var bits, doubled := SetUpBits(chip, target), target.HsePll? && target.speed == S120 && chip.D8W?;
      && bits & SWS == 0x8
      && bits & HPRE == (if doubled then HPRE_DIV2 else 0)
      && bits & PLLSRC == (if target.HsePll? then PLLSRC else 0)
      && bits & PLLXTPRE == 0
      && bits & PLLMULL == MullBits(target.speed) & PLLMULL
      && bits & USBPRE == (if doubled then USBPRE else 0)
  {
  }

  lemma PrescalerReadsBack(cfgr0: bv32)
    requires cfgr0 & HPRE == 0 || cfgr0 & HPRE == HPRE_DIV2
    ensures Prescaler(cfgr0) == if cfgr0 & HPRE == 0 then 0 else 1
  {
  }

  /** The PLL clock of a register content with these fields. */
  lemma PllClockReadsBack(chip: Chip, target: Target, bits: bv32, exten: bv32, doubled: bool)
    requires target.HsePll? || (target.HsiPll? && exten & PLL_HSI_PRE != 0)
    requires doubled ==> target.HsePll? && chip.D8W?
    requires bits & PLLSRC == (if target.HsePll? then PLLSRC else 0)
    requires bits & PLLXTPRE == 0
    requires bits & PLLMULL == MullBits(target.speed) & PLLMULL
    requires bits & USBPRE == (if doubled then USBPRE else 0)
    ensures var pll := PllClock(chip, bits, exten);
      if doubled then pll == 2 * Hertz(target.speed)
      else if chip == D6(true) && target.HsePll? then 2 * pll == 3 * Hertz(target.speed)
      else pll == Hertz(target.speed)
  {
  }

  lemma PllReadBack(chip: Chip, target: Target, exten: bv32)
    requires target.HsePll? || (target.HsiPll? && exten & PLL_HSI_PRE != 0)
    ensures var clock := CoreClock(chip, SetUpBits(chip, target), exten);
      if chip == D6(true) && target.HsePll? then 2 * clock == 3 * Promised(chip, target)
      else clock == Promised(chip, target)
  {
    var bits, doubled := SetUpBits(chip, target), target.HsePll? && target.speed == S120 && chip.D8W?;
    PllFields(chip, target);
    PllClockReadsBack(chip, target, bits, exten, doubled);
    PrescalerReadsBack(bits);
    assert Pow2(0) == 1 && Pow2(1) == 2;
  }

  /** Clock encode and decode: the frequency read back is the one the target promises, for every
      chip and target except a PLL fed by a 12 MHz crystal, which runs at 3/2 of it. */
  lemma ReadBack(chip: Chip, target: Target, keep: bv32, exten: bv32)
    requires keep & 0x0FFF_FFFF == 0
    requires target.HsiPll? ==> exten & PLL_HSI_PRE != 0
    ensures var clock := CoreClock(chip, keep | SetUpBits(chip, target), exten);
      if chip == D6(true) && target.HsePll? then 2 * clock == 3 * Promised(chip, target)
      else clock == Promised(chip, target)
  {
    var bits := SetUpBits(chip, target);
    CoreClockIgnoresKept(chip, keep, bits, exten);
    if target.HsePll? || target.HsiPll? {
      PllReadBack(chip, target, exten);
    } else {
      assert bits & SWS == (if target == Hse then 0x4 else 0) && bits & HPRE == 0;
      PrescalerReadsBack(bits);
      assert Pow2(0) == 1;
    }
  }

  lemma TimeoutReadsHsi(chip: Chip, keep: bv32, exten: bv32)
    requires keep & 0x0FFF_FFFF == 0
    ensures CoreClock(chip, keep, exten) == HSI_VALUE
  {
  }

  /** The clock that a start-up should end with: 8 MHz if it waits for an external oscillator that is not
      ready by the 0x1001st read of its flag, and else the promised one, or 3/2 of it for a PLL on a
      12 MHz crystal. */
  predicate RightClock(chip: Chip, target: Target, readyAt: nat, clock: nat) {
    if (target.Hse? || target.HsePll?) && readyAt >= 0x1001 then clock == 8_000_000
    else if chip == D6(true) && target.HsePll? then 2 * clock == 3 * Promised(chip, target)
    else clock == Promised(chip, target)
  }

  /** The bus clocks that belong to it: APB1 at half of HCLK under a PLL, and HCLK otherwise. */
  predicate RightBusClocks(target: Target, readyAt: nat, cfgr0: bv32) {
    && Apb2Divisor(cfgr0) == 1
    && Apb1Divisor(cfgr0) == if target.HsiPll? || (target.HsePll? && readyAt <= 0x1000) then 2 else 1
  }

  lemma KeptAndSetBits(keep: bv32, bits: bv32)
    requires keep & 0x0FFF_FFFF == 0
    ensures (keep | bits) & 0x700 == bits & 0x700 && (keep | bits) & 0x3800 == bits & 0x3800
  {
  }

  lemma BootSetsBusClocks(chip: Chip, target: Target, readyAt: nat, keep: bv32)
    requires keep & 0x0FFF_FFFF == 0
    ensures RightBusClocks(target, readyAt, keep | ClockBits(chip, target, readyAt))
  {
    KeptAndSetBits(keep, ClockBits(chip, target, readyAt));
    SetUpBitsInNumbers(chip, target);
  }

  lemma BootReadsBack(chip: Chip, target: Target, readyAt: nat, keep: bv32, exten: bv32)
    requires keep & 0x0FFF_FFFF == 0
    requires target.HsiPll? ==> exten & PLL_HSI_PRE != 0
    ensures RightClock(chip, target, readyAt, CoreClock(chip, keep | ClockBits(chip, target, readyAt), exten))
  {
    if Goes(target, readyAt) {
      ReadBack(chip, target, keep, exten);
    } else {
      TimeoutReadsHsi(chip, keep, exten);
      assert keep | 0 == keep;
    }
  }

  lemma PreSet(exten: bv32)
    ensures (exten | PLL_HSI_PRE) & PLL_HSI_PRE != 0
  {
  }

  /** Start-up from any register content: SystemInit, then SystemCoreClockUpdate. */
  method Boot(chip: Chip, target: Target, r: Registers, readyAt: nat, lockedAt: nat, switchedAt: nat)
    returns (clock: nat)
    modifies r
    ensures RightClock(chip, target, readyAt, clock) && RightBusClocks(target, readyAt, r.cfgr0)
  {
    ghost var keep := r.cfgr0 & 0xF000_0000;
    ClearedBelow(r.cfgr0);
    PreSet(r.exten);
    r.SystemInit(chip, target, readyAt, lockedAt, switchedAt);
    BootReadsBack(chip, target, readyAt, keep, r.exten);
    BootSetsBusClocks(chip, target, readyAt, keep);
    clock := CoreClock(chip, r.cfgr0, r.exten);
  }

  // ----- the delay counters -----

  /** p_us and p_ms of debug.c. */
  class Delay {
    var pUs: nat
    var pMs: nat

    constructor ()
      ensures pUs == 0 && pMs == 0
    {
      pUs, pMs := 0, 0;
    }

    /** Delay_Init: SysTick counts HCLK / 8, so exact delays need clock == 8 MHz * p_us. That holds
        exactly for whole multiples of 8 MHz below 2048 MHz; then p_ms is exact as well as
        long as it fits 16 bits. */
    method Init(systemCoreClock: nat)
      modifies this
      ensures pUs * 8_000_000 == systemCoreClock
        <==> systemCoreClock % 8_000_000 == 0 && systemCoreClock < 256 * 8_000_000
      ensures systemCoreClock < 256 * 8_000_000 ==> 0 <= systemCoreClock - pUs * 8_000_000 < 8_000_000
      ensures pMs == Wrap16(1000 * pUs) && (pUs <= 65 ==> pMs == 1000 * pUs)
    {
      pUs := systemCoreClock / 8_000_000 % 0x100;
      pMs := Wrap16(pUs * 1000);
    }
  }

  /** A 12 MHz crystal under a target that leaves the core clock between two multiples of 8 MHz:
      12, 84, 108 or 180 MHz. */
  predicate OffGrid(chip: Chip, target: Target) {
    chip == D6(true) && target in {Hse, HsePll(S56), HsePll(S72), HsePll(S120)}
  }

  /** Exactly which start-ups leave a clock that Delay_Init can count. */
  lemma BootedSuitsDelay(chip: Chip, target: Target, readyAt: nat, clock: nat)
    requires RightClock(chip, target, readyAt, clock)
    ensures clock % 8_000_000 == 0 <==> !(OffGrid(chip, target) && readyAt <= 0x1000)
    ensures clock < 66 * 8_000_000
  {
  }

  /** From reset to the first lines of main: set-up, read-back and delay counters. The delays are
      exact unless the clock is off the grid; then p_us is rounded down. */
  method StartUp(chip: Chip, target: Target, r: Registers, d: Delay, readyAt: nat, lockedAt: nat, switchedAt: nat)
    returns (clock: nat)
    modifies r, d
    ensures RightClock(chip, target, readyAt, clock) && RightBusClocks(target, readyAt, r.cfgr0)
    ensures d.pUs * 8_000_000 == clock <==> !(OffGrid(chip, target) && readyAt <= 0x1000)
    ensures d.pUs * 8_000_000 <= clock < (d.pUs + 1) * 8_000_000
    ensures d.pMs == 1000 * d.pUs
  {
    clock := Boot(chip, target, r, readyAt, lockedAt, switchedAt);
    d.Init(clock);
    BootedSuitsDelay(chip, target, readyAt, clock);
  }
}
