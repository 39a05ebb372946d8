/**
 * The per-core scheduler timer (src/timer.rs). The timer counts at
 * `frequency` ticks per second and raises an interrupt once its count passes
 * the target. The counter, the target register and the interrupt enable live
 * in the CLINT and are reached through assembly routines that are not part of
 * this model; TimerHardware stands for them, recording every access in order.
 */
module Timer {
  import opened Machine

  const MILLION: nat := 1000000

  /** An access the timer code makes to the CLINT, in the order it makes them. */
  datatype TimerEvent =
    | ReadNow(clintBase: Word)
    | SetTarget(target: nat, clintBase: Word)
    | IrqEnable

  /**
   * The CLINT as the timer code sees it: the counter of each CLINT (as read
   * during one call), the target last written to each, whether the timer
   * interrupt is enabled, and the log of accesses.
   */
  class TimerHardware {
    const counter: Word -> nat
    var targets: map<Word, nat>
    var irqEnabled: bool
    var log: seq<TimerEvent>

    constructor (counter: Word -> nat)
      ensures this.counter == counter && targets == map[] && !irqEnabled && log == []
    {
      this.counter := counter;
      targets := map[];
      irqEnabled := false;
      log := [];
    }

    /** `platform_timer_now`: read the counter of the CLINT at `clintBase`. */
    method Now(clintBase: Word) returns (t: nat)
      modifies this
      ensures t == counter(clintBase)
      ensures log == old(log) + [ReadNow(clintBase)]
      ensures targets == old(targets) && irqEnabled == old(irqEnabled)
    {
      t := counter(clintBase);
      log := log + [ReadNow(clintBase)];
    }

    /** `platform_timer_target`: write the target of the CLINT at `clintBase`. */
    method Target(target: nat, clintBase: Word)
      modifies this
      ensures targets == old(targets)[clintBase := target]
      ensures log == old(log) + [SetTarget(target, clintBase)]
      ensures irqEnabled == old(irqEnabled)
    {
      targets := targets[clintBase := target];
      log := log + [SetTarget(target, clintBase)];
    }

    /** `platform_timer_irq_enable`: enable this core's timer interrupt. */
    method EnableIrq()
      modifies this
      ensures irqEnabled
      ensures log == old(log) + [IrqEnable]
      ensures targets == old(targets)
    {
      irqEnabled := true;
      log := log + [IrqEnable];
    }
  }

  /**
   * The target `next` arms: the ticks per microsecond (frequency divided by a
   * million, truncated) times `usecs`, after the current count.
   */
  function TargetFor(frequency: nat, usecs: nat, now: nat): (t: nat)
    ensures now <= t
  {
    (frequency / MILLION) * usecs + now
  }

  /** The target never lies before the current count, and grows with the requested delay. */
  lemma TargetMonotone(frequency: nat, usecs: nat, later: nat, now: nat)
    requires usecs <= later
    ensures now <= TargetFor(frequency, usecs, now) <= TargetFor(frequency, later, now)
  {
    assert (frequency / MILLION) * usecs <= (frequency / MILLION) * later by {
      MulMonotone(frequency / MILLION, usecs, later);
    }
  }

  lemma MulMonotone(k: nat, a: nat, b: nat)
    requires a <= b
    ensures k * a <= k * b
  {
  }

  /** A timer slower than 1MHz counts zero ticks per microsecond, so its target is the current count. */
  lemma SlowTimerFiresNow(frequency: nat, usecs: nat, now: nat)
    requires frequency < MILLION
    ensures TargetFor(frequency, usecs, now) == now
  {
  }

  /**
   * Truncating the tick rate never lengthens the wait: the armed delay of
   * TargetFor - now ticks lasts at most `usecs` microseconds.
   */
  lemma DelayAtMostRequested(frequency: nat, usecs: nat, now: nat)
    ensures (TargetFor(frequency, usecs, now) - now) * MILLION <= frequency * usecs
  {
    var perMicro := frequency / MILLION;
    assert perMicro * MILLION <= frequency;
    calc {
      (TargetFor(frequency, usecs, now) - now) * MILLION;
      == perMicro * usecs * MILLION;
      == { MulCommutes(perMicro, usecs, MILLION); }
      perMicro * MILLION * usecs;
      <= { MulMonotoneLeft(perMicro * MILLION, frequency, usecs); }
      frequency * usecs;
    }
  }

  lemma MulCommutes(a: nat, b: nat, c: nat)
    ensures a * b * c == a * c * b
  {
  }

  lemma MulMonotoneLeft(a: nat, b: nat, k: nat)
    requires a <= b
    ensures a * k <= b * k
  {
  }

  /** When the frequency is a whole number of megahertz the delay is exact. */
  lemma DelayExactForWholeMegahertz(mhz: nat, usecs: nat, now: nat)
    ensures TargetFor(mhz * MILLION, usecs, now) - now == mhz * usecs
  {
    assert (mhz * MILLION) / MILLION == mhz;
  }

  /** `Timer`: a per-core timer, described by the CLINT that controls it and its tick rate. */
  datatype Timer = Timer(clintBase: Word, frequency: nat)
  {
    /** `get_mmio_base`: the CLINT's MMIO base address. */
    function GetMmioBase(): Word
    {
      clintBase
    }

    /** `get_frequency`: ticks per second. */
    function GetFrequency(): nat
    {
      frequency
    }

    /**
     * `next`: arm the timer to fire `usecs` microseconds from now: read the
     * counter once and write the target once, both at this timer's CLINT.
     * The target must fit the 64-bit register.
     */
    method Next(hw: TimerHardware, usecs: nat)
      requires TargetFor(frequency, usecs, hw.counter(clintBase)) < TWO_TO_64
      modifies hw
      ensures hw.targets == old(hw.targets)[clintBase := TargetFor(frequency, usecs, hw.counter(clintBase))]
      ensures hw.log == old(hw.log) + [ReadNow(clintBase), SetTarget(TargetFor(frequency, usecs, hw.counter(clintBase)), clintBase)]
      ensures hw.irqEnabled == old(hw.irqEnabled)
    {
      var now := hw.Now(clintBase);
      var target := (frequency / MILLION) * usecs + now;
      hw.Target(target, clintBase);
    }

    /**
     * `start`: arm the timer to fire at once, then enable its interrupt.
     * The current count must fit the 64-bit register.
     */
    method Start(hw: TimerHardware)
      requires hw.counter(clintBase) < TWO_TO_64
      modifies hw
      ensures hw.targets == old(hw.targets)[clintBase := hw.counter(clintBase)]
      ensures hw.log == old(hw.log) + [ReadNow(clintBase), SetTarget(hw.counter(clintBase), clintBase), IrqEnable]
      ensures hw.irqEnabled
    {
      Next(hw, 0);
      hw.EnableIrq();
    }
  }

  /** `Timer::new`: a timer for the CLINT at `clintBase` counting at `frequency`. */
  function New(frequency: nat, clintBase: Word): (t: Timer)
    ensures t.GetMmioBase() == clintBase && t.GetFrequency() == frequency
  {
    Timer(clintBase, frequency)
  }
}
