/**
 * The NEC timing windows of the decoder, in ticks, and the way each interval
 * is classified against them. The interval is read in microseconds
 * (nec.cpp:115), so one tick is one microsecond.
 *
 * The constants are preprocessor macros in nec.h; each one is written
 * here as its replacement text evaluates in the comparison that uses it.
 */
module Timing {
  import opened Bits

  /** Nominal lead pulse bounds. The lower bound is never referenced by the decoder. */
  const LeadPulseMin: int := 8800
  const LeadPulseMax: int := 9200
  /** A lead space at or above this is a full frame; below it, a repeat code. */
  const LeadSpaceMin: int := 4400
  const LeadSpaceMax: int := 4600
  /**
   * `high_max` subtracts in the wrong order: `(560-2250)+100` is the signed
   * int -1590, not the 1790 that `(2250-560)+100` would give to match
   * `low_max`. Outer parentheses would not change it, since `>` binds looser
   * than `+` in the comparison that uses it.
   */
  const HighMax: int := (560 - 2250) + 100
  const LowMax: int := (1120 - 560) + 100
  const LowMin: int := (1120 - 560) - 100
  /** Shortest accepted lead pulse and shortest accepted (repeat) lead space. */
  const RepeatedMin: int := 2200

  /**
   * The usual arithmetic conversions of C++ turn an int compared against a
   * uint32_t into an unsigned value, that is, its residue modulo 2^32.
   */
  function ToUnsigned32(x: int): (r: u32)
    ensures 0 <= x < 0x1_0000_0000 ==> r == x
    ensures -0x1_0000_0000 <= x < 0 ==> r == x + 0x1_0000_0000
  {
    x % 0x1_0000_0000
  }

  /** The lead pulse test: `!(t < repeated_min || t > lead_pulse_max)`. */
  predicate LeadPulseOk(t: u32)
  {
    !(t < RepeatedMin || t > LeadPulseMax)
  }

  /** The lead space test: `!(t < repeated_min || t > lead_space_max)`. */
  predicate LeadSpaceOk(t: u32)
  {
    !(t < RepeatedMin || t > LeadSpaceMax)
  }

  /** An accepted lead space short enough to announce a repeat code. */
  predicate RepeatSpace(t: u32)
  {
    LeadSpaceOk(t) && t < LeadSpaceMin
  }

  /** An accepted lead space announcing a full 32-bit frame. */
  predicate FullLeadSpace(t: u32)
  {
    LeadSpaceOk(t) && !(t < LeadSpaceMin)
  }

  /** The data space test: `!(t > high_max || t < low_min)` against a uint32_t. */
  predicate DataSpaceOk(t: u32)
  {
    !(t > ToUnsigned32(HighMax) || t < LowMin)
  }

  /** The classified bit of an accepted data space: `t < low_max ? 0 : 1`. */
  predicate DataBit(t: u32)
  {
    !(t < LowMax)
  }

  /** The macro values, and their strict order. */
  lemma ConstantsOrdered()
    ensures LowMin == 460 && LowMax == 660
    ensures LowMin < LowMax < RepeatedMin < LeadSpaceMin < LeadSpaceMax < LeadPulseMax
    ensures RepeatedMin < LeadPulseMin < LeadPulseMax
  {
  }

  /** Against a uint32_t interval, `high_max` is 2^32 - 1590. */
  lemma HighMaxEffective()
    ensures HighMax == -1590
    ensures ToUnsigned32(HighMax) == 0x1_0000_0000 - 1590
    ensures forall t: u32 :: DataSpaceOk(t) <==> 460 <= t <= 0x1_0000_0000 - 1590
  {
  }

  /**
   * The upper bound of the data window rejects nothing a timer that overflows
   * after 10000 ticks can report: only the lower bound is ever in force.
   */
  lemma DataWindowHasNoRealUpperBound(t: u32)
    requires t <= 10000
    ensures DataSpaceOk(t) <==> t >= LowMin
  {
  }

  /** The windows spelt out as closed ranges of ticks. */
  lemma Windows(t: u32)
    ensures LeadPulseOk(t) <==> 2200 <= t <= 9200
    ensures RepeatSpace(t) <==> 2200 <= t < 4400
    ensures FullLeadSpace(t) <==> 4400 <= t <= 4600
    ensures DataSpaceOk(t) && !DataBit(t) <==> 460 <= t < 660
    ensures DataSpaceOk(t) && DataBit(t) <==> 660 <= t <= 0x1_0000_0000 - 1590
  {
  }

  /** An accepted lead space is exactly one of a repeat space and a full lead space. */
  lemma LeadSpacePartition(t: u32)
    ensures LeadSpaceOk(t) <==> RepeatSpace(t) || FullLeadSpace(t)
    ensures !(RepeatSpace(t) && FullLeadSpace(t))
  {
  }

  /**
   * The lead pulse check uses `repeated_min`, not `lead_pulse_min`: pulses
   * from 2200 up to 8799 ticks pass although they are shorter than a lead pulse.
   */
  lemma LeadPulseLowerBoundIsRepeatedMin(t: u32)
    requires RepeatedMin <= t < LeadPulseMin
    ensures LeadPulseOk(t)
  {
  }

  /**
   * Nominal NEC timings with a tolerance of 100 ticks pass their windows: a
   * 9000-tick lead pulse, a 4500-tick lead space and data spaces of 560 ticks
   * (bit 0) and 1690 ticks (bit 1); the 2250-tick repeat space passes from
   * 50 ticks short to 100 ticks long. A 0-bit space of exactly 660 reads as 1.
   */
  lemma NominalTimingsAccepted(t: u32)
    ensures 8800 <= t <= 9200 ==> LeadPulseOk(t)
    ensures 4400 <= t <= 4600 ==> FullLeadSpace(t)
    ensures 2200 <= t <= 2350 ==> RepeatSpace(t)
    ensures 460 <= t < 660 ==> DataSpaceOk(t) && !DataBit(t)
    ensures t == 660 ==> DataSpaceOk(t) && DataBit(t)
    ensures 1590 <= t <= 1790 ==> DataSpaceOk(t) && DataBit(t)
  {
  }
}
