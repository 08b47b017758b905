/**
 * The interrupt-time half of the NEC decoder: the state record shared with
 * the poll-time façade, the pin-change handler `Edge` and the timer-overflow
 * handler `Overflow`. Each handler is one atomic step from state to state; the
 * interval since the previous handled edge and the pin level are parameters.
 */
module Decoder {
  import opened Bits
  import opened Timing

  /** Position in the frame (`nec_state`). */
  datatype Phase = Start | LeadPulseStart | LeadSpaceStart | GetPulse

  /** The variables shared between the handlers and the façade. */
  datatype State = State(
    phase: Phase,       // nec_state
    j: u8,              // index of the next data bit
    code: u32,          // nec_code, bits accumulated least significant first
    ready: bool,        // nec_ok: a frame or a repeat code awaits the façade
    repeated: bool,     // repeated != 0: the ready code is a repeat code
    address: u8,        // validated address cached by the façade
    command: u8,        // validated command cached by the façade
    timerRunning: bool) // the hardware timer is counting (resumed, not paused)

  /** Zero-initialised globals and object, timer paused by `begin`. */
  const Init: State := State(Start, 0, 0, false, false, 0, 0, false)

  /** The interval breaks the window the current phase checks it against. */
  predicate TimingViolation(phase: Phase, ticks: u32, pinLow: bool)
  {
    match phase
    case Start => false
    case LeadPulseStart => !LeadPulseOk(ticks)
    case LeadSpaceStart => !LeadSpaceOk(ticks)
    case GetPulse => pinLow && !DataSpaceOk(ticks)
  }

  /**
   * The edge would shift a bit into the accumulator (`state<<j`); C++ defines
   * that shift, and `j` stays within `uint8_t`, only when j is below 32.
   */
  predicate ShiftDefined(s: State, ticks: u32, pinLow: bool)
  {
    !s.ready && s.phase == GetPulse && pinLow && DataSpaceOk(ticks) ==> s.j < 32
  }

  /** The pin-change handler `nec_read`. */
  function Edge(s: State, ticks: u32, pinLow: bool): (s': State)
    requires ShiftDefined(s, ticks, pinLow)
    // A pending code freezes the record: the edge is dropped.
    ensures s.ready ==> s' == s
    // The validated fields belong to the façade.
    ensures s'.address == s.address && s'.command == s.command
    // A bad interval discards the frame in progress without exposing it.
    ensures !s.ready && TimingViolation(s.phase, ticks, pinLow) ==>
              s'.phase == Start && !s'.ready && !s'.timerRunning
    // A code becomes ready only on a repeat space or on the 32nd data bit.
    ensures !s.ready && s'.ready ==>
              || (s.phase == LeadSpaceStart && RepeatSpace(ticks) && s'.repeated && s'.code == s.code)
              || (s.phase == GetPulse && pinLow && DataSpaceOk(ticks) && s'.j == 32 && s'.repeated == s.repeated)
    // An accepted data space sets bit j to its classification and keeps every other bit.
    ensures !s.ready && s.phase == GetPulse && pinLow && DataSpaceOk(ticks) ==>
              && s'.j == s.j + 1
              && forall k :: Bit(s'.code, k) == (Bit(s.code, k) || (k == s.j && DataBit(ticks)))
  {
    if s.ready then s
    else
      match s.phase
      case Start =>
        s.(phase := LeadPulseStart, timerRunning := true)
      case LeadPulseStart =>
        if ticks < RepeatedMin || ticks > LeadPulseMax then
          s.(phase := Start, timerRunning := false)
        else
          s.(phase := LeadSpaceStart, repeated := false)
      case LeadSpaceStart =>
        if ticks < RepeatedMin || ticks > LeadSpaceMax then
          s.(phase := Start, timerRunning := false)
        else if ticks < LeadSpaceMin then
          s.(phase := Start, ready := true, repeated := true)
        else
          s.(phase := GetPulse, j := 0, code := 0)
      case GetPulse =>
        if !pinLow then s
        else if ticks > ToUnsigned32(HighMax) || ticks < LowMin then
          s.(phase := Start, timerRunning := false)
        else
          var bit := !(ticks < LowMax);
          var j' := s.j + 1;
          s.(code := OrBit(s.code, s.j, bit), j := j', ready := j' == 32)
  }

  /** The timer-overflow handler: silence returns the machine to START. */
  function Overflow(s: State): (s': State)
    ensures s'.phase == Start && !s'.timerRunning
    ensures s'.(phase := s.phase, timerRunning := s.timerRunning) == s
  {
    s.(phase := Start, timerRunning := false)
  }

  /** From START any edge, whatever its interval, begins a lead pulse and starts the timer. */
  lemma StartEdge(s: State, ticks: u32, pinLow: bool)
    requires !s.ready && s.phase == Start
    ensures Edge(s, ticks, pinLow) == s.(phase := LeadPulseStart, timerRunning := true)
  {
  }

  /** The end of the lead pulse: accepted on [2200, 9200], which also clears the repeat flag. */
  lemma LeadPulseEdge(s: State, ticks: u32, pinLow: bool)
    requires !s.ready && s.phase == LeadPulseStart
    ensures 2200 <= ticks <= 9200 ==> Edge(s, ticks, pinLow) == s.(phase := LeadSpaceStart, repeated := false)
    ensures !(2200 <= ticks <= 9200) ==> Edge(s, ticks, pinLow) == s.(phase := Start, timerRunning := false)
  {
  }

  /**
   * The end of the lead space: [2200, 4400) is a repeat code, ready at once with
   * the accumulator untouched; [4400, 4600] opens a data frame; anything else
   * is discarded.
   */
  lemma LeadSpaceEdge(s: State, ticks: u32, pinLow: bool)
    requires !s.ready && s.phase == LeadSpaceStart
    ensures 2200 <= ticks < 4400 ==>
              Edge(s, ticks, pinLow) == s.(phase := Start, ready := true, repeated := true)
    ensures 4400 <= ticks <= 4600 ==>
              Edge(s, ticks, pinLow) == s.(phase := GetPulse, j := 0, code := 0)
    ensures !(2200 <= ticks <= 4600) ==>
              Edge(s, ticks, pinLow) == s.(phase := Start, timerRunning := false)
  {
  }

  /**
   * A data edge: a rising edge (pin high) changes nothing; a falling edge
   * closes a data space, rejected below 460 ticks, otherwise read as a 0 below
   * 660 ticks and a 1 from 660 on, OR-ed in at bit j. The code becomes ready
   * exactly when j reaches 32.
   */
  lemma DataEdge(s: State, ticks: u32, pinLow: bool)
    requires !s.ready && s.phase == GetPulse && ShiftDefined(s, ticks, pinLow)
    ensures !pinLow ==> Edge(s, ticks, pinLow) == s
    ensures pinLow && ticks < 460 ==> Edge(s, ticks, pinLow) == s.(phase := Start, timerRunning := false)
    ensures pinLow && 460 <= ticks <= 0x1_0000_0000 - 1590 ==>
              var s' := Edge(s, ticks, pinLow);
              && s'.phase == GetPulse && s'.j == s.j + 1
              && s'.code == OrBit(s.code, s.j, ticks >= 660)
              && (s'.ready <==> s'.j == 32)
              && s'.repeated == s.repeated && s'.timerRunning == s.timerRunning
  {
  }

  /**
   * What every reachable record satisfies, also after the façade discards a
   * completed frame: j never passes 32, a frame in progress is not a repeat
   * and holds no bit at or above j, and a ready full frame has all 32 bits.
   */
  predicate Inv(s: State)
  {
    && s.j <= 32
    && (s.phase == LeadSpaceStart || s.phase == GetPulse ==> !s.repeated)
    && (s.phase == GetPulse ==> s.code < Pow2(s.j))
    && (s.ready && !s.repeated ==> s.j == 32)
  }

  /**
   * Inv, and a frame in progress that nobody has discarded still has bits to
   * receive. Only discarding a completed frame before it is read breaks this.
   */
  predicate Live(s: State)
  {
    && Inv(s)
    && (s.phase == GetPulse && !s.ready ==> s.j < 32)
  }

  lemma InitLive()
    ensures Live(Init)
  {
  }

  lemma LiveEdgeDefined(s: State, ticks: u32, pinLow: bool)
    requires Live(s)
    ensures ShiftDefined(s, ticks, pinLow)
  {
  }

  lemma EdgeKeepsInv(s: State, ticks: u32, pinLow: bool)
    requires Inv(s) && ShiftDefined(s, ticks, pinLow)
    ensures Inv(Edge(s, ticks, pinLow))
    ensures Live(s) ==> Live(Edge(s, ticks, pinLow))
  {
  }

  lemma OverflowKeepsInv(s: State)
    ensures Inv(s) ==> Inv(Overflow(s))
    ensures Live(s) ==> Live(Overflow(s))
  {
  }
}
