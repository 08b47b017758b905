/**
 * The poll-time half of the NEC decoder: the accessors of class `nec` and the
 * validation step `update` they share. Each accessor takes the shared record
 * and returns the record it leaves behind together with its result.
 */
module Facade {
  import opened Bits
  import opened Decoder

  /**
   * The address a frame carries: its low byte when the next byte complements
   * it, else 0xFF. It agrees with the source's test `(code & 0xFF) ==
   * (~(code >> 8) & 0xFF)`.
   */
  function FrameAddress(code: u32): (r: u8)
    ensures r == (if code % 0x100 == ComplementLow8(code / 0x100) then code % 0x100 else 0xFF)
  {
    Pow2Words();
    if Byte(code, 0) + Byte(code, 1) == 0xFF then Byte(code, 0) else 0xFF
  }

  /**
   * The command a frame carries: its third byte when the top byte complements
   * it, else 0xFF. It agrees with the source's test `((code >> 16) & 0xFF) ==
   * (~(code >> 24) & 0xFF)`.
   */
  function FrameCommand(code: u32): (r: u8)
    ensures r == (if (code / 0x1_0000) % 0x100 == ComplementLow8(code / 0x100_0000)
                  then (code / 0x1_0000) % 0x100 else 0xFF)
  {
    Pow2Words();
    if Byte(code, 2) + Byte(code, 3) == 0xFF then Byte(code, 2) else 0xFF
  }

  /**
   * `update`: on a pending code, end the receive cycle and cache the
   * validated address and command. Without one it changes nothing.
   */
  function Update(s: State): (r: State)
    ensures !s.ready ==> r == s
    ensures s.ready ==>
              && r.phase == Start && !r.timerRunning
              && r.address == FrameAddress(s.code) && r.command == FrameCommand(s.code)
              && r.(phase := s.phase, timerRunning := s.timerRunning,
                    address := s.address, command := s.command) == s
  {
    if s.ready then
      var a := s.code % 0x100;
      var ai := ComplementLow8(s.code / 0x100);
      var c := (s.code / 0x1_0000) % 0x100;
      var ci := ComplementLow8(s.code / 0x100_0000);
      Pow2Words();
      s.(phase := Start, timerRunning := false,
         address := if a == ai then a else 0xFF,
         command := if c == ci then c else 0xFF)
    else
      s
  }

  /**
   * `codeReceived`: is a frame or a repeat code pending? Exactly then does
   * reading it, by `rawCode` or by `Command`, change the record.
   */
  function CodeReceived(s: State): (r: bool)
    ensures r <==> RawCode(s).0 != s
    ensures r <==> Command(s).0 != s
  {
    s.ready
  }

  /**
   * `newKeyPressed`: was the last code a full frame rather than a repeat code?
   * A pending new key has all 32 bits, and once a lead pulse is accepted the
   * answer is a new key until a repeat space is seen.
   */
  function NewKeyPressed(s: State): (r: bool)
    ensures Inv(s) && s.ready && r ==> s.j == 32
    ensures Inv(s) && (s.phase == LeadSpaceStart || s.phase == GetPulse) ==> r
  {
    !s.repeated
  }

  /**
   * `rawCode`: validate, consume the pending code, and return the accumulator
   * truncated to the declared `uint16_t` result, i.e. its two low bytes.
   */
  function RawCode(s: State): (r: (State, u16))
    ensures !r.0.ready
    ensures r.1 == Byte(s.code, 0) + 0x100 * Byte(s.code, 1)
    ensures r.0 == Update(s).(ready := false)
  {
    var u := Update(s);
    Low16(s.code);
    (u.(ready := false), u.code % 0x1_0000)
  }

  /** `Command`: validate, consume the pending code, and return the cached command. */
  function Command(s: State): (r: (State, u8))
    ensures !r.0.ready
    ensures s.ready ==> r.1 == FrameCommand(s.code)
    ensures !s.ready ==> r.1 == s.command && r.0 == s
    ensures r.0 == Update(s).(ready := false)
  {
    var u := Update(s);
    (u.(ready := false), u.command)
  }

  /** `Address`: validate and return the cached address; the pending code stays pending. */
  function Address(s: State): (r: (State, u8))
    ensures r.0.ready == s.ready
    ensures s.ready ==> r.1 == FrameAddress(s.code)
    ensures !s.ready ==> r.1 == s.address && r.0 == s
    ensures r.0 == Update(s)
  {
    var u := Update(s);
    (u, u.address)
  }

  /** `skipThisCode`: drop the pending code, whatever the state. */
  function SkipThisCode(s: State): (r: State)
    ensures !CodeReceived(r)
    ensures r.(ready := s.ready) == s
  {
    s.(ready := false)
  }

  /**
   * The 32-bit word a transmitter sends for an address and a command: address,
   * inverted address, command, inverted command, from the low byte up.
   */
  function FrameCode(address: u8, command: u8): (r: u32)
    ensures Byte(r, 0) == address && Byte(r, 1) == 0xFF - address
    ensures Byte(r, 2) == command && Byte(r, 3) == 0xFF - command
  {
    Pack(address, 0xFF - address, command, 0xFF - command)
  }

  /** A well-formed frame validates to the address and command it was built from. */
  lemma ValidateFrame(address: u8, command: u8)
    ensures FrameAddress(FrameCode(address, command)) == address
    ensures FrameCommand(FrameCode(address, command)) == command
  {
  }

  /**
   * Validation accepts exactly the frames a transmitter builds: a byte pair that
   * is not complementary yields the sentinel 0xFF, and a validated address or
   * command other than 0xFF comes from a frame with the right complement.
   */
  lemma ValidationSound(code: u32)
    ensures Byte(code, 0) + Byte(code, 1) != 0xFF ==> FrameAddress(code) == 0xFF
    ensures Byte(code, 2) + Byte(code, 3) != 0xFF ==> FrameCommand(code) == 0xFF
    ensures FrameAddress(code) != 0xFF && FrameCommand(code) != 0xFF ==>
              code == FrameCode(FrameAddress(code), FrameCommand(code))
  {
    if FrameAddress(code) != 0xFF && FrameCommand(code) != 0xFF {
      PackBytes(code);
    }
  }

  /** Validating twice is validating once. */
  lemma UpdateIdempotent(s: State)
    ensures Update(Update(s)) == Update(s)
  {
  }

  /**
   * On a pending code, `Address` and `Command` report the same frame in either
   * order, because `Address` leaves the code pending and `Command` caches both.
   */
  lemma AccessorOrderIrrelevant(s: State)
    requires s.ready
    ensures Command(Address(s).0).1 == FrameCommand(s.code)
    ensures Address(Command(s).0).1 == FrameAddress(s.code)
    ensures Command(Address(s).0).0 == Address(Command(s).0).0
  {
  }

  /**
   * A second `rawCode` without a new frame validates nothing and returns the
   * same value again: the façade never clears the accumulator.
   */
  lemma RawCodeTwice(s: State)
    ensures RawCode(RawCode(s).0).1 == RawCode(s).1
    ensures RawCode(RawCode(s).0).0 == RawCode(s).0
  {
  }

  /** The truncated raw code is the accumulator modulo 2^16. */
  lemma RawCodeIsLow16(s: State)
    ensures RawCode(s).1 == s.code % 0x1_0000
  {
  }

  /** Every façade operation keeps the invariant. */
  lemma FacadeKeepsInv(s: State)
    requires Inv(s)
    ensures Inv(Update(s)) && Inv(RawCode(s).0) && Inv(Command(s).0)
    ensures Inv(Address(s).0) && Inv(SkipThisCode(s))
  {
  }

  /**
   * Every façade operation but `skipThisCode` keeps the machine live; skipping
   * breaks it exactly when a completed frame has not yet been validated, which
   * leaves the machine in GET_PULSE with j at 32.
   */
  lemma FacadeKeepsLive(s: State)
    requires Live(s)
    ensures Live(Update(s)) && Live(RawCode(s).0) && Live(Command(s).0) && Live(Address(s).0)
    ensures Live(SkipThisCode(s)) <==> !(s.ready && s.phase == GetPulse)
  {
  }

  /**
   * After such a skip the next accepted data space would shift by 32, which
   * C++ leaves undefined; a bad interval or an overflow makes the machine live
   * again.
   */
  lemma SkipStall(s: State, ticks: u32, pinLow: bool)
    requires Live(s) && s.ready && s.phase == GetPulse
    ensures SkipThisCode(s).j == 32 && !ShiftDefined(SkipThisCode(s), 460, true)
    ensures Live(Overflow(SkipThisCode(s)))
    ensures pinLow && ticks < 460 ==> Live(Edge(SkipThisCode(s), ticks, pinLow))
  {
  }
}
