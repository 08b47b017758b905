/**
 * Sequences of interrupts and what they do to the decoder: whole NEC frames,
 * repeat codes, frames cut short by a bad interval or by the overflow timeout.
 *
 * On the receiver pin the signal idles high and a mark pulls it low. A frame
 * is a falling edge (start of the lead pulse), a rising edge after the lead
 * pulse, a falling edge after the lead space, then per data bit a rising edge
 * after its 560-tick mark and a falling edge after its space.
 */
module Frames {
  import opened Bits
  import opened Timing
  import opened Decoder
  import opened Facade

  /** One interrupt: a pin change with the interval since the previous one, or a timer overflow. */
  datatype Event = EdgeEvent(ticks: u32, pinLow: bool) | OverflowEvent

  function Step(s: State, e: Event): (r: State)
    requires Live(s)
    ensures Live(r)
  {
    match e
    case EdgeEvent(t, p) =>
      LiveEdgeDefined(s, t, p);
      EdgeKeepsInv(s, t, p);
      Edge(s, t, p)
    case OverflowEvent =>
      OverflowKeepsInv(s);
      Overflow(s)
  }

  /** The handlers run one after another on a sequence of interrupts. */
  function Run(s: State, evs: seq<Event>): (r: State)
    requires Live(s)
    ensures Live(r)
    decreases |evs|
  {
    if evs == [] then s else Run(Step(s, evs[0]), evs[1..])
  }

  lemma {:induction false} RunAppend(s: State, a: seq<Event>, b: seq<Event>)
    requires Live(s)
    ensures Run(s, a + b) == Run(Run(s, a), b)
    decreases |a|
  {
    if a != [] {
      assert (a + b)[0] == a[0];
      assert (a + b)[1..] == a[1..] + b;
      RunAppend(Step(s, a[0]), a[1..], b);
    } else {
      assert a + b == b;
    }
  }

  lemma RunTwo(s: State, e0: Event, e1: Event)
    requires Live(s)
    ensures Run(s, [e0, e1]) == Step(Step(s, e0), e1)
  {
    var s1 := Step(s, e0);
    assert [e0, e1][1..] == [e1];
    assert [e1][1..] == [];
    assert Run(s1, [e1]) == Run(Step(s1, e1), []);
  }

  lemma RunThree(s: State, e0: Event, e1: Event, e2: Event)
    requires Live(s)
    ensures Run(s, [e0, e1, e2]) == Step(Step(Step(s, e0), e1), e2)
  {
    var evs := [e0, e1, e2];
    assert evs[1..] == [e1, e2];
    RunTwo(Step(s, e0), e1, e2);
  }

  /**
   * While a code is pending every interrupt is harmless to it: edges are
   * dropped and overflows only reset the phase, so the façade reads what the
   * handlers left.
   */
  lemma {:induction false} PendingCodeFrozen(s: State, evs: seq<Event>)
    requires Live(s) && s.ready
    ensures var r := Run(s, evs);
            r.ready && r.code == s.code && r.j == s.j && r.repeated == s.repeated
            && r.address == s.address && r.command == s.command
            && Update(r) == Update(s)
    decreases |evs|
  {
    if evs != [] {
      PendingCodeFrozen(Step(s, evs[0]), evs[1..]);
    }
  }

  /** A data bit on the wire: the mark before its rising edge and the space before its falling edge. */
  datatype Pulse = Pulse(mark: u32, space: u32)

  function DataEdges(data: seq<Pulse>): (evs: seq<Event>)
    ensures |evs| == 2 * |data|
  {
    if data == [] then []
    else
      var p := data[|data| - 1];
      DataEdges(data[..|data| - 1]) + [EdgeEvent(p.mark, false), EdgeEvent(p.space, true)]
  }

  /** The bits the data spaces classify to. */
  function Classified(data: seq<Pulse>): (bs: seq<bool>)
    ensures |bs| == |data|
  {
    seq(|data|, i requires 0 <= i < |data| => DataBit(data[i].space))
  }

  predicate SpacesOk(data: seq<Pulse>)
  {
    forall i :: 0 <= i < |data| ==> DataSpaceOk(data[i].space)
  }

  /**
   * From the entry of GET_PULSE, n <= 32 accepted data bits leave j at n and
   * the accumulator holding their classifications as bits 0 .. n-1; the code
   * becomes ready exactly on the 32nd bit.
   */
  lemma {:induction false} ReceiveData(s: State, data: seq<Pulse>)
    requires Live(s) && !s.ready && s.phase == GetPulse && s.j == 0 && s.code == 0
    requires |data| <= 32 && SpacesOk(data)
    ensures var r := Run(s, DataEdges(data));
            && r.j == |data| && r.code == Value(Classified(data)) && (r.ready <==> |data| == 32)
            && r.(j := s.j, code := s.code, ready := s.ready) == s
    decreases |data|
  {
    if data != [] {
      var n := |data| - 1;
      var init := data[..n];
      var p := data[n];
      var tail := [EdgeEvent(p.mark, false), EdgeEvent(p.space, true)];
      assert SpacesOk(init) by {
        forall i | 0 <= i < n ensures DataSpaceOk(init[i].space) {
          assert init[i] == data[i];
        }
      }
      ReceiveData(s, init);
      RunAppend(s, DataEdges(init), tail);
      var s1 := Run(s, DataEdges(init));
      assert DataSpaceOk(p.space);
      var v := Value(Classified(init));
      assert Classified(data)[..n] == Classified(init);
      NoBitAbove(v, n, n);
      RunTwo(s1, tail[0], tail[1]);
    }
  }

  /** The edges of one frame: start, lead pulse, lead space, data. */
  function FrameEvents(idle: u32, lead: u32, space: u32, data: seq<Pulse>): seq<Event>
  {
    [EdgeEvent(idle, true), EdgeEvent(lead, false), EdgeEvent(space, true)] + DataEdges(data)
  }

  lemma LeadIn(s: State, idle: u32, lead: u32, space: u32)
    requires Live(s) && !s.ready && s.phase == Start
    requires LeadPulseOk(lead) && FullLeadSpace(space)
    ensures Run(s, [EdgeEvent(idle, true), EdgeEvent(lead, false), EdgeEvent(space, true)])
            == s.(phase := GetPulse, j := 0, code := 0, repeated := false, timerRunning := true)
  {
    RunThree(s, EdgeEvent(idle, true), EdgeEvent(lead, false), EdgeEvent(space, true));
  }

  /**
   * Frame round trip: from START, any start edge, an accepted lead pulse, a
   * full lead space and 32 accepted data bits leave a ready, new (not repeat)
   * code whose bit i is the classification of the i-th data space.
   */
  lemma FrameReceived(s: State, idle: u32, lead: u32, space: u32, data: seq<Pulse>)
    requires Live(s) && !s.ready && s.phase == Start
    requires LeadPulseOk(lead) && FullLeadSpace(space)
    requires |data| == 32 && SpacesOk(data)
    ensures var r := Run(s, FrameEvents(idle, lead, space, data));
            && CodeReceived(r) && NewKeyPressed(r)
            && r.code == Value(Classified(data))
            && forall i :: 0 <= i < 32 ==> Bit(r.code, i) == DataBit(data[i].space)
  {
    var lead3 := [EdgeEvent(idle, true), EdgeEvent(lead, false), EdgeEvent(space, true)];
    RunAppend(s, lead3, DataEdges(data));
    LeadIn(s, idle, lead, space);
    ReceiveData(Run(s, lead3), data);
    forall i | 0 <= i < 32 ensures Bit(Value(Classified(data)), i) == DataBit(data[i].space) {
      BitsOfValue(Classified(data), i);
    }
  }

  /** The edges a transmitter produces for a 32-bit word, with nominal NEC timings. */
  function Transmit(code: u32): seq<Event>
  {
    FrameEvents(0, 9000, 4500, seq(32, i requires 0 <= i < 32 => Pulse(560, if Bit(code, i) then 1690 else 560)))
  }

  /** Decoding what a transmitter sends for a word gives the word back. */
  lemma TransmitRoundTrip(s: State, code: u32)
    requires Live(s) && !s.ready && s.phase == Start
    ensures var r := Run(s, Transmit(code));
            CodeReceived(r) && NewKeyPressed(r) && r.code == code
  {
    var data := seq(32, i requires 0 <= i < 32 => Pulse(560, if Bit(code, i) then 1690 else 560));
    FrameReceived(s, 0, 9000, 4500, data);
    assert Classified(data) == LowBits(code, 32);
    ValueOfLowBits(code);
  }

  /**
   * End to end: the frame a remote sends for an address and a command is
   * received as a new key, and `Address` then `Command` return exactly them.
   */
  lemma AddressCommandRoundTrip(s: State, address: u8, command: u8)
    requires Live(s) && !s.ready && s.phase == Start
    ensures var r := Run(s, Transmit(FrameCode(address, command)));
            && CodeReceived(r) && NewKeyPressed(r)
            && Address(r).1 == address
            && Command(Address(r).0).1 == command
            && !CodeReceived(Command(Address(r).0).0)
  {
    TransmitRoundTrip(s, FrameCode(address, command));
    ValidateFrame(address, command);
  }

  /** The frame 0x00 / 0x10 sent from the idle decoder is read as address 0x00, command 0x10. */
  lemma ExampleFrame()
    ensures var r := Run(Init, Transmit(FrameCode(0x00, 0x10)));
            Address(r).1 == 0x00 && Command(r).1 == 0x10
  {
    InitLive();
    AddressCommandRoundTrip(Init, 0x00, 0x10);
  }

  /**
   * A frame cut short: fewer than 32 accepted bits followed by a data space
   * under 460 ticks return to START, stop the timer, and expose nothing.
   */
  lemma TruncatedFrameDiscarded(s: State, idle: u32, lead: u32, space: u32, data: seq<Pulse>, bad: Pulse)
    requires Live(s) && !s.ready && s.phase == Start
    requires LeadPulseOk(lead) && FullLeadSpace(space)
    requires |data| < 32 && SpacesOk(data) && !DataSpaceOk(bad.space)
    ensures var r := Run(s, FrameEvents(idle, lead, space, data + [bad]));
            !CodeReceived(r) && r.phase == Start && !r.timerRunning
  {
    var lead3 := [EdgeEvent(idle, true), EdgeEvent(lead, false), EdgeEvent(space, true)];
    var tail := [EdgeEvent(bad.mark, false), EdgeEvent(bad.space, true)];
    assert (data + [bad])[..|data|] == data;
    assert DataEdges(data + [bad]) == DataEdges(data) + tail;
    assert FrameEvents(idle, lead, space, data + [bad]) == (lead3 + DataEdges(data)) + tail;
    RunAppend(s, lead3 + DataEdges(data), tail);
    RunAppend(s, lead3, DataEdges(data));
    LeadIn(s, idle, lead, space);
    ReceiveData(Run(s, lead3), data);
    var s1 := Run(s, lead3 + DataEdges(data));
    RunTwo(s1, tail[0], tail[1]);
  }

  /** A timeout in the middle of a frame returns to START without exposing the partial frame. */
  lemma InterruptedFrameDiscarded(s: State, idle: u32, lead: u32, space: u32, data: seq<Pulse>)
    requires Live(s) && !s.ready && s.phase == Start
    requires LeadPulseOk(lead) && FullLeadSpace(space)
    requires |data| < 32 && SpacesOk(data)
    ensures var r := Run(s, FrameEvents(idle, lead, space, data) + [OverflowEvent]);
            !CodeReceived(r) && r.phase == Start && !r.timerRunning
  {
    var lead3 := [EdgeEvent(idle, true), EdgeEvent(lead, false), EdgeEvent(space, true)];
    RunAppend(s, FrameEvents(idle, lead, space, data), [OverflowEvent]);
    RunAppend(s, lead3, DataEdges(data));
    LeadIn(s, idle, lead, space);
    ReceiveData(Run(s, lead3), data);
  }

  /**
   * A repeat code: start edge, accepted lead pulse, and a lead space of
   * 2200 .. 4399 ticks make a code ready at once, flagged as a repeat, with the
   * accumulator still holding the previous frame.
   */
  lemma RepeatReceived(s: State, idle: u32, lead: u32, space: u32)
    requires Live(s) && !s.ready && s.phase == Start
    requires LeadPulseOk(lead) && RepeatSpace(space)
    ensures var r := Run(s, [EdgeEvent(idle, true), EdgeEvent(lead, false), EdgeEvent(space, true)]);
            && CodeReceived(r) && !NewKeyPressed(r)
            && r.code == s.code && r.phase == Start
  {
    RunThree(s, EdgeEvent(idle, true), EdgeEvent(lead, false), EdgeEvent(space, true));
  }

  /**
   * A repeat code after a frame has been read reports the same address and
   * command again, because validation reruns on the untouched accumulator.
   */
  lemma RepeatReportsPreviousKey(s: State, idle: u32, lead: u32, space: u32)
    requires Live(s) && s.ready
    requires LeadPulseOk(lead) && RepeatSpace(space)
    ensures var (s1, c) := Command(Address(s).0);
            var r := Run(s1, [EdgeEvent(idle, true), EdgeEvent(lead, false), EdgeEvent(space, true)]);
            && Address(r).1 == Address(s).1
            && Command(Address(r).0).1 == c
  {
    var s1 := Command(Address(s).0).0;
    FacadeKeepsLive(s);
    FacadeKeepsLive(Address(s).0);
    RepeatReceived(s1, idle, lead, space);
  }
}
