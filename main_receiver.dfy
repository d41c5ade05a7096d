/**
 * The receiving half of the main RCSwitch.cpp: the interrupt handler that
 * records level durations, recognises the gap between two repeats of a
 * packet, and on every second repeat decodes the buffered packet with
 * receiveProtocol1, 2 and 3 in turn.
 *
 * The C++ keeps this state in static members and static locals of the
 * handler; here it is one `Receiver` object, which every switch is
 * constructed with and so shares. The
 * shapes of protocol 3 come from PROTOCOL3_* constants that no file of the
 * library defines, so they are a parameter of the receiver.
 */
module MainReceiver {
  import opened Common
  import opened Decoder
  import opened MainHeader

  /** The initial receive tolerance in percent. */
  const DEFAULT_TOLERANCE: int := 60

  /** What one receiveProtocolN() expects: the sync factor that gives the pulse length, and the four levels of '0' and '1'. */
  datatype Shape = Shape(syncFactor: nat, cycles: Cycles)

  /** receiveProtocol1(): pulse length timings[0] / 31, '0' is 1 high and 3 low, '1' is 3 high and 1 low. */
  const PROTOCOL1: Shape := Shape(31, Cycles(1, 3, 3, 1))
  /** receiveProtocol2(): pulse length timings[0] / 10, '0' is 1 and 2, '1' is 2 and 1. */
  const PROTOCOL2: Shape := Shape(10, Cycles(1, 2, 2, 1))

  /** The shape of protocol `p` (1, 2 or 3), protocol 3's being `third`. */
  function ShapeOf(p: int, third: Shape): (s: Shape)
    requires 1 <= p <= 3
    ensures third.syncFactor > 0 ==> s.syncFactor > 0
  {
    if p == 1 then PROTOCOL1 else if p == 2 then PROTOCOL2 else third
  }

  /** The code receiveProtocolN() computes from slots 0 to `cc`. */
  function Decoded(ts: seq<u32>, cc: int, tolerance: int, s: Shape): (code: u32)
    requires s.syncFactor > 0 && 0 <= cc < |ts|
    ensures code < 0x8000_0000
  {
    Decode(ts, cc, tolerance, s.syncFactor, s.cycles)
  }

  /** What receiveProtocolN() publishes when the packet is long enough. */
  function Attempt(ts: seq<u32>, cc: int, tolerance: int, p: int, third: Shape): Report
    requires 1 <= p <= 3 && third.syncFactor > 0 && 0 <= cc < |ts|
  {
    var s := ShapeOf(p, third);
    Report(Decoded(ts, cc, tolerance, s), cc / 2, DelayOf(ts[0], s.syncFactor), p)
  }

  /** The protocol the chain 1, 2, 3 stops at: the first that decodes, else 3. */
  function FirstMatch(ts: seq<u32>, cc: int, tolerance: int, third: Shape): (p: int)
    requires third.syncFactor > 0 && 0 <= cc < |ts|
    ensures 1 <= p <= 3
    ensures p == 3 || Decoded(ts, cc, tolerance, ShapeOf(p, third)) != 0
    ensures forall q :: 1 <= q < p ==> Decoded(ts, cc, tolerance, ShapeOf(q, third)) == 0
  {
    if Decoded(ts, cc, tolerance, PROTOCOL1) != 0 then 1
    else if Decoded(ts, cc, tolerance, PROTOCOL2) != 0 then 2
    else 3
  }

  /** The report after the chain of attempts: each attempt republishes, so the last one tried wins. */
  function Chain(ts: seq<u32>, cc: int, tolerance: int, third: Shape, previous: Report): Report
    requires third.syncFactor > 0 && 0 <= cc < |ts|
  {
    if cc > NOISE_CHANGES then Attempt(ts, cc, tolerance, FirstMatch(ts, cc, tolerance, third), third) else previous
  }

  class Receiver {
    /** The level durations of the packet being received; slot 0 holds the gap before it. */
    const timings: array<u32>
    /** The PROTOCOL3_* constants. */
    const protocol3: Shape
    /** The handler's static locals. */
    var changeCount: int
    var repeatCount: int
    var lastTime: u32
    /** The receive tolerance in percent. */
    var tolerance: int
    /** The published report. */
    var receivedValue: u32
    var receivedBitlength: int
    var receivedDelay: int
    var receivedProtocol: int

    ghost predicate Valid()
      reads this, timings
    {
      timings.Length == RCSWITCH_MAX_CHANGES
      && protocol3.syncFactor > 0
      && 0 <= changeCount <= RCSWITCH_MAX_CHANGES
      && (changeCount == 0 ==> timings[0] == 0)
      && 0 <= repeatCount <= 1
    }

    function Published(): Report
      reads this
    {
      Report(receivedValue, receivedBitlength, receivedDelay, receivedProtocol)
    }

    /** available(): a nonzero value has been published and not yet reset. */
    predicate Available()
      reads this
    {
      receivedValue != 0
    }

    /** The zero-initialised statics, with the tolerance of 60 percent the C++ starts from. */
    constructor(protocol3: Shape)
      requires protocol3.syncFactor > 0
      ensures Valid() && fresh(timings) && this.protocol3 == protocol3
      ensures timings[..] == seq(RCSWITCH_MAX_CHANGES, _ => 0)
      ensures changeCount == 0 && repeatCount == 0 && lastTime == 0
      ensures tolerance == DEFAULT_TOLERANCE
      ensures Published() == Report(0, 0, 0, 0) && !Available()
    {
      timings := new u32[RCSWITCH_MAX_CHANGES](_ => 0);
      this.protocol3 := protocol3;
      changeCount, repeatCount, lastTime := 0, 0, 0;
      tolerance := DEFAULT_TOLERANCE;
      receivedValue, receivedBitlength, receivedDelay, receivedProtocol := 0, 0, 0, 0;
    }

    method SetReceiveTolerance(percent: int)
      modifies this`tolerance
      ensures tolerance == percent
    {
      tolerance := percent;
    }

    /** resetAvailable(): forget the published value, so that `Available()` is false. */
    method ResetAvailable()
      modifies this`receivedValue
      ensures !Available()
      ensures Published() == old(Published()).(value := 0)
    {
      receivedValue := 0;
    }

    /**
     * receiveProtocol1(), receiveProtocol2() and receiveProtocol3(), which
     * differ only in their shape: one decoding attempt over slots 0 to
     * `cc`. It publishes only packets of more than `NOISE_CHANGES` level
     * changes, and succeeds exactly when the decoded code is nonzero.
     */
    method ReceiveProtocol(p: int, cc: int) returns (ok: bool)
      requires timings.Length == RCSWITCH_MAX_CHANGES && protocol3.syncFactor > 0
      requires 1 <= p <= 3 && 0 <= cc < RCSWITCH_MAX_CHANGES
      modifies this`receivedValue, this`receivedBitlength, this`receivedDelay, this`receivedProtocol
      ensures ok == (Decoded(timings[..], cc, tolerance, ShapeOf(p, protocol3)) != 0)
      ensures Published() ==
        if cc > NOISE_CHANGES then Attempt(timings[..], cc, tolerance, p, protocol3) else old(Published())
    {
      ghost var ts := timings[..];
      var shape := ShapeOf(p, protocol3);
      var code: u32 := 0;
      var delay: u32 := timings[0] / shape.syncFactor;
      var delayTolerance := Mul32(delay, tolerance) / 100;
      var c := CentresOf(delay, shape.cycles);
      var i := 1;
      while i < cc
        invariant 1 <= i <= cc + 2
        invariant Scan(ts, cc, c, delayTolerance, 1, 0) == Scan(ts, cc, c, delayTolerance, i, code)
        decreases cc - i
      {
        if Inside(timings[i], c.zeroFirst, delayTolerance) && Inside(timings[i + 1], c.zeroSecond, delayTolerance)
        {
          code := Shl(code);
        } else if Inside(timings[i], c.oneFirst, delayTolerance) && Inside(timings[i + 1], c.oneSecond, delayTolerance)
        {
          code := Add32(code, 1);
          code := Shl(code);
        } else {
          i := cc;
          code := 0;
        }
        i := i + 2;
      }
      code := code / 2;
      if cc > NOISE_CHANGES {
        receivedValue, receivedBitlength, receivedDelay, receivedProtocol := code, cc / 2, delay, p;
      }
      return code != 0;
    }

    /** The chain of attempts in handleInterrupt(): protocols 1, 2 and 3 until one succeeds. */
    method ReceiveAny(cc: int)
      requires timings.Length == RCSWITCH_MAX_CHANGES && protocol3.syncFactor > 0
      requires 0 <= cc < RCSWITCH_MAX_CHANGES
      modifies this`receivedValue, this`receivedBitlength, this`receivedDelay, this`receivedProtocol
      ensures Published() == Chain(timings[..], cc, tolerance, protocol3, old(Published()))
    {
      var ok := ReceiveProtocol(1, cc);
      if !ok {
        ok := ReceiveProtocol(2, cc);
        if !ok {
          ok := ReceiveProtocol(3, cc);
        }
      }
    }

    /**
     * handleInterrupt(), called on every level change at time `now`: store
     * the duration of the level that just ended; on a gap that repeats the
     * one in slot 0, every second time decode the packet before it, then
     * start a new packet; on any other long gap start a new packet; on
     * overflow start over.
     */
    method HandleInterrupt(now: u32)
      requires Valid()
      modifies this, timings
      ensures Valid()
      ensures lastTime == now && tolerance == old(tolerance)
      ensures
        var d := Elapsed(old(lastTime), now);
        var ts := old(timings[..]);
        var gap := IsRepeatGap(d, ts[0]);
        var slot := if gap || d > SEPARATION_LIMIT || old(changeCount) >= RCSWITCH_MAX_CHANGES then 0 else old(changeCount);
        changeCount == slot + 1
        && timings[..] == ts[slot := d]
        && repeatCount ==
             (if gap then (if old(repeatCount) == 1 then 0 else old(repeatCount) + 1)
              else if d > SEPARATION_LIMIT then old(repeatCount)
              else if old(changeCount) >= RCSWITCH_MAX_CHANGES then 0
              else old(repeatCount))
        && Published() ==
             if gap && old(repeatCount) == 1 then Chain(ts, old(changeCount) - 1, tolerance, protocol3, old(Published()))
             else old(Published())
    {
      var d := Sub32(now, lastTime);
      Separate(d);
      if changeCount >= RCSWITCH_MAX_CHANGES {
        changeCount := 0;
        repeatCount := 0;
      }
      timings[changeCount] := d;
      changeCount := changeCount + 1;
      lastTime := now;
    }

    /**
     * A repeat gap: drop the gap just stored from the packet, decode the
     * packet every second time, and start a new packet.
     */
    method CountRepeat()
      requires timings.Length == RCSWITCH_MAX_CHANGES && protocol3.syncFactor > 0
      requires 1 <= changeCount <= RCSWITCH_MAX_CHANGES && 0 <= repeatCount <= 1
      modifies this`changeCount, this`repeatCount
      modifies this`receivedValue, this`receivedBitlength, this`receivedDelay, this`receivedProtocol
      ensures changeCount == 0
      ensures repeatCount == if old(repeatCount) == 1 then 0 else old(repeatCount) + 1
      ensures Published() ==
        if old(repeatCount) == 1 then Chain(timings[..], old(changeCount) - 1, tolerance, protocol3, old(Published()))
        else old(Published())
    {
      changeCount := changeCount - 1;
      if repeatCount + 1 == 2 {
        ReceiveAny(changeCount);
        repeatCount := 0;
      } else {
        repeatCount := repeatCount + 1;
      }
      changeCount := 0;
    }

    /** The first half of the handler: react to a long gap before the duration is stored. */
    method Separate(d: u32)
      requires Valid()
      modifies this`changeCount, this`repeatCount
      modifies this`receivedValue, this`receivedBitlength, this`receivedDelay, this`receivedProtocol
      ensures 0 <= repeatCount <= 2 && 0 <= changeCount <= RCSWITCH_MAX_CHANGES
      ensures IsRepeatGap(d, timings[0]) ==>
        changeCount == 0
        && repeatCount == (if old(repeatCount) == 1 then 0 else old(repeatCount) + 1)
        && Published() ==
             if old(repeatCount) == 1 then Chain(timings[..], old(changeCount) - 1, tolerance, protocol3, old(Published()))
             else old(Published())
      ensures !IsRepeatGap(d, timings[0]) ==>
        changeCount == (if d > SEPARATION_LIMIT then 0 else old(changeCount))
        && repeatCount == old(repeatCount) && Published() == old(Published())
    {
      if IsRepeatGap(d, timings[0]) {
        GapNeedsData(d);
        CountRepeat();
      } else if d > SEPARATION_LIMIT {
        changeCount := 0;
      }
    }
  }
}
