/**
 * The receiving half of the raspberry-quigg branch: the interrupt handler
 * that records level durations into a fixed buffer, recognises the gap
 * between two repeats of a packet, and on every second repeat tries to
 * decode the buffered packet with protocols A, B, C and D in turn.
 *
 * The C++ keeps this state in static members and in static locals of the
 * handler; here it is one `Receiver` object, which the switch owns.
 */
module QuiggReceiver {
  import opened Common
  import opened QuiggHeader
  import opened Decoder

  /** The initial receive tolerance in percent. */
  const DEFAULT_TOLERANCE: int := 60

  /** The four *_CYCLES columns of a protocol's row. */
  function CyclesOf(t: Timing): Cycles
  {
    Cycles(t.zeroFirst, t.zeroSecond, t.oneFirst, t.oneSecond)
  }

  /** The pulse length recovered from the gap in slot 0 with protocol `p`'s sync factor. */
  function Delay(t0: u32, p: int): u32
    requires TYPE_A <= p <= TYPE_D
  {
    DelayOf(t0, TimingOf(p).syncFactor)
  }

  /** The code one attempt with protocol `p` computes from the first `cc + 1` slots. */
  function Decoded(ts: seq<u32>, cc: int, tolerance: int, p: int): (code: u32)
    requires TYPE_A <= p <= TYPE_D && 0 <= cc < |ts|
    ensures code < 0x8000_0000
  {
    Decode(ts, cc, tolerance, TimingOf(p).syncFactor, CyclesOf(TimingOf(p)))
  }

  /** What an attempt with protocol `p` publishes when the packet is long enough. */
  function Attempt(ts: seq<u32>, cc: int, tolerance: int, p: int): Report
    requires TYPE_A <= p <= TYPE_D && 0 <= cc < |ts|
  {
    Report(Decoded(ts, cc, tolerance, p), cc / 2, Delay(ts[0], p), p)
  }

  /** The protocol the chain A, B, C, D stops at: the first that decodes, else D. */
  function FirstMatch(ts: seq<u32>, cc: int, tolerance: int): (p: int)
    requires 0 <= cc < |ts|
    ensures TYPE_A <= p <= TYPE_D
    ensures p == TYPE_D || Decoded(ts, cc, tolerance, p) != 0
    ensures forall q :: TYPE_A <= q < p ==> Decoded(ts, cc, tolerance, q) == 0
  {
    if Decoded(ts, cc, tolerance, TYPE_A) != 0 then TYPE_A
    else if Decoded(ts, cc, tolerance, TYPE_B) != 0 then TYPE_B
    else if Decoded(ts, cc, tolerance, TYPE_C) != 0 then TYPE_C
    else TYPE_D
  }

  /** The report after the chain of attempts: each attempt republishes, so the last one tried wins. */
  function Chain(ts: seq<u32>, cc: int, tolerance: int, previous: Report): Report
    requires 0 <= cc < |ts|
  {
    if cc > NOISE_CHANGES then Attempt(ts, cc, tolerance, FirstMatch(ts, cc, tolerance)) else previous
  }

  class Receiver {
    /** The level durations of the packet being received; slot 0 holds the gap before it. */
    const timings: array<u32>
    /** The handler's static locals. */
    var changeCount: int
    var repeatCount: int
    var lastTime: u32
    /** The receive tolerance in percent. */
    var tolerance: int
    /** The published report. */
    var receivedValue: u32
    var receivedBitlength: int
    var receivedDelay: int
    var receivedProtocol: int

    ghost predicate Valid()
      reads this, timings
    {
      timings.Length == MAX_CHANGES
      && 0 <= changeCount <= MAX_CHANGES
      && (changeCount == 0 ==> timings[0] == 0)
      && 0 <= repeatCount <= 1
    }

    function Published(): Report
      reads this
    {
      Report(receivedValue, receivedBitlength, receivedDelay, receivedProtocol)
    }

    /** available(): a nonzero value has been published and not yet reset. */
    predicate Available()
      reads this
    {
      receivedValue != 0
    }

    /** The zero-initialised statics. */
    constructor()
      ensures Valid() && fresh(timings)
      ensures timings[..] == seq(MAX_CHANGES, _ => 0)
      ensures changeCount == 0 && repeatCount == 0 && lastTime == 0
      ensures tolerance == DEFAULT_TOLERANCE
      ensures Published() == Report(0, 0, 0, TYPE_UNDEF) && !Available()
    {
      timings := new u32[MAX_CHANGES](_ => 0);
      changeCount, repeatCount, lastTime := 0, 0, 0;
      tolerance := DEFAULT_TOLERANCE;
      receivedValue, receivedBitlength, receivedDelay, receivedProtocol := 0, 0, 0, TYPE_UNDEF;
    }

    method SetReceiveTolerance(percent: int)
      modifies this`tolerance
      ensures tolerance == percent
    {
      tolerance := percent;
    }

    /** resetAvailable(): forget the published value, so that `Available()` is false. */
    method ResetAvailable()
      modifies this`receivedValue
      ensures !Available()
      ensures Published() == old(Published()).(value := 0)
    {
      receivedValue := 0;
    }

    /**
     * receiveProtocol(): one decoding attempt over slots 0 to `cc`. It
     * publishes only packets of more than `NOISE_CHANGES` level changes,
     * and succeeds exactly when the decoded code is nonzero.
     */
    method ReceiveProtocol(p: int, cc: int) returns (ok: bool)
      requires timings.Length == MAX_CHANGES
      requires p != TYPE_UNDEF
      requires 0 <= cc < MAX_CHANGES
      modifies this`receivedValue, this`receivedBitlength, this`receivedDelay, this`receivedProtocol
      ensures !IsProtocol(p) ==> !ok && Published() == old(Published())
      ensures IsProtocol(p) ==> ok == (Decoded(timings[..], cc, tolerance, p) != 0)
      ensures IsProtocol(p) ==> (Published() ==
        if cc > NOISE_CHANGES then Attempt(timings[..], cc, tolerance, p) else old(Published()))
    {
      if p < TYPE_MINIMUM || p > TYPE_MAXIMUM {
        return false;
      }
      ghost var ts := timings[..];
      var tm := TimingOf(p);
      var code: u32 := 0;
      var delay: u32 := timings[0] / tm.syncFactor;
      var tw := Mul32(delay, tolerance) / 100;
      var c := CentresOf(delay, CyclesOf(tm));
      var i := 1;
      while i < cc
        invariant 1 <= i <= cc + 2
        invariant Scan(ts, cc, c, tw, 1, 0) == Scan(ts, cc, c, tw, i, code)
        decreases cc - i
      {
        if Inside(timings[i], c.zeroFirst, tw) && Inside(timings[i + 1], c.zeroSecond, tw)
        {
          code := Shl(code);
        } else if Inside(timings[i], c.oneFirst, tw) && Inside(timings[i + 1], c.oneSecond, tw)
        {
          code := Add32(code, 1);
          code := Shl(code);
        } else {
          i := cc;
          code := 0;
        }
        i := i + 2;
      }
      code := code / 2;
      if cc > NOISE_CHANGES {
        receivedValue, receivedBitlength, receivedDelay, receivedProtocol := code, cc / 2, delay, p;
      }
      return code != 0;
    }

    /** The chain of attempts in handleInterrupt(): protocols A, B, C and D until one succeeds. */
    method ReceiveAny(cc: int)
      requires timings.Length == MAX_CHANGES
      requires 0 <= cc < MAX_CHANGES
      modifies this`receivedValue, this`receivedBitlength, this`receivedDelay, this`receivedProtocol
      ensures Published() == Chain(timings[..], cc, tolerance, old(Published()))
    {
      var ok := ReceiveProtocol(TYPE_A, cc);
      if !ok {
        ok := ReceiveProtocol(TYPE_B, cc);
        if !ok {
          ok := ReceiveProtocol(TYPE_C, cc);
          if !ok {
            ok := ReceiveProtocol(TYPE_D, cc);
          }
        }
      }
    }

    /**
     * handleInterrupt(), called on every level change at time `now`: store
     * the duration of the level that just ended; on a gap that repeats the
     * one in slot 0, every second time decode the packet before it, then
     * start a new packet; on any other long gap start a new packet; on
     * overflow start over.
     */
    method HandleInterrupt(now: u32)
      requires Valid()
      modifies this, timings
      ensures Valid()
      ensures lastTime == now && tolerance == old(tolerance)
      ensures
        var d := Elapsed(old(lastTime), now);
        var ts := old(timings[..]);
        var gap := IsRepeatGap(d, ts[0]);
        var slot := if gap || d > SEPARATION_LIMIT || old(changeCount) >= MAX_CHANGES then 0 else old(changeCount);
        changeCount == slot + 1
        && timings[..] == ts[slot := d]
        && repeatCount ==
             (if gap then (if old(repeatCount) == 1 then 0 else old(repeatCount) + 1)
              else if d > SEPARATION_LIMIT then old(repeatCount)
              else if old(changeCount) >= MAX_CHANGES then 0
              else old(repeatCount))
        && Published() ==
             if gap && old(repeatCount) == 1 then Chain(ts, old(changeCount) - 1, tolerance, old(Published()))
             else old(Published())
    {
      var d := Sub32(now, lastTime);
      Separate(d);
      if changeCount >= MAX_CHANGES {
        changeCount := 0;
        repeatCount := 0;
      }
      timings[changeCount] := d;
      changeCount := changeCount + 1;
      lastTime := now;
    }

    /**
     * A repeat gap: drop the gap just stored from the packet, decode the
     * packet every second time, and start a new packet.
     */
    method CountRepeat()
      requires timings.Length == MAX_CHANGES
      requires 1 <= changeCount <= MAX_CHANGES && 0 <= repeatCount <= 1
      modifies this`changeCount, this`repeatCount
      modifies this`receivedValue, this`receivedBitlength, this`receivedDelay, this`receivedProtocol
      ensures changeCount == 0
      ensures repeatCount == if old(repeatCount) == 1 then 0 else old(repeatCount) + 1
      ensures Published() ==
        if old(repeatCount) == 1 then Chain(timings[..], old(changeCount) - 1, tolerance, old(Published()))
        else old(Published())
    {
      changeCount := changeCount - 1;
      if repeatCount + 1 == 2 {
        ReceiveAny(changeCount);
        repeatCount := 0;
      } else {
        repeatCount := repeatCount + 1;
      }
      changeCount := 0;
    }

    /** The first half of the handler: react to a long gap before the duration is stored. */
    method Separate(d: u32)
      requires Valid()
      modifies this`changeCount, this`repeatCount
      modifies this`receivedValue, this`receivedBitlength, this`receivedDelay, this`receivedProtocol
      ensures 0 <= repeatCount <= 2 && 0 <= changeCount <= MAX_CHANGES
      ensures IsRepeatGap(d, timings[0]) ==>
        changeCount == 0
        && repeatCount == (if old(repeatCount) == 1 then 0 else old(repeatCount) + 1)
        && Published() ==
             if old(repeatCount) == 1 then Chain(timings[..], old(changeCount) - 1, tolerance, old(Published()))
             else old(Published())
      ensures !IsRepeatGap(d, timings[0]) ==>
        changeCount == (if d > SEPARATION_LIMIT then 0 else old(changeCount))
        && repeatCount == old(repeatCount) && Published() == old(Published())
    {
      if IsRepeatGap(d, timings[0]) {
        GapNeedsData(d);
        CountRepeat();
      } else if d > SEPARATION_LIMIT {
        changeCount := 0;
      }
    }
  }
}
