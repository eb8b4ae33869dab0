/**
 The loss estimates of handle_ack (src/srvctcp.c), over the reals: an exponential smoother that is fed
 one success and then all losses of the gap at once, through a power.
 */
module LossEstimator {

  function Power(x: real, n: nat): real
  {
    if n == 0 then 1.0 else x * Power(x, n - 1)
  }

  /** Lines 1470 to 1473: the estimate after an ack that reveals `losses` losses. */
  function AfterAck(slr: real, mem: real, losses: nat): real
  {
    var kept := Power(1.0 - mem, losses);
    kept * (1.0 - mem) * slr + (1.0 - kept)
  }

  /** One step of the smoother on a packet that was lost (1) or not (0). */
  function Smooth(slr: real, mem: real, lost: bool): real
  {
    (1.0 - mem) * slr + if lost then mem else 0.0
  }

  function SmoothLosses(slr: real, mem: real, losses: nat): real
  {
    if losses == 0 then slr else Smooth(SmoothLosses(slr, mem, losses - 1), mem, true)
  }

  lemma OneMoreLoss(x: real, k: real, y: real)
    ensures x * k * y + (1.0 - x * k) == x * (k * y + (1.0 - k)) + (1.0 - x)
  {
    assert x * (k * y + (1.0 - k)) == x * (k * y) + x * (1.0 - k);
    assert x * (1.0 - k) == x - x * k;
    assert x * k * y == x * (k * y);
  }

  /** The update with the power is one success followed by the losses, one step at a time. */
  lemma {:induction false} ClosedFormIsSmoothing(slr: real, mem: real, losses: nat)
    ensures AfterAck(slr, mem, losses) == SmoothLosses(Smooth(slr, mem, false), mem, losses)
  {
    var x, y := 1.0 - mem, (1.0 - mem) * slr;
    FactorOut(slr, mem, losses);
    if losses > 0 {
      ClosedFormIsSmoothing(slr, mem, losses - 1);
      FactorOut(slr, mem, losses - 1);
      OneMoreLoss(x, Power(x, losses - 1), y);
    }
  }

  lemma FactorOut(slr: real, mem: real, losses: nat)
    ensures AfterAck(slr, mem, losses)
         == Power(1.0 - mem, losses) * ((1.0 - mem) * slr) + (1.0 - Power(1.0 - mem, losses))
  {
    var k, x := Power(1.0 - mem, losses), 1.0 - mem;
    assert k * x * slr == k * (x * slr);
  }

  lemma ScaledBelow(x: real, y: real, r: real)
    requires 0.0 < x && 0.0 <= y < 1.0 && r == x * y
    ensures 0.0 <= r < x
  {
    assert x * (1.0 - y) > 0.0;
    assert x * (1.0 - y) == x - x * y;
  }

  lemma SmoothBounded(slr: real, mem: real, lost: bool)
    requires 0.0 < mem < 1.0 && 0.0 <= slr < 1.0
    ensures 0.0 <= Smooth(slr, mem, lost) < 1.0
  {
    ScaledBelow(1.0 - mem, slr, Smooth(slr, mem, false));
    assert Smooth(slr, mem, true) == Smooth(slr, mem, false) + mem;
  }

  lemma {:induction false} SmoothLossesBounded(slr: real, mem: real, losses: nat)
    requires 0.0 < mem < 1.0 && 0.0 <= slr < 1.0
    ensures 0.0 <= SmoothLosses(slr, mem, losses) < 1.0
  {
    if losses > 0 {
      SmoothLossesBounded(slr, mem, losses - 1);
      SmoothBounded(SmoothLosses(slr, mem, losses - 1), mem, true);
    }
  }

  // ---------------------------------------------------------------------------------------------
  // Both estimates of a path

  datatype Estimates = Estimates(slr: real, slrLong: real)
  datatype Event = Acked(losses: nat) | TimedOut

  /** init_stream. */
  const START := Estimates(0.0, 0.05)

  /** handle_ack, and timeout, which falls back on the long-term estimate. */
  function Next(e: Estimates, mem: real, longMem: real, event: Event): Estimates
  {
    match event
    case Acked(losses) => Estimates(AfterAck(e.slr, mem, losses), AfterAck(e.slrLong, longMem, losses))
    case TimedOut => e.(slr := e.slrLong)
  }

  function After(events: seq<Event>, mem: real, longMem: real): Estimates
  {
    if events == [] then START
    else Next(After(events[..|events| - 1], mem, longMem), mem, longMem, events[|events| - 1])
  }

  lemma AfterAckBounded(slr: real, mem: real, losses: nat)
    requires 0.0 < mem < 1.0 && 0.0 <= slr < 1.0
    ensures 0.0 <= AfterAck(slr, mem, losses) < 1.0
  {
    hide AfterAck;
    ClosedFormIsSmoothing(slr, mem, losses);
    SmoothBounded(slr, mem, false);
    SmoothLossesBounded(Smooth(slr, mem, false), mem, losses);
  }

  /** Whatever acks and timeouts a path sees, both estimates stay at or above 0 and below 1. */
  lemma {:induction false} EstimatesBounded(events: seq<Event>, mem: real, longMem: real)
    requires 0.0 < mem < 1.0 && 0.0 < longMem < 1.0
    ensures var e := After(events, mem, longMem); 0.0 <= e.slr < 1.0 && 0.0 <= e.slrLong < 1.0
  {
    if events != [] {
      hide AfterAck;
      var init, last := events[..|events| - 1], events[|events| - 1];
      EstimatesBounded(init, mem, longMem);
      if last.Acked? {
        AfterAckBounded(After(init, mem, longMem).slr, mem, last.losses);
        AfterAckBounded(After(init, mem, longMem).slrLong, longMem, last.losses);
      }
    }
  }

  // ---------------------------------------------------------------------------------------------
  // Packet by packet

  /** One packet that came through, then the losses: what an ack tells of the packets it newly covers. */
  function Outcomes(events: seq<Event>): (lost: seq<bool>)
  {
    if events == [] then []
    else
      var last := events[|events| - 1];
      Outcomes(events[..|events| - 1]) + if last.Acked? then [false] + seq(last.losses, _ => true) else []
  }

  /** A smoother fed packet by packet. */
  function Smoothed(first: real, mem: real, lost: seq<bool>): real
  {
    if lost == [] then first else Smooth(Smoothed(first, mem, lost[..|lost| - 1]), mem, lost[|lost| - 1])
  }

  lemma {:induction false} SmoothedConcat(first: real, mem: real, a: seq<bool>, b: seq<bool>)
    ensures Smoothed(first, mem, a + b) == Smoothed(Smoothed(first, mem, a), mem, b)
  {
    hide Smooth;
    if b == [] {
      assert a + b == a;
    } else {
      assert (a + b)[..|a + b| - 1] == a + b[..|b| - 1];
      SmoothedConcat(first, mem, a, b[..|b| - 1]);
    }
  }

  lemma {:induction false} SmoothedLosses(first: real, mem: real, losses: nat)
    ensures Smoothed(first, mem, seq(losses, _ => true)) == SmoothLosses(first, mem, losses)
  {
    hide Smooth;
    if losses > 0 {
      var lost := seq(losses, _ => true);
      assert lost[..losses - 1] == seq(losses - 1, _ => true);
      SmoothedLosses(first, mem, losses - 1);
    }
  }

  lemma AckIsSmoothed(first: real, mem: real, losses: nat)
    ensures AfterAck(first, mem, losses) == Smoothed(first, mem, [false] + seq(losses, _ => true))
  {
    hide AfterAck, Smooth;
    ClosedFormIsSmoothing(first, mem, losses);
    SmoothedConcat(first, mem, [false], seq(losses, _ => true));
    assert Smoothed(first, mem, [false]) == Smooth(Smoothed(first, mem, []), mem, false);
    SmoothedLosses(Smooth(first, mem, false), mem, losses);
  }

  /** The number of events up to the last timeout, and with it. */
  function LastTimeout(events: seq<Event>): (n: nat)
    ensures n <= |events|
    ensures n > 0 ==> events[n - 1].TimedOut?
    ensures forall k :: n <= k < |events| ==> events[k].Acked?
  {
    if events == [] then 0
    else if events[|events| - 1].TimedOut? then |events|
    else LastTimeout(events[..|events| - 1])
  }

  lemma OutcomesNext(events: seq<Event>, losses: nat)
    ensures Outcomes(events + [Acked(losses)]) == Outcomes(events) + ([false] + seq(losses, _ => true))
    ensures Outcomes(events + [TimedOut]) == Outcomes(events)
  {
    assert (events + [Acked(losses)])[..|events|] == events;
    assert (events + [TimedOut])[..|events|] == events;
  }

  /** The long-term estimate smooths all packets ever acked, from 5 percent on, with its own memory. */
  lemma {:induction false} LongTermEstimate(events: seq<Event>, mem: real, longMem: real)
    ensures After(events, mem, longMem).slrLong == Smoothed(0.05, longMem, Outcomes(events))
  {
    hide AfterAck;
    if events != [] {
      var init, last := events[..|events| - 1], events[|events| - 1];
      LongTermEstimate(init, mem, longMem);
      if last.Acked? {
        AckIsSmoothed(After(init, mem, longMem).slrLong, longMem, last.losses);
        SmoothedConcat(0.05, longMem, Outcomes(init), [false] + seq(last.losses, _ => true));
      } else {
        assert Outcomes(events) == Outcomes(init);
      }
    }
  }

  /**
   The short-term estimate smooths the packets acked since the last timeout with its memory, starting from what
   the long-term estimate was then; before any timeout it starts from 0.
   */
  lemma {:induction false} ShortTermEstimate(events: seq<Event>, mem: real, longMem: real)
    ensures var n := LastTimeout(events);
            var first := if n == 0 then 0.0 else Smoothed(0.05, longMem, Outcomes(events[..n]));
            After(events, mem, longMem).slr == Smoothed(first, mem, Outcomes(events[n..]))
  {
    hide AfterAck, Smooth;
    if events != [] {
      var init, last := events[..|events| - 1], events[|events| - 1];
      var n := LastTimeout(events);
      if last.Acked? {
        ShortTermEstimate(init, mem, longMem);
        var first := if n == 0 then 0.0 else Smoothed(0.05, longMem, Outcomes(events[..n]));
        assert init[..n] == events[..n];
        assert events[n..] == init[n..] + [last];
        OutcomesNext(init[n..], last.losses);
        AckIsSmoothed(After(init, mem, longMem).slr, mem, last.losses);
        SmoothedConcat(first, mem, Outcomes(init[n..]), [false] + seq(last.losses, _ => true));
      } else {
        LongTermEstimate(events, mem, longMem);
        assert events[..n] == events && events[n..] == [];
      }
    }
  }
}
