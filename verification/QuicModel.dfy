/** Congestion control of internal/masks/quic.go over every run of acknowledgements
    and losses. */
module QuicModel {
  import opened Bytes

  const MAX_WINDOW := 1000
  const INITIAL_RTT := 30_000_000

  /** `rtt` in nanoseconds. */
  datatype Control = Control(cwnd: nat, ssthresh: nat, rtt: int, packetLoss: bool)

  function New(): Control {
    Control(10, 65535, INITIAL_RTT, false)
  }

  /** Go's `x / 8`, truncated toward zero. */
  function Eighth(x: int): int {
    if x >= 0 then x / 8 else -((-x) / 8)
  }

  function Min(a: nat, b: nat): nat {
    if a < b then a else b
  }

  function Max(a: nat, b: nat): nat {
    if a < b then b else a
  }

  function Acked(c: Control, sample: int): Control
    requires c.cwnd > 0
  {
    var cwnd := if c.cwnd < c.ssthresh then c.cwnd + 1 else c.cwnd + 1 / c.cwnd;
    c.(rtt := Eighth(c.rtt * 7 + sample), cwnd := Min(cwnd, MAX_WINDOW))
  }

  function Lost(c: Control): Control {
    c.(ssthresh := Max(c.cwnd / 2, 2), cwnd := 1, packetLoss := true)
  }

  predicate Sane(c: Control) {
    1 <= c.cwnd <= Min(MAX_WINDOW, c.ssthresh) && 2 <= c.ssthresh <= 65535
  }

  /** An acknowledgement in numbers, without the division by the window. */
  lemma AckedExactly(c: Control, sample: int)
    requires Sane(c)
    ensures var d := Acked(c, sample);
            && d.cwnd == (if c.cwnd < c.ssthresh && c.cwnd < 1000 then c.cwnd + 1 else c.cwnd)
            && d.ssthresh == c.ssthresh && d.packetLoss == c.packetLoss
            && d.rtt == var sum := 7 * c.rtt + sample; if sum >= 0 then sum / 8 else -((-sum) / 8)
  {
    if c.cwnd >= 2 {
      assert 1 / c.cwnd == 0;
    }
  }

  lemma AckKeepsSane(c: Control, sample: int)
    requires Sane(c)
    ensures Sane(Acked(c, sample)) && Acked(c, sample).ssthresh == c.ssthresh
  {
    AckedExactly(c, sample);
  }

  lemma LossKeepsSane(c: Control)
    requires Sane(c)
    ensures Sane(Lost(c)) && Lost(c).ssthresh <= c.ssthresh
  {}

  // --------------------------------------------------------------------- runs

  datatype Event = Ack(sample: int) | Loss

  function Run(events: seq<Event>): (c: Control)
    ensures Sane(c)
  {
    if events == [] then New() else
    var c := Run(events[..|events| - 1]);
    match events[|events| - 1]
    case Ack(sample) => AckKeepsSane(c, sample); Acked(c, sample)
    case Loss => LossKeepsSane(c); Lost(c)
  }

  function Losses(events: seq<Event>): nat {
    if events == [] then 0 else Losses(events[..|events| - 1]) + if events[|events| - 1].Loss? then 1 else 0
  }

  /** In every reachable state the window is at least 1, so nothing is divided by zero,
      and at most the threshold and 1000; the threshold is at least 2 and has never
      risen. */
  lemma {:induction false} ThresholdNeverRises(events: seq<Event>, n: nat)
    requires n <= |events|
    ensures var (c, d) := (Run(events[..n]), Run(events));
            && 1 <= d.cwnd <= Min(MAX_WINDOW, d.ssthresh)
            && 2 <= d.ssthresh <= c.ssthresh
  {
    if n == |events| {
      assert events[..n] == events;
    } else {
      var earlier := events[..|events| - 1];
      ThresholdNeverRises(earlier, n);
      assert earlier[..n] == events[..n];
      var c := Run(earlier);
      match events[|events| - 1] {
        case Ack(sample) => AckKeepsSane(c, sample);
        case Loss => LossKeepsSane(c);
      }
    }
  }

  lemma RunNext(events: seq<Event>, e: Event)
    ensures Run(events + [e]) ==
            match e
            case Ack(sample) => Acked(Run(events), sample)
            case Loss => Lost(Run(events))
  {
    assert (events + [e])[..|events|] == events;
  }

  lemma AckOpens(c: Control, sample: int)
    requires Sane(c)
    ensures Acked(c, sample).ssthresh == c.ssthresh
    ensures Acked(c, sample).cwnd == Min(Min(1000, c.ssthresh), c.cwnd + 1)
  {
    AckedExactly(c, sample);
  }

  /** Each acknowledgement opens the window by one, up to the threshold and 1000. */
  lemma {:induction false} AcksGrowTheWindow(events: seq<Event>, acks: seq<Event>)
    requires forall i :: 0 <= i < |acks| ==> acks[i].Ack?
    ensures Run(events + acks).ssthresh == Run(events).ssthresh
    ensures Run(events + acks).cwnd == Min(Min(1000, Run(events).ssthresh), Run(events).cwnd + |acks|)
  {
    hide Acked, Run;
    if acks == [] {
      assert events + acks == events;
    } else {
      var earlier, last := acks[..|acks| - 1], acks[|acks| - 1];
      AcksGrowTheWindow(events, earlier);
      assert events + acks == (events + earlier) + [last];
      RunNext(events + earlier, last);
      AckOpens(Run(events + earlier), last.sample);
    }
  }

  /** From the start, `n` acknowledgements without a loss open it from 10 to 10 + n, and
      never beyond 1000. */
  lemma GrowthFromTheStart(acks: seq<Event>)
    requires forall i :: 0 <= i < |acks| ==> acks[i].Ack?
    ensures Run(acks).cwnd == if 10 + |acks| <= 1000 then 10 + |acks| else 1000
  {
    AcksGrowTheWindow([], acks);
    assert [] + acks == acks;
  }

  /** After a loss it climbs from 1, one by one, to half of what it was, or 2. */
  lemma ClimbAfterLoss(events: seq<Event>, acks: seq<Event>)
    requires forall i :: 0 <= i < |acks| ==> acks[i].Ack?
    ensures var before := Run(events).cwnd;
            var half := if before < 4 then 2 else before / 2;
            && Run(events + [Loss] + acks).ssthresh == half
            && Run(events + [Loss] + acks).cwnd == if 1 + |acks| <= half then 1 + |acks| else half
  {
    hide Run, Acked;
    RunNext(events, Loss);
    AcksGrowTheWindow(events + [Loss], acks);
  }

  lemma Division(x: nat, p: nat) returns (q: nat, r: nat)
    requires p > 0
    ensures q == x / p && x == q * p + r && r < p
  {
    q, r := x / p, x % p;
  }

  lemma Products(p: nat, q: nat, h: nat, b: nat)
    requires q == 2 * h + b && b <= 1
    ensures q * p == h * (2 * p) + b * p && b * p <= p
  {
    assert q * p == (2 * h) * p + b * p;
    assert (2 * h) * p == h * (2 * p);
    if b == 0 {
      assert b * p == 0;
    }
  }

  lemma Halved(x: nat, p: nat, q: nat, r: nat)
    requires p > 0 && x == q * p + r && r < p
    ensures q / 2 == x / (2 * p)
  {
    var h, b := q / 2, q % 2;
    Products(p, q, h, b);
    DivUnique(x, 2 * p, h, b * p + r);
  }

  lemma HalfOfQuotient(x: nat, k: nat)
    ensures x / Pow2(k) / 2 == x / Pow2(k + 1)
  {
    var q, r := Division(x, Pow2(k));
    Halved(x, Pow2(k), q, r);
  }

  /** Each loss halves what the window can ever reach again, down to 2. */
  lemma {:induction false} LossesHalveTheWindow(events: seq<Event>)
    ensures var (c, k) := (Run(events), Losses(events));
            k >= 1 ==> c.cwnd <= c.ssthresh <= Max(2, MAX_WINDOW / Pow2(k))
  {
    if events != [] {
      var earlier := events[..|events| - 1];
      LossesHalveTheWindow(earlier);
      if events[|events| - 1].Loss? {
        HalfOfQuotient(MAX_WINDOW, Losses(earlier));
        assert Losses(earlier) == 0 ==> Pow2(Losses(earlier)) == 1;
      }
    }
  }

  lemma SmallQuotient(x: nat, p: nat)
    requires p >= 512 && x <= 1000
    ensures x / p <= 1
  {
    var q := x / p;
    assert q * p <= x;
    assert (q - 1) * p == q * p - p;
    MulBounds(q - 1, p);
  }

  /** After nine losses the window stays at most 2. */
  lemma NineLosses(events: seq<Event>)
    requires Losses(events) >= 9
    ensures Run(events).cwnd <= 2
  {
    LossesHalveTheWindow(events);
    assert Pow2(4) == 16 && Pow2(8) == 256 && Pow2(9) == 512;
    var p := Pow2(Losses(events));
    Pow2Grows(9, Losses(events));
    SmallQuotient(MAX_WINDOW, p);
  }

  lemma Weighted(lo: int, hi: int, rtt: int, sample: int)
    requires lo <= rtt <= hi && lo <= sample <= hi
    ensures lo <= Eighth(rtt * 7 + sample) <= hi
  {}

  /** The smoothed round-trip time stays within any bounds that hold of 30 ms and of
      every sample (the weights of section 5.3 of RFC 9002). */
  lemma {:induction false} RttWithinSamples(events: seq<Event>, lo: int, hi: int)
    requires lo <= INITIAL_RTT <= hi
    requires forall i :: 0 <= i < |events| && events[i].Ack? ==> lo <= events[i].sample <= hi
    ensures lo <= Run(events).rtt <= hi
  {
    if events != [] {
      var n := |events| - 1;
      RttWithinSamples(events[..n], lo, hi);
      if events[n].Ack? {
        Weighted(lo, hi, Run(events[..n]).rtt, events[n].sample);
      }
    }
  }
}
