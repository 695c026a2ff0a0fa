/** `CongestionControl` and `QUICTransport` of internal/masks/quic.go in their own
    form, proved against `QuicModel`. */
module Quic {
  import opened Bytes
  import opened Masks
  import opened MaskPackets
  import Model = QuicModel

  class CongestionControl {
    var cwnd: u32
    var ssthresh: u32
    var rtt: int
    var packetLoss: bool

    ghost function View(): Model.Control
      reads this
    {
      Model.Control(cwnd, ssthresh, rtt, packetLoss)
    }

    constructor ()
      ensures View() == Model.New() && Model.Sane(View())
      ensures cwnd == 10 && ssthresh == 65535 && rtt == 30_000_000 && !packetLoss
    {
      cwnd, ssthresh, rtt, packetLoss := 10, 65535, 30_000_000, false;
    }

    method OnAckReceived(ackTime: int)
      requires Model.Sane(View())
      modifies this
      ensures Model.Sane(View()) && View() == Model.Acked(old(View()), ackTime)
      ensures cwnd == if old(cwnd) < old(ssthresh) && old(cwnd) < 1000 then old(cwnd) + 1 else old(cwnd)
      ensures ssthresh == old(ssthresh) && packetLoss == old(packetLoss)
      ensures var sum := 7 * old(rtt) + ackTime;
              rtt == if sum >= 0 then sum / 8 else -((-sum) / 8)
    {
      Model.AckKeepsSane(View(), ackTime);
      Model.AckedExactly(View(), ackTime);
      hide Model.Eighth;
      rtt := Model.Eighth(rtt * 7 + ackTime);
      if cwnd < ssthresh {
        cwnd := cwnd + 1;
      } else {
        cwnd := cwnd + 1 / cwnd;
      }
      if cwnd > 1000 {
        cwnd := 1000;
      }
    }

    method OnPacketLoss()
      requires Model.Sane(View())
      modifies this
      ensures Model.Sane(View()) && View() == Model.Lost(old(View()))
      ensures cwnd == 1 && ssthresh == (if old(cwnd) < 4 then 2 else old(cwnd) / 2) && packetLoss && rtt == old(rtt)
    {
      ssthresh := cwnd / 2;
      if ssthresh < 2 {
        ssthresh := 2;
      }
      cwnd := 1;
      packetLoss := true;
    }

    function GetWindow(): u32
      reads this
    {
      cwnd
    }

    function GetRTT(): int
      reads this
    {
      rtt
    }
  }

  // ------------------------------------------------------------------ transport

  /** Controls and clock readings used while acknowledging `lo + 1` to `hi` in order. */
  function AckRange(c: Model.Control, sent: map<u64, int>, lo: nat, hi: nat,
                    clock: nat -> int): (r: (Model.Control, nat))
    requires Model.Sane(c) && hi < MAX_U64
    ensures Model.Sane(r.0)
    decreases hi
  {
    if hi <= lo then (c, 0) else
    var (d, n) := AckRange(c, sent, lo, hi - 1, clock);
    if hi in sent then Model.AckKeepsSane(d, clock(n) - sent[hi]); (Model.Acked(d, clock(n) - sent[hi]), n + 1)
    else (d, n)
  }

  function Between(sent: map<u64, int>, lo: nat, hi: nat): set<u64> {
    set p | p in sent && lo < p <= hi
  }

  lemma NewRange(sent: map<u64, int>, lo: nat, hi: nat)
    ensures Between(sent, lo, hi) <= sent.Keys && (hi <= lo ==> Between(sent, lo, hi) == {})
    ensures forall p :: p in sent - Between(sent, lo, hi) <==> p in sent && !(lo < p <= hi)
  {}

  lemma BetweenGrows(sent: map<u64, int>, lo: nat, hi: nat)
    requires lo < hi <= MAX_U64
    ensures hi in sent ==> |Between(sent, lo, hi)| == |Between(sent, lo, hi - 1)| + 1
    ensures hi !in sent ==> |Between(sent, lo, hi)| == |Between(sent, lo, hi - 1)|
  {
    if hi in sent {
      assert Between(sent, lo, hi) == Between(sent, lo, hi - 1) + {hi};
    } else {
      assert Between(sent, lo, hi) == Between(sent, lo, hi - 1);
    }
  }

  /** The sample of an acknowledgement is the time since the packet was sent; it enters
      the round-trip time with weight one eighth. */
  lemma SampleIsElapsed(c: Model.Control, sent: map<u64, int>, lo: nat, clock: nat -> int)
    requires Model.Sane(c) && lo + 1 < MAX_U64 && lo + 1 in sent
    ensures var sum := 7 * c.rtt + (clock(0) - sent[lo + 1]);
            AckRange(c, sent, lo, lo + 1, clock).0.rtt == if sum >= 0 then sum / 8 else -((-sum) / 8)
  {
    assert AckRange(c, sent, lo, lo, clock) == (c, 0);
  }

  lemma NothingNew(c: Model.Control, sent: map<u64, int>, lo: nat, hi: nat, clock: nat -> int)
    requires Model.Sane(c) && hi <= lo && hi < MAX_U64
    ensures AckRange(c, sent, lo, hi, clock).0 == c
  {}

  /** Every pending number that is acknowledged opens the window by one. */
  lemma {:induction false} AckRangeGrows(c: Model.Control, sent: map<u64, int>, lo: nat, hi: nat, clock: nat -> int)
    requires Model.Sane(c) && hi < MAX_U64
    ensures var d := AckRange(c, sent, lo, hi, clock).0;
            && d.ssthresh == c.ssthresh
            && d.cwnd == Model.Min(Model.Min(1000, c.ssthresh), c.cwnd + |Between(sent, lo, hi)|)
    decreases hi
  {
    if hi <= lo {
      assert Between(sent, lo, hi) == {};
    } else {
      AckRangeGrows(c, sent, lo, hi - 1, clock);
      var (d, n) := AckRange(c, sent, lo, hi - 1, clock);
      assert AckRange(c, sent, lo, hi, clock).0 ==
             if hi in sent then Model.Acked(d, clock(n) - sent[hi]) else d;
      hide AckRange, Between, Model.Acked;
      BetweenGrows(sent, lo, hi);
      if hi in sent {
        Model.AckOpens(d, clock(n) - sent[hi]);
      }
    }
  }

  function LostTimes(c: Model.Control, n: nat): (r: Model.Control)
    requires Model.Sane(c)
    ensures Model.Sane(r)
  {
    if n == 0 then c else Model.LossKeepsSane(LostTimes(c, n - 1)); Model.Lost(LostTimes(c, n - 1))
  }

  function Overdue(sent: map<u64, int>, now: int, rtt: int): set<u64> {
    set p | p in sent && now - sent[p] > rtt * 3
  }

  function PacketOf(number: u64, window: u32, data: seq<byte>): seq<byte> {
    [0xC0] + BE(4, 1) + BE(8, number) + BE(4, window) + BE(4, Word(|data|)) + data
  }

  lemma PacketLayout(number: u64, window: u32, data: seq<byte>)
    ensures PacketOf(number, window, data) ==
            [0xC0, 0, 0, 0, 1] + BE(8, number) + BE(4, window) + BE(4, |data| % 0x1_0000_0000) + data
  {
    assert BE(2, 0) == [0, 0] && BE(3, 0) == [0, 0, 0];
    assert BE(4, 1) == [0, 0, 0, 1];
    assert [0xC0] + BE(4, 1) == [0xC0, 0, 0, 0, 1];
  }

  /** Every packet is acknowledged, lost or pending, and only one of these. */
  ghost predicate Partition(n: u64, acked: set<u64>, lost: set<u64>, pending: set<u64>) {
    && (forall p: u64 :: 1 <= p <= n <==> p in acked || p in lost || p in pending)
    && (forall p: u64 :: !(p in acked && p in lost) && !(p in acked && p in pending) && !(p in lost && p in pending))
  }

  lemma AnotherSent(n: u64, acked: set<u64>, lost: set<u64>, sent: map<u64, int>, now: int)
    requires Partition(n, acked, lost, sent.Keys) && n < MAX_U64
    ensures Partition(n + 1, acked, lost, sent[n + 1 := now].Keys)
  {}

  lemma PendingAcked(n: u64, acked: set<u64>, lost: set<u64>, sent: map<u64, int>, gone: set<u64>)
    requires Partition(n, acked, lost, sent.Keys) && gone <= sent.Keys
    ensures Partition(n, acked + gone, lost, (sent - gone).Keys)
  {}

  lemma PendingLost(n: u64, acked: set<u64>, lost: set<u64>, sent: map<u64, int>, gone: set<u64>)
    requires Partition(n, acked, lost, sent.Keys) && gone <= sent.Keys
    ensures Partition(n, acked, lost + gone, (sent - gone).Keys) && |lost + gone| == |lost| + |gone|
  {
    assert lost !! gone;
  }

  lemma AckOne(sent: map<u64, int>, lo: nat, i: u64)
    requires lo < i
    ensures i in sent - Between(sent, lo, i - 1) <==> i in sent
    ensures i in sent ==> sent - Between(sent, lo, i - 1) - {i} == sent - Between(sent, lo, i)
    ensures i !in sent ==> Between(sent, lo, i - 1) == Between(sent, lo, i)
  {
    if i in sent {
      assert Between(sent, lo, i) == Between(sent, lo, i - 1) + {i};
    }
  }

  /** A sweep under way: `gone` was found overdue and `left` is still to be visited. */
  ghost predicate Sweeping(before: map<u64, int>, sent: map<u64, int>, gone: set<u64>, left: set<u64>,
                           n: nat, now: int, rtt: int) {
    && |gone| == n && left <= before.Keys && gone !! left
    && sent == before - gone
    && gone <= Overdue(before, now, rtt) <= gone + left
  }

  lemma SweepOne(before: map<u64, int>, sent: map<u64, int>, gone: set<u64>, left: set<u64>, n: nat, now: int,
                 rtt: int, p: u64)
    requires Sweeping(before, sent, gone, left, n, now, rtt) && p in left
    ensures p in sent && p !in gone
    ensures now - sent[p] > rtt * 3 ==> Sweeping(before, sent - {p}, gone + {p}, left - {p}, n + 1, now, rtt)
    ensures now - sent[p] <= rtt * 3 ==> Sweeping(before, sent, gone, left - {p}, n, now, rtt)
  {
    assert sent - {p} == before - (gone + {p});
  }

  lemma SweepStarts(before: map<u64, int>, now: int, rtt: int)
    ensures Sweeping(before, before, {}, before.Keys, 0, now, rtt)
  {}

  lemma SweepEnds(before: map<u64, int>, sent: map<u64, int>, gone: set<u64>, n: nat, now: int, rtt: int)
    requires Sweeping(before, sent, gone, {}, n, now, rtt)
    ensures gone == Overdue(before, now, rtt) && |gone| == n && sent == before - gone
  {}

  method MakePacket(number: u64, window: u32, data: seq<byte>) returns (packet: array<byte>)
    ensures fresh(packet) && packet[..] == PacketOf(number, window, data)
  {
    packet := new byte[21 + |data|](_ => 0);
    Put(packet, 0, [0xC0]);
    Put(packet, 1, BE(4, 1));
    Put(packet, 5, BE(8, number));
    Put(packet, 13, BE(4, window));
    Put(packet, 17, BE(4, Word(|data|)));
    Put(packet, 21, data);
    assert packet[..21 + |data|] == packet[..];
  }

  /** The mask's parser gives back what the transport sent, exactly when the length
      fits 32 bits and the packet number does not hang the acknowledgement loop. */
  lemma SentRoundTrip(number: u64, window: u32, data: seq<byte>)
    ensures UnwrapBy(QUIC, PacketOf(number, window, data)) == Payload(data) <==> |data| < WORD && number < MAX_U64
  {
    var p := PacketOf(number, window, data);
    assert p[5..13] == BE(8, number);
    assert p[17..21] == BE(4, Word(|data|));
    U64RoundTrip(number);
    U32RoundTrip(Word(|data|));
    assert p[0] == 0xC0;
    assert 0xC0 % 64 == 0;
    var n := Word(|data|);
    if |data| < WORD {
      assert n == |data|;
      assert p[21..21 + n] == data;
    }
  }

  class QUICTransport {
    const cc: CongestionControl
    var packetNum: u64
    var lastAck: u64
    var sentPackets: map<u64, int>
    var packetLosses: nat
    ghost var acked: set<u64>
    ghost var lost: set<u64>

    /** The packet counter has passed its largest value, and numbers are used again. */
    ghost var wrapped: bool

    ghost predicate Valid()
      reads this, cc
    {
      && Model.Sane(cc.View())
      && (!wrapped ==>
            && Partition(packetNum, acked, lost, sentPackets.Keys)
            && packetLosses == |lost|
            && (forall p :: p in acked ==> p <= lastAck))
    }

    constructor ()
      ensures Valid() && fresh(cc) && packetNum == lastAck == 0 && sentPackets == map[]
      ensures acked == lost == {} && !wrapped
      ensures cc.View() == Model.New()
    {
      cc := new CongestionControl();
      packetNum, lastAck, sentPackets, packetLosses, acked, lost, wrapped := 0, 0, map[], 0, {}, {}, false;
    }

    method SendPacket(data: seq<byte>, now: int) returns (packet: array<byte>)
      requires Valid()
      modifies this`packetNum, this`sentPackets, this`wrapped
      ensures Valid() && packetNum == (if old(packetNum) == MAX_U64 then 0 else old(packetNum) + 1)
      ensures wrapped == (old(wrapped) || old(packetNum) == MAX_U64)
      ensures sentPackets == old(sentPackets)[packetNum := now]
      ensures packet[..] == PacketOf(packetNum, cc.cwnd, data)
      ensures packet[..] == [0xC0, 0, 0, 0, 1] + BE(8, packetNum) + BE(4, cc.cwnd) +
                            BE(4, |data| % 0x1_0000_0000) + data
      ensures packetNum < MAX_U64 && |data| < WORD ==> UnwrapBy(QUIC, packet[..]) == Payload(data)
    {
      hide PacketOf, UnwrapBy, Partition;
      if packetNum == MAX_U64 {
        packetNum, wrapped := 0, true;
      } else {
        if !wrapped {
          AnotherSent(packetNum, acked, lost, sentPackets, now);
        }
        packetNum := packetNum + 1;
      }
      sentPackets := sentPackets[packetNum := now];
      packet := MakePacket(packetNum, cc.GetWindow(), data);
      SentRoundTrip(packetNum, cc.cwnd, data);
      PacketLayout(packetNum, cc.cwnd, data);
    }

    /** The loop over the new range. */
    method Acknowledge(ackNum: u64, clock: nat -> int)
      requires Model.Sane(cc.View()) && lastAck < ackNum < MAX_U64
      modifies this`sentPackets, cc
      ensures Model.Sane(cc.View())
      ensures cc.View() == AckRange(old(cc.View()), old(sentPackets), lastAck, ackNum, clock).0
      ensures sentPackets == old(sentPackets) - Between(old(sentPackets), lastAck, ackNum)
    {
      var i: nat := lastAck + 1;
      var n := 0;
      while i <= ackNum
        invariant lastAck < i <= ackNum + 1
        invariant Model.Sane(cc.View())
        invariant (cc.View(), n) == AckRange(old(cc.View()), old(sentPackets), lastAck, i - 1, clock)
        invariant sentPackets == old(sentPackets) - Between(old(sentPackets), lastAck, i - 1)
        decreases ackNum + 1 - i
      {
        AckOne(old(sentPackets), lastAck, i);
        if i in sentPackets {
          var rtt := clock(n) - sentPackets[i];
          cc.OnAckReceived(rtt);
          sentPackets := sentPackets - {i};
          n := n + 1;
        }
        i := i + 1;
      }
    }

    /** `clock(i)` is the i-th reading. No 64-bit counter passes the largest number, so
        with that for `ackNum` the loop never ends, and nothing more is promised. */
    method ProcessAck(ackNum: u64, clock: nat -> int) returns (hangs: bool)
      requires Valid()
      modifies this`lastAck, this`sentPackets, this`acked, cc
      ensures hangs <==> old(lastAck) < ackNum == MAX_U64
      ensures !hangs ==> Valid() && lastAck == if ackNum <= old(lastAck) then old(lastAck) else ackNum
      ensures !hangs ==> sentPackets == old(sentPackets) - Between(old(sentPackets), old(lastAck), ackNum)
      ensures !hangs ==> acked == old(acked) + Between(old(sentPackets), old(lastAck), ackNum)
      ensures ackNum <= old(lastAck) ==> cc.View() == old(cc.View())
      ensures !hangs && ackNum < MAX_U64 ==>
                cc.View() == AckRange(old(cc.View()), old(sentPackets), old(lastAck), ackNum, clock).0
      ensures !hangs ==>
                cc.ssthresh == old(cc.ssthresh)
                && cc.cwnd as int == Model.Min(Model.Min(1000, cc.ssthresh),
                                               old(cc.cwnd) + |Between(old(sentPackets), old(lastAck), ackNum)|)
    {
      hide Partition, AckRange, Between;
      NewRange(sentPackets, lastAck, ackNum);
      if ackNum <= lastAck {
        if ackNum < MAX_U64 {
          NothingNew(cc.View(), sentPackets, lastAck, ackNum, clock);
        }
        return false;
      }
      if ackNum == MAX_U64 {
        return true;
      }
      AckRangeGrows(cc.View(), sentPackets, lastAck, ackNum, clock);
      ghost var gone := Between(sentPackets, lastAck, ackNum);
      if !wrapped {
        PendingAcked(packetNum, acked, lost, sentPackets, gone);
      }
      Acknowledge(ackNum, clock);
      acked := acked + gone;
      lastAck := ackNum;
      hangs := false;
    }

    method Drop(p: u64)
      requires p in sentPackets && Model.Sane(cc.View())
      modifies this`sentPackets, this`packetLosses, cc
      ensures sentPackets == old(sentPackets) - {p} && packetLosses == old(packetLosses) + 1
      ensures Model.Sane(cc.View()) && cc.View() == Model.Lost(old(cc.View())) && cc.rtt == old(cc.rtt)
    {
      cc.OnPacketLoss();
      sentPackets := sentPackets - {p};
      packetLosses := packetLosses + 1;
    }

    method Sweep(now: int) returns (ghost gone: set<u64>)
      requires Model.Sane(cc.View())
      modifies this`sentPackets, this`packetLosses, cc
      ensures Model.Sane(cc.View())
      ensures gone == Overdue(old(sentPackets), now, old(cc.rtt))
      ensures sentPackets == old(sentPackets) - gone
      ensures packetLosses == old(packetLosses) + |gone|
      ensures cc.View() == LostTimes(old(cc.View()), |gone|)
    {
      hide Sweeping, Overdue;
      gone := {};
      ghost var n := 0;
      SweepStarts(sentPackets, now, cc.rtt);
      var left := sentPackets.Keys;
      while left != {}
        invariant Sweeping(old(sentPackets), sentPackets, gone, left, n, now, old(cc.rtt))
        invariant packetLosses == old(packetLosses) + n
        invariant Model.Sane(cc.View()) && cc.rtt == old(cc.rtt)
        invariant cc.View() == LostTimes(old(cc.View()), n)
        decreases left
      {
        var p :| p in left;
        SweepOne(old(sentPackets), sentPackets, gone, left, n, now, cc.rtt, p);
        left := left - {p};
        if now - sentPackets[p] > cc.GetRTT() * 3 {
          Drop(p);
          gone, n := gone + {p}, n + 1;
        }
      }
      SweepEnds(old(sentPackets), sentPackets, gone, n, now, cc.rtt);
    }

    /** The map is ranged over in any order; the outcome does not depend on it. */
    method DetectLoss(now: int)
      requires Valid()
      modifies this`sentPackets, this`packetLosses, this`lost, cc
      ensures Valid()
      ensures forall p :: p in old(sentPackets) && p !in sentPackets <==>
                            p in old(sentPackets) && now - old(sentPackets)[p] > 3 * old(cc.rtt)
      ensures var gone := Overdue(old(sentPackets), now, old(cc.rtt));
              && sentPackets == old(sentPackets) - gone && lost == old(lost) + gone
              && packetLosses == old(packetLosses) + |gone|
              && cc.View() == LostTimes(old(cc.View()), |gone|)
    {
      hide Partition, LostTimes;
      ghost var before := sentPackets;
      ghost var gone := Sweep(now);
      if !wrapped {
        PendingLost(packetNum, acked, lost, before, gone);
      }
      lost := lost + gone;
    }
  }
}
